/** The single-pass compiler: it reads tokens, writes bytes and back-patches them, keeping no tree. */
module SinglePass {
  import opened Base
  import opened Syntax
  import opened Bytecode
  import opened CodeGen
  import opened Grammar
  import opened Emission
  import opened ExprEmission
  import opened StmtEmission
  import opened MatchEmission

  /** Where top-level code starts: slot 0 is reserved, no scope and no loop is open. */
  const TOP: Cx := Cx([Local("", 0)], 0, 0, NoLoop)

  class Compiler {
    var rest: seq<Token>
    var code: seq<Byte>
    var consts: seq<Value>
    var locals: seq<Local>
    var depth: nat
    var loops: seq<LoopRec>

    ghost function Now(): Snap
      reads this
    {
      Snap(rest, code, consts, locals, depth, loops)
    }

    /** A fresh compiler: slot 0 is reserved and nameless. */
    constructor (tokens: seq<Token>)
      ensures Now() == Snap(tokens, [], [], [Local("", 0)], 0, [])
    {
      rest, code, consts, locals, depth, loops := tokens, [], [], [Local("", 0)], 0, [];
    }

    method Advance() returns (t: Token)
      requires rest != []
      modifies `rest
      ensures t == old(rest[0]) && Now() == old(Now()).Past(old(rest)[1..])
    {
      t := rest[0];
      rest := rest[1..];
    }

    method Match(t: Token) returns (matched: bool)
      modifies `rest
      ensures matched == Starts(old(rest), t)
      ensures Now() == old(Now()).Past(if matched then old(rest)[1..] else old(rest))
    {
      matched := rest != [] && rest[0] == t;
      if matched { rest := rest[1..]; }
    }

    method EmitBytes(bytes: seq<Byte>)
      modifies `code
      ensures Now() == old(Now()).Put(bytes)
    {
      code := code + bytes;
    }

    /** A jump whose two operand bytes are to be filled in later; returns where they lie. */
    method EmitJump(opcode: Byte) returns (at: nat)
      modifies `code
      ensures at == old(|code|) + 1 && Now() == old(Now()).Put([opcode, 255, 255])
    {
      code := code + [opcode];
      code := code + [255];
      code := code + [255];
      at := |code| - 2;
      assert code == old(code) + [opcode, 255, 255];
    }

    method PatchJump(at: nat) returns (ok: bool)
      requires at + 2 <= |code|
      modifies `code
      ensures ok == (old(|code|) - at - 2 <= JUMP_MAX)
      ensures ok ==> Now() == old(Now()).Patched(at)
    {
      var jump := |code| - at - 2;
      if jump > JUMP_MAX { return false; }
      code := code[at := jump / 256];
      code := code[at + 1 := jump % 256];
      ok := true;
    }

    /** A backward jump to start, written with opcode 42 (loop) or 49 (continue). */
    method EmitBack(opcode: Byte, start: nat) returns (ok: bool)
      requires start <= |code|
      modifies `code
      ensures ok == (old(|code|) - start + 3 <= JUMP_MAX)
      ensures ok ==> var d := old(|code|) - start + 3; Now() == old(Now()).Put([opcode, Hi(d), Lo(d)])
    {
      code := code + [opcode];
      var offset := |code| - start + 2;
      if offset > JUMP_MAX { return false; }
      code := code + [offset / 256];
      code := code + [offset % 256];
      assert code == old(code) + [opcode, Hi(offset), Lo(offset)];
      ok := true;
    }

    method EmitConstant(v: Value) returns (ok: bool)
      modifies `code, `consts
      ensures ok == (old(|consts|) < CONSTANTS_MAX)
      ensures ok ==>
                Now() == old(Now()).(consts := old(consts) + [v], code := old(code) + Encode(IConst(old(|consts|))))
    {
      var index := |consts|;
      consts := consts + [v];
      if index < 255 {
        code := code + [2, index];
      } else if index < CONSTANTS_MAX {
        code := code + [3, index / 256, index % 256];
      } else {
        return false;
      }
      ok := true;
    }

    /** Scans from the newest local; an undefined one of that name, or none at all, is an error here. */
    method ResolveLocal(x: Name) returns (r: Option<Byte>)
      requires |locals| <= LOCALS_MAX
      ensures r == Resolve(locals, x)
    {
      var i := |locals| - 1;
      assert locals[..i + 1] == locals;
      while i >= 0
        invariant -1 <= i < |locals| && Resolve(locals[..i + 1], x) == Resolve(locals, x)
      {
        assert locals[..i + 1][..i] == locals[..i];
        if locals[i].name == x {
          return if locals[i].depth == -1 then None else Some(i);
        }
        i := i - 1;
      }
      r := None;
    }

    /** parse_precedence: one prefix form, then every infix form that binds tightly enough. */
    method ParsePrecedence(level: nat) returns (ok: bool)
      requires Now().Valid()
      modifies this
      ensures Meets(ok, old(Now()), Now(), CodeOfE(Precedence(level, old(rest)), Context(old(Now()))))
      decreases |rest|, 2
    {
      ghost var s0, ts := Now(), rest;
      ghost var cx := Context(s0);
      if rest == [] { return false; }
      ok := ParsePrefix(level <= ASSIGN);
      ghost var first := Prefix(level <= ASSIGN, ts);
      PrefixIs(level, ts, cx);
      if !ok { return; }
      ghost var left := first.value;
      while rest != [] && Prec(rest[0]) >= level
        invariant |rest| < |ts| && Now().Valid()
        invariant Fragment(left, cx).Some? && Now() == Emit(s0, Fragment(left, cx).value, rest)
        invariant Infixes(level, left, rest) == Infixes(level, first.value, first.rest)
        decreases |rest|
      {
        InfixesStep(level, left, rest, cx);
        ghost var e := Infix(left, rest);
        ok := ParseInfix(s0, left);
        if !ok { return; }
        left := e.value;
      }
      ok := !(level <= ASSIGN && rest != [] && rest[0] == AssignT);
    }

    method ParsePrefix(canAssign: bool) returns (ok: bool)
      requires rest != [] && Now().Valid()
      modifies this
      ensures Meets(ok, old(Now()), Now(), CodeOfE(Prefix(canAssign, old(rest)), Context(old(Now()))))
      decreases |rest|, 1
    {
      hide Precedence, Fragment, Prefixed, Prefix, Context, Encode;
      ghost var s0 := Now();
      PrefixCases(canAssign, rest, Context(s0));
      PutContext(s0, [], rest[1..]);
      var t := Advance();
      match t
      case NumT(n) => ok := EmitConstant(I32(n));
      case TrueT => ok := ParseLiteral(TrueT, s0);
      case FalseT => ok := ParseLiteral(FalseT, s0);
      case NoneT => ok := ParseLiteral(NoneT, s0);
      case IdT(x) => ok := NamedVariable(x, canAssign, old(rest));
      case BangT => ok := ParseUnary(Not);
      case TildeT => ok := ParseUnary(BitNot);
      case LParen => ok := ParseGrouping();
      case Op(op) => if op == Sub { ok := ParseUnary(Neg); } else { ok := false; }
      case _ => ok := false;
    }

    method ParseLiteral(t: Token, ghost s0: Snap) returns (ok: bool)
      requires s0.Valid() && Now() == s0.Past(rest)
      modifies `code
      ensures ok && Meets(ok, s0, Now(), Emits(Plain(LiteralCode(t), [], Context(s0)), rest))
    {
      EmitPlain(s0, LiteralCode(t), rest);
      EmitBytes(LiteralCode(t));
      ok := true;
    }

    /** An identifier in expression position; only a local variable is in the subset. */
    method NamedVariable(x: Name, canAssign: bool, ghost ts: seq<Token>) returns (ok: bool)
      requires Starts(ts, IdT(x)) && rest == ts[1..] && Now().Valid()
      modifies this
      ensures Meets(ok, old(Now()), Now(), CodeOfE(Prefix(canAssign, ts), Context(old(Now()))))
      decreases |rest|, 3
    {
      hide Precedence, Fragment, Prefix, Resolve, CodeOfE, Context, Emit, Meets, Join, Plain;
      ghost var s0 := Now();
      ghost var cx := Context(s0);
      ghost var w := CodeOfE(Prefix(canAssign, ts), cx);
      NamedIs(canAssign, x, ts, cx);
      var index := ResolveLocal(x);
      var assigns := false;
      if canAssign { assigns := Match(AssignT); }
      if assigns {
        ghost var e := CodeOfE(Precedence(ASSIGN, rest), cx);
        PutContext(s0, [], rest);
        ghost var q := Now();
        ok := ParsePrecedence(ASSIGN);
        MeetsParts(ok, q, Now(), e);
        ok := ok && index.Some?;
        if ok {
          EmitPast(s0, q.rest, e.o, rest);
          PutContext(Now(), [31, index.value], rest);
          EmitBytes([31, index.value]);
          PutJoin(s0, e.o, rest, [31, index.value], cx);
        }
      } else {
        ok := index.Some?;
        if ok {
          PutContext(s0, [30, index.value], rest);
          PutContext(s0.Put([30, index.value]), [], rest);
          EmitPlain(s0, [30, index.value], rest);
          EmitBytes([30, index.value]);
        }
      }
      MeetsParts(ok, s0, Now(), w);
    }

    method ParseUnary(u: UnOp) returns (ok: bool)
      requires Now().Valid()
      modifies this
      ensures Meets(ok, old(Now()), Now(), CodeOfE(Prefixed(u, old(rest)), Context(old(Now()))))
      decreases |rest|, 3
    {
      hide Precedence, Fragment, Prefixed;
      ghost var s0 := Now();
      UnaryIs(u, rest, Context(s0));
      ghost var e := CodeOfE(Precedence(UNARY, rest), Context(s0));
      ok := ParsePrecedence(UNARY);
      if ok {
        EmitBytes([UnOpcode(u)]);
        PutJoin(s0, e.o, rest, [UnOpcode(u)], Context(s0));
      }
    }

    method ParseGrouping() returns (ok: bool)
      requires Now().Valid()
      modifies this
      ensures Meets(ok, old(Now()), Now(), CodeOfE(Expect(Precedence(ASSIGN, old(rest)), RParen), Context(old(Now()))))
      decreases |rest|, 3
    {
      hide Fragment, Precedence;
      ok := ParsePrecedence(ASSIGN);
      if ok { ok := Match(RParen); }
    }

    /** The handler of the operator at the front, its left operand already emitted. */
    method ParseInfix(ghost s0: Snap, ghost left: Expr) returns (ok: bool)
      requires rest != [] && s0.Valid() && Now().Valid()
      requires Fragment(left, Context(s0)).Some? && Now() == Emit(s0, Fragment(left, Context(s0)).value, rest)
      modifies this
      ensures Meets(ok, s0, Now(), CodeOfE(Infix(left, old(rest)), Context(s0)))
      decreases |rest|, 0
    {
      var t := Advance();
      match t
      case Op(op) => ok := ParseBinary(op, s0, left, old(rest));
      case AndT => ok := ParseAnd(s0, left, old(rest));
      case OrT => ok := ParseOr(s0, left, old(rest));
      case QuestionT => ok := ParseTernary(s0, left, old(rest));
      case _ => ok := false;
    }

    method ParseBinary(op: BinOp, ghost s0: Snap, ghost left: Expr, ghost ts: seq<Token>) returns (ok: bool)
      requires Starts(ts, Op(op)) && AfterLeft(s0, left, ts[1..], Now())
      modifies this
      ensures Meets(ok, s0, Now(), CodeOfE(Infix(left, ts), Context(s0)))
      decreases |rest|, 3
    {
      BinaryEmits(s0, left, op, ts, Now());
      ok := ParsePrecedence(RightLevel(op));
      if ok { EmitBytes([BinOpcode(op)]); }
    }

    method ParseAnd(ghost s0: Snap, ghost left: Expr, ghost ts: seq<Token>) returns (ok: bool)
      requires Starts(ts, AndT) && AfterLeft(s0, left, ts[1..], Now())
      modifies this
      ensures Meets(ok, s0, Now(), CodeOfE(Infix(left, ts), Context(s0)))
      decreases |rest|, 3
    {
      hide Precedence, Fragment, Infix, Skip, Context;
      ghost var cx := Context(s0);
      ghost var a := Fragment(left, cx).value;
      ghost var r := Precedence(AND, ts[1..]);
      SkipContext(s0, a, ts[1..], 39, r);
      AndIs(left, ts, cx);
      var end := EmitJump(39);
      EmitBytes(POP);
      ok := ParsePrecedence(AND);
      if ok {
        SkipEmits(s0, a, ts[1..], 39, CodeOfE(r, After(cx, a)).o, rest);
        ok := PatchJump(end);
      }
    }

    method ParseOr(ghost s0: Snap, ghost left: Expr, ghost ts: seq<Token>) returns (ok: bool)
      requires Starts(ts, OrT) && AfterLeft(s0, left, ts[1..], Now())
      modifies this
      ensures Meets(ok, s0, Now(), CodeOfE(Infix(left, ts), Context(s0)))
      decreases |rest|, 3
    {
      hide Precedence, Fragment, Infix, Skip, Offset, Context;
      ghost var cx := Context(s0);
      ghost var a := Fragment(left, cx).value;
      ghost var a2 := Join(a, Plain([39, 0, 3], [], cx));
      ghost var r := Precedence(OR, ts[1..]);
      OrTest(s0, a, ts[1..]);
      SkipContext(s0, a2, ts[1..], 41, r);
      SameCode(r, After(cx, a2), After(cx, a));
      OrIs(left, ts, cx);
      var elseJump := EmitJump(39);
      var end := EmitJump(41);
      ok := PatchJump(elseJump);
      EmitBytes(POP);
      ok := ParsePrecedence(OR);
      if ok {
        SkipEmits(s0, a2, ts[1..], 41, CodeOfE(r, After(cx, a)).o, rest);
        ok := PatchJump(end);
      }
    }

    method ParseTernary(ghost s0: Snap, ghost left: Expr, ghost ts: seq<Token>) returns (ok: bool)
      requires Starts(ts, QuestionT) && AfterLeft(s0, left, ts[1..], Now())
      modifies this
      ensures Meets(ok, s0, Now(), CodeOfE(Infix(left, ts), Context(s0)))
      decreases |rest|, 3
    {
      hide Precedence, Fragment, Infix, Skip, Offset, Context, Join, After, Emit, Meets, CodeOfE;
      ghost var cx := Context(s0);
      ghost var a := Fragment(left, cx).value;
      ghost var r := Precedence(ASSIGN, ts[1..]);
      SkipContext(s0, a, ts[1..], 39, r);
      TernaryStart(left, ts, cx);
      var thenJump := EmitJump(39);
      EmitBytes(POP);
      ghost var q := Now();
      ok := ParsePrecedence(ASSIGN);
      MeetsParts(ok, q, Now(), CodeOfE(r, After(cx, a)));
      MeetsParts(false, s0, Now(), CodeOfE(Infix(left, ts), cx));
      if !ok { return; }
      ghost var b := CodeOfE(r, After(cx, a)).o;
      TwoWay(s0, a, ts[1..], b, rest);
      var elseJump := EmitJump(41);
      ok := PatchJump(thenJump);
      MeetsParts(false, s0, Now(), CodeOfE(Infix(left, ts), cx));
      if !ok { return; }
      ok := TernaryElse(elseJump, Skip(a, 39, b, 3, cx).value, s0, left, ts, rest);
    }

    /** The rest of a ternary, from the pop that the first jump lands on. */
    method TernaryElse(elseJump: nat, ghost m: Out, ghost s0: Snap, ghost left: Expr, ghost ts: seq<Token>,
        ghost mid: seq<Token>)
      returns (ok: bool)
      requires s0.Valid() && m.Valid() && m.locals == s0.locals && m.hole < 0
      requires elseJump == |s0.code| + |m.code| + 1 && Now() == Emit(s0, m, mid).Put([41, 255, 255])
      requires Starts(ts, QuestionT) && |mid| < |ts| && Fragment(left, Context(s0)).Some?
      requires var b := CodeOfE(Precedence(ASSIGN, ts[1..]), After(Context(s0), Fragment(left, Context(s0)).value));
               b.Emits? && b.rest == mid && Skip(Fragment(left, Context(s0)).value, 39, b.o, 3, Context(s0)) == Some(m)
      modifies this
      ensures Meets(ok, s0, Now(), CodeOfE(Infix(left, ts), Context(s0)))
      decreases |rest|, 3
    {
      hide Precedence, Fragment, Infix, Skip, Offset, Context, Emit, Join, CodeOfE, Meets, After;
      ghost var r := Precedence(ASSIGN, if mid == [] then [] else mid[1..]);
      ghost var d := CodeOfE(r, After(Context(s0), m));
      ElseOfTernary(s0, left, ts, m, mid, elseJump);
      EmitBytes(POP);
      EmitPast(s0, [], m, mid);
      ghost var q := Now();
      ok := Match(ColonT);
      MeetsParts(false, s0, Now(), CodeOfE(Infix(left, ts), Context(s0)));
      if !ok { return; }
      ok := ParsePrecedence(ASSIGN);
      MeetsParts(ok, q.Past(mid[1..]), Now(), d);
      if ok {
        EmitPast(q, mid[1..], d.o, d.rest);
        ok := PatchJump(elseJump);
      }
      MeetsParts(false, s0, Now(), CodeOfE(Infix(left, ts), Context(s0)));
    }

    method ParseCondition() returns (ok: bool)
      requires Now().Valid()
      modifies this
      ensures Meets(ok, old(Now()), Now(), CodeOfE(Condition(old(rest)), Context(old(Now()))))
    {
      hide Fragment, Precedence, CodeOfE, Context, Emit, Meets, Expect;
      ghost var s0 := Now();
      ghost var cx, w := Context(s0), CodeOfE(Condition(rest), Context(s0));
      PutContext(s0, [], if Starts(rest, LParen) then rest[1..] else rest);
      var parenthesized := Match(LParen);
      ghost var e := CodeOfE(Precedence(ASSIGN, rest), cx);
      ExpectSame(Precedence(ASSIGN, rest), RParen, cx);
      ghost var q := Now();
      ok := ParsePrecedence(ASSIGN);
      MeetsParts(ok, q, Now(), e);
      MeetsParts(false, s0, Now(), w);
      if !ok { return; }
      EmitPast(s0, q.rest, e.o, rest);
      if parenthesized {
        ghost var after := if rest == [] then [] else rest[1..];
        PutContext(Now(), [], after);
        EmitPast(s0, e.rest, e.o, after);
        ok := Match(RParen);
      }
      MeetsParts(ok, s0, Now(), w);
    }

    method ParseExprStatement() returns (ok: bool)
      requires Now().Valid()
      modifies this
      ensures Meets(ok, old(Now()), Now(), CodeOf(ExprStatement(old(rest)), Context(old(Now()))))
    {
      hide Fragment, Precedence;
      ghost var s0 := Now();
      ghost var e := CodeOfE(Expression(rest), Context(s0));
      ok := ParsePrecedence(ASSIGN);
      if !ok { return; }
      var _ := Match(Semi);
      EmitBytes(POP);
      PutJoin(s0, e.o, rest, POP, Context(s0));
    }

    method BeginLoop(start: nat)
      modifies `loops
      ensures Now() == old(Now()).Enter(start)
    {
      loops := loops + [LoopRec(start, -1)];
    }

    /** The innermost loop's end: its break operand, if any, is patched to land here. */
    method EndLoop() returns (ok: bool)
      requires loops != []
      requires var end := loops[|loops| - 1].end; end == -1 || (0 <= end && end + 2 <= |code|)
      modifies this
      ensures var end := old(loops)[|old(loops)| - 1].end;
              && ok == (end == -1 || old(|code|) - end - 2 <= JUMP_MAX)
              && (ok ==> Now() == (if end == -1 then old(Now()) else old(Now()).Patched(end)).Leave())
    {
      var end := loops[|loops| - 1].end;
      ok := true;
      if end != -1 { ok := PatchJump(end); }
      loops := loops[..|loops| - 1];
    }

    method ParseIf() returns (ok: bool)
      requires Now().Valid()
      modifies this
      ensures Meets(ok, old(Now()), Now(), CodeOf(IfStatement(old(rest)), Context(old(Now()))))
      decreases |rest|, 3
    {
      hide Condition, Statement, IfStatement, Skip, Context, Join, Emit, CodeOf, CodeOfE, After, Plain, Ternary,
          ElseEmission;
      ghost var s0 := Now();
      ghost var cx := Context(s0);
      IfEmits(rest, cx);
      ghost var e := CodeOfE(Condition(rest), cx);
      ok := ParseCondition();
      if !ok { return; }
      BranchContext(s0, e.o, e.rest, 39);
      var thenJump := EmitJump(39);
      EmitBytes(POP);
      ghost var t := CodeOf(Statement(rest), Context(Now()));
      ok := ParseStatement();
      if !ok { return; }
      ok := FinishIf(thenJump, s0, e.o, e.rest, t.o, t.rest);
    }

    /** From the end of the then part: its jump, the condition's jump patched to land past it, and the else part. */
    method FinishIf(thenJump: nat, ghost s0: Snap, ghost a: Out, ghost t: seq<Token>, ghost b: Out,
        ghost mid: seq<Token>)
      returns (ok: bool)
      requires s0.Valid() && a.Valid() && b.Valid() && a.locals == s0.locals && b.locals == s0.locals && a.hole == -1
      requires thenJump == |s0.code| + |a.code| + 1 && (b.hole >= 0 ==> s0.loops != [])
      requires Now() == Emit(Emit(s0, a, t).Put([39, 255, 255]).Put(POP), b, mid)
      modifies this
      ensures Meets(ok, s0, Now(), IfRest(a, b, mid, Context(s0)))
      decreases |rest|, 4
    {
      hide Skip, Offset, Context, Emit, ElseEmission;
      TwoWay(s0, a, t, b, mid);
      var elseJump := EmitJump(41);
      ok := PatchJump(thenJump);
      if !ok { return; }
      ok := ParseElse(elseJump, Skip(a, 39, b, 3, Context(s0)).value, s0, mid);
    }

    /** The rest of an `if`, from the pop that a false condition lands on. */
    method ParseElse(elseJump: nat, ghost m: Out, ghost s0: Snap, ghost mid: seq<Token>) returns (ok: bool)
      requires s0.Valid() && m.Valid() && m.locals == s0.locals
      requires elseJump == |s0.code| + |m.code| + 1 && Now() == Emit(s0, m, mid).Put([41, 255, 255])
      requires m.hole >= 0 ==> s0.loops != []
      modifies this
      ensures Meets(ok, s0, Now(), ElseEmission(m, mid, Context(s0)))
      decreases |rest|, 3
    {
      hide Precedence, Statement, CodeS, Skip, Offset, Context, Join, Emit, Plain;
      ghost var cx := Context(s0);
      BranchContext(s0, m, mid, 41);
      ghost var q := Emit(s0, m, mid).Put([41, 255, 255]).Put(POP);
      EmitPast(s0, [], m, mid);
      EmitBytes(POP);
      ok := true;
      ghost var d := ElsePart(m, mid, cx);
      var more := Match(ElseT);
      if more {
        PutContext(q, [], mid[1..]);
        ok := ParseStatement();
        if !ok { return; }
        EmitPast(q, mid[1..], d.o, d.rest);
      } else {
        EmitPlain(q, [], mid);
        assert q.Put([]) == q;
      }
      ElseFits(m, mid, cx);
      SkipEmits(s0, m, mid, 41, d.o, d.rest);
      ok := PatchJump(elseJump);
    }

    method ParseStatement() returns (ok: bool)
      requires Now().Valid()
      modifies this
      ensures Meets(ok, old(Now()), Now(), CodeOf(Statement(old(rest)), Context(old(Now()))))
      decreases |rest|, 2
    {
      hide CodeOf, Statement, Context, IfStatement, For, MatchStatement, BlockItems, ExprStatement;
      if rest == [] { NoStatement(Context(Now())); return false; }
      ghost var s0 := Now();
      StatementCases(rest, Context(s0));
      PutContext(s0, [], rest[1..]);
      var t := rest[0];
      match t
      case ForT => var _ := Advance(); ok := ParseFor();
      case IfT => var _ := Advance(); ok := ParseIf();
      case BreakT => var _ := Advance(); ok := ParseBreak();
      case ContinueT => var _ := Advance(); ok := ParseContinue();
      case MatchT => var _ := Advance(); ok := ParseMatch();
      case WhileT => var _ := Advance(); ok := ParseWhile(old(rest));
      case LoopT => var _ := Advance(); ok := ParseLoop(old(rest));
      case LBrace => var _ := Advance(); ok := ParseBlock();
      case _ => ok := ParseExprStatement();
    }

    method ParseWhile(ghost ts: seq<Token>) returns (ok: bool)
      requires Starts(ts, WhileT) && rest == ts[1..] && Now().Valid()
      modifies this
      ensures Meets(ok, old(Now()), Now(), CodeOf(Statement(ts), Context(old(Now()))))
      decreases |rest|, 3
    {
      hide Condition, Statement, Offset, Context, Emit, CodeOf, CodeOfE, WhileOut, BodyCx, Meets;
      ghost var s0 := Now();
      ghost var cx := Context(s0);
      var start := |code|;
      WhileIs(ts, cx);
      ghost var e := CodeOfE(Condition(rest), cx);
      ok := ParseCondition();
      MeetsParts(ok, s0.Past(ts[1..]), Now(), e);
      MeetsParts(false, s0, Now(), CodeOf(Statement(ts), cx));
      if !ok { return; }
      EmitPast(s0, ts[1..], e.o, e.rest);
      ok := ParseWhileBody(start, s0, e.o);
    }

    /** The loop is entered, the condition tested, and the body parsed and closed. */
    method ParseWhileBody(start: nat, ghost s0: Snap, ghost a: Out) returns (ok: bool)
      requires s0.Valid() && a.Valid() && a.hole == -1 && a.locals == s0.locals && start == |s0.code|
               && Now() == Emit(s0, a, rest)
      modifies this
      ensures var b := CodeOf(Statement(old(rest)), BodyCx(Context(s0), |a.consts|, |a.code| + 4));
              Meets(ok, s0, Now(), if b.Fails? then Fails else OrFails(WhileOut(Context(s0), a, b.o), b.rest))
      decreases |rest|, 4
    {
      hide Statement, Context, Emit, CodeOf, WhileOut, BodyCx, Meets;
      WhileContext(s0, a, rest);
      ghost var b := CodeOf(Statement(rest), BodyCx(Context(s0), |a.consts|, |a.code| + 4));
      BeginLoop(start);
      var exitJump := EmitJump(39);
      EmitBytes(POP);
      ghost var q := Now();
      ok := ParseStatement();
      MeetsParts(ok, q, Now(), b);
      MeetsParts(false, s0, Now(), Fails);
      if !ok { return; }
      ok := FinishWhile(start, exitJump, s0, a, q.rest, b.o, b.rest);
    }

    /** From the end of a `while` body: the jump back, the exit patched to land on its pop, and the loop closed. */
    method FinishWhile(start: nat, exitJump: nat, ghost s0: Snap, ghost a: Out, ghost t: seq<Token>, ghost b: Out,
        ghost ts: seq<Token>)
      returns (ok: bool)
      requires s0.Valid() && a.Valid() && b.Valid() && a.locals == s0.locals && b.locals == s0.locals && a.hole == -1
      requires start == |s0.code| && exitJump == |s0.code| + |a.code| + 1
      requires Now() == Emit(Emit(s0.Enter(start), a, t).Put([39, 255, 255]).Put(POP), b, ts)
      modifies this
      ensures Meets(ok, s0, Now(), OrFails(WhileOut(Context(s0), a, b), ts))
    {
      hide Offset, Context, Emit, WhileOut;
      WhileCloses(s0, a, t, b, ts);
      ok := EmitBack(42, start);
      if !ok { return; }
      ok := PatchJump(exitJump);
      if !ok { return; }
      EmitBytes(POP);
      ok := EndLoop();
    }

    method ParseLoop(ghost ts: seq<Token>) returns (ok: bool)
      requires Starts(ts, LoopT) && rest == ts[1..] && Now().Valid()
      modifies this
      ensures Meets(ok, old(Now()), Now(), CodeOf(Statement(ts), Context(old(Now()))))
      decreases |rest|, 3
    {
      hide Statement, Context, Emit, CodeOf, LoopOut, BodyCx;
      ghost var s0 := Now();
      var start := |code|;
      LoopIs(ts, Context(s0));
      LoopContext(s0);
      BeginLoop(start);
      ghost var b := CodeOf(Statement(rest), BodyCx(Context(s0), 0, 0));
      ok := ParseStatement();
      if !ok { return; }
      LoopCloses(s0, b.o, b.rest);
      ok := EmitBack(42, start);
      if !ok { return; }
      ok := EndLoop();
    }

    /** Only a loop's first break is emitted; its operand's place is kept until the loop ends. */
    method ParseBreak() returns (ok: bool)
      requires Now().Valid()
      modifies this
      ensures Meets(ok, old(Now()), Now(), CodeOf(Expect(Ok(Break, old(rest)), Semi), Context(old(Now()))))
    {
      hide CodeOf;
      ghost var s0 := Now();
      EscapeIs(rest, Context(s0));
      ok := Match(Semi);
      if !ok || loops == [] { return false; }
      var last := |loops| - 1;
      if loops[last].end == -1 {
        var end := EmitJump(48);
        loops := loops[last := LoopRec(loops[last].start, end)];
      } else {
        EmitPlain(s0, [], rest);
        assert s0.Put([]) == s0;
      }
      assert s0.consts + [] == s0.consts;
    }

    method ParseContinue() returns (ok: bool)
      requires Now().Valid()
      modifies this
      ensures Meets(ok, old(Now()), Now(), CodeOf(Expect(Ok(Continue, old(rest)), Semi), Context(old(Now()))))
    {
      hide CodeOf;
      ghost var s0 := Now();
      EscapeIs(rest, Context(s0));
      ok := Match(Semi);
      if !ok || loops == [] { return false; }
      ghost var n := Context(s0).loop.back + 3;
      if n <= JUMP_MAX { EmitPlain(s0, [49, Hi(n), Lo(n)], rest); }
      ok := EmitBack(49, loops[|loops| - 1].start);
    }

    method BeginScope()
      modifies `depth
      ensures Now() == old(Now()).(depth := old(depth) + 1)
    {
      depth := depth + 1;
    }

    /** Pops the locals of the scope that ends, newest first. */
    method EndScope()
      requires depth > 0
      modifies `code, `locals, `depth
      ensures var n := Trailing(old(locals), old(depth) - 1);
              Now() == old(Now()).Put(Pops(n)).(locals := old(locals)[..|old(locals)| - n], depth := old(depth) - 1)
    {
      hide Trailing, Pops;
      depth := depth - 1;
      ghost var all := locals;
      NoPops(code);
      while |locals| > 0 && locals[|locals| - 1].depth > depth
        invariant depth == old(depth) - 1
        invariant |locals| <= |all| && locals == all[..|locals|]
        invariant code == old(code) + Pops(|all| - |locals|)
        invariant Trailing(all, depth) == |all| - |locals| + Trailing(locals, depth)
      {
        OneMorePop(old(code), |all| - |locals|);
        TrailingStep(locals, depth);
        code := code + POP;
        ShorterPrefix(all, |locals|);
        locals := locals[..|locals| - 1];
      }
      TrailingStep(locals, depth);
    }

    method ParseBlock() returns (ok: bool)
      requires Now().Valid()
      modifies this
      ensures var ds := BlockItems(old(rest));
              Meets(ok, old(Now()), Now(),
                    CodeOf(if ds.Ok? then Ok(Block(ds.value), ds.rest) else Failure, Context(old(Now()))))
      decreases |rest|, 7
    {
      hide CodeOf, CodeOfDs, BlockItems, Context, Emit, ScopeOut;
      ghost var s0 := Now();
      ghost var ds := BlockItems(rest);
      BlockIs(rest, Context(s0));
      DeeperContext(s0);
      BeginScope();
      ok := ParseBlockItems();
      if !ok { return; }
      ok := CloseScope(s0, ds);
    }

    method ParseFor() returns (ok: bool)
      requires Now().Valid()
      modifies this
      ensures Meets(ok, old(Now()), Now(), CodeOf(For(old(rest)), Context(old(Now()))))
      decreases |rest|, 3
    {
      hide CodeOf, CodeOfDs, For, ForInit, ForRest, Context, Emit, ScopeOut, Steps;
      ghost var s0 := Now();
      ForIs(rest, Context(s0));
      DeeperContext(s0);
      BeginScope();
      PutContext(Now(), [], if Starts(rest, LParen) then rest[1..] else rest);
      ok := Match(LParen);
      if !ok { return; }
      ghost var s1, ds := Now(), ForInit(rest);
      ghost var e := CodeOfDs(ds, Context(s1));
      ok := ParseForClauses();
      if !ok { return; }
      EmitPast(s0.(depth := s0.depth + 1), s1.rest, e.o, e.rest);
      ok := CloseScope(s0, ds);
    }

    /** Everything of a `for` after its opening parenthesis. */
    method ParseForClauses() returns (ok: bool)
      requires Now().Valid() && depth > 0
      modifies this
      ensures Meets(ok, old(Now()), Now(), CodeOfDs(ForInit(old(rest)), Context(old(Now()))))
      decreases |rest|, 4
    {
      hide CodeOfDs, ForInit, ForRest, Context, Emit;
      ghost var s1 := Now();
      ghost var whole := CodeOfDs(ForInit(rest), Context(s1));
      ghost var o;
      ok, o := ParseForInit();
      if !ok { return; }
      ghost var mid := Now();
      ok := ParseForRest();
      StepsMeet(s1, mid, ok, Now(), o, whole, ForRest(mid.rest));
    }

    /** The end of a scope whose declarations are all emitted. */
    method CloseScope(ghost s0: Snap, ghost ds: Parsed<Decls>) returns (ok: bool)
      requires s0.Valid() && depth == s0.depth + 1
      requires var e := CodeOfDs(ds, Context(s0).(depth := s0.depth + 1));
               e.Emits? && Now() == Emit(s0.(depth := s0.depth + 1), e.o, e.rest)
      modifies this
      ensures var e := CodeOfDs(ds, Context(s0).(depth := s0.depth + 1));
              ok && Meets(ok, s0, Now(), Emits(ScopeOut(e.o, Context(s0)), e.rest))
    {
      hide CodeOfDs, Context, Emit, ScopeOut;
      ScopeFits(s0, ds, CodeOfDs(ds, Context(s0).(depth := s0.depth + 1)));
      EndScope();
      ok := true;
    }

    method ParseForInit() returns (ok: bool, ghost o: Out)
      requires Now().Valid() && depth > 0
      modifies this
      ensures ok ==> Now().Valid()
      ensures Steps(ok, old(Now()), Now(), o, CodeOfDs(ForInit(old(rest)), Context(old(Now()))),
                    CodeOfDs(ForRest(rest), if ok then Context(Now()) else Context(old(Now()))))
    {
      hide CodeOf, CodeOfDs, ForInit, ForRest, Context, Emit, Join, Then, ExprStatement, Vars, Plain;
      ghost var s0 := Now();
      ghost var cx := Context(s0);
      ForInitIs(rest, cx);
      o := Plain([], [], cx);
      var none := Match(Semi);
      if none {
        PutContext(s0, [], rest);
        NoCodeYet(s0.Past(rest), CodeOfDs(ForRest(rest), cx));
        EmitPast(s0, rest, o, rest);
        ok := true;
      } else {
        var declares := Match(VarT);
        if declares {
          PutContext(s0, [], rest);
          ok, o := ParseVarDeclaration(true);
          EmitPast(s0, s0.rest[1..], o, rest);
        } else {
          ghost var e := CodeOf(ExprStatement(rest), cx);
          ok := ParseExprStatement();
          if ok {
            o := e.o;
            EmitContext(s0, e.o, rest);
          }
        }
      }
    }

    /** From the condition of a `for` to its end. */
    method ParseForRest() returns (ok: bool)
      requires Now().Valid()
      modifies this
      ensures Meets(ok, old(Now()), Now(), CodeOfDs(ForRest(old(rest)), Context(old(Now()))))
      decreases |rest|, 3
    {
      hide CodeOfDs, CodeOfE, ForRest, Context, Emit, ForEmission, Plain, Meets, ForTest;
      ghost var s0 := Now();
      ghost var cx := Context(s0);
      var start, cond := |code|, rest == [] || rest[0] != Semi;
      ForRestEmission(rest, cx);
      NoTest(rest, cx);
      ghost var c := ForTest(rest, cx);
      var exitJump: int;
      ok, exitJump := ParseForTest();
      MeetsParts(false, s0, Now(), CodeOfDs(ForRest(s0.rest), cx));
      if !ok { return; }
      if rest != [] && rest[0] == RParen { return false; }
      ForTestContext(s0, cond, c, rest);
      ok := ParseForBody(exitJump, start, s0, cond, c);
    }

    method ParseForBody(exitJump: int, start: nat, ghost s0: Snap, ghost cond: bool, ghost c: Emission)
        returns (ok: bool)
      requires s0.Valid() && Now().Valid() && c.Emits? && c.o.Valid() && c.o.hole == -1 && c.o.locals == s0.locals
      requires !cond ==> c.o == Plain([], [], Context(s0))
      requires Now() == (if cond then Emit(s0, c.o, c.rest).Put([39, 255, 255]).Put(POP) else s0.Past(c.rest))
      requires start == |s0.code| && exitJump == if cond then |s0.code| + |c.o.code| + 1 else -1
      modifies this
      ensures Meets(ok, s0, Now(), ForEmission(cond, c, Context(s0)))
      decreases |rest|, 4
    {
      hide CodeOf, CodeOfE, Statement, Context, Emit, Expression, ForStep, ForOut, BodyCx, Plain;
      ghost var cx := Context(s0);
      ghost var cx1 := cx.(k := cx.k + |c.o.consts|);
      ForTestContext(s0, cond, c, rest);
      ghost var s1 := Now();
      ghost var i := CodeOfE(Expect(Expression(rest), RParen), cx1);
      var increment;
      ok, increment := ParseIncrement(start, cx1);
      if !ok {
        if i.Emits? { StepShared(i.o, |s1.code| - start, cx, cx1); }
        return;
      }
      StepShared(i.o, |s1.code| - start, cx, cx1);
      ok := ParseForStatement(exitJump, increment, start, s0, cond, c.o, c.rest, i.o);
    }

    /** The statement a `for` repeats, once its increment is emitted and the loop entered. */
    method ParseForStatement(exitJump: int, increment: nat, start: nat, ghost s0: Snap, ghost cond: bool,
                             ghost a: Out, ghost t: seq<Token>, ghost i: Out)
      returns (ok: bool)
      requires s0.Valid() && a.Valid() && a.hole == -1 && a.locals == s0.locals && i.Valid() && i.hole == -1
               && i.locals == s0.locals
      requires start == |s0.code| && exitJump == if cond then |s0.code| + |a.code| + 1 else -1
      requires !cond ==> a == Plain([], [], Context(s0))
      requires var h := if cond then Emit(s0, a, t).Put([39, 255, 255]).Put(POP) else s0.Past(t);
               var st := ForStep(Context(s0), i, |h.code| - start);
               h.Valid() && increment == |h.code| + 3 && st.Some? && Now() == Emit(h, st.value, rest).Enter(increment)
      modifies this
      ensures var b := CodeOf(Statement(old(rest)), BodyCx(Context(s0), |a.consts| + |i.consts|, |i.code| + 4));
              Meets(ok, s0, Now(), if b.Fails? then Fails else OrFails(ForOut(Context(s0), cond, a, i, b.o), b.rest))
      decreases |rest|, 4
    {
      hide CodeOf, Statement, Context, Emit, ForStep, ForOut, BodyCx, Plain, Meets;
      ghost var cx, ts := Context(s0), rest;
      ghost var h := if cond then Emit(s0, a, t).Put([39, 255, 255]).Put(POP) else s0.Past(t);
      ghost var st := ForStep(cx, i, |h.code| - start).value;
      ghost var b := CodeOf(Statement(ts), BodyCx(cx, |a.consts| + |i.consts|, |i.code| + 4));
      ForTestContext(s0, cond, Emits(a, t), ts);
      ForBodyContext(s0, h, a.consts, i, st, ts, |h.code| - start);
      ghost var q := Now();
      ok := ParseStatement();
      MeetsParts(ok, q, Now(), b);
      MeetsParts(false, s0, Now(), Fails);
      if !ok { return; }
      EnterPast(h, st, ts, t, increment, b.o, b.rest);
      ok := FinishFor(exitJump, increment, s0, cond, a, t, i, st, b.o, b.rest);
    }

    /** The condition, if any, and the jump out of the loop that it decides. */
    method ParseForTest() returns (ok: bool, exitJump: int)
      requires Now().Valid()
      modifies this
      ensures var c, cond := ForTest(old(rest), Context(old(Now()))), !Starts(old(rest), Semi);
              && ok == c.Emits?
              && (ok ==> Now() == (if cond then Emit(old(Now()), c.o, c.rest).Put([39, 255, 255]).Put(POP)
                  else old(Now()).Past(c.rest)))
              && (ok ==> exitJump == if cond then old(|code|) + |c.o.code| + 1 else -1)
    {
      hide CodeOfE, Context, Emit, Precedence;
      exitJump := -1;
      var none := Match(Semi);
      if none { return true, -1; }
      ghost var s0 := Now();
      ghost var e := CodeOfE(Expression(rest), Context(s0));
      ExpectSame(Expression(rest), Semi, Context(s0));
      ok := ParsePrecedence(ASSIGN);
      if !ok { return; }
      ok := Match(Semi);
      if !ok { return; }
      EmitPast(s0, e.rest, e.o, rest);
      exitJump := EmitJump(39);
      EmitBytes(POP);
    }

    /** The increment, hopped over by the first pass through the loop; the loop proper starts at it. */
    method ParseIncrement(start: nat, ghost cx: Cx) returns (ok: bool, increment: nat)
      requires Now().Valid() && start <= |code| && cx.locals == locals && cx.k == |consts|
      modifies this
      ensures var i := CodeOfE(Expect(Expression(old(rest)), RParen), cx);
              && ok == (i.Emits? && ForStep(cx, i.o, old(|code|) - start).Some?)
              && (ok ==> increment == old(|code|) + 3 && Now().Valid()
                         && Now() == Emit(old(Now()), ForStep(cx, i.o, old(|code|) - start).value,
                             i.rest).Enter(increment))
    {
      hide CodeOfE, Context, Emit, Precedence, ForStep, Offset, Meets;
      ghost var s0 := Now();
      var bodyJump := EmitJump(41);
      increment := |code|;
      ghost var s1 := Now();
      PutContext(s0, [41, 255, 255], rest);
      SameCode(Expression(rest), Context(s1), cx);
      ExpectSame(Expression(rest), RParen, cx);
      ghost var e := CodeOfE(Expression(rest), cx);
      ok := ParsePrecedence(ASSIGN);
      MeetsParts(ok, s1, Now(), e);
      if !ok { return; }
      EmitBytes(POP);
      ok := Match(RParen);
      if !ok { return; }
      PastPut(Emit(s1, e.o, e.rest), POP, rest);
      EmitPast(s1, e.rest, e.o, rest);
      ok := FinishIncrement(bodyJump, increment, start, s0, e.o, cx);
    }

    /** From the end of the increment: the jump back to the condition, the loop entered, and the hop over the
        increment patched. */
    method FinishIncrement(bodyJump: nat, increment: nat, start: nat, ghost s0: Snap, ghost i: Out, ghost cx: Cx)
        returns (ok: bool)
      requires s0.Valid() && i.Valid() && i.hole == -1 && i.locals == s0.locals == cx.locals && start <= |s0.code|
      requires bodyJump == |s0.code| + 1 && increment == |s0.code| + 3
               && Now() == Emit(s0.Put([41, 255, 255]), i, rest).Put(POP)
      modifies this
      ensures var st := ForStep(cx, i, |s0.code| - start);
              && ok == st.Some?
              && (ok ==> Now() == Emit(s0, st.value, old(rest)).Enter(increment) && Now().Valid())
    {
      hide Emit, ForStep, Offset;
      StepEmits(s0, i, rest, |s0.code| - start, cx);
      ok := EmitBack(42, start);
      if !ok { return; }
      BeginLoop(increment);
      ok := PatchJump(bodyJump);
      StepShape(cx, i, |s0.code| - start);
      StepValid(s0, ForStep(cx, i, |s0.code| - start).value, rest, increment);
    }

    /** From the end of a `for` body: the jump back to the increment, the exit patched, and the loop closed. */
    method FinishFor(exitJump: int, increment: nat, ghost s0: Snap, ghost cond: bool, ghost a: Out, ghost t: seq<Token>,
                     ghost i: Out, ghost st: Out, ghost b: Out, ghost ts: seq<Token>)
      returns (ok: bool)
      requires s0.Valid() && a.Valid() && i.Valid() && b.Valid() && a.hole == -1 && i.hole == -1
      requires a.locals == s0.locals && i.locals == s0.locals && b.locals == s0.locals
      requires !cond ==> a == Plain([], [], Context(s0))
      requires ForStep(Context(s0), i, |a.code| + (if cond then 4 else 0)) == Some(st)
      requires increment == |s0.code| + |a.code| + (if cond then 4 else 0) + 3
      requires exitJump == if cond then |s0.code| + |a.code| + 1 else -1
      requires var h := if cond then Emit(s0, a, t).Put([39, 255, 255]).Put(POP) else s0.Past(t);
               Now() == Emit(Emit(h, st, t).Enter(increment), b, ts)
      modifies this
      ensures Meets(ok, s0, Now(), OrFails(ForOut(Context(s0), cond, a, i, b), ts))
    {
      hide Offset, Context, Emit, ForOut, ForStep, Plain;
      ForCloses(s0, cond, a, t, i, st, b, ts, increment);
      ok := EmitBack(42, increment);
      if !ok { return; }
      if exitJump != -1 {
        ok := PatchJump(exitJump);
        if !ok { return; }
        EmitBytes(POP);
      }
      ok := EndLoop();
    }

    /** The body of an arm, already in the arm's scope; a block in it opens no scope of its own. */
    method ParseArmBody(ghost cx: Cx) returns (ok: bool)
      requires Now().Valid() && Context(Now()) == cx.(depth := cx.depth + 1)
      modifies this
      ensures Meets(ok, old(Now()), Now(), CodeOfBody(ArmBody(old(rest)), cx))
      decreases |rest|, 8
    {
      hide CodeOf, CodeOfDs, CodeOfBody, ArmBody, BlockItems, MatchStatement, ExprStatement, Statement, Context, Emit,
          Meets;
      ghost var s0, e := Now(), CodeOfBody(ArmBody(rest), cx);
      BodyIs(rest, cx);
      if rest != [] && rest[0] in {MatchT, LoopT, LBrace} {
        PutContext(s0, [], rest[1..]);
        var t := Advance();
        if t == MatchT {
          ok := ParseMatch();
        } else if t == LoopT {
          ok := ParseLoop(old(rest));
        } else {
          ok := ParseBlockItems();
        }
        MeetsPast(ok, s0, s0.rest[1..], Now(), e);
      } else {
        ok := ParseExprStatement();
      }
    }

    /** One arm with a pattern; its end jump is left open and returned. */
    method ParseMember() returns (ok: bool, site: nat, ghost one: Raw)
      requires rest != [] && rest[0] != RBrace && rest[0] != Underscore && Now().Valid()
      modifies this
      ensures MemberParsed(ok, old(Now()), Now(), one, site)
      decreases |rest|, 7
    {
      hide CodeOfE, Precedence, CodeOfBody, ArmBody, PatternCx, Context, Emit, Meets, ArmDone, ArmRaw, RawThen,
          MemberParsed;
      ghost var s0 := Now();
      ghost var cx := Context(s0);
      site := 0;
      one := Raw(Plain([], [], cx), [], 0);
      DeeperContext(s0);
      BeginScope();
      ExpectSame(Expression(rest), FatArrow, Context(Now()));
      ghost var p := CodeOfE(Precedence(ASSIGN, rest), Context(Now()));
      ok := ParsePrecedence(ASSIGN);
      MeetsParts(ok, s0.(depth := s0.depth + 1), Now(), p);
      if !ok { MemberFails(s0, Now(), one, site); return; }
      var notMatched := EmitJump(40);
      ok := Match(FatArrow);
      if !ok { MemberFails(s0, Now(), one, site); return; }
      ok, site, one := ParseMemberBody(notMatched, s0, p.o, p.rest);
      MemberDone(s0, Now(), p.o, p.rest[1..], one, site, ok);
    }

    method ParseMemberBody(notMatched: nat, ghost s0: Snap, ghost p: Out, ghost t: seq<Token>)
      returns (ok: bool, site: nat, ghost one: Raw)
      requires s0.Valid() && p.Valid() && p.hole == -1 && p.locals == s0.locals
               && notMatched == |s0.code| + |p.code| + 1
      requires Now() == Emit(s0.(depth := s0.depth + 1), p, t).Put([40, 255, 255]).Past(rest) && |rest| < |s0.rest|
      modifies this
      ensures var b := CodeOfBody(ArmBody(old(rest)), PatternCx(p, Context(s0)));
              && (!ok ==> b.Fails? || ArmRaw(p, b.o, Context(s0)).None?)
              && (ok ==>
                    && b.Emits? && ArmRaw(p, b.o, Context(s0)) == Some(one) && one.arms == 1
                    && rest == b.rest
                    && forall whole, next :: whole == RawThen(one, next) ==> ArmDone(s0, Now(), one, site, whole, next))
      decreases |rest|, 9
    {
      hide CodeOfBody, ArmBody, RawThen, ArmOut, PatternCx, Context, Emit, ArmDone, Opens;
      ghost var cx := Context(s0);
      site := 0;
      one := Raw(Plain([], [], cx), [], 0);
      ghost var mid := rest;
      ArmBodyContext(s0, p, t, mid);
      ghost var b := CodeOfBody(ArmBody(mid), PatternCx(p, cx));
      ok := ParseArmBody(PatternCx(p, cx));
      if !ok { return; }
      EmitPast(Emit(s0.(depth := s0.depth + 1), p, t).Put([40, 255, 255]), mid, b.o, b.rest);
      BodyFits(ArmBody(mid), p, s0);
      OpensParts(s0, b.o);
      BodyShrinks(mid, PatternCx(p, cx));
      ok, site := FinishArm(notMatched, s0, p, t, b.o, b.rest);
      if !ok { return; }
      one := ArmRaw(p, b.o, cx).value;
      forall whole: RawEmission, next: RawEmission | whole == RawThen(one, next)
        ensures ArmDone(s0, Now(), one, site, whole, next)
      {
        ArmIsDone(s0, Now(), p, b.o, site, whole, next, rest);
      }
    }

    /** From the end of an arm's body: its end jump, the failed test patched to land past it, and the arm's scope
        closed. */
    method FinishArm(notMatched: nat, ghost s0: Snap, ghost p: Out, ghost t: seq<Token>, ghost b: Out,
        ghost ts: seq<Token>)
      returns (ok: bool, site: nat)
      requires s0.Valid() && p.Valid() && p.hole == -1 && p.locals == s0.locals && Opens(s0, b)
      requires notMatched == |s0.code| + |p.code| + 1
      requires Now() == Emit(Emit(s0.(depth := s0.depth + 1), p, t).Put([40, 255, 255]), b, ts)
      modifies this
      ensures ok == ArmRaw(p, b, Context(s0)).Some?
      ensures ok ==> site == |s0.code| + |p.code| + 3 + |b.code| + 1
      ensures ok ==> Now() == Emit(s0, ArmRaw(p, b, Context(s0)).value.o, ts) && Now().Valid()
    {
      hide Offset, Context, Emit, Opens, Join, Plain;
      ghost var s1 := s0.(depth := s0.depth + 1);
      OpensParts(s0, b);
      ArmTest(s1, p, t, b, ts, Context(s0));
      site := EmitJump(41);
      ok := PatchJump(notMatched);
      if !ok { return; }
      ghost var off := |b.code| + 3;
      ghost var o := Join(Join(p, Plain([40, Hi(off), Lo(off)], [], Context(s0))), b);
      ArmScope(s0, o, b, ts, [41, 255, 255]);
      ArmOutIs(p, b, Context(s0));
      EndScope();
    }

    /** The default arm, after its underscore. */
    method ParseDefault(ghost ts: seq<Token>) returns (ok: bool, site: nat, ghost one: Raw)
      requires Starts(ts, Underscore) && rest == ts[1..] && Now().Valid()
      modifies this
      ensures ok == (Starts(old(rest), FatArrow) && CodeOfBody(ArmBody(old(rest)[1..]), Context(old(Now()))).Emits?)
      ensures ok ==> var cx := Context(old(Now()));
                     var b := CodeOfBody(ArmBody(old(rest)[1..]), cx);
                     && rest == b.rest && |rest| < |old(rest)|
                     && |cx.locals| <= |b.o.locals| && one == DefaultRaw(b.o, cx)
                         && DefaultAt(old(Now()), Now(), one, site)
      decreases |rest|, 9
    {
      hide CodeOfBody, ArmBody, Context, Emit, Opens, DefaultRaw, DefaultAt, Meets;
      ghost var s0 := Now();
      ghost var cx := Context(s0);
      site := 0;
      one := Raw(Plain([], [], cx), [], 0);
      DeeperContext(s0);
      BeginScope();
      PutContext(Now(), [], if Starts(rest, FatArrow) then rest[1..] else rest);
      ok := Match(FatArrow);
      if !ok { return; }
      ghost var mid := rest;
      ghost var b := CodeOfBody(ArmBody(mid), cx);
      BodyShrinks(mid, cx);
      ok := ParseArmBody(cx);
      MeetsPast(ok, s0.(depth := s0.depth + 1), mid, Now(), b);
      MeetsParts(ok, s0.(depth := s0.depth + 1), Now(), b);
      if !ok { return; }
      DefaultFits(ArmBody(mid), s0);
      site := FinishDefault(s0, b.o, b.rest);
      one := DefaultRaw(b.o, cx);
    }

    method FinishDefault(ghost s0: Snap, ghost b: Out, ghost ts: seq<Token>) returns (site: nat)
      requires s0.Valid() && Opens(s0, b) && |s0.locals| <= |b.locals|
      requires b.hole >= 0 ==> Context(s0).loop.InLoop? && !Context(s0).loop.broken
      requires Now() == Emit(s0.(depth := s0.depth + 1), b, ts)
      modifies this
      ensures DefaultAt(s0, Now(), DefaultRaw(b, Context(s0)), site) && rest == ts
    {
      hide Context, Emit, Opens, DefaultRaw, DefaultAt, Join, Plain;
      OpensParts(s0, b);
      site := EmitJump(41);
      ArmScope(s0, b, b, ts, [41, 255, 255]);
      DefaultParts(b, Context(s0));
      EndScope();
      DefaultIsAt(s0, b, ts, site);
    }

    /** Every jump on the match's stack is made to land here. */
    method PatchJumps(stack: seq<nat>) returns (ok: bool)
      requires SitesFit(stack, |code|)
      modifies `code
      ensures ok == Reachable(stack, old(|code|))
      ensures ok ==> Now() == old(Now()).(code := PatchAll(old(code), stack))
    {
      var i := 0;
      while i < |stack|
        invariant 0 <= i <= |stack| && |code| == old(|code|)
        invariant forall k :: 0 <= k < i ==> |code| - stack[k] - 2 <= JUMP_MAX
        invariant Reachable(stack, |code|) ==>
          SitesFit(stack[i..], |code|) && Reachable(stack[i..], |code|)
              && PatchAll(code, stack[i..]) == PatchAll(old(code), stack)
      {
        assert stack[i..][0] == stack[i] && stack[i..][1..] == stack[i + 1..];
        ok := PatchJump(stack[i]);
        if !ok { return; }
        i := i + 1;
      }
      ok := true;
    }

    /** The arms up to the closing brace, and the places of their end jumps. */
    method ParseArms() returns (ok: bool, stack: seq<nat>, hasDefault: bool, ghost all: Raw)
      requires Now().Valid()
      modifies this
      ensures ArmsParsed(ok, old(Now()), Now(), stack, hasDefault, all,
              RawOf(MatchArms(old(rest)), Context(old(Now()))))
      decreases |rest|, 10
    {
      hide CodeOfBody, ArmBody, Context, Emit, MatchArms, RawOf, RawThen, RawJoin, Plain, Shift, ArmsSoFar, ArmDone,
          MemberParsed;
      ghost var s0, whole := Now(), RawOf(MatchArms(rest), Context(Now()));
      stack, hasDefault, all := [], false, Raw(Plain([], [], Context(s0)), [], 0);
      NoArmsYet(s0, whole);
      while rest != [] && rest[0] != RBrace
        invariant Now().Valid() && |rest| <= |s0.rest| && ArmsSoFar(s0, Now(), all, stack, whole)
        invariant |stack| == all.arms < 256 && !hasDefault
        decreases |rest|
      {
        ghost var s1, one: Raw := Now(), *;
        var site: nat;
        SoFarFails(s0, s1, all, stack, whole);
        if rest[0] == Underscore {
          hasDefault := true;
          ok, site, one := ParseLastArm(s0, all, stack, whole);
          stack := stack + [site];
          all := RawJoin(all, one);
          return;
        }
        ok, site, one := ParseMember();
        MemberMeans(ok, s1, Now(), one, site);
        if !ok { return; }
        stack := stack + [site];
        ghost var s2 := Now();
        var _ := Match(Comma);
        var _ := Match(Comma);
        MemberJoins(s0, s1, s2, Now(), all, one, site, stack, whole);
        JoinCount(all, one);
        all := RawJoin(all, one);
        if |stack| >= 256 {
          SoFarTooMany(s0, Now(), all, stack, whole);
          return false, stack, hasDefault, all;
        }
      }
      ok := true;
      SoFarEnds(s0, Now(), all, stack, whole);
    }

    /** The default arm, from its underscore to where the closing brace should be. */
    method ParseLastArm(ghost s0: Snap, ghost all: Raw, stack: seq<nat>, ghost whole: RawEmission)
      returns (ok: bool, site: nat, ghost one: Raw)
      requires Starts(rest, Underscore) && Now().Valid() && ArmsSoFar(s0, Now(), all, stack, whole) && all.arms < 256
      modifies this
      ensures ArmsParsed(ok, s0, Now(), stack + [site], true, RawJoin(all, one), whole)
      decreases |rest|, 9
    {
      hide CodeOfBody, ArmBody, Context, Emit, MatchArms, RawOf, RawThen, RawJoin, ArmsSoFar, ArmsParsed, DefaultAt,
          DefaultRaw;
      ghost var s1 := Now();
      DefaultIs(rest, Context(s1));
      SoFarFails(s0, s1, all, stack, whole);
      ParsedFails(s0, whole);
      var _ := Advance();
      PutContext(s1, [], rest);
      ok, site, one := ParseDefault(s1.rest);
      if !ok { return; }
      ghost var s2 := Now();
      var _ := Match(Comma);
      DefaultPast(s1, s1.rest[1..], s2, one, site, rest);
      DefaultDone(s0, s1, Now(), all, one, site, stack + [site], whole, rest);
    }

    method ParseMatch() returns (ok: bool)
      requires Now().Valid()
      modifies this
      ensures Meets(ok, old(Now()), Now(), CodeOf(MatchStatement(old(rest)), Context(old(Now()))))
      decreases |rest|, 3
    {
      hide CodeOf, CodeOfE, MatchStatement, Condition, Context, Emit, MatchRest;
      ghost var s0 := Now();
      ghost var cx := Context(s0);
      MatchSplit(rest, cx);
      DeeperContext(s0);
      BeginScope();
      ghost var c := CodeOfE(Condition(rest), Context(Now()));
      ExpectSame(Condition(rest), LBrace, Context(Now()));
      ok := ParseCondition();
      if !ok { return; }
      var start := EmitJump(50);
      ok := Match(LBrace);
      if !ok { return; }
      ok := ParseMatchArms(start, s0, c.o, c.rest);
    }

    method ParseMatchArms(start: nat, ghost s0: Snap, ghost a: Out, ghost t: seq<Token>) returns (ok: bool)
      requires s0.Valid() && a.Valid() && a.hole == -1 && a.locals == s0.locals && start == |s0.code| + |a.code| + 1
      requires Now() == Emit(s0.(depth := s0.depth + 1), a, t).Put([50, 255, 255]).Past(rest)
      modifies this
      ensures Meets(ok, s0, Now(), MatchRest(a, old(rest), Context(s0)))
      decreases |rest|, 11
    {
      hide MatchArms, Context, Emit, RawOf, ArmsCx, MatchEnd, Shift, RawArms;
      ArmsContext(s0, a, t, rest);
      ghost var arms, s2 := MatchArms(rest), Now();
      var stack, hasDefault;
      ghost var raw;
      ok, stack, hasDefault, raw := ParseArms();
      if !ok { return; }
      if rest == [] || rest[0] != RBrace { return false; }
      EmitPast(Emit(s0.(depth := s0.depth + 1), a, t).Put([50, 255, 255]), s2.rest, raw.o, rest);
      ok := FinishMatch(start, stack, hasDefault, s0, a, t, raw, arms.value);
    }

    /** From the end of the arms: the match operand and every arm's end jump patched, the matched value popped. */
    method FinishMatch(start: nat, stack: seq<nat>, hasDefault: bool,
                       ghost s0: Snap, ghost a: Out, ghost t: seq<Token>, ghost raw: Raw, ghost arms: Arms)
      returns (ok: bool)
      requires s0.Valid() && a.Valid() && a.hole == -1 && a.locals == s0.locals && raw.o.Valid()
      requires RawArms(arms, ArmsCx(a, Context(s0))) == Some(raw) && hasDefault == HasDefault(arms)
      requires start == |s0.code| + |a.code| + 1 && stack == Shift(raw.sites, |s0.code| + |a.code| + 3)
      requires Starts(rest, RBrace)
      requires Now() == Emit(Emit(s0.(depth := s0.depth + 1), a, t).Put([50, 255, 255]), raw.o, rest)
      modifies this
      ensures Meets(ok, s0, Now(), OrFails(MatchEnd(Context(s0), a, arms), old(rest)[1..]))
    {
      hide Context, Emit, ArmsCx, MatchEnd, RawArms, HasDefault, EndJump, ArmsEmitted, Shift, Offset;
      ghost var ts := rest;
      HeadPatched(s0, a, t, raw, arms, ts);
      TooLongArms(s0, a, raw, arms);
      if hasDefault {
        ok := PatchJump(start);
        if !ok { return; }
      } else {
        var end := EmitJump(41);
        ok := PatchJump(start);
        if !ok { return; }
        ok := PatchJump(end);
      }
      ok := PatchArms(stack, s0, a, t, raw, arms);
    }

    method PatchArms(stack: seq<nat>, ghost s0: Snap, ghost a: Out, ghost t: seq<Token>, ghost raw: Raw,
        ghost arms: Arms)
      returns (ok: bool)
      requires s0.Valid() && a.Valid() && a.hole == -1 && a.locals == s0.locals
      requires RawArms(arms, ArmsCx(a, Context(s0))) == Some(raw) && |raw.o.code| + |EndJump(arms)| <= JUMP_MAX
      requires stack == Shift(raw.sites, |s0.code| + |a.code| + 3) && Starts(rest, RBrace)
      requires Now() == ArmsEmitted(s0, a, t, raw, arms, rest)
      modifies this
      ensures Meets(ok, s0, Now(), OrFails(MatchEnd(Context(s0), a, arms), old(rest)[1..]))
    {
      hide Context, Emit, ArmsCx, MatchEnd, RawArms, HasDefault, EndJump, ArmsEmitted, Shift, PatchAll, SitesFit,
          Reachable, Trailing, Pops;
      JumpsPatched(s0, a, t, raw, arms, rest, rest[1..]);
      ok := PatchJumps(stack);
      if !ok { return; }
      EmitBytes(POP);
      ok := Match(RBrace);
      NoPops(code);
      EndScope();
    }

    method ParseBlockItems() returns (ok: bool)
      requires Now().Valid() && depth > 0
      modifies this
      ensures Meets(ok, old(Now()), Now(), CodeOfDs(BlockItems(old(rest)), Context(old(Now()))))
      decreases |rest|, 6
    {
      hide CodeOfDs, BlockItems, Context, Emit, Join, Then, Plain;
      ghost var s0, ts := Now(), rest;
      ghost var cx := Context(s0);
      ghost var whole := CodeOfDs(BlockItems(ts), cx);
      ghost var acc := Plain([], [], cx);
      NoCodeYet(s0, whole);
      while rest != [] && rest[0] != RBrace
        invariant Now().Valid() && |rest| <= |ts| && depth > 0
        invariant Now() == Emit(s0, acc, rest) && acc.Valid()
        invariant acc.hole >= 0 ==> Context(s0).loop.InLoop? && !Context(s0).loop.broken
        invariant whole == Then(acc, CodeOfDs(BlockItems(rest), Context(Now())))
        decreases |rest|
      {
        ghost var s1, o := Now(), acc;
        ok, o := ParseDeclaration();
        if !ok { FailsThen(acc, CodeOfDs(BlockItems(s1.rest), Context(s1))); return; }
        StepsJoin(s0, s1, Now(), acc, o, whole, CodeOfDs(BlockItems(s1.rest), Context(s1)),
                  CodeOfDs(BlockItems(rest), Context(Now())));
        acc := Join(acc, o);
      }
      BlockEnds(rest, Context(Now()));
      ThenNothing(s0, acc, rest);
      ok := Match(RBrace);
    }

    /** One item of a block, or one `var` line of several variables. */
    method ParseDeclaration() returns (ok: bool, ghost o: Out)
      requires rest != [] && rest[0] != RBrace && Now().Valid() && depth > 0
      modifies this
      ensures ok ==> Now().Valid()
      ensures Steps(ok, old(Now()), Now(), o, CodeOfDs(BlockItems(old(rest)), Context(old(Now()))),
                    CodeOfDs(BlockItems(rest), if ok then Context(Now()) else Context(old(Now()))))
      decreases |rest|, 5
    {
      hide CodeOfDs, CodeOf, BlockItems, Statement, Context, Emit, Join, Then;
      ghost var s0 := Now();
      ghost var cx := Context(s0);
      if rest[0] == VarT {
        VarItem(rest, cx);
        var _ := Advance();
        PutContext(s0, [], rest);
        ok, o := ParseVarDeclaration(false);
        EmitPast(s0, s0.rest[1..], o, rest);
      } else {
        ItemIs(rest, cx);
        ghost var e := CodeOf(Statement(rest), cx);
        o := Plain([], [], cx);
        ok := ParseStatement();
        if ok {
          o := e.o;
          EmitContext(s0, e.o, rest);
        }
      }
    }

    /** Refuses a name already declared in this scope or still undefined, and a local too many. */
    method DeclareVariable(x: Name) returns (ok: bool)
      requires Now().Valid() && depth > 0
      modifies `locals
      ensures ok == CanDeclare(x, Context(old(Now())))
      ensures ok ==> Now() == old(Now()).(locals := old(locals) + [Local(x, -1)])
    {
      var i := |locals| - 1;
      assert locals[..i + 1] == locals;
      while i >= 0 && !(locals[i].depth != -1 && locals[i].depth < depth)
        invariant -1 <= i < |locals| && Declared(locals[..i + 1], depth, x) == Declared(locals, depth, x)
      {
        assert locals[..i + 1][..i] == locals[..i];
        if locals[i].name == x { return false; }
        i := i - 1;
      }
      ok := AddLocal(x);
    }

    method AddLocal(x: Name) returns (ok: bool)
      modifies `locals
      ensures ok == (old(|locals|) < LOCALS_MAX)
      ensures locals == if ok then old(locals) + [Local(x, -1)] else old(locals)
    {
      if |locals| >= LOCALS_MAX { return false; }
      locals := locals + [Local(x, -1)];
      ok := true;
    }

    /** The newest local becomes usable. */
    method MarkInitialized()
      requires locals != []
      modifies `locals
      ensures locals == old(locals)[|old(locals)| - 1 := old(locals)[|old(locals)| - 1].(depth := depth)]
    {
      var last := |locals| - 1;
      locals := locals[last := Local(locals[last].name, depth)];
    }

    /** One variable of a `var` line: declared, initialised (to none if nothing is given) and then defined. */
    method ParseDeclarator() returns (ok: bool)
      requires Now().Valid() && depth > 0
      modifies this
      ensures var ts, cx := old(rest), Context(old(Now()));
              && ok == (ts != [] && ts[0].IdT? && CanDeclare(ts[0].x, cx) && Initialiser(ts[0].x, ts[1..], cx).Emits?)
              && (ok ==> var e := Initialiser(ts[0].x, ts[1..], cx);
                         Now() == Emit(old(Now()), Defined(ts[0].x, e.o, cx), e.rest) && Now().Valid())
    {
      hide Context, Emit, Declared, CodeOfE, InitialiserTree;
      ghost var s0 := Now();
      ghost var cx := Context(s0);
      if rest == [] || !rest[0].IdT? { return false; }
      var x := rest[0].x;
      var _ := Advance();
      PutContext(s0, [], rest);
      ok := DeclareVariable(x);
      if !ok { return; }
      ghost var s1 := Now();
      DeclaredContext(s0.Past(rest), x);
      ghost var e := Initialiser(x, rest, cx);
      ok := ParseInitialiser();
      if !ok { return; }
      DefinedEmits(s0, s1, x, e.o, e.rest);
      MarkInitialized();
    }

    method ParseInitialiser() returns (ok: bool)
      requires Now().Valid()
      modifies this
      ensures Meets(ok, old(Now()), Now(), CodeOfE(InitialiserTree(old(rest)), Context(old(Now()))))
    {
      hide Context, CodeOfE, Precedence, Emit, Plain;
      ghost var s0 := Now();
      var given := Match(AssignT);
      if given {
        PutContext(s0, [], rest);
        ghost var e := CodeOfE(Expression(rest), Context(Now()));
        ok := ParsePrecedence(ASSIGN);
        if ok { EmitPast(s0, s0.rest[1..], e.o, e.rest); }
      } else {
        NothingGiven(rest, Context(s0));
        EmitPlain(s0, [5], rest);
        EmitBytes([5]);
        ok := true;
      }
    }

    /** The variables of one `var` line, after the keyword. */
    method ParseVarDeclaration(inFor: bool) returns (ok: bool, ghost o: Out)
      requires Now().Valid() && depth > 0
      modifies this
      ensures ok ==> Now().Valid()
      ensures Steps(ok, old(Now()), Now(), o, CodeOfDs(Vars(old(rest), inFor), Context(old(Now()))),
                    CodeOfDs(AfterVars(inFor, rest), if ok then Context(Now()) else Context(old(Now()))))
    {
      hide CodeOfDs, Vars, AfterVars, Context, Emit, Join, Then, Initialiser, CanDeclare, Defined;
      ghost var s0, ts := Now(), rest;
      ghost var cx := Context(s0);
      ghost var whole := CodeOfDs(Vars(ts, inFor), cx);
      o := Plain([], [], cx);
      NoCodeYet(s0, whole);
      while true
        invariant Now().Valid() && |rest| <= |ts| && depth > 0
        invariant Now() == Emit(s0, o, rest) && o.Valid() && o.hole < 0
        invariant whole == Then(o, CodeOfDs(Vars(rest, inFor), Context(Now())))
        decreases |rest|
      {
        ghost var s1 := Now();
        VarsIs(inFor, rest, Context(s1));
        FailsThen(o, CodeOfDs(Vars(rest, inFor), Context(s1)));
        ok := ParseDeclarator();
        if !ok { return; }
        ghost var x := s1.rest[0].x;
        ghost var e := Initialiser(x, s1.rest[1..], Context(s1));
        ghost var d := Defined(x, e.o, Context(s1));
        RoomFor(x, Context(s1));
        DefinedContext(s1, x, e.o, e.rest);
        ghost var s2 := Now();
        var more := Match(Comma);
        if !more {
          ok := Match(Semi);
        }
        if !ok { return; }
        PutContext(s2, [], rest);
        EmitPast(s1, e.rest, d, rest);
        JoinKeeps(o, d);
        ghost var tail := if more then CodeOfDs(Vars(rest, inFor), Context(Now()))
            else CodeOfDs(AfterVars(inFor, rest), Context(Now()));
        StepsJoin(s0, s1, Now(), o, d, whole, CodeOfDs(Vars(s1.rest, inFor), Context(s1)), tail);
        o := Join(o, d);
        if !more { return; }
      }
    }

    /** parse_tokens: statements until the tokens end. */
    method ParseTokens() returns (ok: bool)
      requires Now().Valid()
      modifies this
      ensures Meets(ok, old(Now()), Now(), CodeOfDs(Script(old(rest)), Context(old(Now()))))
    {
      hide CodeOfDs, CodeOf, Script, Statement, Context, Emit, Join, Then, Plain;
      ghost var s0, ts := Now(), rest;
      ghost var whole := CodeOfDs(Script(ts), Context(s0));
      ghost var acc := Plain([], [], Context(s0));
      NoCodeYet(s0, whole);
      while rest != []
        invariant Now().Valid() && |rest| <= |ts|
        invariant Now() == Emit(s0, acc, rest) && acc.Valid()
        invariant acc.hole >= 0 ==> Context(s0).loop.InLoop? && !Context(s0).loop.broken
        invariant whole == Then(acc, CodeOfDs(Script(rest), Context(Now())))
        decreases |rest|
      {
        ghost var s1 := Now();
        ScriptItem(rest, Context(s1));
        ghost var e := CodeOf(Statement(rest), Context(s1));
        ok := ParseStatement();
        if !ok { FailsThen(acc, CodeOfDs(Script(s1.rest), Context(s1))); return; }
        EmitContext(s1, e.o, rest);
        StepsJoin(s0, s1, Now(), acc, e.o, whole, CodeOfDs(Script(s1.rest), Context(s1)),
                  CodeOfDs(Script(rest), Context(Now())));
        acc := Join(acc, e.o);
      }
      AccLocals(s0, acc);
      ScriptEnds(acc, Context(Now()));
      ok := true;
    }
  }

  lemma {:induction false} AccLocals(s: Snap, o: Out)
    requires s.Valid() && o.Valid() && Emit(s, o, []).Valid()
    ensures Context(Emit(s, o, [])).locals == o.locals
  {
  }

  /** A script, compiled in one pass over its tokens. */
  method Compile(tokens: seq<Token>) returns (r: Option<Program>)
    ensures var ds := Script(tokens);
            && r.Some? == (ds.Ok? && CodeDs(ds.value, TOP).Some?)
            && (r.Some? ==> var o := CodeDs(ds.value, TOP).value; r.value == Program(o.code, o.consts))
  {
    hide Script, CodeDs;
    var compiler := new Compiler(tokens);
    ghost var s0 := compiler.Now();
    TopParts(s0, tokens);
    var ok := compiler.ParseTokens();
    if !ok { return None; }
    r := Some(Program(compiler.code, compiler.consts));
  }

  lemma {:induction false} TopParts(s0: Snap, tokens: seq<Token>)
    requires s0 == Snap(tokens, [], [], [Local("", 0)], 0, [])
    ensures s0.Valid() && Context(s0) == TOP
    ensures forall o: Out, ts :: Emit(s0, o, ts).code == o.code && Emit(s0, o, ts).consts == o.consts
  {
    forall o: Out, ts: seq<Token> ensures Emit(s0, o, ts).code == o.code && Emit(s0, o, ts).consts == o.consts {
      assert [] + o.code == o.code;
      assert [] + o.consts == o.consts;
    }
  }
}
