/** What each form of expression adds to the state: the emission of a whole from the emissions of its parts. */
module ExprEmission {
  import opened Base
  import opened Syntax
  import opened Bytecode
  import opened CodeGen
  import opened Grammar
  import opened Emission

  lemma {:induction false} InfixUncodable(left: Expr, ts: seq<Token>, cx: Cx)
    requires ts != [] && Fragment(left, cx).None? && Infix(left, ts).Ok?
    ensures Fragment(Infix(left, ts).value, cx).None?
  {
    hide Precedence, Resolve, Encode, Consts;
  }

  /** Once an operand cannot be coded, nothing parsed around it can. */
  lemma {:induction false} Uncodable(level: nat, left: Expr, ts: seq<Token>, cx: Cx)
    requires Fragment(left, cx).None? && Infixes(level, left, ts).Ok?
    ensures Fragment(Infixes(level, left, ts).value, cx).None?
    decreases |ts|
  {
    hide Infix, Fragment;
    if ts != [] && Prec(ts[0]) >= level {
      InfixUncodable(left, ts, cx);
      var r := Infix(left, ts);
      Uncodable(level, r.value, r.rest, cx);
    }
  }

  lemma {:induction false} PrefixIs(level: nat, ts: seq<Token>, cx: Cx)
    requires ts != []
    ensures var p := Prefix(level <= ASSIGN, ts);
            && Precedence(level, ts) == (if p.Ok? then Finish(level, Infixes(level, p.value, p.rest)) else Failure)
            && (CodeOfE(p, cx).Fails? ==> CodeOfE(Precedence(level, ts), cx).Fails?)
  {
    hide Prefix, Infixes, Fragment;
    var p := Prefix(level <= ASSIGN, ts);
    if p.Ok? && Fragment(p.value, cx).None? && Infixes(level, p.value, p.rest).Ok? {
      Uncodable(level, p.value, p.rest, cx);
    }
  }

  lemma {:induction false} InfixesStep(level: nat, left: Expr, ts: seq<Token>, cx: Cx)
    requires ts != [] && Prec(ts[0]) >= level
    ensures var e := Infix(left, ts);
            && Infixes(level, left, ts) == (if e.Ok? then Infixes(level, e.value, e.rest) else Failure)
            && (CodeOfE(e, cx).Fails? ==> CodeOfE(Infixes(level, left, ts), cx).Fails?)
  {
    hide Infix, Fragment;
    var e := Infix(left, ts);
    if e.Ok? && Fragment(e.value, cx).None? && Infixes(level, e.value, e.rest).Ok? {
      Uncodable(level, e.value, e.rest, cx);
    }
  }

  /** The left operand's code has just been emitted and its operator read. */
  ghost predicate AfterLeft(s0: Snap, left: Expr, ts: seq<Token>, now: Snap) {
    && s0.Valid() && now.Valid()
    && Fragment(left, Context(s0)).Some?
    && now == Emit(s0, Fragment(left, Context(s0)).value, ts)
  }

  /** The fragment of each form, put together from the fragments of its parts in the order they are emitted. */
  lemma {:induction false} BinaryFragment(l: Expr, op: BinOp, r: Expr, cx: Cx)
    requires Fragment(l, cx).Some?
    ensures var a := Fragment(l, cx).value;
            var b := Fragment(r, After(cx, a));
            Fragment(Binary(op, l, r), cx) ==
              (if b.None? then None else Some(Join(Join(a, b.value), Plain([BinOpcode(op)], [], cx))))
  {
    hide Resolve, Jump, JumpIfFalse;
    assert forall c: seq<Value> :: c + [] == c;
  }

  lemma {:induction false} Regroup<T>(a: seq<T>, b: seq<T>, c: seq<T>)
    ensures a + b + c == a + (b + c)
  {
  }

  lemma {:induction false} JumpBytes(off: nat)
    ensures JumpIfFalse(off) == (if off <= JUMP_MAX then Some([39, Hi(off), Lo(off)]) else None)
    ensures Jump(off) == (if off <= JUMP_MAX then Some([41, Hi(off), Lo(off)]) else None)
  {
  }

  /** A jump over the right operand and the pop that clears the left one's value. */
  function Skip(a: Out, opcode: Byte, b: Out, extra: nat, cx: Cx): Option<Out> {
    var off := 1 + |b.code| + extra;
    if off > JUMP_MAX then None
    else Some(Join(Join(a, Plain([opcode, Hi(off), Lo(off)] + POP, [], cx)), b))
  }

  lemma {:induction false} AndFragment(l: Expr, r: Expr, cx: Cx)
    requires Fragment(l, cx).Some?
    ensures var a := Fragment(l, cx).value;
            var b := Fragment(r, After(cx, a));
            Fragment(And(l, r), cx) == (if b.None? then None else Skip(a, 39, b.value, 0, cx))
  {
    hide Resolve, Jump, JumpIfFalse, Encode;
    var a := Fragment(l, cx).value;
    var b := Fragment(r, After(cx, a));
    if b.Some? {
      JumpBytes(1 + |b.value.code|);
      if 1 + |b.value.code| <= JUMP_MAX {
        Regroup(a.code, JumpIfFalse(1 + |b.value.code|).value, POP);
        NoConstants(a.consts, b.value.consts);
      }
    }
  }

  lemma {:induction false} OrFragment(l: Expr, r: Expr, cx: Cx)
    requires Fragment(l, cx).Some?
    ensures var a := Fragment(l, cx).value;
            var b := Fragment(r, After(cx, a));
            Fragment(Or(l, r), cx) ==
              (if b.None? then None else Skip(Join(a, Plain([39, 0, 3], [], cx)), 41, b.value, 0, cx))
  {
    hide Resolve, Jump, JumpIfFalse;
    var a := Fragment(l, cx).value;
    var b := Fragment(r, After(cx, a));
    assert [39, 0, 3] == Encode(IJumpIfFalse(3));
    if b.Some? {
      JumpBytes(1 + |b.value.code|);
      if 1 + |b.value.code| <= JUMP_MAX {
        Regroup(a.code + [39, 0, 3], Jump(1 + |b.value.code|).value, POP);
        NoConstants(a.consts, b.value.consts);
      }
    }
  }

  lemma {:induction false} NoConstants<T>(a: seq<T>, b: seq<T>)
    ensures a + [] == a && a + [] + b == a + b && a + [] + [] + b == a + b
  {
  }

  function Ternary(a: Out, b: Out, d: Out, cx: Cx): Option<Out> {
    var m :- Skip(a, 39, b, 3, cx);
    Skip(m, 41, d, 0, cx)
  }

  lemma {:induction false} TernaryCode(c: Expr, t: Expr, f: Expr, locals: seq<Local>, k: nat)
    requires CodeE(Cond(c, t, f), locals, k).Some?
    ensures var a := CodeE(c, locals, k);
            var b := CodeE(t, locals, k + |Consts(c)|);
            var d := CodeE(f, locals, k + |Consts(c)| + |Consts(t)|);
            && a.Some? && b.Some? && d.Some?
            && var m, n := 1 + |b.value| + 3, 1 + |d.value|;
               m <= JUMP_MAX && n <= JUMP_MAX
               && CodeE(Cond(c, t, f), locals, k).value ==
                  a.value + ([39, Hi(m), Lo(m)] + POP) + b.value + ([41, Hi(n), Lo(n)] + POP) + d.value
  {
    hide Resolve, Encode, Jump, JumpIfFalse, Consts;
    var a := CodeE(c, locals, k).value;
    var b := CodeE(t, locals, k + |Consts(c)|).value;
    JumpBytes(1 + |b| + 3);
    var d := CodeE(f, locals, k + |Consts(c)| + |Consts(t)|).value;
    JumpBytes(1 + |d|);
    var j1, j2 := JumpIfFalse(1 + |b| + 3).value, Jump(1 + |d|).value;
    Regroup(a, j1, POP);
    Regroup(a + j1 + POP + b, j2, POP);
  }

  lemma {:induction false} TernaryFragment(c: Expr, t: Expr, f: Expr, cx: Cx)
    requires Fragment(c, cx).Some?
    ensures var a := Fragment(c, cx).value;
            var b := Fragment(t, After(cx, a));
            && (b.None? ==> Fragment(Cond(c, t, f), cx).None?)
            && (b.Some? ==>
                  var d := Fragment(f, After(After(cx, a), b.value));
                  Fragment(Cond(c, t, f), cx) == (if d.None? then None else Ternary(a, b.value, d.value, cx)))
  {
    hide CodeE, JoinHole;
    var a := Fragment(c, cx).value;
    var b := Fragment(t, After(cx, a));
    if Fragment(Cond(c, t, f), cx).Some? {
      TernaryCode(c, t, f, cx.locals, cx.k);
      TernarySplice(a, b.value, Fragment(f, After(After(cx, a), b.value)).value, cx);
    } else if b.Some? && Fragment(f, After(After(cx, a), b.value)).Some? {
      TernaryFails(c, t, f, cx.locals, cx.k);
    }
  }

  lemma {:induction false} TernaryFails(c: Expr, t: Expr, f: Expr, locals: seq<Local>, k: nat)
    requires CodeE(Cond(c, t, f), locals, k).None? && CodeE(c, locals, k).Some?
    requires CodeE(t, locals, k + |Consts(c)|).Some? && CodeE(f, locals, k + |Consts(c)| + |Consts(t)|).Some?
    ensures var m := 1 + |CodeE(t, locals, k + |Consts(c)|).value| + 3;
            var n := 1 + |CodeE(f, locals, k + |Consts(c)| + |Consts(t)|).value|;
            m > JUMP_MAX || n > JUMP_MAX
  {
    hide Resolve, Encode;
  }

  lemma {:induction false} TernarySplice(a: Out, b: Out, d: Out, cx: Cx)
    requires a.hole == -1 && b.hole == -1 && d.hole == -1 && d.locals == cx.locals && Ternary(a, b, d, cx).Some?
    ensures var m, n := 1 + |b.code| + 3, 1 + |d.code|;
            m <= JUMP_MAX && n <= JUMP_MAX
            && Ternary(a, b, d, cx).value ==
               Plain(a.code + ([39, Hi(m), Lo(m)] + POP) + b.code + ([41, Hi(n), Lo(n)] + POP) + d.code,
                     a.consts + b.consts + d.consts, cx)
  {
    assert a.consts + [] + b.consts + [] + d.consts == a.consts + b.consts + d.consts;
  }

  lemma {:induction false} AssignFragment(x: Name, e: Expr, cx: Cx)
    ensures var i := Resolve(cx.locals, x);
            var a := Fragment(e, cx);
            Fragment(Assign(x, e), cx) ==
              (if i.None? || a.None? then None else Some(Join(a.value, Plain([31, i.value], [], cx))))
  {
    assert forall c: seq<Value> :: c + [] == c;
  }

  lemma {:induction false} UnaryFragment(u: UnOp, e: Expr, cx: Cx)
    ensures var a := Fragment(e, cx);
            Fragment(Unary(u, e), cx) == (if a.None? then None else Some(Join(a.value, Plain([UnOpcode(u)], [], cx))))
  {
    assert forall c: seq<Value> :: c + [] == c;
  }

  /** What the bytes after an operator's right operand complete, given that the operand's own emission was e. */
  ghost predicate Completes(e: Emission, done: Snap, w: Emission, s0: Snap) {
    && w.Emits? == e.Emits?
    && (w.Emits? ==> done == Emit(s0, w.o, w.rest) && done.Valid())
  }

  lemma {:induction false} SameLocalsValid(s: Snap, o: Out, ts: seq<Token>)
    requires s.Valid() && o.locals == s.locals
    ensures Emit(s, o, ts).Valid()
  {
  }

  lemma {:induction false} BinaryEmits(s0: Snap, left: Expr, op: BinOp, ts: seq<Token>, now: Snap)
    requires Starts(ts, Op(op)) && AfterLeft(s0, left, ts[1..], now)
    ensures var e := CodeOfE(Precedence(RightLevel(op), ts[1..]), Context(now));
            Completes(e, if e.Emits? then Emit(now, e.o, e.rest).Put([BinOpcode(op)]) else now,
                      CodeOfE(Infix(left, ts), Context(s0)), s0)
  {
    hide Precedence, Fragment, Emit, RightLevel, BinOpcode;
    var cx := Context(s0);
    var a := Fragment(left, cx).value;
    EmitContext(s0, a, ts[1..]);
    var r := Precedence(RightLevel(op), ts[1..]);
    if r.Ok? {
      BinaryFragment(left, op, r.value, cx);
      var b := Fragment(r.value, After(cx, a));
      if b.Some? {
        EmitJoin(s0, a, ts[1..], b.value, r.rest);
        PutJoin(s0, Join(a, b.value), r.rest, [BinOpcode(op)], cx);
        SameLocalsValid(s0, Join(Join(a, b.value), Plain([BinOpcode(op)], [], cx)), r.rest);
      }
    }
  }

  /** An expression depends on its context only through the locals and the number of constants. */
  lemma {:induction false} SameCode(r: Parsed<Expr>, a: Cx, b: Cx)
    requires a.locals == b.locals && a.k == b.k
    ensures CodeOfE(r, a) == CodeOfE(r, b)
  {
    hide CodeE;
  }

  /** A placeholder and a pop after a fragment do not change how an expression after them is coded. */
  lemma {:induction false} SkipContext(s: Snap, a: Out, t: seq<Token>, opcode: Byte, r: Parsed<Expr>)
    requires s.Valid() && a.locals == s.locals
    ensures var q := Emit(s, a, t).Put([opcode, 255, 255]).Put(POP);
            q.Valid() && CodeOfE(r, Context(q)) == CodeOfE(r, After(Context(s), a))
  {
    SameCode(r, Context(Emit(s, a, t).Put([opcode, 255, 255]).Put(POP)), After(Context(s), a));
  }

  lemma {:induction false} SkipEmits(s: Snap, a: Out, t: seq<Token>, opcode: Byte, b: Out, ts: seq<Token>)
    requires s.Valid() && a.locals == s.locals && b.locals == s.locals && (a.hole < 0 || b.hole < 0)
    ensures var q := Emit(Emit(s, a, t).Put([opcode, 255, 255]).Put(POP), b, ts);
            var o := Skip(a, opcode, b, 0, Context(s));
            && |q.code| - (|s.code| + |a.code| + 1) - 2 == 1 + |b.code|
            && (o.None? == (1 + |b.code| > JUMP_MAX))
            && (o.Some? ==> q.Patched(|s.code| + |a.code| + 1) == Emit(s, o.value, ts) && Emit(s, o.value, ts).Valid())
  {
    hide Offset;
    if 1 + |b.code| <= JUMP_MAX {
      PatchJoin(s, a, t, opcode, POP, b, ts, Context(s));
      SameLocalsValid(s, Skip(a, opcode, b, 0, Context(s)).value, ts);
    }
  }

  lemma {:induction false} AndIs(left: Expr, ts: seq<Token>, cx: Cx)
    requires Starts(ts, AndT) && Fragment(left, cx).Some?
    ensures var a := Fragment(left, cx).value;
            var e := CodeOfE(Precedence(AND, ts[1..]), After(cx, a));
            CodeOfE(Infix(left, ts), cx) == (if e.Emits? then OrFails(Skip(a, 39, e.o, 0, cx), e.rest) else Fails)
  {
    hide Precedence, Fragment, Skip;
    var r := Precedence(AND, ts[1..]);
    if r.Ok? { AndFragment(left, r.value, cx); }
  }

  lemma {:induction false} OrIs(left: Expr, ts: seq<Token>, cx: Cx)
    requires Starts(ts, OrT) && Fragment(left, cx).Some?
    ensures var a := Fragment(left, cx).value;
            var e := CodeOfE(Precedence(OR, ts[1..]), After(cx, a));
            CodeOfE(Infix(left, ts), cx) ==
              (if e.Emits? then OrFails(Skip(Join(a, Plain([39, 0, 3], [], cx)), 41, e.o, 0, cx), e.rest) else Fails)
  {
    hide Precedence, Fragment, Skip;
    var r := Precedence(OR, ts[1..]);
    if r.Ok? { OrFragment(left, r.value, cx); }
  }

  lemma {:induction false} TernaryIs(left: Expr, ts: seq<Token>, cx: Cx)
    requires Starts(ts, QuestionT) && Fragment(left, cx).Some?
    ensures var a := Fragment(left, cx).value;
            var e := CodeOfE(Expect(Precedence(ASSIGN, ts[1..]), ColonT), After(cx, a));
            var w := CodeOfE(Infix(left, ts), cx);
            && (e.Fails? ==> w.Fails?)
            && (e.Emits? ==>
                  var d := CodeOfE(Precedence(ASSIGN, e.rest), After(After(cx, a), e.o));
                  w == (if d.Emits? then OrFails(Ternary(a, e.o, d.o, cx), d.rest) else Fails))
  {
    hide Precedence, Fragment, Ternary, After;
    var t := Expect(Precedence(ASSIGN, ts[1..]), ColonT);
    if t.Ok? {
      var f := Precedence(ASSIGN, t.rest);
      if f.Ok? { TernaryFragment(left, t.value, f.value, cx); }
    }
  }

  /** The false case's own jump, patched at once to skip the next jump. */
  lemma {:induction false} OrTest(s: Snap, a: Out, t: seq<Token>)
    requires a.locals == s.locals && s.Valid()
    ensures var q := Emit(s, a, t).Put([39, 255, 255]).Put([41, 255, 255]);
            var o := Join(a, Plain([39, 0, 3], [], Context(s)));
            && |q.code| - (|s.code| + |a.code| + 1) - 2 == 3
            && q.Patched(|s.code| + |a.code| + 1) == Emit(s, o, t).Put([41, 255, 255])
  {
    assert Offset(s.code + a.code + [39, 255, 255] + [41, 255, 255], |s.code| + |a.code| + 1, 3)
           == s.code + (a.code + [39, 0, 3]) + [41, 255, 255];
    assert s.consts + a.consts == s.consts + (a.consts + []);
  }

  /** The code up to the jump over the last part, once the first jump is patched. */
  lemma {:induction false} TwoWay(s: Snap, a: Out, t: seq<Token>, b: Out, ts: seq<Token>)
    requires s.Valid() && b.Valid() && a.locals == s.locals && b.locals == s.locals && a.hole == -1
    ensures var q := Emit(Emit(s, a, t).Put([39, 255, 255]).Put(POP), b, ts).Put([41, 255, 255]);
            var o := Skip(a, 39, b, 3, Context(s));
            && |q.code| - (|s.code| + |a.code| + 1) - 2 == 1 + |b.code| + 3
            && (o.None? == (1 + |b.code| + 3 > JUMP_MAX))
            && (o.Some? ==> q.Patched(|s.code| + |a.code| + 1) == Emit(s, o.value, ts).Put([41, 255, 255])
                            && o.value.locals == s.locals && |o.value.code| == |a.code| + 4 + |b.code|
                            && o.value.Valid() && (b.hole < 0 ==> o.value.hole == -1))
  {
    hide Offset;
    if 1 + |b.code| + 3 <= JUMP_MAX {
      PatchOver(s, a, t, 39, POP, b, [41, 255, 255], ts, Context(s));
    }
  }

  /** The last part is coded as after the first two, whatever jumps lie between them. */
  lemma {:induction false} TernaryRest(s0: Snap, left: Expr, ts: seq<Token>, m: Out, r: Parsed<Expr>)
    requires s0.Valid() && Starts(ts, QuestionT) && Fragment(left, Context(s0)).Some?
    requires var a := Fragment(left, Context(s0)).value;
             var b := CodeOfE(Precedence(ASSIGN, ts[1..]), After(Context(s0), a));
             b.Emits? && Skip(a, 39, b.o, 3, Context(s0)) == Some(m)
    ensures var a := Fragment(left, Context(s0)).value;
            var b := CodeOfE(Precedence(ASSIGN, ts[1..]), After(Context(s0), a));
            CodeOfE(r, After(Context(s0), m)) == CodeOfE(r, After(After(Context(s0), a), b.o))
  {
    hide Precedence, CodeE;
  }

  /** A ternary fails to compile when its second part does, or when that part is too long to jump over. */
  lemma {:induction false} TernaryStart(left: Expr, ts: seq<Token>, cx: Cx)
    requires Starts(ts, QuestionT) && Fragment(left, cx).Some?
    ensures var a := Fragment(left, cx).value;
            var b := CodeOfE(Precedence(ASSIGN, ts[1..]), After(cx, a));
            (b.Fails? || Skip(a, 39, b.o, 3, cx).None?) ==> CodeOfE(Infix(left, ts), cx).Fails?
  {
    hide Precedence, Fragment, Infix, After, Skip;
    TernaryIs(left, ts, cx);
  }

  /** All that the second half of a ternary needs: how its last part is coded, and what patching the jump over it
      completes. */
  lemma {:induction false} ElseOfTernary(s0: Snap, left: Expr, ts: seq<Token>, m: Out, mid: seq<Token>, elseJump: nat)
    requires s0.Valid() && m.Valid() && m.locals == s0.locals && m.hole < 0 && elseJump == |s0.code| + |m.code| + 1
    requires Starts(ts, QuestionT) && Fragment(left, Context(s0)).Some?
    requires var b := CodeOfE(Precedence(ASSIGN, ts[1..]), After(Context(s0), Fragment(left, Context(s0)).value));
             b.Emits? && b.rest == mid && Skip(Fragment(left, Context(s0)).value, 39, b.o, 3, Context(s0)) == Some(m)
    ensures var q := Emit(s0, m, mid).Put([41, 255, 255]).Put(POP);
            var w := CodeOfE(Infix(left, ts), Context(s0));
            if Starts(mid, ColonT) then
              var d := CodeOfE(Precedence(ASSIGN, mid[1..]), After(Context(s0), m));
              var done := if d.Emits? then Emit(q, d.o, d.rest) else q;
              && q.Valid() && q.Past(mid[1..]).Valid()
              && d == CodeOfE(Precedence(ASSIGN, mid[1..]), Context(q.Past(mid[1..])))
              && (d.Fails? || |done.code| - elseJump - 2 > JUMP_MAX ==> w.Fails?)
              && (d.Emits? && |done.code| - elseJump - 2 <= JUMP_MAX ==> Meets(true, s0, done.Patched(elseJump), w))
            else w.Fails?
  {
    hide Precedence, Fragment, Infix, Skip, Offset, Context, Emit, Join, After, CodeE;
    TernaryIs(left, ts, Context(s0));
    EmitContext(s0, m, mid);
    if Starts(mid, ColonT) {
      var r := Precedence(ASSIGN, mid[1..]);
      SkipContext(s0, m, mid, 41, r);
      PutContext(Emit(s0, m, mid).Put([41, 255, 255]).Put(POP), [], mid[1..]);
      TernaryRest(s0, left, ts, m, r);
      var d := CodeOfE(r, After(Context(s0), m));
      if d.Emits? { SkipEmits(s0, m, mid, 41, d.o, d.rest); }
    }
  }

  lemma {:induction false} NamedIs(canAssign: bool, x: Name, ts: seq<Token>, cx: Cx)
    requires Starts(ts, IdT(x))
    ensures var i := Resolve(cx.locals, x);
            var w := CodeOfE(Prefix(canAssign, ts), cx);
            if canAssign && Starts(ts[1..], AssignT) then
              var e := CodeOfE(Precedence(ASSIGN, ts[1..][1..]), cx);
              w == (if e.Fails? || i.None? then Fails else Emits(Join(e.o, Plain([31, i.value], [], cx)), e.rest))
            else
              w == (if i.None? then Fails else Emits(Plain([30, i.value], [], cx), ts[1..]))
  {
    hide Precedence, Resolve;
    if canAssign && Starts(ts[1..], AssignT) {
      assert ts[1..][1..] == ts[2..];
      var r := Precedence(ASSIGN, ts[2..]);
      if r.Ok? { AssignFragment(x, r.value, cx); }
    }
  }

  lemma {:induction false} UnaryIs(u: UnOp, ts: seq<Token>, cx: Cx)
    ensures var e := CodeOfE(Precedence(UNARY, ts), cx);
            CodeOfE(Prefixed(u, ts), cx) ==
              (if e.Fails? then Fails else Emits(Join(e.o, Plain([UnOpcode(u)], [], cx)), e.rest))
  {
    hide Precedence, Fragment, UnOpcode;
    var r := Precedence(UNARY, ts);
    if r.Ok? { UnaryFragment(u, r.value, cx); }
  }

  function LiteralCode(t: Token): seq<Byte> {
    match t
    case TrueT => [6]
    case FalseT => [7]
    case NoneT => [5]
    case _ => []
  }

  lemma {:induction false} PrefixCases(canAssign: bool, ts: seq<Token>, cx: Cx)
    requires ts != []
    ensures var w := CodeOfE(Prefix(canAssign, ts), cx);
            match ts[0]
            case NumT(n) =>
              w == (if cx.k < CONSTANTS_MAX then Emits(Plain(Encode(IConst(cx.k)), [I32(n)], cx), ts[1..]) else Fails)
            case TrueT => w == Emits(Plain(LiteralCode(ts[0]), [], cx), ts[1..])
            case FalseT => w == Emits(Plain(LiteralCode(ts[0]), [], cx), ts[1..])
            case NoneT => w == Emits(Plain(LiteralCode(ts[0]), [], cx), ts[1..])
            case IdT(x) => true
            case BangT => w == CodeOfE(Prefixed(Not, ts[1..]), cx)
            case TildeT => w == CodeOfE(Prefixed(BitNot, ts[1..]), cx)
            case LParen => w == CodeOfE(Expect(Precedence(ASSIGN, ts[1..]), RParen), cx)
            case Op(op) => w == (if op == Sub then CodeOfE(Prefixed(Neg, ts[1..]), cx) else Fails)
            case _ => w.Fails?
  {
    hide Precedence, Prefixed, Expect;
  }
}
