/** The same for statements: contexts after a placeholder, two-way branches, loops closed by patching, and scopes. */
module StmtEmission {
  import opened Base
  import opened Syntax
  import opened Bytecode
  import opened CodeGen
  import opened Grammar
  import opened Emission
  import opened ExprEmission

  lemma {:induction false} IfOutIs(cx: Cx, a: Out, b: Out, d: Out)
    requires a.Valid() && b.Valid() && d.Valid() && a.hole == -1
    ensures IfOut(cx, a, b, d) == Ternary(a, b, d, cx)
  {
    hide Encode;
    JumpBytes(1 + |b.code| + 3);
    JumpBytes(1 + |d.code|);
    hide Join, Plain, Jump, JumpIfFalse;
  }

  /** The context after a placeholder and a pop. */
  lemma {:induction false} BranchContext(s: Snap, a: Out, t: seq<Token>, opcode: Byte)
    requires s.Valid() && a.locals == s.locals
    ensures var q := Emit(s, a, t).Put([opcode, 255, 255]).Put(POP);
            q.Valid() && Context(q) == After(Context(s), Join(a, Plain([opcode, 255, 255] + POP, [], Context(s))))
  {
  }

  /** Patching a jump does not change where the code after it stands. */
  lemma {:induction false} ElseContext(cx: Cx, a: Out, b: Out, cx1: Cx)
    requires a.hole == -1 && b.Valid() && a.locals == cx.locals && b.locals == cx.locals && Skip(a, 39, b, 3, cx).Some?
    requires cx1 == After(cx, Join(a, Plain([39, 255, 255] + POP, [], cx)))
    ensures var m := Skip(a, 39, b, 3, cx).value;
            After(cx, Join(m, Plain([41, 255, 255] + POP, [], cx)))
              == After(After(cx1, b), Plain([41, 255, 255] + POP, [], cx))
  {
  }

  /** An `if`, part by part; a missing else part emits nothing. */
  lemma {:induction false} IfIs(ts: seq<Token>, cx: Cx)
    ensures var e := CodeOfE(Condition(ts), cx);
            var w := CodeOf(IfStatement(ts), cx);
            && (e.Fails? ==> w.Fails?)
            && (e.Emits? ==>
                  var cx1 := After(cx, Join(e.o, Plain([39, 255, 255] + POP, [], cx)));
                  var t := CodeOf(Statement(e.rest), cx1);
                  && (t.Fails? ==> w.Fails?)
                  && (t.Emits? ==>
                        var cx2 := After(After(cx1, t.o), Plain([41, 255, 255] + POP, [], cx));
                        var f := if Starts(t.rest, ElseT) then CodeOf(Statement(t.rest[1..]), cx2)
                                 else Emits(Plain([], [], cx2), t.rest);
                        w == (if f.Fails? then Fails else OrFails(Ternary(e.o, t.o, f.o, cx), f.rest))))
  {
    hide Condition, Fragment, Statement, Ternary, CodeS;
    var c := Condition(ts);
    if c.Ok? && Fragment(c.value, cx).Some? {
      var a := Fragment(c.value, cx).value;
      var cx1 := After(cx, Join(a, Plain([39, 255, 255] + POP, [], cx)));
      var t := Statement(c.rest);
      if t.Ok? {
        if Starts(t.rest, ElseT) {
          var f := Statement(t.rest[1..]);
          if f.Ok? { IfCode(c.value, t.value, f.value, cx); }
        } else {
          IfCode(c.value, t.value, Block(End), cx);
          if CodeS(t.value, cx1).Some? {
            EmptyBlock(After(After(cx1, CodeS(t.value, cx1).value), Plain([41, 255, 255] + POP, [], cx)));
          }
        }
      }
    } else if c.Ok? {
      forall t, f ensures CodeS(If(c.value, t, f), cx).None? { IfCode(c.value, t, f, cx); }
    }
  }

  lemma {:induction false} IfCode(c: Expr, t: Stmt, f: Stmt, cx: Cx)
    ensures var a := Fragment(c, cx);
            && (a.None? ==> CodeS(If(c, t, f), cx).None?)
            && (a.Some? ==>
                  var cx1 := After(cx, Join(a.value, Plain([39, 255, 255] + POP, [], cx)));
                  var b := CodeS(t, cx1);
                  && (b.None? ==> CodeS(If(c, t, f), cx).None?)
                  && (b.Some? ==>
                        var cx2 := After(After(cx1, b.value), Plain([41, 255, 255] + POP, [], cx));
                        var d := CodeS(f, cx2);
                        CodeS(If(c, t, f), cx) == (if d.None? then None else Ternary(a.value, b.value, d.value, cx))))
  {
    hide Fragment, IfOut, Ternary, After, Join, Plain;
    if Fragment(c, cx).Some? {
      var a := Fragment(c, cx).value;
      var cx1 := After(cx, Join(a, Plain([39, 255, 255] + POP, [], cx)));
      if CodeS(t, cx1).Some? {
        var b := CodeS(t, cx1).value;
        var d := CodeS(f, After(After(cx1, b), Plain([41, 255, 255] + POP, [], cx)));
        if d.Some? { IfOutIs(cx, a, b, d.value); }
      }
    }
  }

  lemma {:induction false} EmptyBlock(cx: Cx)
    ensures CodeS(Block(End), cx) == Some(Plain([], [], cx))
  {
  }

  lemma {:induction false} BackBytes(distance: nat)
    ensures LoopBack(distance) ==
              (if distance + 3 <= JUMP_MAX then Some([42, Hi(distance + 3), Lo(distance + 3)]) else None)
  {
  }

  /** A `while` before its break operand is patched. */
  function WhileBody(cx: Cx, a: Out, b: Out): (r: Option<Out>)
    ensures r.Some? ==> r.value.locals == cx.locals
  {
    var m, n := 1 + |b.code| + 3, |a.code| + 4 + |b.code| + 3;
    if m > JUMP_MAX || n > JUMP_MAX then None
    else Some(Join(Join(Join(a, Plain([39, Hi(m), Lo(m)] + POP, [], cx)), b), Plain([42, Hi(n), Lo(n)] + POP, [], cx)))
  }

  lemma {:induction false} WhileOutIs(cx: Cx, a: Out, b: Out)
    requires a.Valid() && b.Valid()
    ensures var o := WhileBody(cx, a, b);
            (o.Some? ==> o.value.Valid()) && WhileOut(cx, a, b) == (if o.Some? then Close(o.value) else None)
  {
    hide Encode, Close;
    JumpBytes(1 + |b.code| + 3);
    BackBytes(|a.code| + 4 + |b.code|);
    hide Join, Plain, JumpIfFalse, LoopBack;
  }

  lemma {:induction false} WhileCode(c: Expr, body: Stmt, cx: Cx)
    ensures var a := Fragment(c, cx);
            && (a.None? ==> CodeS(While(c, body), cx).None?)
            && (a.Some? ==>
                  var b := CodeS(body, BodyCx(cx, |a.value.consts|, |a.value.code| + 4));
                  CodeS(While(c, body), cx) == (if b.None? then None else WhileOut(cx, a.value, b.value)))
  {
    hide Fragment, WhileOut, BodyCx, CodeE, Join, Plain, Close, Pops, CodeDs, CodeArms, MatchOut, IfOut, LoopOut,
        ForOut, ForCond, After;
  }

  lemma {:induction false} WhileIs(ts: seq<Token>, cx: Cx)
    requires Starts(ts, WhileT)
    ensures var e := CodeOfE(Condition(ts[1..]), cx);
            var w := CodeOf(Statement(ts), cx);
            && (e.Fails? ==> w.Fails?)
            && (e.Emits? ==>
                  var b := CodeOf(Statement(e.rest), BodyCx(cx, |e.o.consts|, |e.o.code| + 4));
                  w == (if b.Fails? then Fails else OrFails(WhileOut(cx, e.o, b.o), b.rest)))
  {
    hide Condition, Fragment, WhileOut, BodyCx, CodeS, For, IfStatement, MatchStatement, BlockItems, ExprStatement,
        Expect;
    var c := Condition(ts[1..]);
    if c.Ok? {
      var b := Statement(c.rest);
      if b.Ok? { WhileCode(c.value, b.value, cx); }
    }
  }

  lemma {:induction false} LoopIs(ts: seq<Token>, cx: Cx)
    requires Starts(ts, LoopT)
    ensures var b := CodeOf(Statement(ts[1..]), BodyCx(cx, 0, 0));
            CodeOf(Statement(ts), cx) == (if b.Fails? then Fails else OrFails(LoopOut(cx, b.o), b.rest))
  {
    hide Fragment, LoopOut, BodyCx;
  }

  /** Entering a loop at the start of a `while`: the body's context, and the whole as one open fragment. */
  lemma {:induction false} WhileContext(s: Snap, a: Out, t: seq<Token>)
    requires s.Valid() && a.locals == s.locals && a.hole == -1
    ensures var q := Emit(s.Enter(|s.code|), a, t).Put([39, 255, 255]).Put(POP);
            && Emit(s, a, t).Enter(|s.code|) == Emit(s.Enter(|s.code|), a, t)
            && q.Valid() && Context(q) == BodyCx(Context(s), |a.consts|, |a.code| + 4)
  {
    EnterLater(s, |s.code|, a, t);
  }

  lemma {:induction false} WhileEmits(s: Snap, a: Out, t: seq<Token>, b: Out, ts: seq<Token>, cx: Cx)
    requires b.Valid() && a.locals == cx.locals && b.locals == cx.locals && a.hole == -1
    requires |a.code| + 4 + |b.code| + 3 <= JUMP_MAX
    ensures var n := |a.code| + 4 + |b.code| + 3;
            var q := Emit(Emit(s, a, t).Put([39, 255, 255]).Put(POP), b, ts).Put([42, Hi(n), Lo(n)]);
            var o := WhileBody(cx, a, b);
            && |q.code| - (|s.code| + |a.code| + 1) - 2 == 1 + |b.code| + 3
            && o.Some? && q.Patched(|s.code| + |a.code| + 1).Put(POP) == Emit(s, o.value, ts)
  {
    hide Offset;
    var n := |a.code| + 4 + |b.code| + 3;
    PatchOver(s, a, t, 39, POP, b, [42, Hi(n), Lo(n)], ts, cx);
    var o := Skip(a, 39, b, 3, cx).value;
    PutTwice(Emit(s, o, ts), [42, Hi(n), Lo(n)], POP);
    PutJoin(s, o, ts, [42, Hi(n), Lo(n)] + POP, cx);
  }

  /** What leaving a loop makes of the state at its end. */
  ghost predicate Closes(t: Snap, w: Option<Out>, s: Snap, ts: seq<Token>) {
    && t.loops != []
    && var end := t.loops[|t.loops| - 1].end;
       && (end == -1 || (0 <= end && end + 2 <= |t.code|))
       && w.Some? == (end == -1 || |t.code| - end - 2 <= JUMP_MAX)
       && (w.Some? ==> Emit(s, w.value, ts) == (if end == -1 then t else t.Patched(end)).Leave()
                       && Emit(s, w.value, ts).Valid())
  }

  lemma {:induction false} ClosesLoop(s: Snap, start: nat, o: Out, ts: seq<Token>)
    requires s.Valid() && o.Valid() && o.locals == s.locals
    ensures Closes(Emit(s.Enter(start), o, ts), Close(o), s, ts)
  {
    hide Offset;
    CloseLoop(s, start, o, ts);
  }

  /** The end of a `while`, from its body on. */
  lemma {:induction false} WhileCloses(s: Snap, a: Out, t: seq<Token>, b: Out, ts: seq<Token>)
    requires s.Valid() && a.Valid() && b.Valid() && a.locals == s.locals && b.locals == s.locals && a.hole == -1
    ensures var n := |a.code| + 4 + |b.code| + 3;
            var q := Emit(Emit(s.Enter(|s.code|), a, t).Put([39, 255, 255]).Put(POP), b, ts);
            var w := WhileOut(Context(s), a, b);
            && |q.code| - |s.code| + 3 == n
            && (n > JUMP_MAX ==> w.None?)
            && (n <= JUMP_MAX ==>
                  var r := q.Put([42, Hi(n), Lo(n)]);
                  && |r.code| - (|s.code| + |a.code| + 1) - 2 == 1 + |b.code| + 3
                  && (1 + |b.code| + 3 > JUMP_MAX ==> w.None?)
                  && (1 + |b.code| + 3 <= JUMP_MAX ==> Closes(r.Patched(|s.code| + |a.code| + 1).Put(POP), w, s, ts)))
  {
    hide Closes, Offset, WhileOut, Context, Join, Plain;
    var n := |a.code| + 4 + |b.code| + 3;
    WhileOutIs(Context(s), a, b);
    if n <= JUMP_MAX {
      WhileEmits(s.Enter(|s.code|), a, t, b, ts, Context(s));
      ClosesLoop(s, |s.code|, WhileBody(Context(s), a, b).value, ts);
    }
  }

  lemma {:induction false} PutTwice(s: Snap, a: seq<Byte>, b: seq<Byte>)
    ensures s.Put(a).Put(b) == s.Put(a + b)
  {
    assert s.code + a + b == s.code + (a + b);
  }

  function ElsePart(m: Out, mid: seq<Token>, cx: Cx): Emission {
    var c2 := After(cx, Join(m, Plain([41, 255, 255] + POP, [], cx)));
    if Starts(mid, ElseT) then CodeOf(Statement(mid[1..]), c2) else Emits(Plain([], [], c2), mid)
  }

  function ElseEmission(m: Out, mid: seq<Token>, cx: Cx): Emission {
    var d := ElsePart(m, mid, cx);
    if d.Emits? then OrFails(Skip(m, 41, d.o, 0, cx), d.rest) else Fails
  }

  lemma {:induction false} ElseFits(m: Out, mid: seq<Token>, cx: Cx)
    requires m.locals == cx.locals && (m.hole >= 0 ==> cx.loop.InLoop?) && ElsePart(m, mid, cx).Emits?
    ensures var d := ElsePart(m, mid, cx).o;
            d.Valid() && d.locals == cx.locals && (m.hole < 0 || d.hole < 0)
  {
    hide CodeS, Statement;
  }

  /** Which method handles a statement. */
  lemma {:induction false} StatementCases(ts: seq<Token>, cx: Cx)
    requires ts != []
    ensures var w := CodeOf(Statement(ts), cx);
            match ts[0]
            case ForT => w == CodeOf(For(ts[1..]), cx)
            case IfT => w == CodeOf(IfStatement(ts[1..]), cx)
            case BreakT => w == CodeOf(Expect(Ok(Break, ts[1..]), Semi), cx)
            case ContinueT => w == CodeOf(Expect(Ok(Continue, ts[1..]), Semi), cx)
            case MatchT => w == CodeOf(MatchStatement(ts[1..]), cx)
            case WhileT => true
            case LoopT => true
            case LBrace =>
              var ds := BlockItems(ts[1..]);
              w == CodeOf(if ds.Ok? then Ok(Block(ds.value), ds.rest) else Failure, cx)
            case _ => w == CodeOf(ExprStatement(ts), cx)
  {
    hide CodeS, For, IfStatement, MatchStatement, BlockItems, ExprStatement, Expect;
  }

  /** An `if` after its condition and its then part. */
  function IfRest(a: Out, b: Out, mid: seq<Token>, cx: Cx): Emission {
    var m := Skip(a, 39, b, 3, cx);
    if m.Some? then ElseEmission(m.value, mid, cx) else Fails
  }

  lemma {:induction false} IfEmits(ts: seq<Token>, cx: Cx)
    ensures var e := CodeOfE(Condition(ts), cx);
            var w := CodeOf(IfStatement(ts), cx);
            && (e.Fails? ==> w.Fails?)
            && (e.Emits? ==>
                  var t := CodeOf(Statement(e.rest), After(cx, Join(e.o, Plain([39, 255, 255] + POP, [], cx))));
                  w == (if t.Fails? then Fails else IfRest(e.o, t.o, t.rest, cx)))
  {
    hide Condition, Statement, IfStatement, Skip, CodeOf, CodeOfE;
    IfIs(ts, cx);
    var e := CodeOfE(Condition(ts), cx);
    if e.Emits? {
      var cx1 := After(cx, Join(e.o, Plain([39, 255, 255] + POP, [], cx)));
      var t := CodeOf(Statement(e.rest), cx1);
      if t.Emits? && Skip(e.o, 39, t.o, 3, cx).Some? { ElseContext(cx, e.o, t.o, cx1); }
    }
  }

  lemma {:induction false} LoopContext(s: Snap)
    requires s.Valid()
    ensures s.Enter(|s.code|).Valid() && Context(s.Enter(|s.code|)) == BodyCx(Context(s), 0, 0)
  {
  }

  lemma {:induction false} LoopOutIs(cx: Cx, b: Out)
    requires b.Valid()
    ensures var n := |b.code| + 3;
            LoopOut(cx, b) == (if n > JUMP_MAX then None else Close(Join(b, Plain([42, Hi(n), Lo(n)], [], cx))))
  {
    hide Close, Encode;
    BackBytes(|b.code|);
    hide LoopBack, Join, Plain;
  }

  lemma {:induction false} LoopCloses(s: Snap, b: Out, ts: seq<Token>)
    requires s.Valid() && b.Valid() && b.locals == s.locals
    ensures var n := |b.code| + 3;
            var q := Emit(s.Enter(|s.code|), b, ts);
            var w := LoopOut(Context(s), b);
            && |q.code| - |s.code| + 3 == n
            && (n > JUMP_MAX ==> w.None?)
            && (n <= JUMP_MAX ==> Closes(q.Put([42, Hi(n), Lo(n)]), w, s, ts))
  {
    hide Closes, LoopOut, Context, Close;
    var n := |b.code| + 3;
    LoopOutIs(Context(s), b);
    if n <= JUMP_MAX {
      PutJoin(s.Enter(|s.code|), b, ts, [42, Hi(n), Lo(n)], Context(s));
      ClosesLoop(s, |s.code|, Join(b, Plain([42, Hi(n), Lo(n)], [], Context(s))), ts);
    }
  }

  /** `break` and `continue` after their keyword. */
  lemma {:induction false} EscapeIs(ts: seq<Token>, cx: Cx)
    ensures CodeOf(Expect(Ok(Break, ts), Semi), cx) ==
              (if !Starts(ts, Semi) || cx.loop.NoLoop? then Fails
               else if cx.loop.broken then Emits(Plain([], [], cx), ts[1..])
               else Emits(Out([48, 255, 255], [], cx.locals, 1), ts[1..]))
    ensures CodeOf(Expect(Ok(Continue, ts), Semi), cx) ==
              (if !Starts(ts, Semi) || cx.loop.NoLoop? || cx.loop.back + 3 > JUMP_MAX then Fails
               else
                 var n := cx.loop.back + 3;
                 Emits(Plain([49, Hi(n), Lo(n)], [], cx), ts[1..]))
  {
    hide Fragment, CodeE, CodeDs, CodeArms, MatchOut, IfOut, LoopOut, ForOut, WhileOut, ForCond, Close, Pops, BodyCx,
        After, Join;
  }

  /** Locals of scopes deeper than d, counted from the newest. */
  function Trailing(locals: seq<Local>, d: int): (n: nat)
    ensures n <= |locals|
  {
    if locals == [] || locals[|locals| - 1].depth <= d then 0 else 1 + Trailing(locals[..|locals| - 1], d)
  }

  lemma {:induction false} TrailingIs(locals: seq<Local>, d: int, n: nat)
    requires n <= |locals|
    requires forall i :: |locals| - n <= i < |locals| ==> locals[i].depth > d
    requires forall i :: 0 <= i < |locals| - n ==> locals[i].depth <= d
    ensures Trailing(locals, d) == n
  {
    if n > 0 { TrailingIs(locals[..|locals| - 1], d, n - 1); }
  }

  /** Everything a scope declares is one level deeper than what was there before. */
  lemma {:induction false} NewLocals(ds: Decls, cx: Cx)
    requires CodeDs(ds, cx).Some?
    ensures var o := CodeDs(ds, cx).value;
            forall i :: |cx.locals| <= i < |o.locals| ==> o.locals[i].depth == cx.depth
    ensures |cx.locals| <= LOCALS_MAX ==> |CodeDs(ds, cx).value.locals| <= LOCALS_MAX
    decreases ds
  {
    hide CodeS, CodeE, Declared;
    match ds
    case End =>
    case VarD(x, init, rest) =>
      var a := CodeE(init, cx.locals + [Local(x, -1)], cx.k).value;
      var o := Out(a, Consts(init), cx.locals + [Local(x, cx.depth)], -1);
      NewLocals(rest, After(cx, o));
      var d := CodeDs(rest, After(cx, o)).value;
      assert d.locals[..|cx.locals| + 1][|cx.locals|] == Local(x, cx.depth);
    case StmtD(s, rest) => NewLocals(rest, After(cx, CodeS(s, cx).value));
  }

  /** A scope closed: one pop for each of its locals. */
  function ScopeOut(o: Out, cx: Cx): Out
    requires |cx.locals| <= |o.locals|
  {
    Join(o, Plain(Pops(|o.locals| - |cx.locals|), [], cx))
  }

  lemma {:induction false} BlockIs(ts: seq<Token>, cx: Cx)
    ensures var ds := BlockItems(ts);
            var e := CodeOfDs(ds, cx.(depth := cx.depth + 1));
            CodeOf(if ds.Ok? then Ok(Block(ds.value), ds.rest) else Failure, cx) ==
              (if e.Emits? then Emits(ScopeOut(e.o, cx), e.rest) else Fails)
  {
    hide BlockItems, CodeDs;
  }

  lemma {:induction false} ScopeEmits(s: Snap, ds: Decls, ts: seq<Token>)
    requires s.Valid()
    requires var cx := Context(s).(depth := s.depth + 1); CodeDs(ds, cx).Some?
    ensures var cx := Context(s).(depth := s.depth + 1);
            var o := CodeDs(ds, cx).value;
            var q := Emit(s.(depth := s.depth + 1), o, ts);
            var n := Trailing(o.locals, s.depth);
            && n == |o.locals| - |s.locals|
            && q.Put(Pops(n)).(locals := o.locals[..|o.locals| - n], depth := s.depth) ==
                Emit(s, ScopeOut(o, Context(s)), ts)
            && Emit(s, ScopeOut(o, Context(s)), ts).Valid()
  {
    hide CodeDs;
    var cx := Context(s).(depth := s.depth + 1);
    var o := CodeDs(ds, cx).value;
    NewLocals(ds, cx);
    forall i | 0 <= i < |s.locals| ensures o.locals[i].depth <= s.depth {
      assert o.locals[..|s.locals|][i] == s.locals[i];
    }
    TrailingIs(o.locals, s.depth, |o.locals| - |s.locals|);
    assert s.consts + o.consts == s.consts + (o.consts + []);
    assert s.code + o.code + Pops(|o.locals| - |s.locals|) == s.code + (o.code + Pops(|o.locals| - |s.locals|));
  }

  lemma {:induction false} DeeperContext(s: Snap)
    requires s.Valid()
    ensures var t := s.(depth := s.depth + 1);
            t.Valid() && Context(t) == Context(s).(depth := s.depth + 1)
  {
  }

  lemma {:induction false} NoStatement(cx: Cx)
    ensures CodeOf(Statement([]), cx).Fails?
  {
  }

  lemma {:induction false} OneMorePop(code: seq<Byte>, n: nat)
    ensures code + Pops(n) + POP == code + Pops(n + 1)
  {
  }

  lemma {:induction false} NoPops(code: seq<Byte>)
    ensures code + Pops(0) == code
  {
  }

  lemma {:induction false} TrailingStep(locals: seq<Local>, d: int)
    ensures Trailing(locals, d) ==
              (if locals == [] || locals[|locals| - 1].depth <= d then 0 else 1 + Trailing(locals[..|locals| - 1], d))
  {
  }

  lemma {:induction false} ShorterPrefix<T>(s: seq<T>, n: nat)
    requires 0 < n <= |s|
    ensures s[..n][..n - 1] == s[..n - 1]
  {
  }

  /** An emission continued by another. */
  function Then(o: Out, e: Emission): Emission {
    if e.Emits? then Emits(Join(o, e.o), e.rest) else Fails
  }

  lemma {:induction false} ThenThen(a: Out, b: Out, e: Emission)
    ensures Then(a, Then(b, e)) == Then(Join(a, b), e)
  {
    if e.Emits? { JoinAssociates(a, b, e.o); }
  }

  /** A method that has done part of a list: it fails only when the whole does, and otherwise leaves the rest to do. */
  ghost predicate Steps(ok: bool, before: Snap, after: Snap, o: Out, whole: Emission, rest: Emission)
    requires before.Valid()
  {
    if !ok then whole.Fails?
    else
      && after == Emit(before, o, after.rest) && after.Valid() && |after.rest| < |before.rest|
      && o.Valid() && (o.hole >= 0 ==> Context(before).loop.InLoop? && !Context(before).loop.broken)
      && whole == Then(o, rest)
  }

  /** Two steps are one. */
  lemma {:induction false} StepsJoin(before: Snap, mid: Snap, after: Snap, a: Out, b: Out, whole: Emission,
      rest1: Emission, rest2: Emission)
    requires before.Valid() && mid.Valid()
    requires mid == Emit(before, a, mid.rest) && a.Valid() && whole == Then(a, rest1)
    requires a.hole >= 0 ==> Context(before).loop.InLoop? && !Context(before).loop.broken
    requires |mid.rest| <= |before.rest| && Steps(true, mid, after, b, rest1, rest2)
    ensures Steps(true, before, after, Join(a, b), whole, rest2)
  {
    hide Join, Then;
    EmitContext(before, a, mid.rest);
    EmitJoin(before, a, mid.rest, b, after.rest);
    ThenThen(a, b, rest2);
    JoinKeeps(a, b);
  }

  lemma {:induction false} JoinKeeps(a: Out, b: Out)
    requires a.Valid() && b.Valid()
    ensures Join(a, b).Valid() && (Join(a, b).hole >= 0 ==> a.hole >= 0 || b.hole >= 0)
  {
  }

  lemma {:induction false} NoCodeYet(s: Snap, e: Emission)
    requires s.Valid() && (e.Emits? ==> e.o.Valid())
    ensures var o := Plain([], [], Context(s)); Emit(s, o, s.rest) == s && Then(o, e) == e
  {
    EmitPlain(s, [], s.rest);
    assert s.code + [] == s.code;
    if e.Emits? {
      assert [] + e.o.code == e.o.code;
      assert [] + e.o.consts == e.o.consts;
    }
  }

  lemma {:induction false} ItemIs(ts: seq<Token>, cx: Cx)
    requires ts != [] && ts[0] != RBrace && ts[0] != VarT
    ensures var e := CodeOf(Statement(ts), cx);
            CodeOfDs(BlockItems(ts), cx) ==
              (if e.Fails? then Fails else Then(e.o, CodeOfDs(BlockItems(e.rest), After(cx, e.o))))
  {
    hide Statement, CodeS, Join, After;
    var s := Statement(ts);
    if s.Ok? {
      var r := BlockItems(s.rest);
      if r.Ok? { ItemCode(s.value, r.value, cx); }
    }
  }

  lemma {:induction false} ItemCode(s: Stmt, rest: Decls, cx: Cx)
    ensures var o := CodeS(s, cx);
            && (o.None? ==> CodeDs(StmtD(s, rest), cx).None?)
            && (o.Some? ==>
                  var d := CodeDs(rest, After(cx, o.value));
                  CodeDs(StmtD(s, rest), cx) == (if d.None? then None else Some(Join(o.value, d.value))))
  {
    hide CodeS, Join, After;
  }

  /** The same for the statements of a script. */
  lemma {:induction false} ScriptItem(ts: seq<Token>, cx: Cx)
    requires ts != []
    ensures var e := CodeOf(Statement(ts), cx);
            CodeOfDs(Script(ts), cx) ==
              (if e.Fails? then Fails else Then(e.o, CodeOfDs(Script(e.rest), After(cx, e.o))))
  {
    hide Statement, CodeS, Join, After;
    var s := Statement(ts);
    if s.Ok? {
      var r := Script(s.rest);
      if r.Ok? { ItemCode(s.value, r.value, cx); }
    }
  }

  lemma {:induction false} ScriptEnds(o: Out, cx: Cx)
    requires o.Valid() && cx.locals == o.locals
    ensures Then(o, CodeOfDs(Script([]), cx)) == Emits(o, [])
  {
    assert o.code + [] == o.code;
    assert o.consts + [] == o.consts;
  }

  lemma {:induction false} BlockEnds(ts: seq<Token>, cx: Cx)
    requires ts == [] || ts[0] == RBrace
    ensures CodeOfDs(BlockItems(ts), cx) == (if ts == [] then Fails else Emits(Plain([], [], cx), ts[1..]))
  {
  }

  lemma {:induction false} FailsThen(o: Out, e: Emission)
    ensures Then(o, e).Fails? == e.Fails?
  {
  }

  lemma {:induction false} ThenNothing(s: Snap, o: Out, ts: seq<Token>)
    requires s.Valid() && Emit(s, o, ts).Valid() && o.Valid()
    ensures var now := Emit(s, o, ts);
            var e := CodeOfDs(BlockItems(ts), Context(now));
            ts != [] && ts[0] == RBrace ==>
              Then(o, e).Emits? && Emit(s, Then(o, e).o, Then(o, e).rest) == now.Past(ts[1..])
    ensures ts == [] ==> Then(o, CodeOfDs(BlockItems(ts), Context(Emit(s, o, ts)))).Fails?
  {
    hide CodeOfDs, BlockItems;
    var now := Emit(s, o, ts);
    if ts == [] || ts[0] == RBrace { BlockEnds(ts, Context(now)); }
    assert o.code + [] == o.code;
    assert o.consts + [] == o.consts;
  }

  /** What follows a `var` line. */
  function AfterVars(inFor: bool, ts: seq<Token>): Parsed<Decls> {
    if inFor then ForRest(ts) else BlockItems(ts)
  }

  lemma {:induction false} VarItem(ts: seq<Token>, cx: Cx)
    requires Starts(ts, VarT)
    ensures CodeOfDs(BlockItems(ts), cx) == CodeOfDs(Vars(ts[1..], false), cx)
  {
    hide CodeOfDs, Vars;
  }

  /** A variable without an initialiser starts as none. */
  function InitialiserTree(ts: seq<Token>): (r: Parsed<Expr>)
    ensures r.Ok? ==> |r.rest| <= |ts|
  {
    if Starts(ts, AssignT) then Expression(ts[1..]) else Ok(NoneLit, ts)
  }

  /** A variable's initialiser, coded while the variable is declared but not yet defined. */
  function Initialiser(x: Name, ts: seq<Token>, cx: Cx): (e: Emission)
    ensures e.Emits? ==> |e.rest| <= |ts| && e.o.Valid() && e.o.hole == -1 && e.o.locals == cx.locals + [Local(x, -1)]
  {
    CodeOfE(InitialiserTree(ts), cx.(locals := cx.locals + [Local(x, -1)]))
  }

  lemma {:induction false} NothingGiven(ts: seq<Token>, cx: Cx)
    ensures CodeOfE(Ok(NoneLit, ts), cx) == Emits(Plain([5], [], cx), ts)
  {
  }

  function Defined(x: Name, o: Out, cx: Cx): (r: Out)
    ensures r.Valid() && r.hole == -1
  {
    Out(o.code, o.consts, cx.locals + [Local(x, cx.depth)], -1)
  }

  predicate CanDeclare(x: Name, cx: Cx) {
    cx.depth > 0 && !Declared(cx.locals, cx.depth, x) && |cx.locals| < LOCALS_MAX
  }

  lemma {:induction false} VarCode(x: Name, init: Expr, rest: Decls, cx: Cx)
    ensures var a := Fragment(init, cx.(locals := cx.locals + [Local(x, -1)]));
            if !CanDeclare(x, cx) || a.None? then CodeDs(VarD(x, init, rest), cx).None?
            else
              var o := Defined(x, a.value, cx);
              var d := CodeDs(rest, After(cx, o));
              CodeDs(VarD(x, init, rest), cx) == (if d.None? then None else Some(Join(o, d.value)))
  {
    hide CodeE, Declared, Join, After;
  }

  lemma {:induction false} VarsParse(inFor: bool, ts: seq<Token>)
    ensures var w := Vars(ts, inFor);
            if ts == [] || !ts[0].IdT? then w.Failure?
            else
              var e := InitialiserTree(ts[1..]);
              if e.Failure? then w.Failure?
              else
                var r := if Starts(e.rest, Comma) then Vars(e.rest[1..], inFor)
                         else if Starts(e.rest, Semi) then AfterVars(inFor, e.rest[1..])
                         else Failure;
                w == (if r.Ok? then Ok(VarD(ts[0].x, e.value, r.value), r.rest) else Failure)
  {
    hide Expression, BlockItems, ForRest;
    if ts != [] && Starts(ts[1..], AssignT) { assert ts[1..][1..] == ts[2..]; }
  }

  lemma {:induction false} VarsIs(inFor: bool, ts: seq<Token>, cx: Cx)
    ensures var w := CodeOfDs(Vars(ts, inFor), cx);
            && (ts == [] || !ts[0].IdT? || !CanDeclare(ts[0].x, cx) ==> w.Fails?)
            && (ts != [] && ts[0].IdT? && CanDeclare(ts[0].x, cx) ==>
                  var e := Initialiser(ts[0].x, ts[1..], cx);
                  if e.Fails? then w.Fails?
                  else
                    var o := Defined(ts[0].x, e.o, cx);
                    if Starts(e.rest, Comma) then w == Then(o, CodeOfDs(Vars(e.rest[1..], inFor), After(cx, o)))
                    else if Starts(e.rest, Semi) then w ==
                        Then(o, CodeOfDs(AfterVars(inFor, e.rest[1..]), After(cx, o)))
                    else w.Fails?)
  {
    hide CodeE, Declared, Join, After, CodeDs, Vars, AfterVars, InitialiserTree, CanDeclare, Defined;
    VarsParse(inFor, ts);
    if ts != [] && ts[0].IdT? {
      var e := InitialiserTree(ts[1..]);
      if e.Ok? {
        var r := if Starts(e.rest, Comma) then Vars(e.rest[1..], inFor)
                 else if Starts(e.rest, Semi) then AfterVars(inFor, e.rest[1..])
                 else Failure;
        if r.Ok? { VarCode(ts[0].x, e.value, r.value, cx); }
      }
    }
  }

  lemma {:induction false} DeclaredContext(s: Snap, x: Name)
    requires s.Valid() && |s.locals| < LOCALS_MAX
    ensures var t := s.(locals := s.locals + [Local(x, -1)]);
            t.Valid() && Context(t) == Context(s).(locals := s.locals + [Local(x, -1)])
  {
  }

  /** Defining the variable after its initialiser's code. */
  lemma {:induction false} DefinedEmits(s: Snap, q: Snap, x: Name, o: Out, ts: seq<Token>)
    requires s.Valid() && o.hole == -1 && o.locals == s.locals + [Local(x, -1)] && |s.locals| < LOCALS_MAX
    requires q == s.(rest := q.rest, locals := s.locals + [Local(x, -1)])
    ensures var r := Emit(q, o, ts);
            r.(locals := r.locals[|r.locals| - 1 := Local(x, s.depth)]) == Emit(s, Defined(x, o, Context(s)), ts)
    ensures Emit(s, Defined(x, o, Context(s)), ts).Valid()
  {
    assert (s.locals + [Local(x, -1)])[|s.locals| := Local(x, s.depth)] == s.locals + [Local(x, s.depth)];
  }

  lemma {:induction false} DefinedContext(s: Snap, x: Name, o: Out, ts: seq<Token>)
    requires s.Valid() && o.hole == -1 && |s.locals| < LOCALS_MAX
    ensures var q := Emit(s, Defined(x, o, Context(s)), ts);
            q.Valid() && Context(q) == After(Context(s), Defined(x, o, Context(s)))
  {
  }

  lemma {:induction false} RoomFor(x: Name, cx: Cx)
    requires CanDeclare(x, cx)
    ensures |cx.locals| < LOCALS_MAX
  {
  }

  lemma {:induction false} ForIs(ts: seq<Token>, cx: Cx)
    ensures var w := CodeOf(For(ts), cx);
            && (!Starts(ts, LParen) ==> w.Fails?)
            && (Starts(ts, LParen) ==>
                  var e := CodeOfDs(ForInit(ts[1..]), cx.(depth := cx.depth + 1));
                  w == (if e.Emits? then Emits(ScopeOut(e.o, cx), e.rest) else Fails))
  {
    hide ForInit, CodeDs;
  }

  lemma {:induction false} ForInitIs(ts: seq<Token>, cx: Cx)
    ensures var w := CodeOfDs(ForInit(ts), cx);
            if Starts(ts, Semi) then w == CodeOfDs(ForRest(ts[1..]), cx)
            else if Starts(ts, VarT) then w == CodeOfDs(Vars(ts[1..], true), cx)
            else
              var e := CodeOf(ExprStatement(ts), cx);
              w == (if e.Fails? then Fails else Then(e.o, CodeOfDs(ForRest(e.rest), After(cx, e.o))))
  {
    hide ForRest, Vars, ExprStatement, CodeDs, CodeS;
    if !Starts(ts, Semi) && !Starts(ts, VarT) {
      var s := ExprStatement(ts);
      if s.Ok? {
        var r := ForRest(s.rest);
        if r.Ok? { ItemCode(s.value, r.value, cx); }
      }
    }
  }

  /** The condition of a `for`, through its semicolon; it may be missing. */
  function ForTest(ts: seq<Token>, cx: Cx): (e: Emission)
    ensures e.Emits? ==> |e.rest| < |ts| && e.o.Valid() && e.o.hole == -1 && e.o.locals == cx.locals
  {
    if Starts(ts, Semi) then Emits(Plain([], [], cx), ts[1..]) else CodeOfE(Expect(Expression(ts), Semi), cx)
  }

  lemma {:induction false} ForCode(cond: Option<Expr>, inc: Expr, body: Stmt, cx: Cx)
    ensures var a := ForCond(cond, cx);
            var w := CodeS(ForLoop(cond, inc, body), cx);
            && (a.None? ==> w.None?)
            && (a.Some? ==>
                  var i := Fragment(inc, cx.(k := cx.k + |a.value.consts|));
                  && (i.None? ==> w.None?)
                  && (i.Some? ==>
                        var b := CodeS(body, BodyCx(cx, |a.value.consts| + |i.value.consts|, |i.value.code| + 4));
                        w == (if b.None? then None else ForOut(cx, cond.Some?, a.value, i.value, b.value))))
  {
    hide Fragment, ForOut, ForCond, BodyCx, IfOut, WhileOut, LoopOut, MatchOut, Join, Plain, Pops, Encode, CodeE;
  }

  lemma {:induction false} OnlyItem(s: Stmt, cx: Cx)
    ensures CodeDs(StmtD(s, End), cx) == CodeS(s, cx)
  {
    hide CodeS;
    ItemCode(s, End, cx);
    var o := CodeS(s, cx);
    if o.Some? {
      assert o.value.code + [] == o.value.code;
      assert o.value.consts + [] == o.value.consts;
    }
  }

  lemma {:induction false} ForRestIs(ts: seq<Token>, cx: Cx)
    ensures var c := ForTest(ts, cx);
            var w := CodeOfDs(ForRest(ts), cx);
            && (c.Fails? || Starts(c.rest, RParen) ==> w.Fails?)
            && (c.Emits? && !Starts(c.rest, RParen) ==>
                  var i := CodeOfE(Expect(Expression(c.rest), RParen), cx.(k := cx.k + |c.o.consts|));
                  && (i.Fails? ==> w.Fails?)
                  && (i.Emits? ==>
                        var b := CodeOf(Statement(i.rest), BodyCx(cx, |c.o.consts| + |i.o.consts|, |i.o.code| + 4));
                        w == (if b.Fails? then Fails
                              else OrFails(ForOut(cx, !Starts(ts, Semi), c.o, i.o, b.o), b.rest))))
  {
    hide Fragment, ForOut, BodyCx, CodeDs, Statement, Expression, CodeS, Plain;
    var c := if Starts(ts, Semi) then Ok(None, ts[1..])
             else
               var e := Expect(Expression(ts), Semi);
               if e.Ok? then Ok(Some(e.value), e.rest) else Failure;
    if c.Ok? && !Starts(c.rest, RParen) {
      var i := Expect(Expression(c.rest), RParen);
      if i.Ok? {
        var b := Statement(i.rest);
        if b.Ok? {
          ForCode(c.value, i.value, b.value, cx);
          OnlyItem(ForLoop(c.value, i.value, b.value), cx);
        }
      }
    }
  }

  /** The increment after its jump has been patched, and everything back to the loop's condition. */
  lemma {:induction false} StepEmits(s: Snap, i: Out, t: seq<Token>, head: nat, cx: Cx)
    requires i.Valid() && i.hole == -1 && i.locals == s.locals && cx.locals == s.locals
    ensures var n := head + |i.code| + 7;
            var q := Emit(s.Put([41, 255, 255]), i, t).Put(POP);
            var w := ForStep(cx, i, head);
            && |q.code| == |s.code| + |i.code| + 4
            && (n > JUMP_MAX ==> w.None?)
            && (n <= JUMP_MAX ==>
                  var r := q.Put([42, Hi(n), Lo(n)]);
                  && |r.code| - (|s.code| + 1) - 2 == |i.code| + 4
                  && w.Some? && r.Patched(|s.code| + 1) == Emit(s, w.value, t))
  {
    hide Encode, Offset;
    var n := head + |i.code| + 7;
    var off := |i.code| + 4;
    JumpBytes(off);
    BackBytes(head + 3 + |i.code| + 1);
    if n <= JUMP_MAX {
      var l := [42, Hi(n), Lo(n)];
      var m := Join(i, Plain(POP + l, [], cx));
      PutTwice(Emit(s.Put([41, 255, 255]), i, t), POP, l);
      PutJoin(s.Put([41, 255, 255]), i, t, POP + l, cx);
      PatchAfter(s, 41, m, t);
      var j := Plain([41, Hi(off), Lo(off)], [], cx);
      FrontJoin(s, [41, Hi(off), Lo(off)], m, t, cx);
      JoinAssociates(j, i, Plain(POP + l, [], cx));
    }
  }

  /** Bytes written before a fragment join it too. */
  lemma {:induction false} FrontJoin(s: Snap, bytes: seq<Byte>, m: Out, t: seq<Token>, cx: Cx)
    requires m.Valid()
    ensures Emit(s.Put(bytes), m, t) == Emit(s, Join(Plain(bytes, [], cx), m), t)
  {
    assert s.code + bytes + m.code == s.code + (bytes + m.code);
    assert [] + m.consts == m.consts;
  }

  /** A `for` before its break operand is patched: test, increment, body, and the jump back to the increment. */
  function ForBody(cx: Cx, cond: bool, a: Out, st: Out, b: Out, n: nat): (r: Option<Out>)
    ensures r.Some? ==> r.value.locals == cx.locals
  {
    var off := |st.code| + |b.code| + 4;
    if n > JUMP_MAX || (cond && off > JUMP_MAX) then None
    else
      var h := if cond then Join(a, Plain([39, Hi(off), Lo(off)] + POP, [], cx)) else a;
      Some(Join(Join(Join(h, st), b), Plain([42, Hi(n), Lo(n)] + (if cond then POP else []), [], cx)))
  }

  lemma {:induction false} ForOutIs(cx: Cx, cond: bool, a: Out, i: Out, b: Out)
    requires a.Valid() && i.Valid() && b.Valid()
    ensures var st := ForStep(cx, i, |a.code| + (if cond then 4 else 0));
            var w := ForOut(cx, cond, a, i, b);
            && (st.None? ==> w.None?)
            && (st.Some? ==>
                  var o := ForBody(cx, cond, a, st.value, b, |i.code| + 4 + |b.code| + 3);
                  (o.Some? ==> o.value.Valid()) && w == (if o.Some? then Close(o.value) else None))
  {
    hide Encode, Close, ForStep;
    JumpBytes(1 + |i.code| + 7 + |b.code| + 3);
    BackBytes(|i.code| + 4 + |b.code|);
    hide Join, Plain, JumpIfFalse, LoopBack;
  }

  lemma {:induction false} ForEmits(s: Snap, cond: bool, a: Out, t: seq<Token>, st: Out, b: Out, ts: seq<Token>, n: nat,
      cx: Cx)
    requires a.Valid() && st.Valid() && b.Valid() && a.hole == -1 && st.hole == -1
    requires a.locals == cx.locals == s.locals && st.locals == cx.locals && b.locals == cx.locals && n <= JUMP_MAX
    requires !cond ==> a == Plain([], [], cx)
    ensures var off := |st.code| + |b.code| + 4;
            var h := if cond then Emit(s, a, t).Put([39, 255, 255]).Put(POP) else s.Past(t);
            var q := Emit(Emit(h, st, t), b, ts).Put([42, Hi(n), Lo(n)]);
            var o := ForBody(cx, cond, a, st, b, n);
            && o.None? == (cond && off > JUMP_MAX)
            && (cond ==> |q.code| - (|s.code| + |a.code| + 1) - 2 == off)
            && (o.Some? ==> Emit(s, o.value, ts) == if cond then q.Patched(|s.code| + |a.code| + 1).Put(POP) else q)
  {
    hide Offset, JoinHole;
    var off := |st.code| + |b.code| + 4;
    var h := if cond then Emit(s, a, t).Put([39, 255, 255]).Put(POP) else s.Past(t);
    var l := [42, Hi(n), Lo(n)];
    EmitJoin(h, st, t, b, ts);
    JoinKeeps(st, b);
    if cond {
      if off <= JUMP_MAX {
        PatchOver(s, a, t, 39, POP, Join(st, b), l, ts, cx);
        var p := Join(a, Plain([39, Hi(off), Lo(off)] + POP, [], cx));
        JoinAssociates(p, st, b);
        PutTwice(Emit(s, Join(Join(p, st), b), ts), l, POP);
        PutJoin(s, Join(Join(p, st), b), ts, l + POP, cx);
      }
    } else {
      EmptyJoin(st, cx);
      assert l + [] == l;
      EmitPast(s, t, Join(st, b), ts);
      PutJoin(s, Join(st, b), ts, l, cx);
    }
  }

  lemma {:induction false} EmptyJoin(o: Out, cx: Cx)
    requires o.Valid()
    ensures Join(Plain([], [], cx), o) == o
  {
    assert [] + o.code == o.code;
    assert [] + o.consts == o.consts;
  }

  /** The end of a `for`, from its body on; it was entered at the increment. */
  lemma {:induction false} ForCloses(s: Snap, cond: bool, a: Out, t: seq<Token>, i: Out, st: Out, b: Out,
      ts: seq<Token>, start: nat)
    requires s.Valid() && a.Valid() && i.Valid() && b.Valid() && a.hole == -1 && i.hole == -1
    requires a.locals == s.locals && i.locals == s.locals && b.locals == s.locals
    requires !cond ==> a == Plain([], [], Context(s))
    requires ForStep(Context(s), i, |a.code| + (if cond then 4 else 0)) == Some(st)
    requires start == |s.code| + |a.code| + (if cond then 4 else 0) + 3
    ensures var n := |i.code| + 4 + |b.code| + 3;
            var h := if cond then Emit(s, a, t).Put([39, 255, 255]).Put(POP) else s.Past(t);
            var q := Emit(Emit(h, st, t).Enter(start), b, ts);
            var w := ForOut(Context(s), cond, a, i, b);
            && |q.code| - start + 3 == n
            && (n > JUMP_MAX ==> w.None?)
            && (n <= JUMP_MAX ==>
                  var r := q.Put([42, Hi(n), Lo(n)]);
                  var off := |st.code| + |b.code| + 4;
                  if cond then
                    && |r.code| - (|s.code| + |a.code| + 1) - 2 == off
                    && (off > JUMP_MAX ==> w.None?)
                    && (off <= JUMP_MAX ==> Closes(r.Patched(|s.code| + |a.code| + 1).Put(POP), w, s, ts))
                  else Closes(r, w, s, ts))
  {
    hide Closes, Offset, ForOut, Context, Close, ForBody;
    var n := |i.code| + 4 + |b.code| + 3;
    var cx := Context(s);
    ForOutIs(cx, cond, a, i, b);
    StepShape(cx, i, |a.code| + (if cond then 4 else 0));
    ForLimits(cx, cond, a, st, b, n);
    if n <= JUMP_MAX {
      var e := s.Enter(start);
      ForEmits(e, cond, a, t, st, b, ts, n, cx);
      EnterAround(s, cond, a, t, st, start);
      var o := ForBody(cx, cond, a, st, b, n);
      if o.Some? { ClosesLoop(s, start, o.value, ts); }
    }
  }

  lemma {:induction false} ForLimits(cx: Cx, cond: bool, a: Out, st: Out, b: Out, n: nat)
    ensures ForBody(cx, cond, a, st, b, n).None? == (n > JUMP_MAX || (cond && |st.code| + |b.code| + 4 > JUMP_MAX))
  {
  }

  lemma {:induction false} StepShape(cx: Cx, i: Out, head: nat)
    requires i.Valid() && i.hole == -1 && i.locals == cx.locals && ForStep(cx, i, head).Some?
    ensures var st := ForStep(cx, i, head).value;
            st.Valid() && st.hole == -1 && st.locals == cx.locals && |st.code| == |i.code| + 7 && st.consts == i.consts
  {
    hide Encode;
    assert [] + i.consts + [] == i.consts;
  }

  /** The loop is entered after the increment, which has no break in it. */
  lemma {:induction false} EnterAround(s: Snap, cond: bool, a: Out, t: seq<Token>, st: Out, start: nat)
    requires a.hole == -1 && st.hole == -1
    ensures var e := s.Enter(start);
            var h := if cond then Emit(s, a, t).Put([39, 255, 255]).Put(POP) else s.Past(t);
            var g := if cond then Emit(e, a, t).Put([39, 255, 255]).Put(POP) else e.Past(t);
            Emit(h, st, t).Enter(start) == Emit(g, st, t)
  {
  }

  /** A scope's list emitted part by part, and the scope closed. */
  lemma {:induction false} ScopeFits(s: Snap, r: Parsed<Decls>, e: Emission)
    requires s.Valid() && e.Emits? && e == CodeOfDs(r, Context(s).(depth := s.depth + 1))
    ensures var q := Emit(s.(depth := s.depth + 1), e.o, e.rest);
            var n := Trailing(e.o.locals, s.depth);
            && n <= |q.locals| && |s.locals| <= |e.o.locals|
            && q.Put(Pops(n)).(locals := q.locals[..|q.locals| - n], depth := s.depth) ==
                Emit(s, ScopeOut(e.o, Context(s)), e.rest)
            && Emit(s, ScopeOut(e.o, Context(s)), e.rest).Valid()
  {
    hide ScopeOut, Pops, Trailing;
    ScopeEmits(s, r.value, e.rest);
  }

  /** A fragment emitted inside a loop leaves no second break slot. */
  lemma {:induction false} HoleFits(s: Snap, o: Out, ts: seq<Token>)
    requires s.Valid() && Emit(s, o, ts).Valid() && (o.hole >= 0 ==> Context(s).loop.InLoop?)
    ensures o.hole >= 0 && Context(Emit(s, o, ts)).loop.InLoop? ==> Context(Emit(s, o, ts)).loop.broken
    ensures o.hole >= 0 ==> Context(Emit(s, o, ts)).loop.InLoop?
  {
  }

  lemma {:induction false} ForTestContext(s: Snap, cond: bool, c: Emission, ts: seq<Token>)
    requires s.Valid() && c.Emits? && c.o.locals == s.locals && c.o.hole == -1
    requires !cond ==> c.o == Plain([], [], Context(s))
    ensures var h := if cond then Emit(s, c.o, c.rest).Put([39, 255, 255]).Put(POP) else s.Past(c.rest);
            h.Valid() && |h.code| == |s.code| + |c.o.code| + (if cond then 4 else 0)
            && h.locals == s.locals && h.depth == s.depth && |h.consts| == |s.consts| + |c.o.consts|
  {
  }

  lemma {:induction false} ExpectSame(r: Parsed<Expr>, t: Token, cx: Cx)
    ensures var e := CodeOfE(r, cx);
            CodeOfE(Expect(r, t), cx) ==
              (if e.Emits? && Starts(e.rest, t) then Emits(e.o, e.rest[1..]) else Fails)
  {
    hide Fragment;
  }

  lemma {:induction false} PastPut(s: Snap, bytes: seq<Byte>, ts: seq<Token>)
    ensures s.Put(bytes).Past(ts) == s.Past(ts).Put(bytes)
  {
  }

  lemma {:induction false} StepValid(s: Snap, st: Out, ts: seq<Token>, start: nat)
    requires s.Valid() && st.locals == s.locals && st.hole == -1 && start <= |s.code| + |st.code|
    ensures Emit(s, st, ts).Enter(start).Valid()
  {
  }

  lemma {:induction false} ForBodyContext(s: Snap, h: Snap, consts: seq<Value>, i: Out, st: Out, ts: seq<Token>,
      head: nat)
    requires s.Valid() && h.Valid() && i.Valid() && i.hole == -1 && i.locals == s.locals
    requires h.locals == s.locals && h.depth == s.depth && |h.consts| == |s.consts| + |consts|
    requires ForStep(Context(s), i, head) == Some(st)
    ensures var q := Emit(h, st, ts).Enter(|h.code| + 3);
            q.Valid() && Context(q) == BodyCx(Context(s), |consts| + |i.consts|, |i.code| + 4)
  {
    hide ForStep;
    StepShape(Context(s), i, head);
  }

  lemma {:induction false} EnterPast(h: Snap, st: Out, t: seq<Token>, t1: seq<Token>, start: nat, b: Out,
      ts: seq<Token>)
    ensures Emit(Emit(h, st, t).Enter(start), b, ts) == Emit(Emit(h, st, t1).Enter(start), b, ts)
  {
  }

  lemma {:induction false} StepShared(i: Out, head: nat, a: Cx, b: Cx)
    requires a.locals == b.locals && i.Valid()
    ensures ForStep(a, i, head) == ForStep(b, i, head)
  {
  }

  /** Part of a list and then all of the rest are the whole. */
  lemma {:induction false} StepsMeet(before: Snap, mid: Snap, ok: bool, after: Snap, o: Out, whole: Emission,
      r: Parsed<Decls>)
    requires before.Valid() && mid.Valid()
    requires Steps(true, before, mid, o, whole, CodeOfDs(r, Context(mid)))
    requires Meets(ok, mid, after, CodeOfDs(r, Context(mid)))
    ensures Meets(ok, before, after, whole)
  {
    hide CodeDs, Join;
    var tail := CodeOfDs(r, Context(mid));
    if ok {
      HoleFits(before, o, mid.rest);
      EmitJoin(before, o, mid.rest, tail.o, tail.rest);
    }
  }

  lemma {:induction false} ForNoStep(ts: seq<Token>, cx: Cx)
    ensures var c := ForTest(ts, cx);
            c.Emits? && !Starts(c.rest, RParen) ==>
              var i := CodeOfE(Expect(Expression(c.rest), RParen), cx.(k := cx.k + |c.o.consts|));
              var head := |c.o.code| + (if !Starts(ts, Semi) then 4 else 0);
              i.Fails? || ForStep(cx, i.o, head).None? ==> CodeOfDs(ForRest(ts), cx).Fails?
  {
    hide ForTest, CodeOfE, CodeOf, CodeOfDs, ForRest, ForStep, ForOut, BodyCx, Expression, Statement;
    ForRestIs(ts, cx);
    var c := ForTest(ts, cx);
    if c.Emits? && !Starts(c.rest, RParen) {
      var i := CodeOfE(Expect(Expression(c.rest), RParen), cx.(k := cx.k + |c.o.consts|));
      if i.Emits? {
        var b := CodeOf(Statement(i.rest), BodyCx(cx, |c.o.consts| + |i.o.consts|, |i.o.code| + 4));
        if b.Emits? { ForOutIs(cx, !Starts(ts, Semi), c.o, i.o, b.o); }
      }
    }
  }

  /** A `for` after its test. */
  function ForEmission(cond: bool, c: Emission, cx: Cx): Emission
    requires c.Emits? && c.o.Valid()
  {
    var i := CodeOfE(Expect(Expression(c.rest), RParen), cx.(k := cx.k + |c.o.consts|));
    if i.Fails? || ForStep(cx, i.o, |c.o.code| + (if cond then 4 else 0)).None? then Fails
    else
      var b := CodeOf(Statement(i.rest), BodyCx(cx, |c.o.consts| + |i.o.consts|, |i.o.code| + 4));
      if b.Fails? then Fails else OrFails(ForOut(cx, cond, c.o, i.o, b.o), b.rest)
  }

  lemma {:induction false} NoTest(ts: seq<Token>, cx: Cx)
    ensures Starts(ts, Semi) ==> ForTest(ts, cx) == Emits(Plain([], [], cx), ts[1..])
  {
  }

  lemma {:induction false} ForRestEmission(ts: seq<Token>, cx: Cx)
    ensures var c := ForTest(ts, cx);
            CodeOfDs(ForRest(ts), cx) ==
              (if c.Fails? || Starts(c.rest, RParen) then Fails else ForEmission(!Starts(ts, Semi), c, cx))
  {
    hide ForTest, CodeOfE, CodeOf, CodeOfDs, ForRest, ForStep, ForOut, BodyCx, Expression, Statement;
    ForRestIs(ts, cx);
    ForNoStep(ts, cx);
  }
}
