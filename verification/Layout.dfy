/** Where the pieces of a placed statement lie in memory, and what their jumps are. */
module Layout {
  import opened Base
  import opened Syntax
  import opened Bytecode
  import opened CodeGen

  /** Memory holds a fragment: its bytes outside the break slot, and in the slot a jump that lands on brk. */
  ghost predicate Fits(code: seq<Byte>, pc: int, o: Out, brk: int) {
    && 0 <= pc
    && pc + |o.code| <= |code|
    && (forall i :: 0 <= i < |o.code| && !(o.hole >= 0 && o.hole <= i < o.hole + 2) ==> code[pc + i] == o.code[i])
    && (o.hole >= 0 && o.hole + 2 <= |o.code| ==>
          brk == pc + o.hole + 2 + Short2(code[pc + o.hole], code[pc + o.hole + 1]))
  }

  lemma {:induction false} FitsJoin(code: seq<Byte>, pc: int, a: Out, b: Out, brk: int)
    requires a.Valid() && b.Valid() && (a.hole < 0 || b.hole < 0)
    requires Fits(code, pc, Join(a, b), brk)
    ensures Fits(code, pc, a, brk) && Fits(code, pc + |a.code|, b, brk)
  {
    var o := Join(a, b);
    forall i | 0 <= i < |a.code| && !(a.hole >= 0 && a.hole <= i < a.hole + 2) ensures code[pc + i] == a.code[i] {
      assert o.code[i] == a.code[i];
    }
    forall i | 0 <= i < |b.code| && !(b.hole >= 0 && b.hole <= i < b.hole + 2)
      ensures code[pc + |a.code| + i] == b.code[i]
    {
      assert o.code[|a.code| + i] == b.code[i];
      assert code[pc + (|a.code| + i)] == o.code[|a.code| + i];
    }
  }

  lemma {:induction false} FitsSolid(code: seq<Byte>, pc: int, o: Out, brk: int)
    requires o.hole == -1
    ensures Fits(code, pc, o, brk) <==> At(code, pc, o.code)
  {
  }

  /** Patching at the loop's end is exactly what makes the body's break slot land past the loop. */
  lemma {:induction false} FitsClose(code: seq<Byte>, pc: int, o: Out)
    requires o.Valid() && Close(o).Some? && At(code, pc, Close(o).value.code)
    ensures Fits(code, pc, o, pc + |o.code|)
  {
    if o.hole >= 0 {
      var c := Close(o).value.code;
      var off := |o.code| - o.hole - 2;
      assert code[pc + o.hole] == c[o.hole] == Hi(off);
      assert code[pc + (o.hole + 1)] == c[o.hole + 1] == Lo(off);
      forall i | 0 <= i < |o.code| && !(o.hole <= i < o.hole + 2) ensures code[pc + i] == o.code[i] {
        assert c[i] == o.code[i];
      }
    }
  }

  /** A fragment's bytes and constants are where they should be. */
  ghost predicate Ready(o: Out, cx: Cx, p: Program, pc: int, brk: int) {
    Fits(p.code, pc, o, brk) && At(p.consts, cx.k, o.consts)
  }

  /** A sequence of two fragments is ready when each part is, the second in the context after the first. */
  lemma {:induction false} ReadyJoin(a: Out, b: Out, cx: Cx, p: Program, pc: int, brk: int)
    requires a.Valid() && b.Valid() && (a.hole < 0 || b.hole < 0)
    requires Ready(Join(a, b), cx, p, pc, brk)
    ensures Ready(a, cx, p, pc, brk) && Ready(b, After(cx, a), p, pc + |a.code|, brk)
  {
    hide Fits, At;
    FitsJoin(p.code, pc, a, b, brk);
    AtSplit(p.consts, cx.k, a.consts, b.consts);
  }

  /** Solid code in a fragment lies in memory byte for byte. */
  lemma {:induction false} ReadySolid(o: Out, cx: Cx, p: Program, pc: int, brk: int)
    requires Ready(o, cx, p, pc, brk) && o.hole == -1
    ensures pc >= 0 && At(p.code, pc, o.code)
  {
  }

  /** A closed loop: solid in memory, its body's break slot aimed just past it. */
  lemma {:induction false} ReadyClose(o: Out, cx: Cx, p: Program, pc: int, brk: int)
    requires o.Valid() && Close(o).Some? && Ready(Close(o).value, cx, p, pc, brk)
    ensures pc >= 0 && Ready(o, cx, p, pc, pc + |o.code|)
  {
    hide At;
    FitsSolid(p.code, pc, Close(o).value, brk);
    FitsClose(p.code, pc, o);
  }

  lemma {:induction false} ReadyCx(o: Out, a: Cx, b: Cx, p: Program, pc: int, brk: int)
    requires Ready(o, a, p, pc, brk) && a.k == b.k
    ensures Ready(o, b, p, pc, brk)
  {
  }

  lemma {:induction false} IfParts(cx: Cx, a: Out, b: Out, d: Out, cx1: Cx, cx2: Cx, p: Program, pc: int,
      brk: int)
    requires a.Valid() && b.Valid() && d.Valid() && a.hole == -1 && (b.hole < 0 || d.hole < 0)
    requires a.locals == cx.locals && b.locals == cx.locals
    requires cx1 == After(cx, Join(a, Plain([39, 255, 255] + POP, [], cx)))
    requires cx2 == After(After(cx1, b), Plain([41, 255, 255] + POP, [], cx))
    requires IfOut(cx, a, b, d).Some? && Ready(IfOut(cx, a, b, d).value, cx, p, pc, brk)
    ensures pc >= 0 && 1 + |b.code| + 3 <= JUMP_MAX && 1 + |d.code| <= JUMP_MAX
    ensures |IfOut(cx, a, b, d).value.code| == |a.code| + 8 + |b.code| + |d.code|
    ensures Ready(a, cx, p, pc, brk)
    ensures At(p.code, pc + |a.code|, Encode(IJumpIfFalse(1 + |b.code| + 3)) + POP)
    ensures At(p.code, pc + |a.code|, Encode(IJumpIfFalse(1 + |b.code| + 3)))
    ensures Ready(b, cx1, p, pc + |a.code| + 4, brk)
    ensures At(p.code, pc + |a.code| + 4 + |b.code|, Encode(IJump(1 + |d.code|)))
    ensures At(p.code, pc + |a.code| + 7 + |b.code|, POP)
    ensures Ready(d, cx2, p, pc + |a.code| + 8 + |b.code|, brk)
  {
    hide Fits, At, Ready, Encode;
    var j1 := JumpIfFalse(1 + |b.code| + 3).value;
    var j2 := Jump(1 + |d.code|).value;
    var p1, p2 := Plain(j1 + POP, [], cx), Plain(j2 + POP, [], cx);
    var o1 := Join(a, p1);
    var o2 := Join(o1, b);
    var o3 := Join(o2, p2);
    ReadyJoin(o3, d, cx, p, pc, brk);
    ReadyJoin(o2, p2, cx, p, pc, brk);
    ReadyJoin(o1, b, cx, p, pc, brk);
    ReadyJoin(a, p1, cx, p, pc, brk);
    ReadySolid(a, cx, p, pc, brk);
    ReadySolid(p1, After(cx, a), p, pc + |a.code|, brk);
    AtSplit(p.code, pc + |a.code|, j1, POP);
    ReadySolid(p2, After(cx, o2), p, pc + |o2.code|, brk);
    AtSplit(p.code, pc + |o2.code|, j2, POP);
    assert After(cx, o1) == cx1;
    assert After(cx, o3) == cx2;
  }

  lemma {:induction false} WhileParts(cx: Cx, a: Out, b: Out, p: Program, pc: int, brk: int)
    requires a.Valid() && b.Valid() && a.hole == -1 && a.locals == cx.locals && b.locals == cx.locals
    requires WhileOut(cx, a, b).Some? && Ready(WhileOut(cx, a, b).value, cx, p, pc, brk)
    ensures var q, end := pc + |a.code|, pc + |a.code| + 8 + |b.code|;
            && pc >= 0 && 1 + |b.code| + 3 <= JUMP_MAX && |a.code| + 4 + |b.code| + 3 <= JUMP_MAX
            && |WhileOut(cx, a, b).value.code| == |a.code| + 8 + |b.code|
            && Ready(a, cx, p, pc, end)
            && At(p.code, q, Encode(IJumpIfFalse(1 + |b.code| + 3)) + POP)
            && At(p.code, q, Encode(IJumpIfFalse(1 + |b.code| + 3)))
            && Ready(b, BodyCx(cx, |a.consts|, |a.code| + 4), p, q + 4, end)
            && At(p.code, q + 4 + |b.code|, Encode(ILoop(|a.code| + 4 + |b.code| + 3)))
            && At(p.code, q + 7 + |b.code|, POP)
  {
    hide Fits, At, Ready, Encode;
    var j := JumpIfFalse(1 + |b.code| + 3).value;
    var l := LoopBack(|a.code| + 4 + |b.code|).value;
    var p1, p2 := Plain(j + POP, [], cx), Plain(l + POP, [], cx);
    var o1 := Join(a, p1);
    var o2 := Join(o1, b);
    var o3 := Join(o2, p2);
    var end := pc + |o3.code|;
    ReadyClose(o3, cx, p, pc, brk);
    ReadyJoin(o2, p2, cx, p, pc, end);
    ReadyJoin(o1, b, cx, p, pc, end);
    ReadyJoin(a, p1, cx, p, pc, end);
    ReadySolid(p1, After(cx, a), p, pc + |a.code|, end);
    AtSplit(p.code, pc + |a.code|, j, POP);
    ReadySolid(p2, After(cx, o2), p, pc + |o2.code|, end);
    AtSplit(p.code, pc + |o2.code|, l, POP);
    ReadyCx(b, After(cx, o1), BodyCx(cx, |a.consts|, |a.code| + 4), p, pc + |o1.code|, end);
  }

  lemma {:induction false} LoopParts(cx: Cx, b: Out, p: Program, pc: int, brk: int)
    requires b.Valid() && b.locals == cx.locals
    requires LoopOut(cx, b).Some? && Ready(LoopOut(cx, b).value, cx, p, pc, brk)
    ensures pc >= 0 && |b.code| + 3 <= JUMP_MAX && |LoopOut(cx, b).value.code| == |b.code| + 3
    ensures Ready(b, BodyCx(cx, 0, 0), p, pc, pc + |b.code| + 3)
    ensures At(p.code, pc + |b.code|, Encode(ILoop(|b.code| + 3)))
  {
    hide Fits, At, Ready, Encode;
    var l := LoopBack(|b.code|).value;
    var o := Join(b, Plain(l, [], cx));
    var end := pc + |o.code|;
    ReadyClose(o, cx, p, pc, brk);
    ReadyJoin(b, Plain(l, [], cx), cx, p, pc, end);
    ReadySolid(Plain(l, [], cx), After(cx, b), p, pc + |b.code|, end);
    ReadyCx(b, cx, BodyCx(cx, 0, 0), p, pc, end);
  }

  /** Where the pieces of a `for` lie: w is the jump over the increment, w + 3 the increment, at the body. */
  lemma {:induction false} ForParts(cx: Cx, cond: bool, a: Out, i: Out, b: Out, p: Program, pc: int, brk: int)
    requires a.Valid() && i.Valid() && b.Valid() && a.hole == -1 && i.hole == -1
    requires a.locals == cx.locals && i.locals == cx.locals && b.locals == cx.locals && (cond || a.code == [])
    requires ForOut(cx, cond, a, i, b).Some? && Ready(ForOut(cx, cond, a, i, b).value, cx, p, pc, brk)
    ensures var w := pc + |a.code| + (if cond then 4 else 0);
            var at := w + |i.code| + 7;
            var end := at + |b.code| + (if cond then 4 else 3);
            && pc >= 0 && |ForOut(cx, cond, a, i, b).value.code| == end - pc
            && Ready(i, cx.(k := cx.k + |a.consts|), p, w + 3, end)
            && Ready(b, BodyCx(cx, |a.consts| + |i.consts|, |i.code| + 4), p, at, end)
            && |i.code| + 4 <= JUMP_MAX && w + 7 + |i.code| - pc <= JUMP_MAX && |i.code| + |b.code| + 7 <= JUMP_MAX
            && At(p.code, w, Encode(IJump(|i.code| + 4)))
            && At(p.code, w + 3 + |i.code|, POP)
            && At(p.code, w + 4 + |i.code|, Encode(ILoop(w + 7 + |i.code| - pc)))
            && At(p.code, at + |b.code|, Encode(ILoop(|i.code| + |b.code| + 7)))
            && (cond ==> ForTestPlaced(cx, a, p, pc, |i.code| + |b.code| + 11, end))
  {
    hide Fits, At, Ready, Encode, Join, Plain, ForTestPlaced;
    var h := ForHead(cx, cond, a, 1 + |i.code| + 7 + |b.code| + 3).value;
    var st := ForStep(cx, i, |h.code|).value;
    var l := LoopBack(|i.code| + 4 + |b.code|).value;
    var tail := Plain(l + (if cond then POP else []), [], cx);
    ForSizes(cx, cond, a, i, b, h, st, tail);
    var o3 := Join(Join(Join(h, st), b), tail);
    var end := pc + |o3.code|;
    ReadyClose(o3, cx, p, pc, brk);
    ReadyJoin(Join(Join(h, st), b), tail, cx, p, pc, end);
    ReadyJoin(Join(h, st), b, cx, p, pc, end);
    ReadyJoin(h, st, cx, p, pc, end);
    ReadyCx(b, After(cx, Join(h, st)), BodyCx(cx, |a.consts| + |i.consts|, |i.code| + 4), p,
        pc + |h.code| + |st.code|, end);
    ReadySolid(tail, After(cx, Join(Join(h, st), b)), p, pc + |h.code| + |st.code| + |b.code|, end);
    AtSplit(p.code, pc + |h.code| + |st.code| + |b.code|, l, if cond then POP else []);
    ForStepParts(cx, i, After(cx, h), |h.code|, p, pc + |h.code|, end);
    if cond {
      ForHeadParts(cx, a, 1 + |i.code| + 7 + |b.code| + 3, p, pc, end);
    }
  }

  /** The shapes behind ForParts: lengths, constants and the absence of other break slots. */
  lemma {:induction false} ForSizes(cx: Cx, cond: bool, a: Out, i: Out, b: Out, h: Out, st: Out, tail: Out)
    requires a.Valid() && i.Valid() && b.Valid() && a.hole == -1 && i.hole == -1
    requires a.locals == cx.locals && i.locals == cx.locals && b.locals == cx.locals
    requires ForHead(cx, cond, a, 1 + |i.code| + 7 + |b.code| + 3) == Some(h)
    requires ForStep(cx, i, |h.code|) == Some(st)
    requires LoopBack(|i.code| + 4 + |b.code|).Some?
    requires tail == Plain(LoopBack(|i.code| + 4 + |b.code|).value + (if cond then POP else []), [], cx)
    ensures h.Valid() && st.Valid() && tail.Valid() && h.hole == -1 && st.hole == -1 && tail.hole == -1
    ensures h.locals == cx.locals && st.locals == cx.locals && h.consts == a.consts && |st.consts| == |i.consts|
    ensures Join(h, st).hole == -1 && Join(h, st).locals == cx.locals && Join(h, st).Valid()
    ensures |Join(h, st).code| == |h.code| + |st.code| && |Join(h, st).consts| == |a.consts| + |i.consts|
    ensures var o2 := Join(Join(h, st), b);
            o2.Valid() && o2.locals == cx.locals && |o2.code| == |h.code| + |st.code| + |b.code|
    ensures var o3 := Join(Join(Join(h, st), b), tail);
            o3.Valid() && o3.locals == cx.locals && |o3.code| ==
                |h.code| + |st.code| + |b.code| + (if cond then 4 else 3)
    ensures tail.code == LoopBack(|i.code| + 4 + |b.code|).value + (if cond then POP else [])
  {
    hide Encode;
  }

  ghost predicate ForTestPlaced(cx: Cx, a: Out, p: Program, pc: int, off: nat, end: int) {
    && Ready(a, cx, p, pc, end)
    && off <= JUMP_MAX
    && At(p.code, pc + |a.code|, Encode(IJumpIfFalse(off)) + POP)
    && At(p.code, pc + |a.code|, Encode(IJumpIfFalse(off)))
    && At(p.code, end - 1, POP)
    && end == pc + |a.code| + 4 + off
  }

  lemma {:induction false} ForHeadParts(cx: Cx, a: Out, off: nat, p: Program, pc: int, end: int)
    requires a.Valid() && a.hole == -1 && a.locals == cx.locals
    requires ForHead(cx, true, a, off).Some? && Ready(ForHead(cx, true, a, off).value, cx, p, pc, end)
    requires end == pc + |a.code| + 4 + off && end >= 1 && At(p.code, end - 1, POP)
    ensures ForTestPlaced(cx, a, p, pc, off, end)
  {
    hide Fits, At, Ready, Encode;
    var j := Plain(JumpIfFalse(off).value + POP, [], cx);
    ReadyJoin(a, j, cx, p, pc, end);
    ReadySolid(j, After(cx, a), p, pc + |a.code|, end);
    AtSplit(p.code, pc + |a.code|, JumpIfFalse(off).value, POP);
  }

  lemma {:induction false} ForStepParts(cx: Cx, i: Out, cx1: Cx, head: nat, p: Program, w: int, end: int)
    requires i.Valid() && i.hole == -1 && i.locals == cx.locals == cx1.locals
    requires ForStep(cx, i, head).Some? && Ready(ForStep(cx, i, head).value, cx1, p, w, end)
    ensures w >= 0 && |i.code| + 4 <= JUMP_MAX && head + 7 + |i.code| <= JUMP_MAX
    ensures Ready(i, cx.(k := cx1.k), p, w + 3, end)
    ensures At(p.code, w, Encode(IJump(|i.code| + 4)))
    ensures At(p.code, w + 3 + |i.code|, POP)
    ensures At(p.code, w + 4 + |i.code|, Encode(ILoop(head + 7 + |i.code|)))
  {
    hide Fits, At, Ready, Encode;
    var j := Plain(Jump(|i.code| + 4).value, [], cx);
    var l := LoopBack(head + 3 + |i.code| + 1).value;
    var t := Plain(POP + l, [], cx);
    ReadyJoin(Join(j, i), t, cx1, p, w, end);
    ReadyJoin(j, i, cx1, p, w, end);
    ReadySolid(j, cx1, p, w, end);
    ReadyCx(i, After(cx1, j), cx.(k := cx1.k), p, w + 3, end);
    ReadySolid(t, After(cx1, Join(j, i)), p, w + 3 + |i.code|, end);
    AtSplit(p.code, w + 3 + |i.code|, POP, l);
  }

  lemma {:induction false} MatchForms(off: Short)
    ensures |Encode(IMatch(off))| == 3 && Encode(IJumpIfNeq(off)) == [40, Hi(off), Lo(off)]
  {
  }

  lemma {:induction false} JumpForm(off: Short)
    ensures Encode(IJump(off)) == [41, Hi(off), Lo(off)]
  {
  }

  lemma {:induction false} MatchParts(cx: Cx, a: Out, b: Out, cx0: Cx, cx1: Cx, p: Program, pc: int, brk: int)
    requires a.Valid() && b.Valid() && a.hole == -1 && cx0 == cx.(depth := cx.depth + 1)
    requires cx1 == After(cx0, Join(a, Plain([50, 255, 255], [], cx0)))
    requires MatchOut(cx, a, b).Some? && Ready(MatchOut(cx, a, b).value, cx, p, pc, brk)
    ensures pc >= 0 && |b.code| <= JUMP_MAX && |MatchOut(cx, a, b).value.code| == |a.code| + 4 + |b.code|
    ensures Ready(a, cx0, p, pc, brk)
    ensures At(p.code, pc + |a.code|, Encode(IMatch(|b.code|)))
    ensures Ready(b, cx1, p, pc + |a.code| + 3, brk)
    ensures At(p.code, pc + |a.code| + 3 + |b.code|, POP)
  {
    hide At, Ready, Encode;
    MatchForms(|b.code|);
    var m := Plain(Encode(IMatch(|b.code|)), [], cx);
    var o1 := Join(a, m);
    var o2 := Join(o1, b);
    ReadyJoin(o2, Plain(POP, [], cx), cx, p, pc, brk);
    ReadyJoin(o1, b, cx, p, pc, brk);
    ReadyJoin(a, m, cx, p, pc, brk);
    ReadySolid(a, cx, p, pc, brk);
    ReadySolid(m, After(cx, a), p, pc + |a.code|, brk);
    ReadySolid(Plain(POP, [], cx), After(cx, o2), p, pc + |o2.code|, brk);
    ReadyCx(a, cx, cx0, p, pc, brk);
    ReadyCx(b, After(cx, o1), cx1, p, pc + |o1.code|, brk);
  }

  /** The pieces of an arm and of the arms after it; the pops of the arm's scope come after its end jump. */
  lemma {:induction false} ArmParts(cx: Cx, a: Out, b: Out, end: Short, d: Out, p: Program, pc: int, brk: int)
    requires a.Valid() && b.Valid() && d.Valid() && a.hole == -1 && (b.hole < 0 || d.hole < 0)
    requires |cx.locals| <= |b.locals| && |b.code| + 3 <= JUMP_MAX
    requires Ready(Join(ArmOut(a, b, [41, Hi(end), Lo(end)], cx), d), cx, p, pc, brk)
    ensures pc >= 0 && Ready(a, cx.(depth := cx.depth + 1), p, pc, brk)
    ensures At(p.code, pc + |a.code|, Encode(IJumpIfNeq(|b.code| + 3)))
    ensures Ready(b, PatternCx(a, cx), p, pc + |a.code| + 3, brk)
    ensures At(p.code, pc + |a.code| + 3 + |b.code|, Encode(IJump(end)))
    ensures At(p.code, pc + |a.code| + 6 + |b.code|, Pops(|b.locals| - |cx.locals|))
    ensures Ready(d, After(cx, ArmOut(a, b, [41, 255, 255], cx)), p,
                  pc + |a.code| + 6 + |b.code| + (|b.locals| - |cx.locals|), brk)
    ensures |Join(ArmOut(a, b, [41, Hi(end), Lo(end)], cx), d).code| ==
              |a.code| + 6 + |b.code| + (|b.locals| - |cx.locals|) + |d.code|
  {
    hide At, Ready, Encode;
    var off := |b.code| + 3;
    var n := |b.locals| - |cx.locals|;
    var j := [41, Hi(end), Lo(end)];
    MatchForms(off);
    JumpForm(end);
    var p1, p2 := Plain([40, Hi(off), Lo(off)], [], cx), Plain(j + Pops(n), [], cx);
    var o1 := Join(a, p1);
    var o2 := Join(o1, b);
    var o3 := Join(o2, p2);
    ReadyJoin(o3, d, cx, p, pc, brk);
    ReadyJoin(o2, p2, cx, p, pc, brk);
    ReadyJoin(o1, b, cx, p, pc, brk);
    ReadyJoin(a, p1, cx, p, pc, brk);
    ReadySolid(a, cx, p, pc, brk);
    ReadySolid(p1, After(cx, a), p, pc + |a.code|, brk);
    ReadySolid(p2, After(cx, o2), p, pc + |o2.code|, brk);
    AtSplit(p.code, pc + |o2.code|, j, Pops(n));
    ReadyCx(a, cx, cx.(depth := cx.depth + 1), p, pc, brk);
    ReadyCx(b, After(cx, o1), PatternCx(a, cx), p, pc + |o1.code|, brk);
    ReadyCx(d, After(cx, o3), After(cx, ArmOut(a, b, [41, 255, 255], cx)), p, pc + |o3.code|, brk);
  }

  lemma {:induction false} DefaultParts(cx: Cx, b: Out, end: Short, p: Program, pc: int, brk: int)
    requires b.Valid() && end == |b.locals| - |cx.locals|
    requires Ready(Join(b, Plain([41, Hi(end), Lo(end)] + Pops(end), [], cx)), cx, p, pc, brk)
    ensures pc >= 0 && Ready(b, cx, p, pc, brk) && At(p.code, pc + |b.code|, Encode(IJump(end)))
    ensures |Join(b, Plain([41, Hi(end), Lo(end)] + Pops(end), [], cx)).code| == |b.code| + 3 + end
  {
    hide At, Ready, Encode;
    JumpForm(end);
    var tail := Plain([41, Hi(end), Lo(end)] + Pops(end), [], cx);
    ReadyJoin(b, tail, cx, p, pc, brk);
    ReadySolid(tail, After(cx, b), p, pc + |b.code|, brk);
    AtSplit(p.code, pc + |b.code|, [41, Hi(end), Lo(end)], Pops(end));
    ReadyFrom(b, cx, p, pc, brk);
  }

  lemma {:induction false} ReadyFrom(o: Out, cx: Cx, p: Program, pc: int, brk: int)
    requires Ready(o, cx, p, pc, brk)
    ensures pc >= 0
  {
  }
}
