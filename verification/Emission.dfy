/** The compiler's state as a value, and what one parse of the tokens adds to it. */
module Emission {
  import opened Base
  import opened Syntax
  import opened Bytecode
  import opened CodeGen
  import opened Grammar

  // Byte offsets of a loop's start and of its break operand (-1 while there is none).
  datatype LoopRec = LoopRec(start: nat, end: int)

  /** Tokens still to be read, the chunk so far, and the compiler's bookkeeping; the innermost loop is last. */
  datatype Snap = Snap(rest: seq<Token>, code: seq<Byte>, consts: seq<Value>, locals: seq<Local>, depth: nat,
                       loops: seq<LoopRec>) {
    ghost predicate Valid() {
      && |locals| <= LOCALS_MAX
      && (forall i :: 0 <= i < |loops| ==> loops[i].start <= |code|)
      && (forall i :: 0 <= i < |locals| ==> locals[i].depth <= depth)
    }

    function Put(bytes: seq<Byte>): Snap {
      this.(code := code + bytes)
    }

    function Past(ts: seq<Token>): Snap {
      this.(rest := ts)
    }

    function Enter(start: nat): Snap {
      this.(loops := loops + [LoopRec(start, -1)])
    }

    function Leave(): Snap
      requires loops != []
    {
      this.(loops := loops[..|loops| - 1])
    }

    function Patched(at: nat): Snap
      requires at + 2 <= |code| && |code| - at - 2 <= JUMP_MAX
    {
      this.(code := Offset(code, at, |code| - at - 2))
    }
  }

  /** What a fragment emitted now would see of its surroundings. */
  function Context(s: Snap): (cx: Cx)
    requires s.Valid()
    ensures cx.locals == s.locals && cx.depth == s.depth && cx.k == |s.consts| && (cx.loop.NoLoop? <==> s.loops == [])
  {
    var loop := if s.loops == [] then NoLoop
                else
                  var l := s.loops[|s.loops| - 1];
                  InLoop(|s.code| - l.start, l.end != -1);
    Cx(s.locals, s.depth, |s.consts|, loop)
  }

  function MarkBreak(loops: seq<LoopRec>, at: int): (r: seq<LoopRec>)
    ensures |r| == |loops| && forall i :: 0 <= i < |r| ==> r[i].start == loops[i].start
  {
    if loops == [] then loops
    else
      var last := |loops| - 1;
      loops[last := LoopRec(loops[last].start, at)]
  }

  /** The state after a fragment has been emitted and the tokens up to ts read. */
  function Emit(s: Snap, o: Out, ts: seq<Token>): (r: Snap)
    ensures r.rest == ts && |r.code| == |s.code| + |o.code| && r.locals == o.locals && r.depth == s.depth
    ensures |r.loops| == |s.loops|
  {
    Snap(ts, s.code + o.code, s.consts + o.consts, o.locals, s.depth,
         if o.hole >= 0 then MarkBreak(s.loops, |s.code| + o.hole) else s.loops)
  }

  /** Either a fragment and the tokens after it, or a compile error. */
  datatype Emission = Emits(o: Out, rest: seq<Token>) | Fails

  function OrFails(o: Option<Out>, ts: seq<Token>): Emission {
    if o.Some? then Emits(o.value, ts) else Fails
  }

  /** First parse, then generate code: the two passes the compiler performs as one. */
  function CodeOfE(r: Parsed<Expr>, cx: Cx): (e: Emission)
    ensures e.Emits? ==> r.Ok? && e.rest == r.rest && e.o.Valid() && e.o.locals == cx.locals && e.o.hole == -1
  {
    if r.Ok? then OrFails(Fragment(r.value, cx), r.rest) else Fails
  }

  function CodeOf(r: Parsed<Stmt>, cx: Cx): (e: Emission)
    ensures e.Emits? ==> r.Ok? && e.rest == r.rest && e.o.Valid() && e.o.locals == cx.locals
    ensures e.Emits? && e.o.hole >= 0 ==> cx.loop.InLoop? && !cx.loop.broken
  {
    if r.Ok? then OrFails(CodeS(r.value, cx), r.rest) else Fails
  }

  function CodeOfDs(r: Parsed<Decls>, cx: Cx): (e: Emission)
    ensures e.Emits? ==> r.Ok? && e.rest == r.rest && e.o.Valid() && |cx.locals| <= |e.o.locals|
    ensures e.Emits? && e.o.hole >= 0 ==> cx.loop.InLoop? && !cx.loop.broken
  {
    if r.Ok? then OrFails(CodeDs(r.value, cx), r.rest) else Fails
  }

  function CodeOfBody(r: Parsed<Stmt>, cx: Cx): Emission {
    if r.Ok? then OrFails(CodeArmBody(r.value, cx), r.rest) else Fails
  }

  /** What a parsing method owes: it succeeds exactly when the two passes do, and then leaves exactly their output. */
  ghost predicate Meets(ok: bool, before: Snap, after: Snap, e: Emission) {
    ok == e.Emits? && (ok ==> after == Emit(before, e.o, e.rest) && after.Valid())
  }

  lemma {:induction false} EmitPlain(s: Snap, bytes: seq<Byte>, ts: seq<Token>)
    requires s.Valid()
    ensures Emit(s, Plain(bytes, [], Context(s)), ts) == s.Put(bytes).Past(ts)
  {
    assert s.consts + [] == s.consts;
  }

  /** Fragments emitted one after the other are their concatenation. */
  lemma {:induction false} EmitJoin(s: Snap, a: Out, t1: seq<Token>, b: Out, t2: seq<Token>)
    requires a.hole < 0 || b.hole < 0
    ensures Emit(Emit(s, a, t1), b, t2) == Emit(s, Join(a, b), t2)
  {
    assert s.code + a.code + b.code == s.code + (a.code + b.code);
    assert s.consts + a.consts + b.consts == s.consts + (a.consts + b.consts);
  }

  lemma {:induction false} EmitContext(s: Snap, o: Out, ts: seq<Token>)
    requires s.Valid() && |o.locals| <= LOCALS_MAX && forall i :: 0 <= i < |o.locals| ==> o.locals[i].depth <= s.depth
    ensures Emit(s, o, ts).Valid() && Context(Emit(s, o, ts)) == After(Context(s), o)
  {
  }

  /** What had been read before a fragment does not matter to it. */
  lemma {:induction false} EmitPast(s: Snap, t: seq<Token>, o: Out, ts: seq<Token>)
    ensures Emit(s.Past(t), o, ts) == Emit(s, o, ts) && Emit(s, o, t).Past(ts) == Emit(s, o, ts)
  {
  }

  lemma {:induction false} PutContext(s: Snap, bytes: seq<Byte>, ts: seq<Token>)
    requires s.Valid()
    ensures s.Put(bytes).Valid() && s.Past(ts).Valid() && Context(s.Past(ts)) == Context(s)
    ensures Context(s.Put(bytes)) == After(Context(s), Plain(bytes, [], Context(s)))
  {
  }

  /** Back-patching: filling in a jump once its target is known gives the bytes that knowing it beforehand would
      have. */
  lemma {:induction false} PatchAfter(s: Snap, opcode: Byte, m: Out, ts: seq<Token>)
    requires |m.code| <= JUMP_MAX
    ensures var off := |m.code|;
            Emit(s.Put([opcode, 255, 255]), m, ts).Patched(|s.code| + 1) ==
                Emit(s.Put([opcode, Hi(off), Lo(off)]), m, ts)
  {
    var off := |m.code|;
    assert Offset(s.code + [opcode, 255, 255] + m.code, |s.code| + 1, off) ==
        s.code + [opcode, Hi(off), Lo(off)] + m.code;
  }

  /** The end of a loop: patching its one break operand and leaving it is emitting the closed fragment around it. */
  lemma {:induction false} CloseLoop(s: Snap, start: nat, o: Out, ts: seq<Token>)
    requires o.Valid()
    ensures var t := Emit(s.Enter(start), o, ts);
            && |t.loops| == |s.loops| + 1
            && t.loops[|s.loops|] == LoopRec(start, if o.hole >= 0 then |s.code| + o.hole else -1)
            && (Close(o).Some? ==> o.hole < 0 || |t.code| - (|s.code| + o.hole) - 2 <= JUMP_MAX)
            && (Close(o).Some? ==>
                 Emit(s, Close(o).value, ts) == (if o.hole >= 0 then t.Patched(|s.code| + o.hole) else t).Leave())
            && (Close(o).None? ==> o.hole >= 0 && |t.code| - (|s.code| + o.hole) - 2 > JUMP_MAX)
  {
    var t := Emit(s.Enter(start), o, ts);
    assert t.loops[..|s.loops|] == s.loops;
    if o.hole >= 0 && Close(o).Some? {
      var off := |o.code| - o.hole - 2;
      assert Offset(s.code + o.code, |s.code| + o.hole, off) == s.code + Offset(o.code, o.hole, off);
    }
  }

  /** A loop may be entered before or after code that has no break in it. */
  lemma {:induction false} EnterLater(s: Snap, start: nat, a: Out, ts: seq<Token>)
    requires a.hole < 0
    ensures Emit(s, a, ts).Enter(start) == Emit(s.Enter(start), a, ts)
  {
  }

  /** Bytes written after a fragment join it. */
  lemma {:induction false} PutJoin(s: Snap, a: Out, ts: seq<Token>, bytes: seq<Byte>, cx: Cx)
    requires cx.locals == a.locals
    ensures Emit(s, a, ts).Put(bytes) == Emit(s, Join(a, Plain(bytes, [], cx)), ts)
  {
    assert a.consts + [] == a.consts;
    assert s.code + a.code + bytes == s.code + (a.code + bytes);
  }

  /** A fragment after a jump placeholder and more bytes, once patched, has joined what came before with the offset in
      place. */
  lemma {:induction false} PatchJoin(s: Snap, a: Out, t: seq<Token>, opcode: Byte, more: seq<Byte>, b: Out,
      ts: seq<Token>, cx: Cx)
    requires (a.hole < 0 || b.hole < 0) && cx.locals == a.locals && |more| + |b.code| <= JUMP_MAX
    ensures var off := |more| + |b.code|;
            Emit(Emit(s, a, t).Put([opcode, 255, 255]).Put(more), b, ts).Patched(|s.code| + |a.code| + 1)
              == Emit(s, Join(Join(a, Plain([opcode, Hi(off), Lo(off)] + more, [], cx)), b), ts)
  {
    var s1 := Emit(s, a, t);
    var off := |more| + |b.code|;
    var m := Out(more + b.code, b.consts, b.locals, if b.hole >= 0 then |more| + b.hole else -1);
    assert Emit(s1.Put([opcode, 255, 255]), m, ts) == Emit(s1.Put([opcode, 255, 255]).Put(more), b, ts) by {
      assert s1.code + [opcode, 255, 255] + more + b.code == s1.code + [opcode, 255, 255] + (more + b.code);
    }
    PatchAfter(s1, opcode, m, ts);
    assert s.code + a.code + [opcode, Hi(off), Lo(off)] + (more + b.code)
           == s.code + (a.code + ([opcode, Hi(off), Lo(off)] + more) + b.code);
    assert s.consts + a.consts + b.consts == s.consts + (a.consts + [] + b.consts);
  }

  lemma {:induction false} JoinAssociates(a: Out, b: Out, c: Out)
    ensures Join(Join(a, b), c) == Join(a, Join(b, c))
  {
    assert a.code + b.code + c.code == a.code + (b.code + c.code);
    assert a.consts + b.consts + c.consts == a.consts + (b.consts + c.consts);
  }

  /** The same with bytes that follow the fragment before its jump is patched, as when an else part is jumped over. */
  lemma {:induction false} PatchOver(s: Snap, a: Out, t: seq<Token>, opcode: Byte, more: seq<Byte>, b: Out,
      tail: seq<Byte>, ts: seq<Token>, cx: Cx)
    requires (a.hole < 0 || b.hole < 0) && b.Valid() && cx.locals == a.locals
    requires |more| + |b.code| + |tail| <= JUMP_MAX
    ensures var off := |more| + |b.code| + |tail|;
            Emit(Emit(s, a, t).Put([opcode, 255, 255]).Put(more), b, ts).Put(tail).Patched(|s.code| + |a.code| + 1)
              == Emit(s, Join(Join(a, Plain([opcode, Hi(off), Lo(off)] + more, [], cx)), b), ts).Put(tail)
  {
    hide Offset, JoinHole, Emit, Plain;
    var off := |more| + |b.code| + |tail|;
    var cxb := cx.(locals := b.locals);
    var b1 := Join(b, Plain(tail, [], cxb));
    var q := Emit(s, a, t).Put([opcode, 255, 255]).Put(more);
    var o := Join(a, Plain([opcode, Hi(off), Lo(off)] + more, [], cx));
    PutJoin(q, b, ts, tail, cxb);
    PlainJoin(b, tail, cxb);
    PatchJoin(s, a, t, opcode, more, b1, ts, cx);
    JoinAssociates(o, b, Plain(tail, [], cxb));
    PutJoin(s, Join(o, b), ts, tail, cxb);
  }

  lemma {:induction false} PlainJoin(b: Out, bytes: seq<Byte>, cx: Cx)
    requires b.Valid()
    ensures Join(b, Plain(bytes, [], cx)) == Out(b.code + bytes, b.consts, cx.locals, b.hole)
  {
    assert b.consts + [] == b.consts;
  }

  /** Tokens skipped before an emission are part of it. */
  lemma {:induction false} MeetsPast(ok: bool, s: Snap, t: seq<Token>, after: Snap, e: Emission)
    ensures Meets(ok, s.Past(t), after, e) ==> Meets(ok, s, after, e)
  {
  }

  lemma {:induction false} MeetsParts(ok: bool, before: Snap, after: Snap, e: Emission)
    ensures Meets(ok, before, after, e) == (ok == e.Emits?
            && (ok ==> after == Emit(before, e.o, e.rest) && after.Valid()))
  {
  }
}
