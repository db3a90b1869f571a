/** What the single pass emits. Every jump is relative, so a fragment does not know where it lies. */
module CodeGen {
  import opened Base
  import opened Syntax
  import opened Bytecode

  // depth -1 marks a local that is declared but not yet defined. Whether a local is captured matters only where there
  // are functions inside functions; Closures keeps its own record with that flag.
  datatype Local = Local(name: Name, depth: int)

  const LOCALS_MAX: nat := 256
  const CONSTANTS_MAX: nat := 65535
  const JUMP_MAX: nat := 65535

  /** resolve_local: the newest local of that name; an undefined one is a compile error. */
  function Resolve(locals: seq<Local>, x: Name): (r: Option<Byte>)
    ensures r.Some? ==>
              r.value < |locals| && locals[r.value] == Local(x, locals[r.value].depth) && locals[r.value].depth != -1
  {
    if locals == [] then None
    else
      var last := |locals| - 1;
      if locals[last].name == x then
        if locals[last].depth != -1 && last < LOCALS_MAX then Some(last) else None
      else Resolve(locals[..last], x)
  }

  /** The constants an expression adds, in emission order. */
  function Consts(e: Expr): seq<Value> {
    match e
    case Int(n) => [I32(n)]
    case Assign(_, e1) => Consts(e1)
    case Unary(_, e1) => Consts(e1)
    case Binary(_, l, r) => Consts(l) + Consts(r)
    case And(l, r) => Consts(l) + Consts(r)
    case Or(l, r) => Consts(l) + Consts(r)
    case Cond(c, t, f) => Consts(c) + Consts(t) + Consts(f)
    case _ => []
  }

  function JumpIfFalse(off: nat): (r: Option<seq<Byte>>)
    ensures r.Some? ==> off <= JUMP_MAX && |r.value| == 3
  {
    if off <= JUMP_MAX then Some(Encode(IJumpIfFalse(off))) else None
  }

  function Jump(off: nat): (r: Option<seq<Byte>>)
    ensures r.Some? ==> off <= JUMP_MAX && |r.value| == 3
  {
    if off <= JUMP_MAX then Some(Encode(IJump(off))) else None
  }

  const POP: seq<Byte> := [0]

  /** The bytes of an expression when the chunk already holds k constants; None is a compile error. */
  function CodeE(e: Expr, locals: seq<Local>, k: nat): Option<seq<Byte>> {
    match e
    case Int(_) => if k < CONSTANTS_MAX then Some(Encode(IConst(k))) else None
    case BoolLit(b) => Some(Encode(if b then ITrue else IFalse))
    case NoneLit => Some(Encode(INone))
    case Var(x) =>
      var i :- Resolve(locals, x);
      Some(Encode(IGetLocal(i)))
    case Assign(x, e1) =>
      var i :- Resolve(locals, x);
      var a :- CodeE(e1, locals, k);
      Some(a + Encode(ISetLocal(i)))
    case Unary(op, e1) =>
      var a :- CodeE(e1, locals, k);
      Some(a + Encode(IUnary(op)))
    case Binary(op, l, r) =>
      var a :- CodeE(l, locals, k);
      var b :- CodeE(r, locals, k + |Consts(l)|);
      Some(a + b + Encode(IBinary(op)))
    case And(l, r) =>
      var a :- CodeE(l, locals, k);
      var b :- CodeE(r, locals, k + |Consts(l)|);
      var j :- JumpIfFalse(1 + |b|);
      Some(a + j + POP + b)
    case Or(l, r) =>
      var a :- CodeE(l, locals, k);
      var b :- CodeE(r, locals, k + |Consts(l)|);
      var j :- Jump(1 + |b|);
      Some(a + Encode(IJumpIfFalse(3)) + j + POP + b)
    case Cond(c, t, f) =>
      var a :- CodeE(c, locals, k);
      var b :- CodeE(t, locals, k + |Consts(c)|);
      var d :- CodeE(f, locals, k + |Consts(c)| + |Consts(t)|);
      var j1 :- JumpIfFalse(1 + |b| + 3);
      var j2 :- Jump(1 + |d|);
      Some(a + j1 + POP + b + j2 + POP + d)
  }

  /** How many `break`s belong to the loop around s; the emitter keeps one slot for them. */
  function Breaks(s: Stmt): nat {
    match s
    case Block(ds) => BreaksIn(ds)
    case If(_, t, f) => Breaks(t) + Breaks(f)
    case Match(_, arms) => BreaksOf(arms)
    case Break => 1
    case _ => 0
  }

  function BreaksIn(ds: Decls): nat {
    match ds
    case End => 0
    case VarD(_, _, rest) => BreaksIn(rest)
    case StmtD(s, rest) => Breaks(s) + BreaksIn(rest)
  }

  function BreaksOf(arms: Arms): nat {
    match arms
    case NoMore => 0
    case Default(body) => Breaks(body)
    case Arm(_, body, rest) => Breaks(body) + BreaksOf(rest)
  }

  /** The innermost loop as seen from a fragment: bytes emitted since its start, and whether its one break slot is
      taken. */
  datatype LoopCx = NoLoop | InLoop(back: nat, broken: bool)

  datatype Cx = Cx(locals: seq<Local>, depth: nat, k: nat, loop: LoopCx)

  /** Emitted bytes and constants, the locals afterwards, and where an unpatched break operand lies (-1 for none). */
  datatype Out = Out(code: seq<Byte>, consts: seq<Value>, locals: seq<Local>, hole: int) {
    ghost predicate Valid() {
      -1 <= hole && (hole >= 0 ==> hole + 2 <= |code|)
    }
  }

  function JoinHole(a: Out, b: Out): int {
    if a.hole >= 0 then a.hole
    else if b.hole >= 0 then |a.code| + b.hole
    else -1
  }

  function Join(a: Out, b: Out): (r: Out)
    ensures a.Valid() && b.Valid() ==> r.Valid()
    ensures r.locals == b.locals && (r.hole >= 0 ==> a.hole >= 0 || b.hole >= 0)
  {
    Out(a.code + b.code, a.consts + b.consts, b.locals, JoinHole(a, b))
  }

  function AdvanceLoop(l: LoopCx, o: Out): LoopCx {
    if l.NoLoop? then l else InLoop(l.back + |o.code|, l.broken || o.hole >= 0)
  }

  /** The context in which the code after o is emitted. */
  function After(cx: Cx, o: Out): Cx {
    Cx(o.locals, cx.depth, cx.k + |o.consts|, AdvanceLoop(cx.loop, o))
  }

  function Plain(code: seq<Byte>, consts: seq<Value>, cx: Cx): (o: Out)
    ensures o.Valid() && o.locals == cx.locals && o.hole == -1
  {
    Out(code, consts, cx.locals, -1)
  }

  function Fragment(e: Expr, cx: Cx): (r: Option<Out>)
    ensures r.Some? ==> r.value.Valid() && r.value.hole == -1 && r.value.locals == cx.locals
  {
    var a :- CodeE(e, cx.locals, cx.k);
    Some(Plain(a, Consts(e), cx))
  }

  function Offset(code: seq<Byte>, at: int, off: Short): (r: seq<Byte>)
    requires 0 <= at && at + 2 <= |code|
    ensures |r| == |code|
  {
    code[at := Hi(off)][at + 1 := Lo(off)]
  }

  /** The end of a loop: the break slot, if taken, is patched to land just past the loop's code. */
  function Close(o: Out): (r: Option<Out>)
    requires o.Valid()
    ensures r.Some? ==>
              r.value.Valid() && r.value.hole == -1 && |r.value.code| == |o.code| && r.value.locals == o.locals
  {
    if o.hole < 0 then Some(o)
    else
      var off := |o.code| - o.hole - 2;
      if off > JUMP_MAX then None
      else Some(Out(Offset(o.code, o.hole, off), o.consts, o.locals, -1))
  }

  /** declare_variable's scan: a local of that name in the current scope, or one still undefined. */
  predicate Declared(locals: seq<Local>, depth: int, x: Name) {
    locals != [] &&
    var last := locals[|locals| - 1];
    if last.depth != -1 && last.depth < depth then false
    else last.name == x || Declared(locals[..|locals| - 1], depth, x)
  }

  function Pops(n: nat): (r: seq<Byte>)
    ensures |r| == n
    ensures forall i :: 0 <= i < n ==> r[i] == 0
  {
    if n == 0 then [] else Pops(n - 1) + POP
  }

  function LoopBack(distance: nat): (r: Option<seq<Byte>>)
    ensures r.Some? ==> distance + 3 <= JUMP_MAX && |r.value| == 3
  {
    if distance + 3 <= JUMP_MAX then Some(Encode(ILoop(distance + 3))) else None
  }

  /** A loop body is emitted with the loop's start back bytes behind it and its break slot free. */
  function BodyCx(cx: Cx, consts: nat, back: nat): (r: Cx)
    ensures r.locals == cx.locals
  {
    Cx(cx.locals, cx.depth, cx.k + consts, InLoop(back, false))
  }

  /** Condition, jump to the else part, then part, jump over the else part, else part. */
  function IfOut(cx: Cx, a: Out, b: Out, d: Out): (r: Option<Out>)
    requires a.Valid() && b.Valid() && d.Valid() && a.hole == -1
    ensures r.Some? ==>
              r.value.Valid() && r.value.locals == d.locals && (r.value.hole >= 0 ==> b.hole >= 0 || d.hole >= 0)
  {
    var j1 :- JumpIfFalse(1 + |b.code| + 3);
    var j2 :- Jump(1 + |d.code|);
    Some(Join(Join(Join(Join(a, Plain(j1 + POP, [], cx)), b), Plain(j2 + POP, [], cx)), d))
  }

  function WhileOut(cx: Cx, a: Out, b: Out): (r: Option<Out>)
    requires a.Valid() && b.Valid()
    ensures r.Some? ==> r.value.Valid() && r.value.locals == cx.locals && r.value.hole == -1
  {
    var j :- JumpIfFalse(1 + |b.code| + 3);
    var l :- LoopBack(|a.code| + 4 + |b.code|);
    Close(Join(Join(Join(a, Plain(j + POP, [], cx)), b), Plain(l + POP, [], cx)))
  }

  function LoopOut(cx: Cx, b: Out): (r: Option<Out>)
    requires b.Valid()
    ensures r.Some? ==> r.value.Valid() && r.value.locals == cx.locals && r.value.hole == -1
  {
    var l :- LoopBack(|b.code|);
    Close(Join(b, Plain(l, [], cx)))
  }

  /** The condition's test, if there is a condition, then a jump over the increment to the body. */
  function ForHead(cx: Cx, cond: bool, a: Out, off: nat): (r: Option<Out>)
    requires a.Valid()
    ensures r.Some? ==> r.value.Valid() && |r.value.code| == |a.code| + (if cond then 4 else 0)
  {
    if cond then
      var j :- JumpIfFalse(off);
      Some(Join(a, Plain(j + POP, [], cx)))
    else Some(a)
  }

  /** The increment and its jump back to the condition, entered only from the end of the body. */
  function ForStep(cx: Cx, i: Out, head: nat): (r: Option<Out>)
    requires i.Valid()
    ensures r.Some? ==> r.value.Valid() && |r.value.code| == |i.code| + 7 && (i.hole == -1 ==> r.value.hole == -1)
  {
    var j :- Jump(|i.code| + 4);
    var l :- LoopBack(head + 3 + |i.code| + 1);
    Some(Join(Join(Plain(j, [], cx), i), Plain(POP + l, [], cx)))
  }

  function ForOut(cx: Cx, cond: bool, a: Out, i: Out, b: Out): (r: Option<Out>)
    requires a.Valid() && i.Valid() && b.Valid()
    ensures r.Some? ==> r.value.Valid() && r.value.locals == cx.locals && r.value.hole == -1
  {
    var h :- ForHead(cx, cond, a, 1 + |i.code| + 7 + |b.code| + 3);
    var step :- ForStep(cx, i, |h.code|);
    var l :- LoopBack(|i.code| + 4 + |b.code|);
    Close(Join(Join(Join(h, step), b), Plain(l + (if cond then POP else []), [], cx)))
  }

  function MatchOut(cx: Cx, a: Out, b: Out): (r: Option<Out>)
    requires a.Valid() && b.Valid() && a.hole == -1
    ensures r.Some? ==> r.value.Valid() && r.value.locals == cx.locals && (r.value.hole >= 0 ==> b.hole >= 0)
  {
    if |b.code| > JUMP_MAX then None
    else Some(Join(Join(Join(a, Plain(Encode(IMatch(|b.code|)), [], cx)), b), Plain(POP, [], cx)))
  }

  function CodeS(s: Stmt, cx: Cx): (r: Option<Out>)
    ensures r.Some? ==> r.value.Valid() && r.value.locals == cx.locals
    ensures r.Some? && r.value.hole >= 0 ==> cx.loop.InLoop? && !cx.loop.broken
    decreases s, 0
  {
    hide Encode, CodeE, Fragment, ForCond, Close, IfOut, WhileOut, LoopOut, ForOut, MatchOut, Pops, Join, Plain;
    match s
    case ExprS(e) =>
      var a :- Fragment(e, cx);
      Some(Join(a, Plain(POP, [], cx)))
    case Block(ds) =>
      var o :- CodeDs(ds, cx.(depth := cx.depth + 1));
      Some(Join(o, Plain(Pops(|o.locals| - |cx.locals|), [], cx)))
    case If(c, t, f) =>
      var a :- Fragment(c, cx);
      var cx1 := After(cx, Join(a, Plain([39, 255, 255] + POP, [], cx)));
      var b :- CodeS(t, cx1);
      var cx2 := After(After(cx1, b), Plain([41, 255, 255] + POP, [], cx));
      var d :- CodeS(f, cx2);
      IfOut(cx, a, b, d)
    case While(c, body) =>
      var a :- Fragment(c, cx);
      var b :- CodeS(body, BodyCx(cx, |a.consts|, |a.code| + 4));
      WhileOut(cx, a, b)
    case Loop(body) =>
      var b :- CodeS(body, BodyCx(cx, 0, 0));
      LoopOut(cx, b)
    case ForLoop(cond, inc, body) =>
      var a :- ForCond(cond, cx);
      var i :- Fragment(inc, cx.(k := cx.k + |a.consts|));
      var b :- CodeS(body, BodyCx(cx, |a.consts| + |i.consts|, |i.code| + 4));
      ForOut(cx, cond.Some?, a, i, b)
    case Match(e, arms) =>
      var cx0 := cx.(depth := cx.depth + 1);
      var a :- Fragment(e, cx0);
      if ArmCount(arms) >= 256 then None
      else
        var b :- CodeArms(arms, After(cx0, Join(a, Plain([50, 255, 255], [], cx0))));
        MatchOut(cx, a, b)
    case Break =>
      if cx.loop.NoLoop? then None
      else if cx.loop.broken then Some(Plain([], [], cx))
      else Some(Out([48, 255, 255], [], cx.locals, 1))
    case Continue =>
      if cx.loop.NoLoop? || cx.loop.back + 3 > JUMP_MAX then None
      else Some(Plain(Encode(IContinue(cx.loop.back + 3)), [], cx))
  }

  function ForCond(cond: Option<Expr>, cx: Cx): (r: Option<Out>)
    ensures r.Some? ==> r.value.Valid() && r.value.hole == -1 && r.value.locals == cx.locals
  {
    if cond.Some? then Fragment(cond.value, cx) else Some(Plain([], [], cx))
  }

  /** Arms with a pattern, each of which takes one entry of the match's jump stack. */
  function ArmCount(arms: Arms): nat {
    if arms.Arm? then 1 + ArmCount(arms.rest) else 0
  }

  /** The context of an arm's body: after the pattern and the test that skips the body. */
  function PatternCx(p: Out, cx: Cx): (r: Cx)
    ensures r.locals == cx.locals && r.depth == cx.depth && (r.loop.InLoop? ==> cx.loop.InLoop?)
    ensures r.loop.InLoop? && !r.loop.broken ==> !cx.loop.broken
  {
    After(cx, Join(p, Plain([40, 255, 255], [], cx)))
  }

  /** One arm with the given end jump: pattern, test, body, end jump, and the pops of the arm's own scope. */
  function ArmOut(p: Out, b: Out, end: seq<Byte>, cx: Cx): (r: Out)
    requires |cx.locals| <= |b.locals| && |b.code| + 3 <= JUMP_MAX
    ensures r.locals == cx.locals && (p.Valid() && b.Valid() ==> r.Valid())
            && (r.hole >= 0 ==> p.hole >= 0 || b.hole >= 0)
  {
    var off := |b.code| + 3;
    Join(Join(Join(p, Plain([40, Hi(off), Lo(off)], [], cx)), b), Plain(end + Pops(|b.locals| - |cx.locals|), [], cx))
  }

  /** Each arm ends in a jump over the rest; a failed test lands after that jump, on the pops that close the arm's
      scope. */
  function CodeArms(arms: Arms, cx: Cx): (r: Option<Out>)
    ensures r.Some? ==> r.value.Valid() && r.value.locals == cx.locals
    ensures r.Some? && r.value.hole >= 0 ==> cx.loop.InLoop? && !cx.loop.broken
    decreases arms, 0
  {
    hide Encode, CodeE, Fragment, Pops, Join, Plain, PatternCx, ArmOut;
    match arms
    case NoMore => Some(Plain([41, 0, 0], [], cx))
    case Default(body) =>
      var b :- CodeArmBody(body, cx);
      var n := |b.locals| - |cx.locals|;
      if n > JUMP_MAX then None else Some(Join(b, Plain([41, Hi(n), Lo(n)] + Pops(n), [], cx)))
    case Arm(pattern, body, rest) =>
      var p :- Fragment(pattern, cx.(depth := cx.depth + 1));
      var b :- CodeArmBody(body, PatternCx(p, cx));
      if |b.code| + 3 > JUMP_MAX then None
      else
        var d :- CodeArms(rest, After(cx, ArmOut(p, b, [41, 255, 255], cx)));
        var n := |b.locals| - |cx.locals| + |d.code|;
        if n > JUMP_MAX then None else Some(Join(ArmOut(p, b, [41, Hi(n), Lo(n)], cx), d))
  }

  /** An arm's body is emitted in the arm's scope; a block in it opens no scope of its own. */
  function CodeArmBody(body: Stmt, cx: Cx): (r: Option<Out>)
    ensures r.Some? ==> r.value.Valid() && |cx.locals| <= |r.value.locals|
    ensures r.Some? && r.value.hole >= 0 ==> cx.loop.InLoop? && !cx.loop.broken
    decreases body, 1
  {
    var inner := cx.(depth := cx.depth + 1);
    if body.Block? then CodeDs(body.ds, inner) else CodeS(body, inner)
  }

  function CodeDs(ds: Decls, cx: Cx): (r: Option<Out>)
    ensures r.Some? ==> r.value.Valid() && |cx.locals| <= |r.value.locals| && r.value.locals[..|cx.locals|] == cx.locals
    ensures r.Some? && r.value.hole >= 0 ==> cx.loop.InLoop? && !cx.loop.broken
    decreases ds, 0
  {
    match ds
    case End => Some(Plain([], [], cx))
    case VarD(x, init, rest) =>
      if cx.depth == 0 || Declared(cx.locals, cx.depth, x) || |cx.locals| >= LOCALS_MAX then None
      else
        var a :- CodeE(init, cx.locals + [Local(x, -1)], cx.k);
        var o := Out(a, Consts(init), cx.locals + [Local(x, cx.depth)], -1);
        var d :- CodeDs(rest, After(cx, o));
        assert d.locals[..|cx.locals|] == d.locals[..|cx.locals| + 1][..|cx.locals|];
        Some(Join(o, d))
    case StmtD(s, rest) =>
      var o :- CodeS(s, cx);
      var d :- CodeDs(rest, After(cx, o));
      Some(Join(o, d))
  }

  /** A statement takes its loop's break slot exactly if it has a `break` and the slot is free. */
  lemma {:induction false} SlotTaken(s: Stmt, cx: Cx)
    requires CodeS(s, cx).Some?
    ensures CodeS(s, cx).value.hole >= 0 <==> Breaks(s) > 0 && cx.loop.InLoop? && !cx.loop.broken
    ensures cx.loop.NoLoop? ==> Breaks(s) == 0
    decreases s, 0
  {
    hide Encode, CodeE, Fragment, ForCond, Close, WhileOut, LoopOut, ForOut, Pops, Plain;
    match s
    case Block(ds) => SlotTakenIn(ds, cx.(depth := cx.depth + 1));
    case If(c, t, f) =>
      var cx1 := After(cx, Join(Fragment(c, cx).value, Plain([39, 255, 255] + POP, [], cx)));
      var cx2 := After(After(cx1, CodeS(t, cx1).value), Plain([41, 255, 255] + POP, [], cx));
      SlotTaken(t, cx1);
      SlotTaken(f, cx2);
    case Match(e, arms) =>
      var cx0 := cx.(depth := cx.depth + 1);
      SlotTakenOf(arms, After(cx0, Join(Fragment(e, cx0).value, Plain([50, 255, 255], [], cx0))));
    case _ =>
  }

  lemma {:induction false} SlotTakenOf(arms: Arms, cx: Cx)
    requires CodeArms(arms, cx).Some?
    ensures CodeArms(arms, cx).value.hole >= 0 <==> BreaksOf(arms) > 0 && cx.loop.InLoop? && !cx.loop.broken
    ensures cx.loop.NoLoop? ==> BreaksOf(arms) == 0
    decreases arms, 0
  {
    hide Encode, CodeE, Fragment, Pops, CodeArmBody, ArmOut, PatternCx, After, Plain;
    match arms
    case NoMore => NoSlot(cx);
    case Default(body) =>
      SlotTakenBody(body, cx);
      DefaultSlot(CodeArmBody(body, cx).value, cx);
    case Arm(pattern, body, rest) =>
      var p := Fragment(pattern, cx.(depth := cx.depth + 1)).value;
      var b := CodeArmBody(body, PatternCx(p, cx)).value;
      SlotTakenBody(body, PatternCx(p, cx));
      var next := After(cx, ArmOut(p, b, [41, 255, 255], cx));
      SlotTakenOf(rest, next);
      var d := CodeArms(rest, next).value;
      var n := |b.locals| - |cx.locals| + |d.code|;
      ArmSlot(p, b, cx, [41, Hi(n), Lo(n)]);
  }

  /** An arm takes the slot if its body does. */
  lemma {:induction false} ArmSlot(p: Out, b: Out, cx: Cx, end: seq<Byte>)
    requires |cx.locals| <= |b.locals| && |b.code| + 3 <= JUMP_MAX && p.hole == -1
    ensures ArmOut(p, b, end, cx).hole >= 0 <==> b.hole >= 0
    ensures PatternCx(p, cx).loop.InLoop? == cx.loop.InLoop?
            && (cx.loop.InLoop? ==> PatternCx(p, cx).loop.broken == cx.loop.broken)
    ensures var l := After(cx, ArmOut(p, b, [41, 255, 255], cx)).loop;
            && l.InLoop? == cx.loop.InLoop?
            && (cx.loop.InLoop? ==> l.broken == (cx.loop.broken || b.hole >= 0))
  {
  }

  lemma {:induction false} DefaultSlot(b: Out, cx: Cx)
    requires |cx.locals| <= |b.locals|
    ensures var n := |b.locals| - |cx.locals|;
            n <= JUMP_MAX ==> (Join(b, Plain([41, Hi(n), Lo(n)] + Pops(n), [], cx)).hole >= 0 <==> b.hole >= 0)
  {
    hide Pops;
  }

  lemma {:induction false} NoSlot(cx: Cx)
    ensures Plain([41, 0, 0], [], cx).hole == -1
  {
  }

  lemma {:induction false} SlotTakenBody(body: Stmt, cx: Cx)
    requires CodeArmBody(body, cx).Some?
    ensures CodeArmBody(body, cx).value.hole >= 0 <==> Breaks(body) > 0 && cx.loop.InLoop? && !cx.loop.broken
    ensures cx.loop.NoLoop? ==> Breaks(body) == 0
    decreases body, 1
  {
    hide CodeS, CodeDs;
    var inner := cx.(depth := cx.depth + 1);
    if body.Block? { SlotTakenIn(body.ds, inner); } else { SlotTaken(body, inner); }
  }

  lemma {:induction false} SlotTakenIn(ds: Decls, cx: Cx)
    requires CodeDs(ds, cx).Some?
    ensures CodeDs(ds, cx).value.hole >= 0 <==> BreaksIn(ds) > 0 && cx.loop.InLoop? && !cx.loop.broken
    ensures cx.loop.NoLoop? ==> BreaksIn(ds) == 0
    decreases ds, 0
  {
    hide CodeE, CodeS, Declared, Plain;
    match ds
    case End =>
    case VarD(x, init, rest) =>
      SlotTakenIn(rest, After(cx, Out(CodeE(init, cx.locals + [Local(x, -1)], cx.k).value, Consts(init),
          cx.locals + [Local(x, cx.depth)], -1)));
    case StmtD(s, rest) =>
      SlotTaken(s, cx);
      SlotTakenIn(rest, After(cx, CodeS(s, cx).value));
  }
}
