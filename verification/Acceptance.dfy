/** Which scripts compile: names, limits and jump distances, read off the trees without emitting anything. */
module Acceptance {
  import opened Base
  import opened Syntax
  import opened Bytecode
  import opened CodeGen
  import opened Grammar
  import opened SinglePass
  import opened EndToEnd
  import Showing
  import Texts
  import Readings

  /** Every name an expression reads or assigns is seen. */
  predicate Sees(e: Expr, seen: set<Name>) {
    match e
    case Var(x) => x in seen
    case Assign(x, e1) => x in seen && Sees(e1, seen)
    case Unary(_, e1) => Sees(e1, seen)
    case Binary(_, l, r) => Sees(l, seen) && Sees(r, seen)
    case And(l, r) => Sees(l, seen) && Sees(r, seen)
    case Or(l, r) => Sees(l, seen) && Sees(r, seen)
    case Cond(c, t, f) => Sees(c, seen) && Sees(t, seen) && Sees(f, seen)
    case _ => true
  }

  function Literals(e: Expr): nat {
    match e
    case Int(_) => 1
    case Assign(_, e1) => Literals(e1)
    case Unary(_, e1) => Literals(e1)
    case Binary(_, l, r) => Literals(l) + Literals(r)
    case And(l, r) => Literals(l) + Literals(r)
    case Or(l, r) => Literals(l) + Literals(r)
    case Cond(c, t, f) => Literals(c) + Literals(t) + Literals(f)
    case _ => 0
  }

  function LiteralsOf(s: Stmt): nat {
    match s
    case ExprS(e) => Literals(e)
    case Block(ds) => LiteralsIn(ds)
    case If(c, t, f) => Literals(c) + LiteralsOf(t) + LiteralsOf(f)
    case While(c, body) => Literals(c) + LiteralsOf(body)
    case Loop(body) => LiteralsOf(body)
    case ForLoop(cond, inc, body) => (if cond.Some? then Literals(cond.value) else 0) + Literals(inc) + LiteralsOf(body)
    case Match(e, arms) => Literals(e) + LiteralsAmong(arms)
    case _ => 0
  }

  function LiteralsIn(ds: Decls): nat {
    match ds
    case End => 0
    case VarD(_, init, rest) => Literals(init) + LiteralsIn(rest)
    case StmtD(s, rest) => LiteralsOf(s) + LiteralsIn(rest)
  }

  function LiteralsAmong(arms: Arms): nat {
    match arms
    case NoMore => 0
    case Default(body) => LiteralsOf(body)
    case Arm(p, body, rest) => Literals(p) + LiteralsOf(body) + LiteralsAmong(rest)
  }

  /** Names are seen from after their declaration to the end of their block, none is declared twice in one block, no
      more than 256 slots are in use at once, and `break` and `continue` are inside loops. */
  predicate Scoped(s: Stmt, seen: set<Name>, used: nat, inLoop: bool) {
    match s
    case ExprS(e) => Sees(e, seen)
    case Block(ds) => ScopedIn(ds, seen, {}, used, inLoop)
    case If(c, t, f) => Sees(c, seen) && Scoped(t, seen, used, inLoop) && Scoped(f, seen, used, inLoop)
    case While(c, body) => Sees(c, seen) && Scoped(body, seen, used, true)
    case Loop(body) => Scoped(body, seen, used, true)
    case ForLoop(cond, inc, body) =>
      (cond.Some? ==> Sees(cond.value, seen)) && Sees(inc, seen) && Scoped(body, seen, used, true)
    case Match(e, arms) => Sees(e, seen) && ScopedAmong(arms, seen, used, inLoop)
    case Break => inLoop
    case Continue => inLoop
  }

  predicate ScopedIn(ds: Decls, seen: set<Name>, here: set<Name>, used: nat, inLoop: bool) {
    match ds
    case End => true
    case VarD(x, init, rest) =>
      && x !in here && used < 256 && Sees(init, seen - {x})
      && ScopedIn(rest, seen + {x}, here + {x}, used + 1, inLoop)
    case StmtD(s, rest) => Scoped(s, seen, used, inLoop) && ScopedIn(rest, seen, here, used, inLoop)
  }

  predicate ScopedAmong(arms: Arms, seen: set<Name>, used: nat, inLoop: bool) {
    match arms
    case NoMore => true
    case Default(body) => Scoped(body, seen, used, inLoop)
    case Arm(p, body, rest) =>
      Sees(p, seen) && Scoped(body, seen, used, inLoop) && ScopedAmong(rest, seen, used, inLoop)
  }

  /** Bytes of an expression after k literals. */
  function Size(e: Expr, k: nat): nat {
    match e
    case Int(_) => if k < 255 then 2 else 3
    case BoolLit(_) => 1
    case NoneLit => 1
    case Var(_) => 2
    case Assign(_, e1) => Size(e1, k) + 2
    case Unary(_, e1) => Size(e1, k) + 1
    case Binary(_, l, r) => Size(l, k) + Size(r, k + Literals(l)) + 1
    case And(l, r) => Size(l, k) + 4 + Size(r, k + Literals(l))
    case Or(l, r) => Size(l, k) + 7 + Size(r, k + Literals(l))
    case Cond(c, t, f) =>
      Size(c, k) + 4 + Size(t, k + Literals(c)) + 4 + Size(f, k + Literals(c) + Literals(t))
  }

  function Variables(ds: Decls): nat {
    match ds
    case End => 0
    case VarD(_, _, rest) => 1 + Variables(rest)
    case StmtD(_, rest) => Variables(rest)
  }

  /** Bytes of a statement after k literals; the first `break` of a loop has three, the others none. */
  function SizeOf(s: Stmt, k: nat, taken: bool): nat
    decreases s, 0
  {
    match s
    case ExprS(e) => Size(e, k) + 1
    case Block(ds) => SizeIn(ds, k, taken) + Variables(ds)
    case If(c, t, f) =>
      var k1 := k + Literals(c);
      Size(c, k) + 4 + SizeOf(t, k1, taken) + 4 + SizeOf(f, k1 + LiteralsOf(t), taken || Breaks(t) > 0)
    case While(c, body) => Size(c, k) + 4 + SizeOf(body, k + Literals(c), false) + 4
    case Loop(body) => SizeOf(body, k, false) + 3
    case ForLoop(cond, inc, body) =>
      var k1 := k + if cond.Some? then Literals(cond.value) else 0;
      (if cond.Some? then Size(cond.value, k) + 5 else 0) + Size(inc, k1) + 7
      + SizeOf(body, k1 + Literals(inc), false) + 3
    case Match(e, arms) => Size(e, k) + 3 + SizeAmong(arms, k + Literals(e), taken) + 1
    case Break => if taken then 0 else 3
    case Continue => 3
  }

  function SizeIn(ds: Decls, k: nat, taken: bool): nat
    decreases ds, 0
  {
    match ds
    case End => 0
    case VarD(_, init, rest) => Size(init, k) + SizeIn(rest, k + Literals(init), taken)
    case StmtD(s, rest) => SizeOf(s, k, taken) + SizeIn(rest, k + LiteralsOf(s), taken || Breaks(s) > 0)
  }

  /** An arm's own variables. */
  function OwnVariables(body: Stmt): nat {
    if body.Block? then Variables(body.ds) else 0
  }

  function BodySize(body: Stmt, k: nat, taken: bool): nat
    decreases body, 1
  {
    if body.Block? then SizeIn(body.ds, k, taken) else SizeOf(body, k, taken)
  }

  function ArmSize(p: Expr, body: Stmt, k: nat, taken: bool): nat
    decreases body, 2
  {
    Size(p, k) + 3 + BodySize(body, k + Literals(p), taken) + 3 + OwnVariables(body)
  }

  function SizeAmong(arms: Arms, k: nat, taken: bool): nat
    decreases arms, 0
  {
    match arms
    case NoMore => 3
    case Default(body) => BodySize(body, k, taken) + 3 + OwnVariables(body)
    case Arm(p, body, rest) =>
      ArmSize(p, body, k, taken) + SizeAmong(rest, k + Literals(p) + LiteralsOf(body), taken || Breaks(body) > 0)
  }

  /** The loop around, some bytes later. */
  function Later(l: LoopCx, bytes: nat, breaks: bool): LoopCx {
    if l.NoLoop? then l else InLoop(l.back + bytes, l.broken || breaks)
  }

  predicate Taken(l: LoopCx) {
    l.InLoop? && l.broken
  }

  /** Every jump of an expression reaches where it must. */
  predicate Near(e: Expr, k: nat) {
    match e
    case Assign(_, e1) => Near(e1, k)
    case Unary(_, e1) => Near(e1, k)
    case Binary(_, l, r) => Near(l, k) && Near(r, k + Literals(l))
    case And(l, r) => Near(l, k) && Near(r, k + Literals(l)) && Size(r, k + Literals(l)) + 1 <= 65535
    case Or(l, r) => Near(l, k) && Near(r, k + Literals(l)) && Size(r, k + Literals(l)) + 1 <= 65535
    case Cond(c, t, f) =>
      var k1, k2 := k + Literals(c), k + Literals(c) + Literals(t);
      Near(c, k) && Near(t, k1) && Near(f, k2) && Size(t, k1) + 4 <= 65535 && Size(f, k2) + 1 <= 65535
    case _ => true
  }

  predicate NearOf(s: Stmt, k: nat, l: LoopCx)
    decreases s, 0
  {
    match s
    case ExprS(e) => Near(e, k)
    case Block(ds) => NearIn(ds, k, l)
    case If(c, t, f) =>
      var k1 := k + Literals(c);
      var k2 := k1 + LiteralsOf(t);
      var l1 := Later(l, Size(c, k) + 4, false);
      var size := SizeOf(t, k1, Taken(l));
      var l2 := Later(l1, size + 4, Breaks(t) > 0);
      && Near(c, k) && NearOf(t, k1, l1) && NearOf(f, k2, l2)
      && size + 4 <= 65535 && SizeOf(f, k2, Taken(l2)) + 1 <= 65535
    case While(c, body) =>
      var k1 := k + Literals(c);
      && Near(c, k) && NearOf(body, k1, InLoop(Size(c, k) + 4, false))
      && Size(c, k) + SizeOf(body, k1, false) + 7 <= 65535
    case Loop(body) => NearOf(body, k, InLoop(0, false)) && SizeOf(body, k, false) + 3 <= 65535
    case ForLoop(cond, inc, body) =>
      var k1 := k + if cond.Some? then Literals(cond.value) else 0;
      var test := if cond.Some? then Size(cond.value, k) + 4 else 0;
      var step, size := Size(inc, k1), SizeOf(body, k1 + Literals(inc), false);
      && (cond.Some? ==> Near(cond.value, k)) && Near(inc, k1)
      && NearOf(body, k1 + Literals(inc), InLoop(step + 4, false))
      && (cond.Some? ==> step + size + 11 <= 65535) && test + step + 7 <= 65535 && step + size + 7 <= 65535
    case Match(e, arms) =>
      var k1 := k + Literals(e);
      && Near(e, k) && Patterns(arms) < 256 && NearAmong(arms, k1, Later(l, Size(e, k) + 3, false))
      && SizeAmong(arms, k1, Taken(l)) <= 65535
    case Break => true
    case Continue => l.InLoop? ==> l.back + 3 <= 65535
  }

  predicate NearIn(ds: Decls, k: nat, l: LoopCx)
    decreases ds, 0
  {
    match ds
    case End => true
    case VarD(_, init, rest) => Near(init, k) && NearIn(rest, k + Literals(init), Later(l, Size(init, k), false))
    case StmtD(s, rest) =>
      NearOf(s, k, l) && NearIn(rest, k + LiteralsOf(s), Later(l, SizeOf(s, k, Taken(l)), Breaks(s) > 0))
  }

  predicate NearBody(body: Stmt, k: nat, l: LoopCx)
    decreases body, 1
  {
    if body.Block? then NearIn(body.ds, k, l) else NearOf(body, k, l)
  }

  predicate NearAmong(arms: Arms, k: nat, l: LoopCx)
    decreases arms, 0
  {
    match arms
    case NoMore => true
    case Default(body) => NearBody(body, k, l) && OwnVariables(body) <= 65535
    case Arm(p, body, rest) =>
      var k1 := k + Literals(p);
      var k2 := k1 + LiteralsOf(body);
      var next := Later(l, ArmSize(p, body, k, Taken(l)), Breaks(body) > 0);
      && Near(p, k) && NearBody(body, k1, Later(l, Size(p, k) + 3, false))
      && BodySize(body, k1, Taken(l)) + 3 <= 65535
      && NearAmong(rest, k2, next) && OwnVariables(body) + SizeAmong(rest, k2, Taken(next)) <= 65535
  }

  function Patterns(arms: Arms): nat {
    if arms.Arm? then 1 + Patterns(arms.rest) else 0
  }

  function Names(locals: seq<Local>): set<Name> {
    set i | 0 <= i < |locals| :: locals[i].name
  }

  // The names of the innermost open scope.
  function NamesAt(locals: seq<Local>, depth: int): set<Name> {
    set i | 0 <= i < |locals| && locals[i].depth == depth :: locals[i].name
  }

  ghost predicate Orderly(locals: seq<Local>, depth: int) {
    && |locals| <= 256
    && (forall i :: 0 <= i < |locals| ==> 0 <= locals[i].depth <= depth)
    && (forall i, j :: 0 <= i < j < |locals| ==> locals[i].depth <= locals[j].depth)
  }

  // Compiled, or refused, as predicted, and of the predicted sizes.
  ghost predicate Judged(o: Option<Out>, fine: bool, size: nat, literals: nat) {
    && (o.Some? <==> fine)
    && (o.Some? ==> |o.value.code| == size && |o.value.consts| == literals)
  }

  ghost predicate Finds(locals: seq<Local>, seen: set<Name>) {
    forall x :: Resolve(locals, x).Some? <==> x in seen
  }

  lemma {:induction false} FindsDefined(locals: seq<Local>, depth: int)
    requires Orderly(locals, depth)
    ensures Finds(locals, Names(locals))
  {
    forall x ensures Resolve(locals, x).Some? <==> x in Names(locals) { ResolveIs(locals, depth, x); }
  }

  lemma {:induction false} ResolveIs(locals: seq<Local>, depth: int, x: Name)
    requires Orderly(locals, depth)
    ensures Resolve(locals, x).Some? <==> x in Names(locals)
  {
    if locals != [] {
      var last := |locals| - 1;
      ResolveIs(locals[..last], depth, x);
      NamesSplit(locals[..last], locals[last]);
      assert locals == locals[..last] + [locals[last]];
    }
  }

  lemma {:induction false} NamesSplit(locals: seq<Local>, l: Local)
    ensures Names(locals + [l]) == Names(locals) + {l.name}
    ensures forall d :: NamesAt(locals + [l], d) == NamesAt(locals, d) + if l.depth == d then {l.name} else {}
  {
    var all := locals + [l];
    assert all[|locals|] == l && forall i :: 0 <= i < |locals| ==> all[i] == locals[i];
    forall x ensures x in Names(all) <==> x in Names(locals) + {l.name} {}
    forall d ensures NamesAt(all, d) == NamesAt(locals, d) + if l.depth == d then {l.name} else {} {
      forall x ensures x in NamesAt(all, d) <==> x in NamesAt(locals, d) + if l.depth == d then {l.name} else {} {}
    }
  }

  /** A variable's own initialiser does not see it, nor what it hides. */
  lemma {:induction false} FindsUndefined(locals: seq<Local>, depth: int, x: Name)
    requires Orderly(locals, depth)
    ensures Finds(locals + [Local(x, -1)], Names(locals) - {x})
  {
    FindsDefined(locals, depth);
    assert (locals + [Local(x, -1)])[..|locals|] == locals;
  }

  lemma {:induction false} DeclaredIs(locals: seq<Local>, depth: int, x: Name)
    requires Orderly(locals, depth)
    ensures Declared(locals, depth, x) <==> x in NamesAt(locals, depth)
  {
    if locals != [] {
      var last := |locals| - 1;
      DeclaredIs(locals[..last], depth, x);
      NamesSplit(locals[..last], locals[last]);
      assert locals == locals[..last] + [locals[last]];
    }
  }

  /** Compiled exactly as predicted, in the predicted number of bytes. */
  ghost predicate Exact(e: Expr, locals: seq<Local>, k: nat, seen: set<Name>) {
    var o := CodeE(e, locals, k);
    && (o.Some? <==> Sees(e, seen) && k + Literals(e) <= 65535 && Near(e, k))
    && (o.Some? ==> |o.value| == Size(e, k))
  }

  lemma {:induction false} ExprJudged(e: Expr, locals: seq<Local>, k: nat, seen: set<Name>)
    requires Finds(locals, seen) && k <= 65535
    ensures Exact(e, locals, k, seen) && |Consts(e)| == Literals(e)
  {
    hide Finds, Resolve, Exact, CodeE, Sees, Near, Size, Consts, Literals;
    LiteralsCounted(e);
    match e
    case Assign(x, e1) =>
      ExprJudged(e1, locals, k, seen);
      PlainExact(e, locals, k, seen);
    case Unary(_, e1) =>
      ExprJudged(e1, locals, k, seen);
      PlainExact(e, locals, k, seen);
    case Binary(op, l, r) =>
      ExprJudged(l, locals, k, seen);
      if k + Literals(l) <= 65535 { ExprJudged(r, locals, k + Literals(l), seen); }
      BinaryExact(op, l, r, locals, k, seen);
    case And(l, r) =>
      ExprJudged(l, locals, k, seen);
      if k + Literals(l) <= 65535 { ExprJudged(r, locals, k + Literals(l), seen); }
      AndExact(l, r, locals, k, seen);
    case Or(l, r) =>
      ExprJudged(l, locals, k, seen);
      if k + Literals(l) <= 65535 { ExprJudged(r, locals, k + Literals(l), seen); }
      OrExact(l, r, locals, k, seen);
    case Cond(c, t, f) =>
      ExprJudged(c, locals, k, seen);
      if k + Literals(c) <= 65535 { ExprJudged(t, locals, k + Literals(c), seen); }
      if k + Literals(c) + Literals(t) <= 65535 { ExprJudged(f, locals, k + Literals(c) + Literals(t), seen); }
      CondExact(c, t, f, locals, k, seen);
    case _ => PlainExact(e, locals, k, seen);
  }

  lemma {:induction false} PlainExact(e: Expr, locals: seq<Local>, k: nat, seen: set<Name>)
    requires !e.Binary? && !e.And? && !e.Or? && !e.Cond? && Finds(locals, seen) && k <= 65535
    requires e.Assign? || e.Unary? ==> Exact(e.e, locals, k, seen)
    ensures Exact(e, locals, k, seen)
  {
    hide Finds, Resolve;
    if e.Var? || e.Assign? { UseJudged(locals, seen, e.x); }
  }

  lemma {:induction false} BinaryExact(op: BinOp, l: Expr, r: Expr, locals: seq<Local>, k: nat, seen: set<Name>)
    requires Exact(l, locals, k, seen) && (k + Literals(l) <= 65535 ==> Exact(r, locals, k + Literals(l), seen))
    ensures Exact(Binary(op, l, r), locals, k, seen)
  {
    LiteralsCounted(l);
  }

  lemma {:induction false} AndExact(l: Expr, r: Expr, locals: seq<Local>, k: nat, seen: set<Name>)
    requires Exact(l, locals, k, seen) && (k + Literals(l) <= 65535 ==> Exact(r, locals, k + Literals(l), seen))
    ensures Exact(And(l, r), locals, k, seen)
  {
    LiteralsCounted(l);
  }

  lemma {:induction false} OrExact(l: Expr, r: Expr, locals: seq<Local>, k: nat, seen: set<Name>)
    requires Exact(l, locals, k, seen) && (k + Literals(l) <= 65535 ==> Exact(r, locals, k + Literals(l), seen))
    ensures Exact(Or(l, r), locals, k, seen)
  {
    LiteralsCounted(l);
  }

  lemma {:induction false} CondExact(c: Expr, t: Expr, f: Expr, locals: seq<Local>, k: nat, seen: set<Name>)
    requires Exact(c, locals, k, seen) && (k + Literals(c) <= 65535 ==> Exact(t, locals, k + Literals(c), seen))
    requires k + Literals(c) + Literals(t) <= 65535 ==> Exact(f, locals, k + Literals(c) + Literals(t), seen)
    ensures Exact(Cond(c, t, f), locals, k, seen)
  {
    hide Sees, Near, CodeE, Consts, Literals, Size;
    CondParts(c, t, f, k, seen);
    CondCode(c, t, f, locals, k);
  }

  lemma {:induction false} CondParts(c: Expr, t: Expr, f: Expr, k: nat, seen: set<Name>)
    ensures var e := Cond(c, t, f);
            var k1, k2 := k + Literals(c), k + Literals(c) + Literals(t);
            && (Sees(e, seen) <==> Sees(c, seen) && Sees(t, seen) && Sees(f, seen))
            && Literals(e) == Literals(c) + Literals(t) + Literals(f)
            && Size(e, k) == Size(c, k) + 4 + Size(t, k1) + 4 + Size(f, k2)
            && (Near(e, k) <==>
                  Near(c, k) && Near(t, k1) && Near(f, k2) && Size(t, k1) + 4 <= 65535 && Size(f, k2) + 1 <= 65535)
  {
  }

  lemma {:induction false} CondCode(c: Expr, t: Expr, f: Expr, locals: seq<Local>, k: nat)
    ensures var o, a := CodeE(Cond(c, t, f), locals, k), CodeE(c, locals, k);
            var b := CodeE(t, locals, k + Literals(c));
            var d := CodeE(f, locals, k + Literals(c) + Literals(t));
            && (o.Some? <==> a.Some? && b.Some? && d.Some? && |b.value| + 4 <= 65535 && |d.value| + 1 <= 65535)
            && (o.Some? ==> |o.value| == |a.value| + 4 + |b.value| + 4 + |d.value|)
  {
    hide Encode, Resolve;
    LiteralsCounted(c);
    LiteralsCounted(t);
  }

  lemma {:induction false} UseJudged(locals: seq<Local>, seen: set<Name>, x: Name)
    requires Finds(locals, seen)
    ensures Resolve(locals, x).Some? <==> x in seen
  {
  }

  lemma {:induction false} LiteralsCounted(e: Expr)
    ensures |Consts(e)| == Literals(e)
  {
    match e
    case Assign(_, e1) => LiteralsCounted(e1);
    case Unary(_, e1) => LiteralsCounted(e1);
    case Binary(_, l, r) => LiteralsCounted(l); LiteralsCounted(r);
    case And(l, r) => LiteralsCounted(l); LiteralsCounted(r);
    case Or(l, r) => LiteralsCounted(l); LiteralsCounted(r);
    case Cond(c, t, f) => LiteralsCounted(c); LiteralsCounted(t); LiteralsCounted(f);
    case _ =>
  }

  // A context the predictions are for.
  ghost predicate Fit(cx: Cx) {
    Orderly(cx.locals, cx.depth) && cx.k <= 65535
  }

  ghost predicate ExprFine(e: Expr, cx: Cx) {
    Sees(e, Names(cx.locals)) && cx.k + Literals(e) <= 65535 && Near(e, cx.k)
  }

  ghost predicate StmtFine(s: Stmt, cx: Cx) {
    && Scoped(s, Names(cx.locals), |cx.locals|, cx.loop.InLoop?) && cx.k + LiteralsOf(s) <= 65535
    && NearOf(s, cx.k, cx.loop)
  }

  ghost predicate DeclsFine(ds: Decls, cx: Cx) {
    && ScopedIn(ds, Names(cx.locals), NamesAt(cx.locals, cx.depth), |cx.locals|, cx.loop.InLoop?)
    && cx.k + LiteralsIn(ds) <= 65535 && NearIn(ds, cx.k, cx.loop)
  }

  ghost predicate ArmsFine(arms: Arms, cx: Cx) {
    && ScopedAmong(arms, Names(cx.locals), |cx.locals|, cx.loop.InLoop?) && cx.k + LiteralsAmong(arms) <= 65535
    && NearAmong(arms, cx.k, cx.loop)
  }

  lemma {:induction false} FragmentJudged(e: Expr, cx: Cx)
    requires Fit(cx)
    ensures Judged(Fragment(e, cx), ExprFine(e, cx), Size(e, cx.k), Literals(e))
    ensures Fragment(e, cx).Some? ==> cx.k + Literals(e) <= 65535
  {
    hide CodeE, Consts, Sees, Near, Size, Names, Resolve;
    FindsDefined(cx.locals, cx.depth);
    ExprJudged(e, cx.locals, cx.k, Names(cx.locals));
  }

  /** The context after some code. */
  lemma {:induction false} Onward(cx: Cx, o: Out, breaks: bool)
    requires Fit(cx) && o.locals == cx.locals && cx.k + |o.consts| <= 65535
    requires cx.loop.InLoop? && !cx.loop.broken ==> (o.hole >= 0 <==> breaks)
    ensures After(cx, o) == Cx(cx.locals, cx.depth, cx.k + |o.consts|, Later(cx.loop, |o.code|, breaks))
    ensures Fit(After(cx, o))
  {
  }

  lemma {:induction false} StmtJudged(s: Stmt, cx: Cx)
    requires Fit(cx)
    ensures Judged(CodeS(s, cx), StmtFine(s, cx), SizeOf(s, cx.k, Taken(cx.loop)), LiteralsOf(s))
    ensures CodeS(s, cx).Some? ==> cx.k + LiteralsOf(s) <= 65535
    decreases s, 1
  {
    StmtLiterals(s, cx);
    hide Near, Size, CodeE, Fragment, WhileOut, LoopOut, ForOut, MatchOut, IfOut, Names, NamesAt, Orderly, ScopedIn,
      NearIn, SizeIn, ScopedAmong, NearAmong, SizeAmong, Sees, ForCond;
    match s
    case ExprS(e) => FragmentJudged(e, cx);
    case Block(ds) => BlockJudged(ds, cx);
    case If(c, t, f) => IfJudged(c, t, f, cx);
    case While(c, body) => WhileJudged(c, body, cx);
    case Loop(body) => LoopJudged(body, cx);
    case ForLoop(cond, inc, body) => ForJudged(cond, inc, body, cx);
    case Match(e, arms) => MatchJudged(e, arms, cx);
    case Break =>
    case Continue =>
  }

  lemma {:induction false} StmtLiterals(s: Stmt, cx: Cx)
    ensures StmtFine(s, cx) ==> cx.k + LiteralsOf(s) <= 65535
  {
  }

  lemma {:induction false} BlockJudged(ds: Decls, cx: Cx)
    requires Fit(cx)
    ensures Judged(CodeS(Block(ds), cx), StmtFine(Block(ds), cx), SizeOf(Block(ds), cx.k, Taken(cx.loop)),
                   LiteralsOf(Block(ds)))
    decreases ds, 2
  {
    hide Near, Size, CodeE, CodeDs, Names, NearIn, SizeIn, ScopedIn, Sees;
    Deeper(cx);
    DeclsJudged(ds, cx.(depth := cx.depth + 1));
  }

  lemma {:induction false} Deeper(cx: Cx)
    requires Fit(cx)
    ensures Fit(cx.(depth := cx.depth + 1)) && NamesAt(cx.locals, cx.depth + 1) == {}
  {
  }

  lemma {:induction false} DeclsJudged(ds: Decls, cx: Cx)
    requires Fit(cx) && cx.depth > 0
    ensures Judged(CodeDs(ds, cx), DeclsFine(ds, cx), SizeIn(ds, cx.k, Taken(cx.loop)), LiteralsIn(ds))
    ensures CodeDs(ds, cx).Some? ==> |CodeDs(ds, cx).value.locals| == |cx.locals| + Variables(ds)
    decreases ds, 1
  {
    hide Near, Size, CodeE, CodeS, Names, NamesAt, Orderly, Sees, Declared, Scoped, NearOf, SizeOf;
    match ds
    case End =>
    case VarD(x, init, rest) => VarJudged(x, init, rest, cx);
    case StmtD(s, rest) =>
      StmtJudged(s, cx);
      if CodeS(s, cx).Some? {
        SlotTaken(s, cx);
        var o := CodeS(s, cx).value;
        Onward(cx, o, Breaks(s) > 0);
        DeclsJudged(rest, After(cx, o));
      }
  }

  lemma {:induction false} VarFine(x: Name, init: Expr, rest: Decls, cx: Cx)
    requires Fit(cx)
    ensures var ds, seen := VarD(x, init, rest), Names(cx.locals);
            var next := Cx(cx.locals + [Local(x, cx.depth)], cx.depth, cx.k + Literals(init),
                           Later(cx.loop, Size(init, cx.k), false));
            && (DeclsFine(ds, cx) <==>
                  && x !in NamesAt(cx.locals, cx.depth) && |cx.locals| < 256 && Sees(init, seen - {x})
                  && cx.k + Literals(init) <= 65535 && Near(init, cx.k) && DeclsFine(rest, next))
            && LiteralsIn(ds) == Literals(init) + LiteralsIn(rest) && Variables(ds) == 1 + Variables(rest)
            && (forall taken ::
                  SizeIn(ds, cx.k, taken) == Size(init, cx.k) + SizeIn(rest, cx.k + Literals(init), taken))
  {
    hide Near, Size, Literals, Names, NamesAt, Sees, Orderly;
    NamesSplit(cx.locals, Local(x, cx.depth));
  }

  lemma {:induction false} VarCode(x: Name, init: Expr, rest: Decls, cx: Cx)
    requires Fit(cx) && cx.depth > 0
    ensures var o := CodeDs(VarD(x, init, rest), cx);
            var a := CodeE(init, cx.locals + [Local(x, -1)], cx.k);
            if x in NamesAt(cx.locals, cx.depth) || |cx.locals| >= 256 || a.None? then o.None?
            else
              var first := Out(a.value, Consts(init), cx.locals + [Local(x, cx.depth)], -1);
              var d := CodeDs(rest, After(cx, first));
              && (o.Some? <==> d.Some?)
              && (o.Some? ==>
                    && o.value.locals == d.value.locals && |o.value.code| == |a.value| + |d.value.code|
                    && |o.value.consts| == |Consts(init)| + |d.value.consts|)
  {
    hide CodeE, Consts, Declared, NamesAt, Orderly;
    DeclaredIs(cx.locals, cx.depth, x);
  }

  lemma {:induction false} VarOnward(x: Name, code: seq<Byte>, consts: seq<Value>, cx: Cx)
    requires Fit(cx) && |cx.locals| < 256 && cx.k + |consts| <= 65535 && cx.depth >= 0
    ensures var locals := cx.locals + [Local(x, cx.depth)];
            var next := After(cx, Out(code, consts, locals, -1));
            next == Cx(locals, cx.depth, cx.k + |consts|, Later(cx.loop, |code|, false)) && Fit(next)
  {
  }

  lemma {:induction false} InitExact(x: Name, init: Expr, cx: Cx)
    requires Fit(cx)
    ensures Exact(init, cx.locals + [Local(x, -1)], cx.k, Names(cx.locals) - {x}) && |Consts(init)| == Literals(init)
  {
    hide Near, Size, CodeE, Names, Sees, Consts, Literals, Resolve, Exact;
    FindsUndefined(cx.locals, cx.depth, x);
    ExprJudged(init, cx.locals + [Local(x, -1)], cx.k, Names(cx.locals) - {x});
  }

  lemma {:induction false} VarJudged(x: Name, init: Expr, rest: Decls, cx: Cx)
    requires Fit(cx) && cx.depth > 0
    ensures var ds := VarD(x, init, rest);
            && Judged(CodeDs(ds, cx), DeclsFine(ds, cx), SizeIn(ds, cx.k, Taken(cx.loop)), LiteralsIn(ds))
            && (CodeDs(ds, cx).Some? ==> |CodeDs(ds, cx).value.locals| == |cx.locals| + Variables(ds))
    decreases rest, 2
  {
    hide Near, Size, CodeE, CodeDs, Names, NamesAt, Sees, Consts, Literals, DeclsFine, SizeIn, LiteralsIn, After, Fit,
      Variables, Orderly;
    VarFine(x, init, rest, cx);
    VarCode(x, init, rest, cx);
    InitExact(x, init, cx);
    if |cx.locals| < 256 {
      var a := CodeE(init, cx.locals + [Local(x, -1)], cx.k);
      if a.Some? {
        VarOnward(x, a.value, Consts(init), cx);
        DeclsJudged(rest, After(cx, Out(a.value, Consts(init), cx.locals + [Local(x, cx.depth)], -1)));
      }
    }
  }

  lemma {:induction false} IfOutIs(cx: Cx, a: Out, b: Out, d: Out)
    requires a.Valid() && b.Valid() && d.Valid() && a.hole == -1
    ensures Judged(IfOut(cx, a, b, d), |b.code| + 4 <= 65535 && |d.code| + 1 <= 65535,
                   |a.code| + 4 + |b.code| + 4 + |d.code|, |a.consts| + |b.consts| + |d.consts|)
  {
  }

  lemma {:induction false} IfFine(c: Expr, t: Stmt, f: Stmt, cx: Cx)
    ensures var k1, l1 := cx.k + Literals(c), Later(cx.loop, Size(c, cx.k) + 4, false);
            var size := SizeOf(t, k1, Taken(cx.loop));
            var k2, l2 := k1 + LiteralsOf(t), Later(l1, size + 4, Breaks(t) > 0);
            StmtFine(If(c, t, f), cx) <==>
              && ExprFine(c, cx) && StmtFine(t, Cx(cx.locals, cx.depth, k1, l1))
              && StmtFine(f, Cx(cx.locals, cx.depth, k2, l2))
              && size + 4 <= 65535 && SizeOf(f, k2, Taken(l2)) + 1 <= 65535
  {
    hide Near, Size, Sees, Names, Breaks, Literals, SizeIn, SizeAmong, ScopedIn, ScopedAmong, NearIn, NearAmong,
      Patterns, Variables, SizeOf;
  }

  lemma {:induction false} IfSize(c: Expr, t: Stmt, f: Stmt, cx: Cx)
    ensures var k1 := cx.k + Literals(c);
            forall taken :: SizeOf(If(c, t, f), cx.k, taken) ==
                              Size(c, cx.k) + 4 + SizeOf(t, k1, taken) + 4
                              + SizeOf(f, k1 + LiteralsOf(t), taken || Breaks(t) > 0)
    ensures LiteralsOf(If(c, t, f)) == Literals(c) + LiteralsOf(t) + LiteralsOf(f)
  {
    hide Near, Size, Sees, Names, Breaks, Literals, SizeIn, SizeAmong, ScopedIn, ScopedAmong, NearIn, NearAmong,
      Patterns, Variables;
  }

  lemma {:induction false} IfCode(c: Expr, t: Stmt, f: Stmt, cx: Cx)
    ensures CodeS(If(c, t, f), cx) ==
              var a := Fragment(c, cx);
              if a.None? then None
              else
                var cx1 := After(cx, Join(a.value, Plain([39, 255, 255] + POP, [], cx)));
                var b := CodeS(t, cx1);
                if b.None? then None
                else
                  var d := CodeS(f, After(After(cx1, b.value), Plain([41, 255, 255] + POP, [], cx)));
                  if d.None? then None else IfOut(cx, a.value, b.value, d.value)
  {
    hide Encode, LoopBack, Jump, JumpIfFalse, Pops, CodeDs, CodeArms, MatchOut, ForOut, WhileOut, LoopOut, IfOut,
      Fragment, BodyCx, CodeE, Consts, ForCond, After, Join, Plain, ArmCount, Close;
  }

  /** The code between the branches moves the rest on by some bytes. */
  lemma {:induction false} Onwards(cx: Cx, o: Out, more: seq<Byte>)
    requires Fit(cx) && o.locals == cx.locals && cx.k + |o.consts| <= 65535 && o.hole == -1
    ensures var all := Join(o, Plain(more, [], cx));
            && After(cx, all) == Cx(cx.locals, cx.depth, cx.k + |o.consts|, Later(cx.loop, |o.code| + |more|, false))
            && Fit(After(cx, all))
  {
  }

  /** After a first branch and a jump, seen from its start. */
  lemma {:induction false} Between(cx: Cx, b: Out, breaks: bool, more: seq<Byte>)
    requires Fit(cx) && b.locals == cx.locals && cx.k + |b.consts| <= 65535
    requires cx.loop.InLoop? && !cx.loop.broken ==> (b.hole >= 0 <==> breaks)
    ensures var next := After(After(cx, b), Plain(more, [], cx));
            && next == Cx(cx.locals, cx.depth, cx.k + |b.consts|, Later(cx.loop, |b.code| + |more|, breaks))
            && Fit(next)
  {
  }

  lemma {:induction false} AnyCx(cx: Cx, cx1: Cx, code: seq<Byte>)
    requires cx1.locals == cx.locals
    ensures Plain(code, [], cx) == Plain(code, [], cx1)
  {
  }

  lemma {:induction false} IfJudged(c: Expr, t: Stmt, f: Stmt, cx: Cx)
    requires Fit(cx)
    ensures var s := If(c, t, f);
            Judged(CodeS(s, cx), StmtFine(s, cx), SizeOf(s, cx.k, Taken(cx.loop)), LiteralsOf(s))
    decreases If(c, t, f), 0
  {
    hide Near, Size, CodeE, Fragment, Names, Sees, StmtFine, ExprFine, NearOf, Scoped, Orderly, CodeS, SizeOf,
      LiteralsOf, Literals, Breaks, Fit, BodyCx, IfOut, After, Join, Plain;
    IfFine(c, t, f, cx);
    IfSize(c, t, f, cx);
    IfCode(c, t, f, cx);
    FragmentJudged(c, cx);
    if Fragment(c, cx).Some? {
      var a := Fragment(c, cx).value;
      Onwards(cx, a, [39, 255, 255] + POP);
      var cx1 := After(cx, Join(a, Plain([39, 255, 255] + POP, [], cx)));
      StmtJudged(t, cx1);
      if CodeS(t, cx1).Some? {
        var b := CodeS(t, cx1).value;
        SlotTaken(t, cx1);
        Between(cx1, b, Breaks(t) > 0, [41, 255, 255] + POP);
        AnyCx(cx, cx1, [41, 255, 255] + POP);
        var cx2 := After(After(cx1, b), Plain([41, 255, 255] + POP, [], cx));
        StmtJudged(f, cx2);
        if CodeS(f, cx2).Some? { IfOutIs(cx, a, b, CodeS(f, cx2).value); }
      }
    }
  }

  lemma {:induction false} CloseIs(o: Out)
    requires o.Valid() && (o.hole >= 0 ==> |o.code| - o.hole - 2 <= 65535)
    ensures Judged(Close(o), true, |o.code|, |o.consts|)
  {
  }

  lemma {:induction false} WhileOutIs(cx: Cx, a: Out, b: Out)
    requires a.Valid() && b.Valid() && a.hole == -1
    ensures Judged(WhileOut(cx, a, b), |a.code| + |b.code| + 7 <= 65535, |a.code| + 4 + |b.code| + 4,
                   |a.consts| + |b.consts|)
  {
    hide Close;
    if |a.code| + |b.code| + 7 <= 65535 {
      var j := JumpIfFalse(1 + |b.code| + 3);
      var l := LoopBack(|a.code| + 4 + |b.code|);
      CloseIs(Join(Join(Join(a, Plain(j.value + POP, [], cx)), b), Plain(l.value + POP, [], cx)));
    }
  }

  lemma {:induction false} WhileFine(c: Expr, body: Stmt, cx: Cx)
    ensures var k1 := cx.k + Literals(c);
            StmtFine(While(c, body), cx) <==>
              && ExprFine(c, cx) && StmtFine(body, Cx(cx.locals, cx.depth, k1, InLoop(Size(c, cx.k) + 4, false)))
              && Size(c, cx.k) + SizeOf(body, k1, false) + 7 <= 65535
    ensures forall taken :: SizeOf(While(c, body), cx.k, taken) ==
                              Size(c, cx.k) + 4 + SizeOf(body, cx.k + Literals(c), false) + 4
    ensures LiteralsOf(While(c, body)) == Literals(c) + LiteralsOf(body)
  {
    hide Near, Size, Sees, Names, Breaks, Literals, SizeIn, SizeAmong, ScopedIn, ScopedAmong, NearIn, NearAmong,
      Patterns, Variables;
  }

  lemma {:induction false} WhileCode(c: Expr, body: Stmt, cx: Cx)
    ensures CodeS(While(c, body), cx) ==
              var a := Fragment(c, cx);
              if a.None? then None
              else
                var b := CodeS(body, BodyCx(cx, |a.value.consts|, |a.value.code| + 4));
                if b.None? then None else WhileOut(cx, a.value, b.value)
  {
    hide Encode, LoopBack, Jump, JumpIfFalse, Pops, CodeDs, CodeArms, MatchOut, ForOut, WhileOut, LoopOut, IfOut,
      Fragment, BodyCx, CodeE, Consts, ForCond, After, Join, Plain, ArmCount, Close;
  }

  /** A loop's body starts a context of its own. */
  lemma {:induction false} Inside(cx: Cx, consts: nat, back: nat)
    requires Fit(cx) && cx.k + consts <= 65535
    ensures BodyCx(cx, consts, back) == Cx(cx.locals, cx.depth, cx.k + consts, InLoop(back, false))
    ensures Fit(BodyCx(cx, consts, back))
  {
  }

  lemma {:induction false} WhileJudged(c: Expr, body: Stmt, cx: Cx)
    requires Fit(cx)
    ensures var s := While(c, body);
            Judged(CodeS(s, cx), StmtFine(s, cx), SizeOf(s, cx.k, Taken(cx.loop)), LiteralsOf(s))
    decreases While(c, body), 0
  {
    hide Near, Size, CodeE, Fragment, Names, Sees, StmtFine, ExprFine, NearOf, Scoped, Orderly, CodeS, SizeOf,
      LiteralsOf, Literals, Breaks, Fit, BodyCx, WhileOut;
    WhileFine(c, body, cx);
    WhileCode(c, body, cx);
    FragmentJudged(c, cx);
    if Fragment(c, cx).Some? {
      var a := Fragment(c, cx).value;
      var inner := BodyCx(cx, |a.consts|, |a.code| + 4);
      Inside(cx, |a.consts|, |a.code| + 4);
      StmtJudged(body, inner);
      if CodeS(body, inner).Some? { WhileOutIs(cx, a, CodeS(body, inner).value); }
    }
  }

  lemma {:induction false} LoopJudged(body: Stmt, cx: Cx)
    requires Fit(cx)
    ensures var s := Loop(body);
            Judged(CodeS(s, cx), StmtFine(s, cx), SizeOf(s, cx.k, Taken(cx.loop)), LiteralsOf(s))
    decreases Loop(body), 0
  {
    hide Near, Size, CodeE, Close, Names, Sees, Breaks, Literals, Encode;
    var inner := BodyCx(cx, 0, 0);
    StmtJudged(body, inner);
    if CodeS(body, inner).Some? {
      var b := CodeS(body, inner).value;
      var l := LoopBack(|b.code|);
      if l.Some? { CloseIs(Join(b, Plain(l.value, [], cx))); }
    }
  }

  lemma {:induction false} ForOutIs(cx: Cx, cond: bool, a: Out, i: Out, b: Out)
    requires a.Valid() && i.Valid() && b.Valid() && a.hole == -1 && i.hole == -1
    ensures var test := |a.code| + if cond then 4 else 0;
            Judged(ForOut(cx, cond, a, i, b),
                   && (cond ==> |i.code| + |b.code| + 11 <= 65535) && test + |i.code| + 7 <= 65535
                   && |i.code| + |b.code| + 7 <= 65535,
                   test + |i.code| + 7 + |b.code| + 3 + (if cond then 1 else 0), |a.consts| + |i.consts| + |b.consts|)
  {
    hide Close, Encode, Join, Plain;
    var h := ForHead(cx, cond, a, 1 + |i.code| + 7 + |b.code| + 3);
    if h.Some? {
      var step := ForStep(cx, i, |h.value.code|);
      var l := LoopBack(|i.code| + 4 + |b.code|);
      if step.Some? && l.Some? {
        ForParts(cx, cond, a, i, b, h.value, step.value);
        ForClosed(cx, cond, h.value, step.value, b, l.value);
      }
    }
  }

  lemma {:induction false} ForClosed(cx: Cx, cond: bool, h: Out, step: Out, b: Out, l: seq<Byte>)
    requires h.Valid() && step.Valid() && b.Valid() && h.hole == -1 && step.hole == -1 && |l| == 3
    requires |b.code| + 7 <= 65535
    ensures var o := Join(Join(Join(h, step), b), Plain(l + (if cond then POP else []), [], cx));
            Judged(Close(o), true, |h.code| + |step.code| + |b.code| + 3 + (if cond then 1 else 0),
                   |h.consts| + |step.consts| + |b.consts|)
  {
    hide Close;
    CloseIs(Join(Join(Join(h, step), b), Plain(l + (if cond then POP else []), [], cx)));
  }

  lemma {:induction false} ForParts(cx: Cx, cond: bool, a: Out, i: Out, b: Out, h: Out, step: Out)
    requires a.Valid() && i.Valid() && a.hole == -1 && i.hole == -1
    requires ForHead(cx, cond, a, 1 + |i.code| + 7 + |b.code| + 3) == Some(h)
    requires ForStep(cx, i, |h.code|) == Some(step)
    ensures h.hole == -1 && step.hole == -1 && |h.consts| == |a.consts| && |step.consts| == |i.consts|
  {
  }

  lemma {:induction false} ForFine(cond: Option<Expr>, inc: Expr, body: Stmt, cx: Cx)
    ensures var k1 := cx.k + if cond.Some? then Literals(cond.value) else 0;
            var test := if cond.Some? then Size(cond.value, cx.k) + 4 else 0;
            var step, size := Size(inc, k1), SizeOf(body, k1 + Literals(inc), false);
            StmtFine(ForLoop(cond, inc, body), cx) <==>
              && (cond.Some? ==> ExprFine(cond.value, cx)) && ExprFine(inc, cx.(k := k1))
              && StmtFine(body, Cx(cx.locals, cx.depth, k1 + Literals(inc), InLoop(step + 4, false)))
              && (cond.Some? ==> step + size + 11 <= 65535) && test + step + 7 <= 65535 && step + size + 7 <= 65535
  {
    hide Near, Size, Sees, Names, Breaks, Literals, SizeIn, SizeAmong, ScopedIn, ScopedAmong, NearIn, NearAmong,
      Patterns, Variables, SizeOf;
  }

  lemma {:induction false} ForSize(cond: Option<Expr>, inc: Expr, body: Stmt, cx: Cx)
    ensures var k1 := cx.k + if cond.Some? then Literals(cond.value) else 0;
            forall taken :: SizeOf(ForLoop(cond, inc, body), cx.k, taken) ==
                              (if cond.Some? then Size(cond.value, cx.k) + 5 else 0) + Size(inc, k1) + 7
                              + SizeOf(body, k1 + Literals(inc), false) + 3
    ensures LiteralsOf(ForLoop(cond, inc, body)) ==
              (if cond.Some? then Literals(cond.value) else 0) + Literals(inc) + LiteralsOf(body)
  {
    hide Near, Size, Sees, Names, Breaks, Literals, SizeIn, SizeAmong, ScopedIn, ScopedAmong, NearIn, NearAmong,
      Patterns, Variables;
  }

  lemma {:induction false} ForCode(cond: Option<Expr>, inc: Expr, body: Stmt, cx: Cx)
    ensures CodeS(ForLoop(cond, inc, body), cx) ==
              var a := ForCond(cond, cx);
              if a.None? then None
              else
                var i := Fragment(inc, cx.(k := cx.k + |a.value.consts|));
                if i.None? then None
                else
                  var b := CodeS(body, BodyCx(cx, |a.value.consts| + |i.value.consts|, |i.value.code| + 4));
                  if b.None? then None else ForOut(cx, cond.Some?, a.value, i.value, b.value)
  {
    hide Encode, LoopBack, Jump, JumpIfFalse, Pops, CodeDs, CodeArms, MatchOut, ForOut, WhileOut, LoopOut, IfOut,
      Fragment, BodyCx, CodeE, Consts, ForCond, After, Join, Plain, ArmCount, Close;
  }

  lemma {:induction false} TestJudged(cond: Option<Expr>, cx: Cx)
    requires Fit(cx)
    ensures Judged(ForCond(cond, cx), cond.Some? ==> ExprFine(cond.value, cx),
                   if cond.Some? then Size(cond.value, cx.k) else 0, if cond.Some? then Literals(cond.value) else 0)
    ensures ForCond(cond, cx).Some? ==>
              var n := |ForCond(cond, cx).value.consts|; cx.k + n <= 65535 && Fit(cx.(k := cx.k + n))
  {
    hide Fragment, ExprFine, Size, Orderly;
    if cond.Some? { FragmentJudged(cond.value, cx); }
  }

  lemma {:induction false} ForJudged(cond: Option<Expr>, inc: Expr, body: Stmt, cx: Cx)
    requires Fit(cx)
    ensures var s := ForLoop(cond, inc, body);
            Judged(CodeS(s, cx), StmtFine(s, cx), SizeOf(s, cx.k, Taken(cx.loop)), LiteralsOf(s))
    decreases ForLoop(cond, inc, body), 0
  {
    hide Near, Size, CodeE, Fragment, Names, Sees, StmtFine, ExprFine, NearOf, Scoped, Orderly, CodeS, SizeOf,
      LiteralsOf, Literals, Breaks, Fit, BodyCx, ForOut, ForCond;
    ForFine(cond, inc, body, cx);
    ForSize(cond, inc, body, cx);
    ForCode(cond, inc, body, cx);
    TestJudged(cond, cx);
    var a := ForCond(cond, cx);
    if a.Some? {
      var mid := cx.(k := cx.k + |a.value.consts|);
      FragmentJudged(inc, mid);
      var i := Fragment(inc, mid);
      if i.Some? {
        Inside(cx, |a.value.consts| + |i.value.consts|, |i.value.code| + 4);
        var inner := BodyCx(cx, |a.value.consts| + |i.value.consts|, |i.value.code| + 4);
        StmtJudged(body, inner);
        if CodeS(body, inner).Some? { ForOutIs(cx, cond.Some?, a.value, i.value, CodeS(body, inner).value); }
      }
    }
  }

  lemma {:induction false} MatchFine(e: Expr, arms: Arms, cx: Cx)
    ensures var k1, l1 := cx.k + Literals(e), Later(cx.loop, Size(e, cx.k) + 3, false);
            StmtFine(Match(e, arms), cx) <==>
              && ExprFine(e, cx) && Patterns(arms) < 256 && SizeAmong(arms, k1, Taken(cx.loop)) <= 65535
              && ArmsFine(arms, Cx(cx.locals, cx.depth, k1, l1))
    ensures forall d :: ExprFine(e, cx) == ExprFine(e, cx.(depth := d))
    ensures forall c, d :: ArmsFine(arms, c) == ArmsFine(arms, c.(depth := d))
  {
    hide Near, Size, Sees, Names, Breaks, Literals, SizeIn, SizeAmong, ScopedIn, ScopedAmong, NearIn, NearAmong,
      Patterns, Variables, SizeOf, LiteralsAmong;
  }

  lemma {:induction false} MatchJudged(e: Expr, arms: Arms, cx: Cx)
    requires Fit(cx)
    ensures var s := Match(e, arms);
            Judged(CodeS(s, cx), StmtFine(s, cx), SizeOf(s, cx.k, Taken(cx.loop)), LiteralsOf(s))
    decreases Match(e, arms), 0
  {
    hide Near, Size, CodeE, Fragment, Names, Sees, CodeArms, StmtFine, ExprFine, ArmsFine, NearOf, Scoped, Orderly,
      SizeAmong, Patterns;
    MatchFine(e, arms, cx);
    var cx0 := cx.(depth := cx.depth + 1);
    Deeper(cx);
    FragmentJudged(e, cx0);
    PatternsCounted(arms);
    if Fragment(e, cx0).Some? {
      var open := Join(Fragment(e, cx0).value, Plain([50, 255, 255], [], cx0));
      Onward(cx0, open, false);
      ArmsJudged(arms, After(cx0, open));
    }
  }

  lemma {:induction false} PatternsCounted(arms: Arms)
    ensures Patterns(arms) == ArmCount(arms)
  {
    if arms.Arm? { PatternsCounted(arms.rest); }
  }

  lemma {:induction false} BodyJudged(body: Stmt, cx: Cx)
    requires Fit(cx)
    ensures var o := CodeArmBody(body, cx);
            && Judged(o, BodyFine(body, cx), BodySize(body, cx.k, Taken(cx.loop)), LiteralsOf(body))
            && (o.Some? ==>
                  |o.value.locals| == |cx.locals| + OwnVariables(body) && cx.k + LiteralsOf(body) <= 65535)
    decreases body, 3
  {
    hide Near, Size, CodeE, CodeDs, CodeS, Names, NearIn, NearOf, SizeIn, SizeOf, ScopedIn, Sees;
    var inner := cx.(depth := cx.depth + 1);
    Deeper(cx);
    if body.Block? { DeclsJudged(body.ds, inner); } else { StmtJudged(body, inner); }
  }

  lemma {:induction false} ArmsJudged(arms: Arms, cx: Cx)
    requires Fit(cx)
    ensures Judged(CodeArms(arms, cx), ArmsFine(arms, cx), SizeAmong(arms, cx.k, Taken(cx.loop)), LiteralsAmong(arms))
    decreases arms, 1
  {
    hide Near, Size, CodeE, CodeArmBody, Fragment, Names, Sees, Scoped, NearBody, BodySize, Orderly, ArmOut,
      PatternCx;
    match arms
    case NoMore =>
    case Default(body) => BodyJudged(body, cx);
    case Arm(p, body, rest) => ArmJudged(p, body, rest, cx);
  }

  lemma {:induction false} ArmOutIs(p: Out, b: Out, hi: Byte, lo: Byte, cx: Cx)
    requires |cx.locals| <= |b.locals| && |b.code| + 3 <= JUMP_MAX && p.hole == -1
    ensures var o := ArmOut(p, b, [41, hi, lo], cx);
            && |o.code| == |p.code| + 3 + |b.code| + 3 + |b.locals| - |cx.locals|
            && |o.consts| == |p.consts| + |b.consts| && (o.hole >= 0 <==> b.hole >= 0) && o.locals == cx.locals
  {
  }

  ghost predicate BodyFine(body: Stmt, cx: Cx) {
    && Scoped(body, Names(cx.locals), |cx.locals|, cx.loop.InLoop?) && cx.k + LiteralsOf(body) <= 65535
    && NearBody(body, cx.k, cx.loop)
  }

  lemma {:induction false} ArmFine(p: Expr, body: Stmt, rest: Arms, cx: Cx)
    ensures var k1, l1 := cx.k + Literals(p), Later(cx.loop, Size(p, cx.k) + 3, false);
            var size := ArmSize(p, body, cx.k, Taken(cx.loop));
            var k2, l2 := k1 + LiteralsOf(body), Later(cx.loop, size, Breaks(body) > 0);
            ArmsFine(Arm(p, body, rest), cx) <==>
              && ExprFine(p, cx) && BodyFine(body, Cx(cx.locals, cx.depth, k1, l1))
              && BodySize(body, k1, Taken(cx.loop)) + 3 <= 65535 && ArmsFine(rest, Cx(cx.locals, cx.depth, k2, l2))
              && OwnVariables(body) + SizeAmong(rest, k2, Taken(l2)) <= 65535
    ensures forall d :: ExprFine(p, cx) == ExprFine(p, cx.(depth := d))
    ensures var k2 := cx.k + Literals(p) + LiteralsOf(body);
            forall taken :: SizeAmong(Arm(p, body, rest), cx.k, taken) ==
                              ArmSize(p, body, cx.k, taken) + SizeAmong(rest, k2, taken || Breaks(body) > 0)
    ensures LiteralsAmong(Arm(p, body, rest)) == Literals(p) + LiteralsOf(body) + LiteralsAmong(rest)
  {
    hide Near, Size, Sees, Names, NearBody, BodySize, Breaks, Literals, LiteralsOf;
  }

  lemma {:induction false} ArmCode(p: Expr, body: Stmt, rest: Arms, cx: Cx)
    ensures CodeArms(Arm(p, body, rest), cx) ==
              var a := Fragment(p, cx.(depth := cx.depth + 1));
              if a.None? then None
              else
                var o := CodeArmBody(body, PatternCx(a.value, cx));
                if o.None? || |o.value.code| + 3 > 65535 then None
                else
                  var b := o.value;
                  var d := CodeArms(rest, After(cx, ArmOut(a.value, b, [41, 255, 255], cx)));
                  if d.None? then None
                  else
                    var n := |b.locals| - |cx.locals| + |d.value.code|;
                    if n > 65535 then None else Some(Join(ArmOut(a.value, b, [41, Hi(n), Lo(n)], cx), d.value))
  {
    hide Fragment, CodeArmBody, ArmOut, Join;
  }

  lemma {:induction false} PatternOnward(a: Out, cx: Cx)
    requires Fit(cx) && a.locals == cx.locals && cx.k + |a.consts| <= 65535 && a.hole == -1
    ensures PatternCx(a, cx) == Cx(cx.locals, cx.depth, cx.k + |a.consts|, Later(cx.loop, |a.code| + 3, false))
    ensures Fit(PatternCx(a, cx))
  {
    Onwards(cx, a, [40, 255, 255]);
  }

  lemma {:induction false} JoinIs(a: Out, b: Out)
    ensures |Join(a, b).code| == |a.code| + |b.code| && |Join(a, b).consts| == |a.consts| + |b.consts|
  {
  }

  lemma {:induction false} ArmJudged(p: Expr, body: Stmt, rest: Arms, cx: Cx)
    requires Fit(cx)
    ensures var arms := Arm(p, body, rest);
            Judged(CodeArms(arms, cx), ArmsFine(arms, cx), SizeAmong(arms, cx.k, Taken(cx.loop)), LiteralsAmong(arms))
    decreases Arm(p, body, rest), 0
  {
    hide Near, Size, CodeE, Fragment, Names, Sees, StmtFine, ExprFine, NearOf, Scoped, Orderly, CodeS, SizeOf,
      LiteralsOf, Literals, Breaks, Fit, BodyCx, CodeArmBody, NearBody, BodySize, ArmOut, NearAmong, ScopedAmong,
      ArmsFine, BodyFine, CodeArms, SizeAmong, LiteralsAmong, PatternCx, After, Join, OwnVariables;
    ArmFine(p, body, rest, cx);
    ArmCode(p, body, rest, cx);
    var outer := cx.(depth := cx.depth + 1);
    Deeper(cx);
    FragmentJudged(p, outer);
    if Fragment(p, outer).Some? {
      var a := Fragment(p, outer).value;
      PatternOnward(a, cx);
      var inner := PatternCx(a, cx);
      BodyJudged(body, inner);
      var o := CodeArmBody(body, inner);
      if o.Some? && |o.value.code| + 3 <= 65535 {
        var b := o.value;
        SlotTakenBody(body, inner);
        ArmOutIs(a, b, 255, 255, cx);
        var arm := ArmOut(a, b, [41, 255, 255], cx);
        Onward(cx, arm, Breaks(body) > 0);
        ArmsJudged(rest, After(cx, arm));
        var d := CodeArms(rest, After(cx, arm));
        if d.Some? {
          var n := |b.locals| - |cx.locals| + |d.value.code|;
          if n <= 65535 {
            ArmOutIs(a, b, Hi(n), Lo(n), cx);
            JoinIs(ArmOut(a, b, [41, Hi(n), Lo(n)], cx), d.value);
          }
        }
      }
    }
  }

  /** Outside all blocks there are no variables and no loop, and slot 0 is taken under the empty name. */
  predicate ScopedScript(ds: Decls) {
    match ds
    case End => true
    case VarD(_, _, _) => false
    case StmtD(s, rest) => Scoped(s, {""}, 1, false) && ScopedScript(rest)
  }

  predicate Accepted(ds: Decls) {
    ScopedScript(ds) && LiteralsIn(ds) <= 65535 && NearIn(ds, 0, NoLoop)
  }

  lemma {:induction false} TopJudged(ds: Decls, k: nat)
    requires k <= 65535
    ensures Judged(CodeDs(ds, TOP.(k := k)), ScopedScript(ds) && k + LiteralsIn(ds) <= 65535 && NearIn(ds, k, NoLoop),
                   SizeIn(ds, k, false), LiteralsIn(ds))
  {
    hide CodeS, Scoped, NearOf, SizeOf, LiteralsOf, Near, Size, Literals, StmtFine;
    var cx := TOP.(k := k);
    match ds
    case End =>
    case VarD(_, _, _) =>
    case StmtD(s, rest) =>
      StmtJudged(s, cx);
      TopFine(s, cx);
      if CodeS(s, cx).Some? {
        SlotTaken(s, cx);
        Onward(cx, CodeS(s, cx).value, false);
        TopJudged(rest, k + LiteralsOf(s));
      }
  }

  lemma {:induction false} TopFine(s: Stmt, cx: Cx)
    requires cx.locals == [Local("", 0)] && cx.loop.NoLoop?
    ensures StmtFine(s, cx) <==> Scoped(s, {""}, 1, false) && cx.k + LiteralsOf(s) <= 65535 && NearOf(s, cx.k, NoLoop)
  {
    hide Scoped, NearOf, LiteralsOf;
    NamesSplit([], Local("", 0));
    assert [] + [Local("", 0)] == [Local("", 0)];
    assert Names([]) == {};
    assert Names(cx.locals) == {""};
  }

  /** Which token lists compile: the texts of trees whose names, limits and distances are in order. The length of the
      emitted code and the number of its constants follow from the trees too. */
  lemma {:induction false} CompiledIs(tokens: seq<Token>)
    ensures Compiled(tokens).Some? <==>
              exists lines ::
                && Texts.FairLines(lines) && Texts.WriteLines(lines) == tokens
                && Accepted(Texts.LineTrees(lines))
    ensures Compiled(tokens).Some? ==>
              var p, ds := Compiled(tokens).value, Script(tokens).value;
              |p.code| == SizeIn(ds, 0, false) && |p.consts| == LiteralsIn(ds)
  {
    hide Script, CodeDs, SizeIn, LiteralsIn, Accepted, Texts.FairLines, Texts.WriteLines, Texts.LineTrees;
    var ds := Script(tokens);
    if ds.Ok? {
      var lines := Readings.LinesRead(tokens);
      AcceptedIs(ds.value);
    }
    forall lines | Texts.FairLines(lines) && Texts.WriteLines(lines) == tokens
      ensures ds == Grammar.Ok(Texts.LineTrees(lines), [])
    {
      Texts.ReadsLines(lines);
    }
  }

  lemma {:induction false} AcceptedIs(ds: Decls)
    ensures Judged(CodeDs(ds, TOP), Accepted(ds), SizeIn(ds, 0, false), LiteralsIn(ds))
  {
    hide CodeDs, SizeIn, LiteralsIn, ScopedScript, NearIn;
    TopJudged(ds, 0);
    assert TOP.(k := 0) == TOP;
  }

  /** Every tree that can be written compiles from its text exactly if it is accepted. */
  lemma {:induction false} ShownCompiles(ds: Decls)
    requires Showing.WritableScript(ds)
    ensures var p := Compiled(Texts.WriteLines(Showing.ShownLines(ds)));
            && (p.Some? <==> Accepted(ds))
            && (p.Some? ==> |p.value.code| == SizeIn(ds, 0, false) && |p.value.consts| == LiteralsIn(ds))
  {
    hide Script, CodeDs, SizeIn, LiteralsIn, Accepted, Texts.WriteLines, Showing.WritableScript, Showing.ShownLines;
    Showing.ScriptShown(ds);
    AcceptedIs(ds);
  }
}
