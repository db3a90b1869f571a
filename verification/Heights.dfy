/** How high the stack is when a statement's code is left, for every run, and which statements keep it where it was. */
module Heights {
  import opened Base
  import opened Syntax
  import opened CodeGen
  import opened StackSemantics

  /** How many values lie above the locals that the loop began with at the one `break` that is emitted for it: one for
      each variable declared and each arm entered since. */
  function Lift(s: Stmt): nat
    requires Breaks(s) > 0
    decreases s, 0
  {
    match s
    case Block(ds) => LiftIn(ds)
    case If(_, t, f) => if Breaks(t) > 0 then Lift(t) else Lift(f)
    case Match(_, arms) => 1 + LiftOf(arms)
    case Break => 0
  }

  function LiftIn(ds: Decls): nat
    requires BreaksIn(ds) > 0
    decreases ds, 0
  {
    match ds
    case VarD(_, _, rest) => 1 + LiftIn(rest)
    case StmtD(s, rest) => if Breaks(s) > 0 then Lift(s) else LiftIn(rest)
  }

  function LiftOf(arms: Arms): nat
    requires BreaksOf(arms) > 0
    decreases arms, 0
  {
    match arms
    case Default(body) => LiftBody(body)
    case Arm(_, body, rest) => if Breaks(body) > 0 then LiftBody(body) else LiftOf(rest)
  }

  function LiftBody(body: Stmt): nat
    requires Breaks(body) > 0
    decreases body, 1
  {
    if body.Block? then LiftIn(body.ds) else Lift(body)
  }

  function Raised(s: set<nat>): set<nat> {
    set x | x in s :: x + 1
  }

  /** The same for each `continue`. */
  function Lifts(s: Stmt): set<nat>
    decreases s, 0
  {
    match s
    case Block(ds) => LiftsIn(ds)
    case If(_, t, f) => Lifts(t) + Lifts(f)
    case Match(_, arms) => Raised(LiftsOf(arms))
    case Continue => {0}
    case _ => {}
  }

  function LiftsIn(ds: Decls): set<nat>
    decreases ds, 0
  {
    match ds
    case End => {}
    case VarD(_, _, rest) => Raised(LiftsIn(rest))
    case StmtD(s, rest) => Lifts(s) + LiftsIn(rest)
  }

  function LiftsOf(arms: Arms): set<nat>
    decreases arms, 0
  {
    match arms
    case NoMore => {}
    case Default(body) => LiftsBody(body)
    case Arm(_, body, rest) => LiftsBody(body) + LiftsOf(rest)
  }

  function LiftsBody(body: Stmt): set<nat>
    decreases body, 1
  {
    if body.Block? then LiftsIn(body.ds) else Lifts(body)
  }

  /** Neither this loop's `break` nor any `continue` of it is under a variable or an arm begun in the body. */
  predicate Homeward(body: Stmt) {
    (Breaks(body) > 0 ==> Lift(body) == 0) && Lifts(body) <= {0}
  }

  /** No arm has a variable in its own scope, and every loop inside is left and repeated at the height it began with. */
  predicate Level(s: Stmt)
    decreases s, 0
  {
    match s
    case Block(ds) => LevelIn(ds)
    case If(_, t, f) => Level(t) && Level(f)
    case While(_, body) => Level(body) && Homeward(body)
    case Loop(body) => Level(body) && Homeward(body)
    case ForLoop(_, _, body) => Level(body) && Homeward(body)
    case Match(_, arms) => LevelOf(arms)
    case _ => true
  }

  predicate LevelIn(ds: Decls)
    decreases ds, 0
  {
    match ds
    case End => true
    case VarD(_, _, rest) => LevelIn(rest)
    case StmtD(s, rest) => Level(s) && LevelIn(rest)
  }

  predicate LevelOf(arms: Arms)
    decreases arms, 0
  {
    match arms
    case NoMore => true
    case Default(body) => Own(body) == 0 && LevelBody(body)
    case Arm(_, body, rest) => Own(body) == 0 && LevelBody(body) && LevelOf(rest)
  }

  predicate LevelBody(body: Stmt)
    decreases body, 1
  {
    if body.Block? then LevelIn(body.ds) else Level(body)
  }

  /** Where a track leaves the stack: n values higher at the end, by the lift of the `break`, by that of a `continue`.
      */
  ghost predicate Leaves(f: Track, n: nat, below: nat, broken: bool, breaks: nat, lift: nat, lifts: set<nat>) {
    match f
    case Fell(t) => |t| == below + n
    case Left(t) => !broken && breaks > 0 && |t| == below + lift
    case Again(t) => |t| >= below && |t| - below in lifts
    case _ => true
  }

  ghost predicate StmtLeaves(s: Stmt, sc: Scope, st: seq<Value>, fuel: nat) {
    Leaves(ExecOn(s, sc, st, fuel), 0, |st|, sc.broken, Breaks(s), if Breaks(s) > 0 then Lift(s) else 0, Lifts(s))
  }

  /** Every run of a level statement falls off its end at the height it began with, leaves its loop by `break` at the
      height the one emitted `break` has, and goes back by `continue` at the height of one of them. */
  lemma {:induction false} StmtHeight(s: Stmt, sc: Scope, st: seq<Value>, fuel: nat)
    requires Level(s)
    ensures StmtLeaves(s, sc, st, fuel)
    decreases fuel, s, 1
  {
    hide EvalOn;
    match s
    case ExprS(_) =>
    case Block(ds) => BlockHeight(ds, sc, st, fuel);
    case If(c, t, f) => IfHeight(c, t, f, sc, st, fuel);
    case While(c, body) =>
      var a := EvalOn(c, sc.locals, st);
      if a.Some? && Top(a.value) == Bool(true) {
        RoundHeight(s, sc, Rest(a.value), fuel);
        var f := ExecOn(body, sc.Inside(), Rest(a.value), fuel);
        if (f.Fell? || f.Again?) && fuel > 0 { StmtHeight(s, sc, f.st, fuel - 1); }
      }
    case Loop(body) =>
      RoundHeight(s, sc, st, fuel);
      var f := ExecOn(body, sc.Inside(), st, fuel);
      if (f.Fell? || f.Again?) && fuel > 0 { StmtHeight(s, sc, f.st, fuel - 1); }
    case ForLoop(cond, inc, body) =>
      var a := TestOn(cond, sc, st);
      if a.Some? && Top(a.value) == Bool(true) {
        RoundHeight(s, sc, Rest(a.value), fuel);
        var f := ExecOn(body, sc.Inside(), Rest(a.value), fuel);
        if (f.Fell? || f.Again?) && fuel > 0 {
          var i := EvalOn(inc, sc.locals, f.st);
          if i.Some? { StmtHeight(s, sc, Rest(i.value), fuel - 1); }
        }
      }
    case Match(e, arms) => MatchHeight(e, arms, sc, st, fuel);
    case Break =>
    case Continue =>
  }

  lemma {:induction false} BlockHeight(ds: Decls, sc: Scope, st: seq<Value>, fuel: nat)
    requires LevelIn(ds)
    ensures StmtLeaves(Block(ds), sc, st, fuel)
    decreases fuel, Block(ds), 0
  {
    hide DeclsOn, Variables, LiftIn, LiftsIn, BreaksIn;
    DeclsHeight(ds, sc.Deeper(), st, fuel);
  }

  lemma {:induction false} IfHeight(c: Expr, t: Stmt, f: Stmt, sc: Scope, st: seq<Value>, fuel: nat)
    requires Level(t) && Level(f)
    ensures StmtLeaves(If(c, t, f), sc, st, fuel)
    decreases fuel, If(c, t, f), 0
  {
    hide EvalOn;
    var a := EvalOn(c, sc.locals, st);
    if a.Some? && Top(a.value) == Bool(true) {
      StmtHeight(t, sc, Rest(a.value), fuel);
    } else if a.Some? {
      StmtHeight(f, sc.Past(Breaks(t)), Rest(a.value), fuel);
    }
  }

  /** A loop's body, however it is left, leaves the stack as high as it found it. */
  lemma {:induction false} RoundHeight(s: Stmt, sc: Scope, st: seq<Value>, fuel: nat)
    requires Level(s) && (s.Loop? || s.While? || s.ForLoop?)
    ensures var f := ExecOn(s.body, sc.Inside(), st, fuel); f.Fell? || f.Left? || f.Again? ==> |f.st| == |st|
    decreases fuel, s, 0
  {
    hide ExecOn, Breaks, Lift, Lifts;
    StmtHeight(s.body, sc.Inside(), st, fuel);
  }

  lemma {:induction false} MatchHeight(e: Expr, arms: Arms, sc: Scope, st: seq<Value>, fuel: nat)
    requires LevelOf(arms)
    ensures StmtLeaves(Match(e, arms), sc, st, fuel)
    decreases fuel, Match(e, arms), 0
  {
    hide EvalOn, ArmsOn, LiftOf, LiftsOf, BreaksOf;
    var a := EvalOn(e, sc.locals, st);
    if a.Some? {
      ArmsHeight(arms, sc.Deeper(), a.value, fuel);
      var f := ArmsOn(arms, sc.Deeper(), a.value, fuel);
      if f.Again? {
        assert |f.st| - |a.value| in LiftsOf(arms);
        assert |f.st| - |a.value| + 1 in Raised(LiftsOf(arms));
      }
    }
  }

  lemma {:induction false} DeclsHeight(ds: Decls, sc: Scope, st: seq<Value>, fuel: nat)
    requires LevelIn(ds)
    ensures Leaves(DeclsOn(ds, sc, st, fuel), Variables(ds), |st|, sc.broken, BreaksIn(ds),
                   if BreaksIn(ds) > 0 then LiftIn(ds) else 0, LiftsIn(ds))
    decreases fuel, ds, 1
  {
    hide EvalOn;
    match ds
    case End =>
    case VarD(x, init, rest) =>
      var a := EvalOn(init, sc.locals + [Local(x, -1)], st);
      if a.Some? { DeclsHeight(rest, sc.With(x), a.value, fuel); }
    case StmtD(s, rest) =>
      StmtHeight(s, sc, st, fuel);
      var f := ExecOn(s, sc, st, fuel);
      if f.Fell? { DeclsHeight(rest, sc.Past(Breaks(s)), f.st, fuel); }
  }

  lemma {:induction false} ArmsHeight(arms: Arms, sc: Scope, st: seq<Value>, fuel: nat)
    requires LevelOf(arms)
    ensures Leaves(ArmsOn(arms, sc, st, fuel), 0, |st|, sc.broken, BreaksOf(arms),
                   if BreaksOf(arms) > 0 then LiftOf(arms) else 0, LiftsOf(arms))
    decreases fuel, arms, 1
  {
    hide EvalOn;
    match arms
    case NoMore =>
    case Default(body) => BodyHeight(body, sc, st, fuel);
    case Arm(pattern, body, rest) => ArmHeight(pattern, body, rest, sc, st, fuel);
  }

  lemma {:induction false} ArmHeight(pattern: Expr, body: Stmt, rest: Arms, sc: Scope, st: seq<Value>, fuel: nat)
    requires LevelOf(Arm(pattern, body, rest))
    ensures var arms := Arm(pattern, body, rest);
            Leaves(ArmsOn(arms, sc, st, fuel), 0, |st|, sc.broken, BreaksOf(arms),
                   if BreaksOf(arms) > 0 then LiftOf(arms) else 0, LiftsOf(arms))
    decreases fuel, Arm(pattern, body, rest), 0
  {
    hide EvalOn, BodyOn, LiftBody, LiftsBody, Breaks, Own;
    var a := EvalOn(pattern, sc.locals, st);
    if a.Some? && st != [] {
      if Top(a.value) == Top(Rest(a.value)) {
        BodyHeight(body, sc, Rest(a.value), fuel);
      } else {
        ArmsHeight(rest, sc.Past(Breaks(body)), Rest(a.value)[..|st| - Own(body)], fuel);
      }
    }
  }

  lemma {:induction false} BodyHeight(body: Stmt, sc: Scope, st: seq<Value>, fuel: nat)
    requires LevelBody(body)
    ensures Leaves(BodyOn(body, sc, st, fuel), Own(body), |st|, sc.broken, Breaks(body),
                   if Breaks(body) > 0 then LiftBody(body) else 0, LiftsBody(body))
    decreases fuel, body, 2
  {
    if body.Block? { DeclsHeight(body.ds, sc.Deeper(), st, fuel); } else { StmtHeight(body, sc.Deeper(), st, fuel); }
  }

  /** A loop's body left by its `break` is as high as it began exactly if the `break` is under nothing begun in the
      body; one left by `continue` is as many values too high as that `continue` is under. */
  lemma {:induction false} LoopLeft(body: Stmt, sc: Scope, st: seq<Value>, fuel: nat)
    requires Level(body)
    ensures var f := ExecOn(body, sc.Inside(), st, fuel);
            && (f.Left? ==> Breaks(body) > 0 && |f.st| == |st| + Lift(body) && (|f.st| == |st| <==> Lift(body) == 0))
            && (f.Again? ==> |f.st| >= |st| && |f.st| - |st| in Lifts(body))
            && (f.Again? && Lifts(body) <= {0} ==> |f.st| == |st|)
  {
    hide ExecOn, Level, Breaks, Lifts;
    StmtHeight(body, sc.Inside(), st, fuel);
  }

  function Sums(a: set<int>, b: set<int>): set<int> {
    set x, y | x in a && y in b :: x + y
  }

  function Shifted(a: set<int>, n: int): set<int> {
    set x | x in a :: x + n
  }

  /** By how much each way through a statement changes the height: arms with variables of their own are too high when
      taken and too low when not. */
  function Rises(s: Stmt): set<int>
    decreases s, 0
  {
    match s
    case Block(ds) => RisesIn(ds)
    case If(_, t, f) => Rises(t) + Rises(f)
    case Match(_, arms) => RisesOf(arms)
    case _ => {0}
  }

  function RisesIn(ds: Decls): set<int>
    decreases ds, 0
  {
    match ds
    case End => {0}
    case VarD(_, _, rest) => RisesIn(rest)
    case StmtD(s, rest) => Sums(Rises(s), RisesIn(rest))
  }

  function RisesOf(arms: Arms): set<int>
    decreases arms, 0
  {
    match arms
    case NoMore => {0}
    case Default(body) => Shifted(RisesBody(body), Own(body))
    case Arm(_, body, rest) => Shifted(RisesBody(body), Own(body)) + Shifted(RisesOf(rest), 0 - Own(body))
  }

  function RisesBody(body: Stmt): set<int>
    decreases body, 1
  {
    if body.Block? then RisesIn(body.ds) else Rises(body)
  }

  /** Outside its loops, no arm has a variable in its own scope, however deep the arm is nested. */
  predicate Clear(s: Stmt)
    decreases s, 0
  {
    match s
    case Block(ds) => ClearIn(ds)
    case If(_, t, f) => Clear(t) && Clear(f)
    case Match(_, arms) => ClearOf(arms)
    case _ => true
  }

  predicate ClearIn(ds: Decls)
    decreases ds, 0
  {
    match ds
    case End => true
    case VarD(_, _, rest) => ClearIn(rest)
    case StmtD(s, rest) => Clear(s) && ClearIn(rest)
  }

  predicate ClearOf(arms: Arms)
    decreases arms, 0
  {
    match arms
    case NoMore => true
    case Default(body) => Own(body) == 0 && ClearBody(body)
    case Arm(_, body, rest) => Own(body) == 0 && ClearBody(body) && ClearOf(rest)
  }

  predicate ClearBody(body: Stmt)
    decreases body, 1
  {
    if body.Block? then ClearIn(body.ds) else Clear(body)
  }

  /** Every loop inside is level. */
  predicate Calm(s: Stmt)
    decreases s, 0
  {
    match s
    case Block(ds) => CalmIn(ds)
    case If(_, t, f) => Calm(t) && Calm(f)
    case Match(_, arms) => CalmOf(arms)
    case _ => Level(s)
  }

  predicate CalmIn(ds: Decls)
    decreases ds, 0
  {
    match ds
    case End => true
    case VarD(_, _, rest) => CalmIn(rest)
    case StmtD(s, rest) => Calm(s) && CalmIn(rest)
  }

  predicate CalmOf(arms: Arms)
    decreases arms, 0
  {
    match arms
    case NoMore => true
    case Default(body) => CalmBody(body)
    case Arm(_, body, rest) => CalmBody(body) && CalmOf(rest)
  }

  predicate CalmBody(body: Stmt)
    decreases body, 1
  {
    if body.Block? then CalmIn(body.ds) else Calm(body)
  }

  /** Every run that falls off a statement's end has changed the height in one of its ways. */
  lemma {:induction false} StmtRises(s: Stmt, sc: Scope, st: seq<Value>, fuel: nat)
    requires Calm(s)
    ensures var f := ExecOn(s, sc, st, fuel); f.Fell? ==> |f.st| - |st| in Rises(s)
    decreases fuel, s, 1
  {
    hide EvalOn, Level;
    match s
    case Block(ds) => DeclsRise(ds, sc.Deeper(), st, fuel);
    case If(c, t, f) =>
      var a := EvalOn(c, sc.locals, st);
      if a.Some? && Top(a.value) == Bool(true) {
        StmtRises(t, sc, Rest(a.value), fuel);
      } else if a.Some? {
        StmtRises(f, sc.Past(Breaks(t)), Rest(a.value), fuel);
      }
    case Match(e, arms) =>
      var a := EvalOn(e, sc.locals, st);
      if a.Some? { ArmsRise(arms, sc.Deeper(), a.value, fuel); }
    case _ => StmtHeight(s, sc, st, fuel);
  }

  lemma {:induction false} DeclsRise(ds: Decls, sc: Scope, st: seq<Value>, fuel: nat)
    requires CalmIn(ds)
    ensures var f := DeclsOn(ds, sc, st, fuel); f.Fell? ==> |f.st| - |st| - Variables(ds) in RisesIn(ds)
    decreases fuel, ds, 1
  {
    hide EvalOn;
    match ds
    case End =>
    case VarD(x, init, rest) =>
      var a := EvalOn(init, sc.locals + [Local(x, -1)], st);
      if a.Some? { DeclsRise(rest, sc.With(x), a.value, fuel); }
    case StmtD(s, rest) =>
      StmtRises(s, sc, st, fuel);
      var f := ExecOn(s, sc, st, fuel);
      if f.Fell? {
        DeclsRise(rest, sc.Past(Breaks(s)), f.st, fuel);
        var g := DeclsOn(rest, sc.Past(Breaks(s)), f.st, fuel);
        if g.Fell? {
          var x, y := |f.st| - |st|, |g.st| - |f.st| - Variables(rest);
          assert x + y in Sums(Rises(s), RisesIn(rest));
        }
      }
  }

  lemma {:induction false} ArmsRise(arms: Arms, sc: Scope, st: seq<Value>, fuel: nat)
    requires CalmOf(arms)
    ensures var f := ArmsOn(arms, sc, st, fuel); f.Fell? ==> |f.st| - |st| in RisesOf(arms)
    decreases fuel, arms, 1
  {
    hide EvalOn, BodyOn, Own, RisesBody, Breaks;
    match arms
    case NoMore =>
    case Default(body) =>
      BodyRises(body, sc, st, fuel);
      InShifted(RisesBody(body), Own(body));
    case Arm(pattern, body, rest) =>
      var a := EvalOn(pattern, sc.locals, st);
      if a.Some? && st != [] {
        InShifted(RisesBody(body), Own(body));
        InShifted(RisesOf(rest), 0 - Own(body));
        if Top(a.value) == Top(Rest(a.value)) {
          BodyRises(body, sc, Rest(a.value), fuel);
        } else if Own(body) <= |st| {
          ArmsRise(rest, sc.Past(Breaks(body)), Rest(a.value)[..|st| - Own(body)], fuel);
        }
      }
  }

  lemma {:induction false} InShifted(a: set<int>, n: int)
    ensures forall x: int :: x - n in a <==> x in Shifted(a, n)
  {
    forall x: int | x - n in a ensures x in Shifted(a, n) { assert x == (x - n) + n; }
  }

  lemma {:induction false} BodyRises(body: Stmt, sc: Scope, st: seq<Value>, fuel: nat)
    requires CalmBody(body)
    ensures var f := BodyOn(body, sc, st, fuel); f.Fell? ==> |f.st| - |st| - Own(body) in RisesBody(body)
    decreases fuel, body, 2
  {
    if body.Block? { DeclsRise(body.ds, sc.Deeper(), st, fuel); } else { StmtRises(body, sc.Deeper(), st, fuel); }
  }

  /** Some way through does not lower the stack, and unless the statement is clear some way raises it. */
  ghost predicate Up(rises: set<int>, clear: bool) {
    (exists x :: x in rises && x >= 0) && (!clear ==> exists x :: x in rises && x > 0) && (clear ==> rises == {0})
  }

  /** Exactly the clear statements keep the height in every way through them. */
  lemma {:induction false} KeepsIffClear(s: Stmt)
    ensures Rises(s) == {0} <==> Clear(s)
  {
    hide Rises, Clear;
    WaysUp(s);
  }

  /** The same for the arms of a `match`. */
  lemma {:induction false} MatchKeepsIffClear(arms: Arms)
    ensures RisesOf(arms) == {0} <==> ClearOf(arms)
  {
    hide RisesOf, ClearOf;
    WaysUpOf(arms);
  }

  lemma {:induction false} UpZero()
    ensures Up({0}, true)
  {
    assert 0 in {0 as int};
  }

  lemma {:induction false} WaysUp(s: Stmt)
    ensures Up(Rises(s), Clear(s))
    decreases s, 0
  {
    match s
    case Block(ds) => WaysUpIn(ds);
    case If(_, t, f) =>
      WaysUp(t);
      WaysUp(f);
    case Match(_, arms) => WaysUpOf(arms);
    case _ => UpZero();
  }

  lemma {:induction false} WaysUpIn(ds: Decls)
    ensures Up(RisesIn(ds), ClearIn(ds))
    decreases ds, 0
  {
    hide Rises, Clear, Up, Sums;
    match ds
    case End => UpZero();
    case VarD(_, _, rest) => WaysUpIn(rest);
    case StmtD(s, rest) =>
      WaysUp(s);
      WaysUpIn(rest);
      UpSums(Rises(s), Clear(s), RisesIn(rest), ClearIn(rest));
  }

  lemma {:induction false} UpSums(a: set<int>, p: bool, b: set<int>, q: bool)
    requires Up(a, p) && Up(b, q)
    ensures Up(Sums(a, b), p && q)
  {
    var x :| x in a && x >= 0 && (!p ==> x > 0);
    var y :| y in b && y >= 0 && (!q ==> y > 0);
    assert x + y in Sums(a, b);
    if p && q { assert 0 + 0 in Sums(a, b); }
  }

  lemma {:induction false} WaysUpOf(arms: Arms)
    ensures Up(RisesOf(arms), ClearOf(arms))
    decreases arms, 0
  {
    hide Own, RisesBody, ClearBody;
    match arms
    case NoMore => UpZero();
    case Default(body) =>
      WaysUpBody(body);
      UpShifted(RisesBody(body), ClearBody(body), Own(body));
    case Arm(_, body, rest) =>
      WaysUpBody(body);
      WaysUpOf(rest);
      UpShifted(RisesBody(body), ClearBody(body), Own(body));
      if Own(body) == 0 { assert Shifted(RisesOf(rest), 0) == RisesOf(rest) by { InShifted(RisesOf(rest), 0); } }
  }

  lemma {:induction false} UpShifted(a: set<int>, p: bool, n: nat)
    requires Up(a, p)
    ensures Up(Shifted(a, n), p && n == 0)
  {
    InShifted(a, n);
    var x :| x in a && x >= 0 && (!p ==> x > 0);
    assert x + n in Shifted(a, n);
    if p && n == 0 { assert Shifted(a, 0) == a; }
  }

  lemma {:induction false} WaysUpBody(body: Stmt)
    ensures Up(RisesBody(body), ClearBody(body))
    decreases body, 1
  {
    if body.Block? { WaysUpIn(body.ds); } else { WaysUp(body); }
  }
}
