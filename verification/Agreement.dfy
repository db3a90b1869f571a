/** Where the emitted code does what the language means: the stack holds the bindings, one to a slot. */
module Agreement {
  import opened Base
  import opened Syntax
  import opened Bytecode
  import opened CodeGen
  import opened Semantics
  import opened StackSemantics
  import opened Layout
  import opened ExprCorrect
  import opened StmtCorrect
  import Arith

  /** The compile-time locals name the run-time bindings; anything beyond them is still undefined. */
  ghost predicate Agree(locals: seq<Local>, env: Env) {
    && |env| <= |locals|
    && (forall i :: 0 <= i < |env| ==> locals[i].name == env[i].name && locals[i].depth != -1)
    && (forall i :: |env| <= i < |locals| ==> locals[i].depth == -1)
  }

  function Vals(env: Env): (r: seq<Value>)
    ensures |r| == |env|
  {
    seq(|env|, i requires 0 <= i < |env| => env[i].value)
  }

  /** Resolving a name at compile time finds the slot of the binding it has at run time. */
  lemma {:induction false} ResolveIsLookup(locals: seq<Local>, env: Env, x: Name)
    requires Agree(locals, env) && Resolve(locals, x).Some?
    ensures Resolve(locals, x).value < |env| && Lookup(env, x) == Some(Resolve(locals, x).value)
  {
    var last := |locals| - 1;
    if |env| == |locals| {
      if locals[last].name != x {
        ResolveIsLookup(locals[..last], env[..last], x);
      }
    } else {
      ResolveIsLookup(locals[..last], env, x);
    }
  }

  lemma {:induction false} AgreeSame(locals: seq<Local>, a: Env, b: Env)
    requires Agree(locals, a) && SameNames(a, b)
    ensures Agree(locals, b)
  {
  }

  /** The stack effect that goes with an evaluation. */
  function Pushed(r: Eval, temps: seq<Value>): Option<seq<Value>> {
    match r
    case Val(v, env) => Some(Vals(env) + temps + [v])
    case Error => None
  }

  /** An expression's code pushes exactly the evaluator's value, and faults exactly when the evaluator does. */
  lemma {:induction false} ExprAgrees(e: Expr, locals: seq<Local>, k: nat, env: Env, temps: seq<Value>)
    requires CodeE(e, locals, k).Some? && Agree(locals, env)
    ensures EvalOn(e, locals, Vals(env) + temps) == Pushed(Evaluate(e, env), temps)
    decreases e, 2
  {
    hide Agree, Vals, Resolve, Operated, Arith.BinaryValue, Arith.UnaryValue, Encode;
    match e
    case Int(_) =>
    case BoolLit(_) =>
    case NoneLit =>
    case Var(x) => VarAgrees(x, locals, env, temps);
    case Assign(x, e1) =>
      ExprAgrees(e1, locals, k, env, temps);
      if Evaluate(e1, env).Val? { AssignAgrees(x, locals, env, Evaluate(e1, env), temps); }
      AssignKnown(x, locals, env);
    case Unary(op, e1) =>
      ExprAgrees(e1, locals, k, env, temps);
      var r := Evaluate(e1, env);
      if r.Val? { TopOf(Vals(r.env) + temps, r.v); }
    case Binary(op, l, r) => BinaryAgrees(op, l, r, locals, k, env, temps);
    case And(_, _) => ShortAgrees(e, locals, k, env, temps);
    case Or(_, _) => ShortAgrees(e, locals, k, env, temps);
    case Cond(c, t, f) =>
      BranchAgrees(e, c, t, locals, k, k + |Consts(c)|, env, temps);
      BranchAgrees(e, c, f, locals, k, k + |Consts(c)| + |Consts(t)|, env, temps);
  }

  lemma {:induction false} ShortAgrees(e: Expr, locals: seq<Local>, k: nat, env: Env, temps: seq<Value>)
    requires (e.And? || e.Or?) && CodeE(e, locals, k).Some? && Agree(locals, env)
    ensures EvalOn(e, locals, Vals(env) + temps) == Pushed(Evaluate(e, env), temps)
    decreases e, 1
  {
    hide Agree, Vals, Resolve, Operated, Arith.BinaryValue, Arith.UnaryValue, Encode;
    BranchAgrees(e, e.l, e.r, locals, k, k + |Consts(e.l)|, env, temps);
  }

  lemma {:induction false} BinaryCode(op: BinOp, l: Expr, r: Expr, locals: seq<Local>, k: nat) returns (k1: nat)
    requires CodeE(Binary(op, l, r), locals, k).Some?
    ensures CodeE(l, locals, k).Some? && CodeE(r, locals, k1).Some?
  {
    hide Encode;
    k1 := k + |Consts(l)|;
  }

  lemma {:induction false} OperandsAgree(op: BinOp, l: Expr, r: Expr, locals: seq<Local>, k: nat, env: Env,
                                         temps: seq<Value>)
    requires CodeE(Binary(op, l, r), locals, k).Some? && Agree(locals, env)
    ensures EvalOn(l, locals, Vals(env) + temps) == Pushed(Evaluate(l, env), temps)
    ensures var a := Evaluate(l, env);
            a.Val? ==>
              EvalOn(r, locals, Vals(a.env) + temps + [a.v]) == Pushed(Evaluate(r, a.env), temps + [a.v])
    decreases Binary(op, l, r), 0
  {
    var k1 := BinaryCode(op, l, r, locals, k);
    hide Agree, Vals, CodeE, EvalOn, Evaluate;
    ExprAgrees(l, locals, k, env, temps);
    var a := Evaluate(l, env);
    if a.Val? {
      AgreeSame(locals, env, a.env);
      ExprAgrees(r, locals, k1, a.env, temps + [a.v]);
      assert Vals(a.env) + temps + [a.v] == Vals(a.env) + (temps + [a.v]);
    }
  }

  lemma {:induction false} BinaryAgrees(op: BinOp, l: Expr, r: Expr, locals: seq<Local>, k: nat, env: Env,
                                        temps: seq<Value>)
    requires CodeE(Binary(op, l, r), locals, k).Some? && Agree(locals, env)
    ensures EvalOn(Binary(op, l, r), locals, Vals(env) + temps) == Pushed(Evaluate(Binary(op, l, r), env), temps)
    decreases Binary(op, l, r), 1
  {
    hide Agree, Vals, Operated, Arith.BinaryValue, CodeE, Consts;
    OperandsAgree(op, l, r, locals, k, env, temps);
    var a := Evaluate(l, env);
    if a.Val? {
      var b := Evaluate(r, a.env);
      if b.Val? { OperatedAgrees(op, b.env, temps, a.v, b.v); }
    }
  }

  /** A condition, and what is evaluated after it without it. */
  lemma {:induction false} BranchAgrees(e: Expr, c: Expr, t: Expr, locals: seq<Local>, k: nat, k1: nat, env: Env,
                                        temps: seq<Value>)
    requires c < e && t < e
    requires CodeE(c, locals, k).Some? && CodeE(t, locals, k1).Some? && Agree(locals, env)
    ensures EvalOn(c, locals, Vals(env) + temps) == Pushed(Evaluate(c, env), temps)
    ensures var a := Evaluate(c, env);
            a.Val? ==>
              && Rest(Vals(a.env) + temps + [a.v]) == Vals(a.env) + temps
              && Top(Vals(a.env) + temps + [a.v]) == a.v
              && EvalOn(t, locals, Vals(a.env) + temps) == Pushed(Evaluate(t, a.env), temps)
    decreases e, 0
  {
    hide Agree, Vals, Evaluate, EvalOn, CodeE;
    ExprAgrees(c, locals, k, env, temps);
    var a := Evaluate(c, env);
    if a.Val? {
      TopOf(Vals(a.env) + temps, a.v);
      AgreeSame(locals, env, a.env);
      ExprAgrees(t, locals, k1, a.env, temps);
    }
  }

  lemma {:induction false} TopOf(st: seq<Value>, v: Value)
    ensures Top(st + [v]) == v && Rest(st + [v]) == st
  {
  }

  lemma {:induction false} VarAgrees(x: Name, locals: seq<Local>, env: Env, temps: seq<Value>)
    requires Resolve(locals, x).Some? && Agree(locals, env)
    ensures EvalOn(Var(x), locals, Vals(env) + temps) == Pushed(Evaluate(Var(x), env), temps)
  {
    ResolveIsLookup(locals, env, x);
  }

  lemma {:induction false} AssignKnown(x: Name, locals: seq<Local>, env: Env)
    requires Resolve(locals, x).Some? && Agree(locals, env)
    ensures Lookup(env, x).Some?
  {
    ResolveIsLookup(locals, env, x);
  }

  lemma {:induction false} AssignAgrees(x: Name, locals: seq<Local>, env: Env, r: Eval, temps: seq<Value>)
    requires Resolve(locals, x).Some? && Agree(locals, env) && r.Val? && SameNames(env, r.env)
    ensures var i, t := Resolve(locals, x).value, Vals(r.env) + temps + [r.v];
            && Lookup(env, x) == Some(i) && i < |r.env|
            && t[i := r.v] == Vals(r.env[i := Binding(x, r.v)]) + temps + [r.v] && Top(t) == r.v
  {
    ResolveIsLookup(locals, env, x);
    var i := Resolve(locals, x).value;
    assert Vals(r.env)[i := r.v] == Vals(r.env[i := Binding(x, r.v)]);
  }

  lemma {:induction false} OperatedAgrees(op: BinOp, env: Env, temps: seq<Value>, a: Value, b: Value)
    ensures var st := Vals(env) + (temps + [a]) + [b];
            var v := Arith.BinaryValue(op, a, b);
            Operated(op, st) == if v.Some? then Some(Vals(env) + temps + [v.value]) else None
  {
    hide Vals, Arith.BinaryValue;
    var st := Vals(env) + (temps + [a]) + [b];
    assert st == Vals(env) + temps + [a] + [b];
    TopOf(Vals(env) + temps + [a], b);
    TopOf(Vals(env) + temps, a);
  }

  /** The programs the emitter handles: one `break` a loop, loops left only with nothing of theirs on the stack
      (clean), and variables declared only where no matched value lies among the locals (tracked). */
  predicate Safe(s: Stmt, clean: bool, tracked: bool) {
    match s
    case ExprS(_) => true
    case Block(ds) => SafeIn(ds, clean, tracked)
    case If(_, t, f) => Safe(t, clean, tracked) && Safe(f, clean, tracked)
    case While(_, body) => Breaks(body) <= 1 && Safe(body, true, tracked)
    case Loop(body) => Breaks(body) <= 1 && Safe(body, true, tracked)
    case ForLoop(_, _, body) => Breaks(body) <= 1 && Safe(body, true, tracked)
    case Match(_, arms) => SafeOf(arms)
    case Break => clean
    case Continue => clean
  }

  predicate SafeIn(ds: Decls, clean: bool, tracked: bool) {
    match ds
    case End => true
    case VarD(_, _, rest) => tracked && SafeIn(rest, false, tracked)
    case StmtD(s, rest) => Safe(s, clean, tracked) && SafeIn(rest, clean, tracked)
  }

  predicate SafeOf(arms: Arms) {
    match arms
    case NoMore => true
    case Default(body) => Safe(body, false, false)
    case Arm(_, body, rest) => Safe(body, false, false) && SafeOf(rest)
  }

  ghost predicate Escapes(f: Flow) {
    f.Broke? || f.Continued?
  }

  /** Where leaving the loop would be unclean, control stays in sequence. */
  lemma {:induction false} NoEscape(s: Stmt, tracked: bool, env: Env, fuel: nat)
    requires Safe(s, false, tracked)
    ensures !Escapes(Exec(s, env, fuel))
    decreases fuel, s
  {
    match s
    case ExprS(_) =>
    case Block(ds) => NoEscapeIn(ds, tracked, env, fuel);
    case If(c, t, f) =>
      var r := Evaluate(c, env);
      if r.Val? {
        NoEscape(t, tracked, r.env, fuel);
        NoEscape(f, tracked, r.env, fuel);
      }
    case While(c, body) =>
      var r := Evaluate(c, env);
      if r.Val? && fuel > 0 {
        var f := Exec(body, r.env, fuel);
        if f.Ok() { NoEscape(s, tracked, f.env, fuel - 1); }
      }
    case Loop(body) =>
      var f := Exec(body, env, fuel);
      if f.Ok() && fuel > 0 { NoEscape(s, tracked, f.env, fuel - 1); }
    case ForLoop(cond, inc, body) =>
      var r := if cond.Some? then Evaluate(cond.value, env) else Val(Bool(true), env);
      if r.Val? && fuel > 0 {
        var f := Exec(body, r.env, fuel);
        if f.Ok() {
          var i := Evaluate(inc, f.env);
          if i.Val? { NoEscape(s, tracked, i.env, fuel - 1); }
        }
      }
    case Match(e, arms) =>
      var r := Evaluate(e, env);
      if r.Val? { NoEscapeOf(arms, r.v, r.env, fuel); }
    case Break =>
    case Continue =>
  }

  lemma {:induction false} NoEscapeIn(ds: Decls, tracked: bool, env: Env, fuel: nat)
    requires SafeIn(ds, false, tracked)
    ensures !Escapes(ExecDecls(ds, env, fuel))
    decreases fuel, ds
  {
    match ds
    case End =>
    case VarD(x, init, rest) =>
      var r := Evaluate(init, env);
      if r.Val? { NoEscapeIn(rest, tracked, r.env + [Binding(x, r.v)], fuel); }
    case StmtD(s, rest) =>
      NoEscape(s, tracked, env, fuel);
      var f := Exec(s, env, fuel);
      if f.Next? { NoEscapeIn(rest, tracked, f.env, fuel); }
  }

  lemma {:induction false} NoEscapeOf(arms: Arms, v: Value, env: Env, fuel: nat)
    requires SafeOf(arms)
    ensures !Escapes(ExecArms(arms, v, env, fuel))
    decreases fuel, arms
  {
    match arms
    case NoMore =>
    case Default(body) => NoEscape(body, false, env, fuel);
    case Arm(pattern, body, rest) =>
      var r := Evaluate(pattern, env);
      if r.Val? {
        NoEscape(body, false, r.env, fuel);
        NoEscapeOf(rest, v, r.env, fuel);
      }
  }

  /** The track that goes with an outcome, over the same temporaries. */
  function TrackOf(f: Flow, temps: seq<Value>): Track {
    match f
    case Next(e) => Fell(Vals(e) + temps)
    case Broke(e) => Left(Vals(e) + temps)
    case Continued(e) => Again(Vals(e) + temps)
    case Fault => Stuck
    case OutOfFuel => Tired
  }

  /** The locals are the bindings, one to a slot, and a `break` finds its loop's slot free. */
  ghost predicate Fit(cx: Cx, env: Env, breaks: nat) {
    Agree(cx.locals, env) && |cx.locals| == |env| && (Of(cx).broken ==> breaks == 0) && breaks <= 1
  }

  lemma {:induction false} FitSame(a: Cx, b: Cx, env: Env, e: Env, breaks: nat, fewer: nat)
    requires Fit(a, env, breaks) && SameNames(env, e) && a.locals == b.locals && fewer <= 1
    requires Of(b).broken ==> fewer == 0
    ensures Fit(b, e, fewer)
  {
  }

  ghost predicate Sound(s: Stmt, cx: Cx, env: Env, temps: seq<Value>, clean: bool, tracked: bool) {
    CodeS(s, cx).Some? && Safe(s, clean, tracked) && Fit(cx, env, Breaks(s)) && (tracked ==> temps == [])
  }

  ghost predicate StmtSame(s: Stmt, cx: Cx, env: Env, temps: seq<Value>, fuel: nat) {
    ExecOn(s, Of(cx), Vals(env) + temps, fuel) == TrackOf(Exec(s, env, fuel), temps)
  }

  /** Every safe statement does to the stack exactly what it means: the same values, the same ways out, the same faults,
      and no end where there is none. */
  lemma {:induction false} StmtAgrees(s: Stmt, cx: Cx, env: Env, temps: seq<Value>, fuel: nat, clean: bool,
                                      tracked: bool)
    requires Sound(s, cx, env, temps, clean, tracked)
    ensures StmtSame(s, cx, env, temps, fuel)
    decreases fuel, s, 2
  {
    match s
    case ExprS(e) => ExprSAgrees(e, cx, env, temps, fuel, clean, tracked);
    case Block(ds) => BlockAgrees(ds, cx, env, temps, fuel, clean, tracked);
    case If(c, t, f) => IfAgrees(c, t, f, cx, env, temps, fuel, clean, tracked);
    case While(c, body) => WhileAgrees(c, body, cx, env, temps, fuel, clean, tracked);
    case Loop(body) => LoopAgrees(body, cx, env, temps, fuel, clean, tracked);
    case ForLoop(cond, inc, body) => ForAgrees(cond, inc, body, cx, env, temps, fuel, clean, tracked);
    case Match(e, arms) => MatchAgrees(e, arms, cx, env, temps, fuel, clean, tracked);
    case Break =>
    case Continue =>
  }

  /** A condition or value at the head of a statement. */
  lemma {:induction false} HeadAgrees(e: Expr, cx: Cx, env: Env, temps: seq<Value>)
    requires Fragment(e, cx).Some? && Agree(cx.locals, env)
    ensures EvalOn(e, cx.locals, Vals(env) + temps) == Pushed(Evaluate(e, env), temps)
    ensures var r := Evaluate(e, env);
            r.Val? ==>
              && Top(Vals(r.env) + temps + [r.v]) == r.v && Rest(Vals(r.env) + temps + [r.v]) == Vals(r.env) + temps
  {
    hide CodeE, EvalOn, Evaluate, Vals, Agree;
    ExprAgrees(e, cx.locals, cx.k, env, temps);
    var r := Evaluate(e, env);
    if r.Val? { TopOf(Vals(r.env) + temps, r.v); }
  }

  lemma {:induction false} ExprSAgrees(e: Expr, cx: Cx, env: Env, temps: seq<Value>, fuel: nat, clean: bool,
                                       tracked: bool)
    requires Sound(ExprS(e), cx, env, temps, clean, tracked)
    ensures StmtSame(ExprS(e), cx, env, temps, fuel)
  {
    hide EvalOn, Evaluate, Vals, Agree, Fragment;
    HeadAgrees(e, cx, env, temps);
  }

  lemma {:induction false} SoundSame(s: Stmt, cx: Cx, env: Env, e: Env, temps: seq<Value>, clean: bool, tracked: bool)
    requires Sound(s, cx, env, temps, clean, tracked) && SameNames(env, e)
    ensures Sound(s, cx, e, temps, clean, tracked) && Agree(cx.locals, e)
  {
    hide CodeS, Safe;
    FitSame(cx, cx, env, e, Breaks(s), Breaks(s));
  }

  lemma {:induction false} IfSound(c: Expr, t: Stmt, f: Stmt, cx: Cx, env: Env, temps: seq<Value>, clean: bool,
                                   tracked: bool) returns (cx1: Cx, cx2: Cx)
    requires Sound(If(c, t, f), cx, env, temps, clean, tracked)
    ensures Fragment(c, cx).Some? && Agree(cx.locals, env)
    ensures Of(cx1) == Of(cx) && Of(cx2) == Of(cx).Past(Breaks(t))
    ensures Sound(t, cx1, env, temps, clean, tracked) && Sound(f, cx2, env, temps, clean, tracked)
  {
    hide Fragment, IfOut, Agree;
    var a := Fragment(c, cx).value;
    cx1 := After(cx, Join(a, Plain([39, 255, 255] + POP, [], cx)));
    var b := CodeS(t, cx1).value;
    cx2 := After(After(cx1, b), Plain([41, 255, 255] + POP, [], cx));
    IfContext(cx, a, t, cx1, b, cx2);
    FitSame(cx, cx1, env, env, Breaks(If(c, t, f)), Breaks(t));
    FitSame(cx, cx2, env, env, Breaks(If(c, t, f)), Breaks(f));
  }

  lemma {:induction false} IfAgrees(c: Expr, t: Stmt, f: Stmt, cx: Cx, env: Env, temps: seq<Value>, fuel: nat,
                                    clean: bool, tracked: bool)
    requires Sound(If(c, t, f), cx, env, temps, clean, tracked)
    ensures StmtSame(If(c, t, f), cx, env, temps, fuel)
    decreases fuel, If(c, t, f), 0
  {
    hide EvalOn, Evaluate, Vals, Agree, Fragment, Of, Sound;
    var cx1, cx2 := IfSound(c, t, f, cx, env, temps, clean, tracked);
    OfParts(cx);
    HeadAgrees(c, cx, env, temps);
    var r := Evaluate(c, env);
    if r.Val? && r.v == Bool(true) {
      SoundSame(t, cx1, env, r.env, temps, clean, tracked);
      StmtAgrees(t, cx1, r.env, temps, fuel, clean, tracked);
    } else if r.Val? && r.v == Bool(false) {
      SoundSame(f, cx2, env, r.env, temps, clean, tracked);
      StmtAgrees(f, cx2, r.env, temps, fuel, clean, tracked);
    }
  }

  lemma {:induction false} LoopSound(s: Stmt, cx: Cx, env: Env, temps: seq<Value>, clean: bool, tracked: bool)
      returns (bcx: Cx)
    requires Sound(s, cx, env, temps, clean, tracked) && (s.Loop? || s.While? || s.ForLoop?)
    ensures Of(bcx) == Of(cx).Inside() && Sound(s.body, bcx, env, temps, true, tracked)
  {
    hide Fragment, LoopOut, WhileOut, ForOut, ForCond, Agree;
    if s.Loop? {
      bcx := BodyCx(cx, 0, 0);
    } else if s.While? {
      var a := Fragment(s.c, cx).value;
      bcx := BodyCx(cx, |a.consts|, |a.code| + 4);
    } else {
      var a := ForCond(s.cond, cx).value;
      var i := Fragment(s.inc, cx.(k := cx.k + |a.consts|)).value;
      bcx := BodyCx(cx, |a.consts| + |i.consts|, |i.code| + 4);
    }
  }

  /** A loop's body, and the loop again after it. */
  lemma {:induction false} RoundAgrees(s: Stmt, cx: Cx, env: Env, e: Env, temps: seq<Value>, fuel: nat, clean: bool,
                                       tracked: bool)
    requires Sound(s, cx, env, temps, clean, tracked) && (s.Loop? || s.While? || s.ForLoop?) && SameNames(env, e)
    ensures ExecOn(s.body, Of(cx).Inside(), Vals(e) + temps, fuel) == TrackOf(Exec(s.body, e, fuel), temps)
    ensures var f := Exec(s.body, e, fuel);
            f.Ok() ==> SameNames(env, f.env) && Sound(s, cx, f.env, temps, clean, tracked)
    decreases fuel, s, 0
  {
    hide ExecOn, Exec, Vals, Agree, Of, Sound;
    var bcx := LoopSound(s, cx, env, temps, clean, tracked);
    SoundSame(s.body, bcx, env, e, temps, true, tracked);
    StmtAgrees(s.body, bcx, e, temps, fuel, true, tracked);
    var f := Exec(s.body, e, fuel);
    if f.Ok() { SoundSame(s, cx, env, f.env, temps, clean, tracked); }
  }

  lemma {:induction false} LoopAgrees(body: Stmt, cx: Cx, env: Env, temps: seq<Value>, fuel: nat, clean: bool,
                                      tracked: bool)
    requires Sound(Loop(body), cx, env, temps, clean, tracked)
    ensures StmtSame(Loop(body), cx, env, temps, fuel)
    decreases fuel, Loop(body), 1
  {
    hide Vals, Of, Sound;
    RoundAgrees(Loop(body), cx, env, env, temps, fuel, clean, tracked);
    var f := Exec(body, env, fuel);
    if (f.Next? || f.Continued?) && fuel > 0 {
      StmtAgrees(Loop(body), cx, f.env, temps, fuel - 1, clean, tracked);
    }
  }

  lemma {:induction false} WhileHead(c: Expr, body: Stmt, cx: Cx, env: Env, temps: seq<Value>, clean: bool,
                                     tracked: bool)
    requires Sound(While(c, body), cx, env, temps, clean, tracked)
    ensures Fragment(c, cx).Some? && Agree(cx.locals, env)
  {
  }

  lemma {:induction false} WhileAgrees(c: Expr, body: Stmt, cx: Cx, env: Env, temps: seq<Value>, fuel: nat, clean: bool,
                                       tracked: bool)
    requires Sound(While(c, body), cx, env, temps, clean, tracked)
    ensures StmtSame(While(c, body), cx, env, temps, fuel)
    decreases fuel, While(c, body), 1
  {
    hide EvalOn, Evaluate, Vals, Agree, Fragment, Of, Sound;
    var s := While(c, body);
    WhileHead(c, body, cx, env, temps, clean, tracked);
    OfParts(cx);
    HeadAgrees(c, cx, env, temps);
    var r := Evaluate(c, env);
    if r.Val? && r.v == Bool(true) {
      RoundAgrees(s, cx, env, r.env, temps, fuel, clean, tracked);
      var f := Exec(body, r.env, fuel);
      if (f.Next? || f.Continued?) && fuel > 0 { StmtAgrees(s, cx, f.env, temps, fuel - 1, clean, tracked); }
    }
  }

  lemma {:induction false} ForHeads(cond: Option<Expr>, inc: Expr, body: Stmt, cx: Cx, env: Env, temps: seq<Value>,
                                    clean: bool, tracked: bool) returns (icx: Cx)
    requires Sound(ForLoop(cond, inc, body), cx, env, temps, clean, tracked)
    ensures Agree(cx.locals, env) && (cond.Some? ==> Fragment(cond.value, cx).Some?)
    ensures Fragment(inc, icx).Some? && icx.locals == cx.locals
  {
    hide Fragment, ForOut, Agree;
    icx := cx.(k := cx.k + |ForCond(cond, cx).value.consts|);
  }

  lemma {:induction false} TestAgrees(cond: Option<Expr>, cx: Cx, env: Env, temps: seq<Value>)
    requires Agree(cx.locals, env) && (cond.Some? ==> Fragment(cond.value, cx).Some?)
    ensures TestOn(cond, Of(cx), Vals(env) + temps) == Pushed(Tested(cond, env), temps)
    ensures var r := Tested(cond, env);
            r.Val? ==>
              && Top(Vals(r.env) + temps + [r.v]) == r.v && Rest(Vals(r.env) + temps + [r.v]) == Vals(r.env) + temps
  {
    hide EvalOn, Evaluate, Vals, Agree, Fragment;
    if cond.Some? { HeadAgrees(cond.value, cx, env, temps); } else { TopOf(Vals(env) + temps, Bool(true)); }
  }

  /** The increment, and the loop again after it. */
  lemma {:induction false} ForAgain(cond: Option<Expr>, inc: Expr, body: Stmt, cx: Cx, env: Env, e: Env,
                                    temps: seq<Value>, fuel: nat, clean: bool, tracked: bool)
    requires Sound(ForLoop(cond, inc, body), cx, env, temps, clean, tracked) && SameNames(env, e)
    ensures EvalOn(inc, cx.locals, Vals(e) + temps) == Pushed(Evaluate(inc, e), temps)
    ensures var n := Evaluate(inc, e);
            n.Val? ==>
              && Rest(Vals(n.env) + temps + [n.v]) == Vals(n.env) + temps
              && (fuel > 0 ==> StmtSame(ForLoop(cond, inc, body), cx, n.env, temps, fuel - 1))
    decreases fuel, ForLoop(cond, inc, body), 0
  {
    hide EvalOn, Evaluate, Vals, Agree, Fragment, Of, Sound, StmtSame;
    var s := ForLoop(cond, inc, body);
    var icx := ForHeads(cond, inc, body, cx, env, temps, clean, tracked);
    AgreeSame(cx.locals, env, e);
    HeadAgrees(inc, icx, e, temps);
    var n := Evaluate(inc, e);
    if n.Val? && fuel > 0 {
      SoundSame(s, cx, env, n.env, temps, clean, tracked);
      StmtAgrees(s, cx, n.env, temps, fuel - 1, clean, tracked);
    }
  }

  lemma {:induction false} ForAgrees(cond: Option<Expr>, inc: Expr, body: Stmt, cx: Cx, env: Env, temps: seq<Value>,
                                     fuel: nat, clean: bool, tracked: bool)
    requires Sound(ForLoop(cond, inc, body), cx, env, temps, clean, tracked)
    ensures StmtSame(ForLoop(cond, inc, body), cx, env, temps, fuel)
    decreases fuel, ForLoop(cond, inc, body), 1
  {
    hide EvalOn, Evaluate, Vals, Agree, Fragment, Of, Sound, TestOn, Tested;
    var s := ForLoop(cond, inc, body);
    var icx := ForHeads(cond, inc, body, cx, env, temps, clean, tracked);
    OfParts(cx);
    TestAgrees(cond, cx, env, temps);
    var r := Tested(cond, env);
    if r.Val? && r.v == Bool(true) {
      RoundAgrees(s, cx, env, r.env, temps, fuel, clean, tracked);
      var f := Exec(body, r.env, fuel);
      if f.Next? || f.Continued? { ForAgain(cond, inc, body, cx, env, f.env, temps, fuel, clean, tracked); }
    }
  }

  /** After a list that is fallen off there is one binding more for each of its variables; where it is left otherwise
      there is none, and where no variable may be declared there are none. */
  ghost predicate DeclsSame(ds: Decls, cx: Cx, env: Env, temps: seq<Value>, fuel: nat) {
    var f := ExecDecls(ds, env, fuel);
    && DeclsOn(ds, Of(cx), Vals(env) + temps, fuel) == TrackOf(f, temps)
    && (f.Next? ==> |f.env| == |env| + Variables(ds))
    && (Escapes(f) ==> |f.env| == |env|)
  }

  ghost predicate SoundIn(ds: Decls, cx: Cx, env: Env, temps: seq<Value>, clean: bool, tracked: bool) {
    && CodeDs(ds, cx).Some? && SafeIn(ds, clean, tracked) && Fit(cx, env, BreaksIn(ds)) && (tracked ==> temps == [])
  }

  lemma {:induction false} DeclsAgree(ds: Decls, cx: Cx, env: Env, temps: seq<Value>, fuel: nat, clean: bool,
                                      tracked: bool)
    requires SoundIn(ds, cx, env, temps, clean, tracked)
    ensures DeclsSame(ds, cx, env, temps, fuel)
    decreases fuel, ds, 1
  {
    match ds
    case End =>
    case VarD(x, init, rest) => VarDAgrees(x, init, rest, cx, env, temps, fuel, clean, tracked);
    case StmtD(s, rest) => StmtDAgrees(s, rest, cx, env, temps, fuel, clean, tracked);
  }

  lemma {:induction false} VarDAgrees(x: Name, init: Expr, rest: Decls, cx: Cx, env: Env, temps: seq<Value>, fuel: nat,
                                      clean: bool, tracked: bool)
    requires SoundIn(VarD(x, init, rest), cx, env, temps, clean, tracked)
    ensures DeclsSame(VarD(x, init, rest), cx, env, temps, fuel)
    decreases fuel, VarD(x, init, rest), 0
  {
    hide EvalOn, Evaluate, CodeE, Declared, Safe;
    var locals := cx.locals + [Local(x, -1)];
    var a := CodeE(init, locals, cx.k).value;
    var o := Out(a, Consts(init), cx.locals + [Local(x, cx.depth)], -1);
    var cx1 := After(cx, o);
    ExprAgrees(init, locals, cx.k, env, []);
    assert Vals(env) + [] == Vals(env);
    var r := Evaluate(init, env);
    if r.Val? {
      var e := r.env + [Binding(x, r.v)];
      assert Vals(r.env) + [] + [r.v] == Vals(e) + [];
      NoEscapeIn(rest, tracked, e, fuel);
      DeclsAgree(rest, cx1, e, [], fuel, false, true);
    }
  }

  lemma {:induction false} StmtDAgrees(s: Stmt, rest: Decls, cx: Cx, env: Env, temps: seq<Value>, fuel: nat,
                                       clean: bool, tracked: bool)
    requires SoundIn(StmtD(s, rest), cx, env, temps, clean, tracked)
    ensures DeclsSame(StmtD(s, rest), cx, env, temps, fuel)
    decreases fuel, StmtD(s, rest), 0
  {
    hide CodeS, Exec, ExecOn, Safe, Agree, Of, Vals, Breaks;
    var cx1 := After(cx, CodeS(s, cx).value);
    OfAfter(s, cx);
    StmtAgrees(s, cx, env, temps, fuel, clean, tracked);
    var f := Exec(s, env, fuel);
    if f.Next? {
      FitSame(cx, cx1, env, f.env, BreaksIn(StmtD(s, rest)), BreaksIn(rest));
      DeclsAgree(rest, cx1, f.env, temps, fuel, clean, tracked);
    }
  }

  lemma {:induction false} NoVariables(ds: Decls, clean: bool)
    requires SafeIn(ds, clean, false)
    ensures Variables(ds) == 0
  {
    hide Safe;
    match ds
    case End =>
    case StmtD(_, rest) => NoVariables(rest, clean);
  }

  lemma {:induction false} LeaveSame(env: Env, e: Env, temps: seq<Value>)
    requires |env| <= |e|
    ensures (Vals(e) + [])[..|env|] == Vals(e[..|env|]) + []
    ensures (Vals(e) + temps)[..|e| + |temps|] == Vals(e) + temps && e[..|e|] == e
  {
  }

  lemma {:induction false} BlockAgrees(ds: Decls, cx: Cx, env: Env, temps: seq<Value>, fuel: nat, clean: bool,
                                       tracked: bool)
    requires Sound(Block(ds), cx, env, temps, clean, tracked)
    ensures StmtSame(Block(ds), cx, env, temps, fuel)
    decreases fuel, Block(ds), 0
  {
    hide CodeDs, SafeIn, DeclsOn, ExecDecls, Agree, Vals, BreaksIn, Variables;
    var icx := cx.(depth := cx.depth + 1);
    FitSame(cx, icx, env, env, BreaksIn(ds), BreaksIn(ds));
    DeclsAgree(ds, icx, env, temps, fuel, clean, tracked);
    if !tracked { NoVariables(ds, clean); }
    var f := ExecDecls(ds, env, fuel);
    if f.Ok() { LeaveSame(env, f.env, temps); }
  }

  ghost predicate ArmsSame(arms: Arms, v: Value, cx: Cx, env: Env, temps: seq<Value>, fuel: nat) {
    ArmsOn(arms, Of(cx), Vals(env) + temps + [v], fuel) == TrackOf(ExecArms(arms, v, env, fuel), temps + [v])
  }

  ghost predicate SoundOf(arms: Arms, cx: Cx, env: Env) {
    CodeArms(arms, cx).Some? && SafeOf(arms) && Fit(cx, env, BreaksOf(arms))
  }

  lemma {:induction false} MatchSound(e: Expr, arms: Arms, cx: Cx, env: Env, temps: seq<Value>, clean: bool,
                                      tracked: bool) returns (cx0: Cx, cx1: Cx)
    requires Sound(Match(e, arms), cx, env, temps, clean, tracked)
    ensures Fragment(e, cx0).Some? && cx0.locals == cx.locals && Agree(cx.locals, env)
    ensures Of(cx1) == Of(cx).Deeper() && SafeOf(arms)
    ensures forall e1 :: SameNames(env, e1) ==> SoundOf(arms, cx1, e1)
  {
    hide Fragment, CodeArms, MatchOut, Agree, BreaksOf;
    cx0 := cx.(depth := cx.depth + 1);
    var a := Fragment(e, cx0).value;
    cx1 := After(cx0, Join(a, Plain([50, 255, 255], [], cx0)));
    forall e1 | SameNames(env, e1) ensures SoundOf(arms, cx1, e1) {
      FitSame(cx, cx1, env, e1, BreaksOf(arms), BreaksOf(arms));
    }
  }

  lemma {:induction false} MatchAgrees(e: Expr, arms: Arms, cx: Cx, env: Env, temps: seq<Value>, fuel: nat, clean: bool,
                                       tracked: bool)
    requires Sound(Match(e, arms), cx, env, temps, clean, tracked)
    ensures StmtSame(Match(e, arms), cx, env, temps, fuel)
    decreases fuel, Match(e, arms), 0
  {
    hide EvalOn, Evaluate, Vals, Agree, Fragment, Of, Sound, ArmsOn, ExecArms, SoundOf, SafeOf;
    var cx0, cx1 := MatchSound(e, arms, cx, env, temps, clean, tracked);
    OfParts(cx);
    HeadAgrees(e, cx0, env, temps);
    var r := Evaluate(e, env);
    if r.Val? {
      ArmsAgree(arms, r.v, cx1, r.env, temps, fuel);
      NoEscapeOf(arms, r.v, r.env, fuel);
      var f := ExecArms(arms, r.v, r.env, fuel);
      if f.Next? {
        assert Vals(f.env) + (temps + [r.v]) == Vals(f.env) + temps + [r.v];
        TopOf(Vals(f.env) + temps, r.v);
      }
    }
  }

  lemma {:induction false} ArmsAgree(arms: Arms, v: Value, cx: Cx, env: Env, temps: seq<Value>, fuel: nat)
    requires SoundOf(arms, cx, env)
    ensures ArmsSame(arms, v, cx, env, temps, fuel)
    decreases fuel, arms, 1
  {
    hide Agree, Vals, CodeArmBody;
    match arms
    case NoMore => assert Vals(env) + temps + [v] == Vals(env) + (temps + [v]);
    case Default(body) =>
      BodyAgrees(body, cx, env, temps + [v], fuel);
      assert Vals(env) + temps + [v] == Vals(env) + (temps + [v]);
    case Arm(pattern, body, rest) => ArmAgrees(pattern, body, rest, v, cx, env, temps, fuel);
  }

  lemma {:induction false} BodyAgrees(body: Stmt, cx: Cx, env: Env, temps: seq<Value>, fuel: nat)
    requires CodeArmBody(body, cx).Some? && Safe(body, false, false) && Fit(cx, env, Breaks(body))
    ensures BodyOn(body, Of(cx), Vals(env) + temps, fuel) == TrackOf(Exec(body, env, fuel), temps)
    ensures Own(body) == 0
    decreases fuel, body, 3
  {
    hide CodeS, CodeDs, DeclsOn, ExecOn, ExecDecls, Agree, Vals, Variables;
    var icx := cx.(depth := cx.depth + 1);
    FitSame(cx, icx, env, env, Breaks(body), Breaks(body));
    if body.Block? {
      DeclsAgree(body.ds, icx, env, temps, fuel, false, false);
      NoVariables(body.ds, false);
      var f := ExecDecls(body.ds, env, fuel);
      if f.Ok() { assert f.env[..|env|] == f.env; }
    } else {
      StmtAgrees(body, icx, env, temps, fuel, false, false);
    }
  }

  lemma {:induction false} ArmSound(pattern: Expr, body: Stmt, rest: Arms, cx: Cx, env: Env)
      returns (pcx: Cx, cx1: Cx, cx2: Cx)
    requires SoundOf(Arm(pattern, body, rest), cx, env)
    ensures Fragment(pattern, pcx).Some? && pcx.locals == cx.locals && Agree(cx.locals, env)
    ensures CodeArmBody(body, cx1).Some? && Of(cx1) == Of(cx) && Safe(body, false, false)
    ensures Of(cx2) == Of(cx).Past(Breaks(body))
    ensures forall e1 :: SameNames(env, e1) ==> Fit(cx1, e1, Breaks(body)) && SoundOf(rest, cx2, e1)
  {
    hide Fragment, CodeArmBody, Agree, Breaks, ArmOut, PatternCx, Safe;
    pcx := cx.(depth := cx.depth + 1);
    var a := Fragment(pattern, pcx).value;
    cx1 := PatternCx(a, cx);
    var b := CodeArmBody(body, cx1).value;
    cx2 := After(cx, ArmOut(a, b, [41, 255, 255], cx));
    SlotTakenBody(body, cx1);
    ArmSlot(a, b, cx, []);
    ArmPlace(a, b, cx);
    var all := BreaksOf(Arm(pattern, body, rest));
    forall e1 | SameNames(env, e1) ensures Fit(cx1, e1, Breaks(body)) && SoundOf(rest, cx2, e1) {
      FitSame(cx, cx1, env, e1, all, Breaks(body));
      FitSame(cx, cx2, env, e1, all, BreaksOf(rest));
    }
  }

  lemma {:induction false} ArmAgrees(pattern: Expr, body: Stmt, rest: Arms, v: Value, cx: Cx, env: Env,
                                     temps: seq<Value>, fuel: nat)
    requires SoundOf(Arm(pattern, body, rest), cx, env)
    ensures ArmsSame(Arm(pattern, body, rest), v, cx, env, temps, fuel)
    decreases fuel, Arm(pattern, body, rest), 0
  {
    hide EvalOn, Evaluate, Vals, Agree, Fragment, CodeArmBody, Of, SoundOf, BodyOn, Exec, Fit, Safe;
    var pcx, cx1, cx2 := ArmSound(pattern, body, rest, cx, env);
    var t := temps + [v];
    assert Vals(env) + temps + [v] == Vals(env) + t;
    OfParts(cx);
    HeadAgrees(pattern, pcx, env, t);
    var r := Evaluate(pattern, env);
    if r.Val? {
      assert Vals(r.env) + t == Vals(r.env) + temps + [v];
      TopOf(Vals(r.env) + temps, v);
      BodyAgrees(body, cx1, r.env, t, fuel);
      if r.v != v {
        ArmsAgree(rest, v, cx2, r.env, temps, fuel);
        assert (Vals(r.env) + t)[..|Vals(r.env) + t|] == Vals(r.env) + t;
      }
    }
  }

  /** So the code of an expression, placed anywhere, pushes exactly its value or faults with it. */
  lemma {:induction false} ExprRuns(e: Expr, locals: seq<Local>, k: nat, env: Env, temps: seq<Value>, p: Program,
                                    pc: nat)
    requires Placed(e, locals, k, p, pc) && Agree(locals, env)
    ensures Ends(p, State(pc, Vals(env) + temps), pc + |CodeE(e, locals, k).value|, Pushed(Evaluate(e, env), temps))
  {
    hide CodeE, EvalOn, Evaluate, Vals, Agree, Ends, At;
    ExprMoves(e, locals, k, Vals(env) + temps, p, pc);
    ExprAgrees(e, locals, k, env, temps);
  }

  /** And the code of a safe statement, placed anywhere, ends where and with the bindings that the evaluator says. */
  lemma {:induction false} StmtRuns(s: Stmt, cx: Cx, env: Env, temps: seq<Value>, fuel: nat, p: Program, pc: int,
                                    brk: int, clean: bool, tracked: bool)
    requires Sound(s, cx, env, temps, clean, tracked) && Ready(CodeS(s, cx).value, cx, p, pc, brk)
    ensures Lands(TrackOf(Exec(s, env, fuel), temps), cx, |CodeS(s, cx).value.code|, fuel, Vals(env) + temps, p, pc,
                  brk)
  {
    hide CodeS, ExecOn, Exec, Vals, Ready, Lands, Fit, Safe;
    StmtMoves(s, cx, Vals(env) + temps, fuel, p, pc, brk);
    StmtAgrees(s, cx, env, temps, fuel, clean, tracked);
  }
}
