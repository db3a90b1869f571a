/** The direct evaluator: what a tree means, by name, with no bytes and no slots. */
module Semantics {
  import opened Base
  import opened Syntax
  import Arith

  datatype Binding = Binding(name: Name, value: Value)
  // Innermost declaration last.
  type Env = seq<Binding>

  function Lookup(env: Env, x: Name): (r: Option<nat>)
    ensures r.Some? ==> r.value < |env| && env[r.value].name == x
  {
    if env == [] then None
    else if env[|env| - 1].name == x then Some(|env| - 1)
    else Lookup(env[..|env| - 1], x)
  }

  ghost predicate SameNames(a: Env, b: Env) {
    |a| == |b| && forall i :: 0 <= i < |a| ==> a[i].name == b[i].name
  }

  datatype Eval = Val(v: Value, env: Env) | Error

  /** Operands are evaluated left to right; None of the operators forces its skipped arm. */
  function Evaluate(e: Expr, env: Env): (r: Eval)
    ensures r.Val? ==> SameNames(env, r.env)
  {
    match e
    case Int(n) => Val(I32(n), env)
    case BoolLit(b) => Val(Bool(b), env)
    case NoneLit => Val(Nil, env)
    case Var(x) =>
      var i := Lookup(env, x);
      if i.None? then Error else Val(env[i.value].value, env)
    case Assign(x, e1) =>
      var r := Evaluate(e1, env);
      var i := Lookup(env, x);
      if r.Error? || i.None? then Error else Val(r.v, r.env[i.value := Binding(x, r.v)])
    case Unary(op, e1) =>
      var r := Evaluate(e1, env);
      if r.Error? then Error
      else
        var v := Arith.UnaryValue(op, r.v);
        if v.None? then Error else Val(v.value, r.env)
    case Binary(op, l, r) =>
      var a := Evaluate(l, env);
      if a.Error? then Error
      else
        var b := Evaluate(r, a.env);
        if b.Error? then Error
        else
          var v := Arith.BinaryValue(op, a.v, b.v);
          if v.None? then Error else Val(v.value, b.env)
    case And(l, r) =>
      var a := Evaluate(l, env);
      if a.Error? || !a.v.Bool? then Error
      else if !a.v.b then a
      else Evaluate(r, a.env)
    case Or(l, r) =>
      var a := Evaluate(l, env);
      if a.Error? || !a.v.Bool? then Error
      else if a.v.b then a
      else Evaluate(r, a.env)
    case Cond(c, t, f) =>
      var a := Evaluate(c, env);
      if a.Error? || !a.v.Bool? then Error
      else if a.v.b then Evaluate(t, a.env)
      else Evaluate(f, a.env)
  }

  datatype Flow = Next(env: Env) | Broke(env: Env) | Continued(env: Env) | Fault | OutOfFuel {
    predicate Ok() { Next? || Broke? || Continued? }

    /** Leaving a scope forgets the bindings made since it began. */
    function Leave(n: nat): (r: Flow) {
      match this
      case Next(e) => if n <= |e| then Next(e[..n]) else this
      case Broke(e) => if n <= |e| then Broke(e[..n]) else this
      case Continued(e) => if n <= |e| then Continued(e[..n]) else this
      case _ => this
    }
  }

  ghost predicate Keeps(env: Env, f: Flow) {
    f.Ok() ==> SameNames(env, f.env)
  }

  ghost predicate Grows(env: Env, f: Flow) {
    f.Ok() ==> |env| <= |f.env| && SameNames(env, f.env[..|env|])
  }

  function Tested(cond: Option<Expr>, env: Env): (r: Eval)
    ensures r.Val? ==> SameNames(env, r.env)
  {
    if cond.Some? then Evaluate(cond.value, env) else Val(Bool(true), env)
  }

  /** The fuel bounds the iterations of each loop. */
  function Exec(s: Stmt, env: Env, fuel: nat): (r: Flow)
    ensures Keeps(env, r)
    decreases fuel, s
  {
    match s
    case ExprS(e) =>
      var r := Evaluate(e, env);
      if r.Error? then Fault else Next(r.env)
    case Block(ds) => ExecDecls(ds, env, fuel).Leave(|env|)
    case If(c, t, f) =>
      var r := Evaluate(c, env);
      if r.Error? || !r.v.Bool? then Fault
      else if r.v.b then Exec(t, r.env, fuel)
      else Exec(f, r.env, fuel)
    case While(c, body) =>
      var r := Evaluate(c, env);
      if r.Error? || !r.v.Bool? then Fault
      else if !r.v.b then Next(r.env)
      else
        var f := Exec(body, r.env, fuel);
        if f.Broke? then Next(f.env)
        else if !f.Ok() then f
        else if fuel == 0 then OutOfFuel
        else Exec(s, f.env, fuel - 1)
    case Loop(body) =>
      var f := Exec(body, env, fuel);
      if f.Broke? then Next(f.env)
      else if !f.Ok() then f
      else if fuel == 0 then OutOfFuel
      else Exec(s, f.env, fuel - 1)
    case ForLoop(cond, inc, body) =>
      var c := Tested(cond, env);
      if c.Error? || !c.v.Bool? then Fault
      else if !c.v.b then Next(c.env)
      else
        var f := Exec(body, c.env, fuel);
        if f.Broke? then Next(f.env)
        else if !f.Ok() then f
        else
          var i := Evaluate(inc, f.env);
          if i.Error? then Fault
          else if fuel == 0 then OutOfFuel
          else Exec(s, i.env, fuel - 1)
    case Match(e, arms) =>
      var r := Evaluate(e, env);
      if r.Error? then Fault else ExecArms(arms, r.v, r.env, fuel)
    case Break => Broke(env)
    case Continue => Continued(env)
  }

  /** The first arm whose pattern evaluates to the matched value, else the default, else nothing. */
  function ExecArms(arms: Arms, v: Value, env: Env, fuel: nat): (r: Flow)
    ensures Keeps(env, r)
    decreases fuel, arms
  {
    match arms
    case NoMore => Next(env)
    case Default(body) => Exec(body, env, fuel)
    case Arm(pattern, body, rest) =>
      var p := Evaluate(pattern, env);
      if p.Error? then Fault
      else if p.v == v then Exec(body, p.env, fuel)
      else ExecArms(rest, v, p.env, fuel)
  }

  /** Declarations in order; the environment grows by one binding for each variable. */
  function ExecDecls(ds: Decls, env: Env, fuel: nat): (r: Flow)
    ensures Grows(env, r)
    decreases fuel, ds
  {
    match ds
    case End => Next(env)
    case VarD(x, init, rest) =>
      var r := Evaluate(init, env);
      if r.Error? then Fault
      else
        var f := ExecDecls(rest, r.env + [Binding(x, r.v)], fuel);
        assert f.Ok() ==> f.env[..|env|] == f.env[..|env| + 1][..|env|];
        f
    case StmtD(s, rest) =>
      var f := Exec(s, env, fuel);
      if f.Next? then ExecDecls(rest, f.env, fuel) else f
  }
}
