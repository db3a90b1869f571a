/** What the emitted code of a tree does to the stack, in slots and heights, whether or not the tree means that. */
module StackSemantics {
  import opened Base
  import opened Syntax
  import opened CodeGen
  import Arith

  function Top(st: seq<Value>): Value
    requires st != []
  {
    st[|st| - 1]
  }

  function Rest(st: seq<Value>): seq<Value>
    requires st != []
  {
    st[..|st| - 1]
  }

  /** The two topmost values replaced by the result. */
  function Operated(op: BinOp, st: seq<Value>): (r: Option<seq<Value>>)
    requires |st| >= 2
    ensures r.Some? ==> |r.value| == |st| - 1
  {
    var v :- Arith.BinaryValue(op, Top(Rest(st)), Top(st));
    Some(Rest(Rest(st)) + [v])
  }

  /** The stack with the value of e pushed; None where the machine stops with a fault. */
  function EvalOn(e: Expr, locals: seq<Local>, st: seq<Value>): (r: Option<seq<Value>>)
    ensures r.Some? ==> |r.value| == |st| + 1
  {
    match e
    case Int(n) => Some(st + [I32(n)])
    case BoolLit(b) => Some(st + [Bool(b)])
    case NoneLit => Some(st + [Nil])
    case Var(x) =>
      var i :- Resolve(locals, x);
      if i < |st| then Some(st + [st[i]]) else None
    case Assign(x, e1) =>
      var i :- Resolve(locals, x);
      var t :- EvalOn(e1, locals, st);
      if i < |t| then Some(t[i := Top(t)]) else None
    case Unary(op, e1) =>
      var t :- EvalOn(e1, locals, st);
      var v :- Arith.UnaryValue(op, Top(t));
      Some(Rest(t) + [v])
    case Binary(op, l, r) =>
      var a :- EvalOn(l, locals, st);
      var b :- EvalOn(r, locals, a);
      Operated(op, b)
    case And(l, r) =>
      var a :- EvalOn(l, locals, st);
      if !Top(a).Bool? then None
      else if Top(a).b then EvalOn(r, locals, Rest(a))
      else Some(a)
    case Or(l, r) =>
      var a :- EvalOn(l, locals, st);
      if !Top(a).Bool? then None
      else if Top(a).b then Some(a)
      else EvalOn(r, locals, Rest(a))
    case Cond(c, t, f) =>
      var a :- EvalOn(c, locals, st);
      if !Top(a).Bool? then None
      else EvalOn(if Top(a).b then t else f, locals, Rest(a))
  }

  /** How a statement's code is left: at its end, at its loop's end, at its loop's start, by a fault, or not within the
      iterations allowed. */
  datatype Track = Fell(st: seq<Value>) | Left(st: seq<Value>) | Again(st: seq<Value>) | Stuck | Tired {
    /** Pops at the end, reached only by falling off it. */
    function Drop(n: nat): Track {
      if Fell? then if n <= |st| then Fell(st[..|st| - n]) else Stuck
      else this
    }
  }

  /** What the compiler knows where a statement begins: its locals, the depth of scopes, and whether the loop's one
      break slot is taken. */
  datatype Scope = Scope(locals: seq<Local>, depth: nat, broken: bool) {
    function Deeper(): Scope {
      this.(depth := depth + 1)
    }

    function Past(breaks: nat): Scope {
      this.(broken := broken || breaks > 0)
    }

    function Inside(): Scope {
      this.(broken := false)
    }

    function With(x: Name): Scope {
      this.(locals := locals + [Local(x, depth)])
    }
  }

  function Variables(ds: Decls): nat {
    match ds
    case End => 0
    case VarD(_, _, rest) => 1 + Variables(rest)
    case StmtD(_, rest) => Variables(rest)
  }

  /** The variables of an arm's own scope: a block that is an arm's body opens none of its own. */
  function Own(body: Stmt): nat {
    if body.Block? then Variables(body.ds) else 0
  }

  /** The test of a `for`; without one there is nothing to pop. */
  function TestOn(cond: Option<Expr>, sc: Scope, st: seq<Value>): (r: Option<seq<Value>>)
    ensures r.Some? ==> |r.value| == |st| + 1
  {
    if cond.Some? then EvalOn(cond.value, sc.locals, st) else Some(st + [Bool(true)])
  }

  /** The fuel bounds the iterations of each loop. */
  function ExecOn(s: Stmt, sc: Scope, st: seq<Value>, fuel: nat): Track
    decreases fuel, s, 1
  {
    match s
    case ExprS(e) =>
      var t := EvalOn(e, sc.locals, st);
      if t.None? then Stuck else Fell(Rest(t.value))
    case Block(ds) => DeclsOn(ds, sc.Deeper(), st, fuel).Drop(Variables(ds))
    case If(c, t, f) =>
      var a := EvalOn(c, sc.locals, st);
      if a.None? || !Top(a.value).Bool? then Stuck
      else if Top(a.value).b then ExecOn(t, sc, Rest(a.value), fuel)
      else ExecOn(f, sc.Past(Breaks(t)), Rest(a.value), fuel)
    case While(c, body) =>
      var a := EvalOn(c, sc.locals, st);
      if a.None? || !Top(a.value).Bool? then Stuck
      else if !Top(a.value).b then Fell(Rest(a.value))
      else
        var f := ExecOn(body, sc.Inside(), Rest(a.value), fuel);
        if f.Left? then Fell(f.st)
        else if f.Stuck? || f.Tired? then f
        else if fuel == 0 then Tired
        else ExecOn(s, sc, f.st, fuel - 1)
    case Loop(body) =>
      var f := ExecOn(body, sc.Inside(), st, fuel);
      if f.Left? then Fell(f.st)
      else if f.Stuck? || f.Tired? then f
      else if fuel == 0 then Tired
      else ExecOn(s, sc, f.st, fuel - 1)
    case ForLoop(cond, inc, body) =>
      var a := TestOn(cond, sc, st);
      if a.None? || !Top(a.value).Bool? then Stuck
      else if !Top(a.value).b then Fell(Rest(a.value))
      else
        var f := ExecOn(body, sc.Inside(), Rest(a.value), fuel);
        if f.Left? then Fell(f.st)
        else if f.Stuck? || f.Tired? then f
        else
          var i := EvalOn(inc, sc.locals, f.st);
          if i.None? then Stuck
          else if fuel == 0 then Tired
          else ExecOn(s, sc, Rest(i.value), fuel - 1)
    case Match(e, arms) =>
      var a := EvalOn(e, sc.locals, st);
      if a.None? then Stuck else ArmsOn(arms, sc.Deeper(), a.value, fuel).Drop(1)
    case Break => if sc.broken then Fell(st) else Left(st)
    case Continue => Again(st)
  }

  /** The matched value is on top. An arm that is not taken makes the pops of its scope; one that is taken jumps over
      them. */
  function ArmsOn(arms: Arms, sc: Scope, st: seq<Value>, fuel: nat): Track
    decreases fuel, arms, 1
  {
    match arms
    case NoMore => Fell(st)
    case Default(body) => BodyOn(body, sc, st, fuel)
    case Arm(pattern, body, rest) =>
      var a := EvalOn(pattern, sc.locals, st);
      if a.None? || st == [] then Stuck
      else if Top(a.value) == Top(Rest(a.value)) then BodyOn(body, sc, Rest(a.value), fuel)
      else if Own(body) > |st| then Stuck
      else ArmsOn(rest, sc.Past(Breaks(body)), Rest(a.value)[..|st| - Own(body)], fuel)
  }

  function BodyOn(body: Stmt, sc: Scope, st: seq<Value>, fuel: nat): Track
    decreases fuel, body, 2
  {
    if body.Block? then DeclsOn(body.ds, sc.Deeper(), st, fuel) else ExecOn(body, sc.Deeper(), st, fuel)
  }

  /** A variable's value is left where it is pushed; its slot is counted from the bottom of the stack. */
  function DeclsOn(ds: Decls, sc: Scope, st: seq<Value>, fuel: nat): Track
    decreases fuel, ds, 1
  {
    match ds
    case End => Fell(st)
    case VarD(x, init, rest) =>
      var a := EvalOn(init, sc.locals + [Local(x, -1)], st);
      if a.None? then Stuck else DeclsOn(rest, sc.With(x), a.value, fuel)
    case StmtD(s, rest) =>
      var f := ExecOn(s, sc, st, fuel);
      if f.Fell? then DeclsOn(rest, sc.Past(Breaks(s)), f.st, fuel) else f
  }
}
