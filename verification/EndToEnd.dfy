/** From tokens to the final stack: what is emitted for a script makes the machine do what the trees mean. */
module EndToEnd {
  import opened Base
  import opened Syntax
  import opened Bytecode
  import opened Semantics
  import opened CodeGen
  import opened Grammar
  import opened StackSemantics
  import opened Layout
  import opened StmtCorrect
  import opened Agreement
  import opened Boundaries
  import opened SinglePass
  import opened Machine

  /** What the compiler makes of the tokens, if they are a script of the subset. */
  function Compiled(tokens: seq<Token>): Option<Program> {
    var ds := Script(tokens);
    if ds.Failure? then None
    else
      var o :- CodeDs(ds.value, TOP);
      Some(Program(o.code, o.consts))
  }

  /** What the script does to the stack of a machine that starts with v in slot 0. */
  function Outcome(tokens: seq<Token>, v: Value, fuel: nat): Track
    requires Compiled(tokens).Some?
  {
    DeclsOn(Script(tokens).value, Of(TOP), [v], fuel)
  }

  /** What the script means. */
  function Meaning(tokens: seq<Token>, v: Value, fuel: nat): Flow
    requires Compiled(tokens).Some?
  {
    ExecDecls(Script(tokens).value, [Binding("", v)], fuel)
  }

  /** The emitted bytes of every script do what the trees do to the stack: end, stop with a fault, or run on. */
  lemma {:induction false} CompiledMoves(tokens: seq<Token>, v: Value, fuel: nat)
    requires Compiled(tokens).Some?
    ensures var p, f := Compiled(tokens).value, Outcome(tokens, v, fuel);
            && (f.Fell? ==> Reaches(p, State(0, [v]), State(|p.code|, f.st)))
            && (f.Stuck? ==> Jams(p, State(0, [v])))
            && (f.Tired? ==> Lasts(p, State(0, [v]), fuel))
            && !f.Left? && !f.Again?
  {
    hide Reaches, Jams, Lasts, Passes, Script, CodeDs, DeclsOn, BreaksIn;
    var ds, p, f := Script(tokens).value, Compiled(tokens).value, Outcome(tokens, v, fuel);
    SlotTakenIn(ds, TOP);
    DeclsMove(ds, TOP, [v], fuel, p, 0, -1);
    if f.Left? { NowhereElse(ds, p, [v], f.st); }
  }

  /** No run of a finished script leaves its code. */
  lemma {:induction false} NowhereElse(ds: Decls, p: Program, a: seq<Value>, b: seq<Value>)
    requires CodeDs(ds, TOP).Some? && p.code == CodeDs(ds, TOP).value.code
    ensures !Reaches(p, State(0, a), State(-1, b))
  {
    hide CodeDs, Runs, Start, Decode;
    if Reaches(p, State(0, a), State(-1, b)) {
      var n: nat :| Runs(p, State(0, a), n, State(-1, b));
      StartsAtZero(p.code);
      AlwaysAtStart(ds, TOP, p, State(0, a), n, State(-1, b));
    }
  }

  lemma {:induction false} StartsAtZero(code: seq<Byte>)
    ensures Start(code, 0, 0)
  {
  }

  /** The machine gets to the end of the bytes with a stack exactly if the trees do, given enough fuel. */
  lemma {:induction false} CompiledExactly(tokens: seq<Token>, v: Value, t: seq<Value>)
    requires Compiled(tokens).Some?
    ensures var p := Compiled(tokens).value;
            Reaches(p, State(0, [v]), State(|p.code|, t)) <==> exists fuel: nat :: Outcome(tokens, v, fuel) == Fell(t)
  {
    hide Runs, Outcome, Compiled, Jams, Lasts;
    var p := Compiled(tokens).value;
    if Reaches(p, State(0, [v]), State(|p.code|, t)) {
      var n: nat :| Runs(p, State(0, [v]), n, State(|p.code|, t));
      CompiledMoves(tokens, v, n + 1);
      OneEnd(p, State(0, [v]), n, State(|p.code|, t));
      assert Outcome(tokens, v, n + 1) == Fell(t);
    }
    if fuel: nat :| Outcome(tokens, v, fuel) == Fell(t) { CompiledMoves(tokens, v, fuel); }
  }

  /** A safe script's trees do to the stack what they mean. */
  lemma {:induction false} SafeMeans(tokens: seq<Token>, v: Value, fuel: nat)
    requires Compiled(tokens).Some? && SafeIn(Script(tokens).value, true, true)
    ensures Outcome(tokens, v, fuel) == TrackOf(Meaning(tokens, v, fuel), [])
  {
    hide Script, CodeDs, DeclsOn, ExecDecls, SafeIn, BreaksIn;
    var ds, env := Script(tokens).value, [Binding("", v)];
    SlotTakenIn(ds, TOP);
    assert Vals(env) + [] == [v];
    DeclsAgree(ds, TOP, env, [], fuel, true, true);
  }

  /** End to end, for a safe script: the machine gets to the end of the emitted bytes exactly if the evaluator finishes,
      and then with exactly its values, one to a slot and nothing above them; where the evaluator faults the machine
      faults, and where it runs on the machine does. */
  lemma {:induction false} CompiledRuns(tokens: seq<Token>, v: Value)
    requires Compiled(tokens).Some? && SafeIn(Script(tokens).value, true, true)
    ensures var p := Compiled(tokens).value;
            && (forall t :: Reaches(p, State(0, [v]), State(|p.code|, t)) <==>
                              exists fuel: nat :: var f := Meaning(tokens, v, fuel); f.Next? && Vals(f.env) == t)
            && (forall fuel: nat :: Meaning(tokens, v, fuel).Fault? ==> Jams(p, State(0, [v])))
            && (forall fuel: nat :: Meaning(tokens, v, fuel).OutOfFuel? ==> Lasts(p, State(0, [v]), fuel))
  {
    hide Reaches, Jams, Lasts, Compiled, Outcome, Meaning, Vals, SafeIn;
    var p := Compiled(tokens).value;
    forall fuel: nat
      ensures Outcome(tokens, v, fuel) == TrackOf(Meaning(tokens, v, fuel), [])
      ensures Meaning(tokens, v, fuel).Fault? ==> Jams(p, State(0, [v]))
      ensures Meaning(tokens, v, fuel).OutOfFuel? ==> Lasts(p, State(0, [v]), fuel)
    {
      SafeMeans(tokens, v, fuel);
      CompiledMoves(tokens, v, fuel);
    }
    forall t
      ensures Reaches(p, State(0, [v]), State(|p.code|, t)) <==>
                exists fuel: nat :: var f := Meaning(tokens, v, fuel); f.Next? && Vals(f.env) == t
    {
      CompiledExactly(tokens, v, t);
      FinishedAs(tokens, v, t);
    }
  }

  lemma {:induction false} FinishedAs(tokens: seq<Token>, v: Value, t: seq<Value>)
    requires Compiled(tokens).Some?
    requires forall fuel: nat :: Outcome(tokens, v, fuel) == TrackOf(Meaning(tokens, v, fuel), [])
    ensures (exists fuel: nat :: Outcome(tokens, v, fuel) == Fell(t)) <==>
              exists fuel: nat :: var f := Meaning(tokens, v, fuel); f.Next? && Vals(f.env) == t
  {
    hide Compiled, Outcome, Meaning, Vals;
    if fuel: nat :| Outcome(tokens, v, fuel) == Fell(t) {
      var f := Meaning(tokens, v, fuel);
      assert f.Next? && Vals(f.env) + [] == Vals(f.env);
    }
    if fuel: nat :| Meaning(tokens, v, fuel).Next? && Vals(Meaning(tokens, v, fuel).env) == t {
      assert t + [] == t;
      assert Outcome(tokens, v, fuel) == Fell(t);
    }
  }

  /** Whenever the trees get to the end, a machine with enough room and steps gets to the end of the emitted bytes. */
  lemma {:induction false} CompiledCompletes(tokens: seq<Token>, v: Value, fuel: nat)
      returns (limit: nat, capacity: nat)
    requires Compiled(tokens).Some? && Outcome(tokens, v, fuel).Fell?
    ensures var p := Compiled(tokens).value;
            forall f: nat, c: nat :: limit <= f && capacity <= c ==> Completes(p, State(0, [v]), |p.code|, f, c)
  {
    hide Compiled, Outcome, Runs, Completes;
    CompiledMoves(tokens, v, fuel);
    var p := Compiled(tokens).value;
    var end := State(|p.code|, Outcome(tokens, v, fuel).st);
    limit :| Runs(p, State(0, [v]), limit, end);
    capacity := EnoughRoom(p, State(0, [v]), limit, end);
  }

  /** Compile and run: it succeeds exactly when the tokens compile and the machine completes within its limits, and then
      leaves the stack that the trees leave; for a safe script these are the evaluator's values. */
  method Interpret(tokens: seq<Token>, v: Value, capacity: nat, limit: nat) returns (r: Option<seq<Value>>)
    requires capacity >= 1
    ensures r.Some? <==>
              && Compiled(tokens).Some?
              && var p := Compiled(tokens).value; Completes(p, State(0, [v]), |p.code|, limit, capacity)
    ensures r.Some? ==> exists fuel: nat :: Outcome(tokens, v, fuel) == Fell(r.value)
    ensures r.Some? && SafeIn(Script(tokens).value, true, true) ==>
              exists fuel: nat :: var f := Meaning(tokens, v, fuel); f.Next? && Vals(f.env) == r.value
  {
    hide Script, CodeDs, DeclsOn, ExecDecls, SafeIn, Runs, Completes, Jams, Lasts;
    var p := Compile(tokens);
    if p.None? { return None; }
    var vm := new VirtualMachine(p.value, capacity, v);
    var ok, steps := vm.Run(|p.value.code|, limit);
    if !ok { return None; }
    r := Some(vm.stack[..vm.top]);
    assert vm.Abs() == State(|p.value.code|, r.value);
    assert Reaches(p.value, State(0, [v]), State(|p.value.code|, r.value));
    CompiledExactly(tokens, v, r.value);
    if SafeIn(Script(tokens).value, true, true) { CompiledRuns(tokens, v); }
  }
}
