/** The virtual machine: a stack array, a top and an instruction pointer, changed in place by each handler. */
module Machine {
  import opened Base
  import opened Syntax
  import opened Bytecode
  import Arith

  class VirtualMachine {
    const program: Program
    const stack: array<Value>
    var top: nat
    var ip: nat

    ghost predicate Valid()
      reads this
    {
      top <= stack.Length
    }

    /** The machine as the step function sees it. */
    ghost function Abs(): State
      requires Valid()
      reads this, stack
    {
      State(ip, stack[..top])
    }

    constructor (p: Program, capacity: nat, first: Value)
      requires capacity >= 1
      ensures Valid() && fresh(stack) && program == p && stack.Length == capacity && Abs() == State(0, [first])
    {
      program, stack, top, ip := p, new Value[capacity](_ => Nil), 1, 0;
      new;
      stack[0] := first;
    }

    /** A full stack ends the run; the value is then not pushed. */
    method Push(v: Value) returns (ok: bool)
      requires Valid()
      modifies this`top, stack
      ensures Valid() && ok == (old(top) < stack.Length)
      ensures Abs().stack == if ok then old(Abs().stack) + [v] else old(Abs().stack)
    {
      ok := top < stack.Length;
      if ok {
        stack[top] := v;
        top := top + 1;
      }
    }

    method Pop() returns (v: Value)
      requires Valid() && top > 0
      modifies this`top
      ensures Valid() && v == old(stack[top - 1]) && Abs().stack == old(Abs().stack)[..old(top) - 1]
    {
      top := top - 1;
      v := stack[top];
    }

    /** The operand bytes at the instruction pointer, high byte first. */
    method ReadShort() returns (n: Short)
      requires ip + 2 <= |program.code|
      modifies this`ip
      ensures ip == old(ip) + 2 && n == Short2(program.code[old(ip)], program.code[old(ip) + 1])
    {
      ip := ip + 2;
      n := Short2(program.code[ip - 2], program.code[ip - 1]);
    }

    method Constant(k: nat) returns (ok: bool)
      requires Valid()
      modifies this`top, stack
      ensures Valid() && Handled(IConst(k), ok, ip, old(Abs().stack), Abs())
    {
      if k >= |program.consts| { return false; }
      ok := Push(program.consts[k]);
    }

    /** What a handler owes: the abstract instruction, unless its result does not fit on the stack. */
    ghost predicate Handled(i: Instr, ok: bool, next: int, before: seq<Value>, after: State)
      reads this
    {
      var r := Execute(i, next, program.consts, before);
      if ok then r == Some(after) else r.None? || |r.value.stack| > stack.Length
    }

    method GetLocal(slot: Byte) returns (ok: bool)
      requires Valid()
      modifies this`top, stack
      ensures Valid() && Handled(IGetLocal(slot), ok, ip, old(Abs().stack), Abs())
    {
      if slot >= top { return false; }
      ok := Push(stack[slot]);
    }

    /** The value stays on the stack: assignment is an expression. */
    method SetLocal(slot: Byte) returns (ok: bool)
      requires Valid()
      modifies stack
      ensures Valid() && Handled(ISetLocal(slot), ok, ip, old(Abs().stack), Abs())
    {
      ok := slot < top;
      if ok { stack[slot] := stack[top - 1]; }
    }

    /** The operand is replaced where it lies. */
    method Unary(u: UnOp) returns (ok: bool)
      requires Valid()
      modifies stack
      ensures Valid() && Handled(IUnary(u), ok, ip, old(Abs().stack), Abs())
    {
      hide Arith.UnaryValue;
      if top == 0 { return false; }
      var v := Arith.UnaryValue(u, stack[top - 1]);
      if v.None? { return false; }
      stack[top - 1] := v.value;
      ok := true;
      assert stack[..top] == old(stack[..top])[..top - 1] + [v.value];
    }

    /** The result overwrites the left operand and the right one is popped. */
    method Binary(op: BinOp) returns (ok: bool)
      requires Valid()
      modifies this`top, stack
      ensures Valid() && Handled(IBinary(op), ok, ip, old(Abs().stack), Abs())
    {
      hide Arith.BinaryValue;
      if top < 2 { return false; }
      var v := Arith.BinaryValue(op, stack[top - 2], stack[top - 1]);
      if v.None? { return false; }
      stack[top - 2] := v.value;
      var _ := Pop();
      ok := true;
      assert stack[..top] == old(stack[..top])[..top - 1] + [v.value];
    }

    /** The condition is left on the stack. */
    method JumpIfFalse(off: Short) returns (ok: bool)
      requires Valid()
      modifies this`ip
      ensures Valid() && Handled(IJumpIfFalse(off), ok, old(ip), old(Abs().stack), Abs())
    {
      if top == 0 || !stack[top - 1].Bool? { return false; }
      if !stack[top - 1].b { ip := ip + off; }
      ok := true;
    }

    /** The pattern is popped and the matched value kept. */
    method JumpIfNeq(off: Short) returns (ok: bool)
      requires Valid()
      modifies this`ip, this`top, stack
      ensures Valid() && Handled(IJumpIfNeq(off), ok, old(ip), old(Abs().stack), Abs())
    {
      if top < 2 { return false; }
      var pattern := Pop();
      var matched := Pop();
      if matched != pattern { ip := ip + off; }
      ok := Push(matched);
      assert stack[..top] == old(stack[..top])[..old(top) - 1];
    }

    /** One turn of the dispatch loop. */
    method StepOnce() returns (ok: bool)
      requires Valid()
      modifies this`ip, this`top, stack
      ensures Valid()
      ensures ok ==> Step(program, old(Abs())) == Some(Abs())
      ensures ok <==> Fits(Step(program, old(Abs())), stack.Length)
    {
      hide Execute, Decode;
      ghost var pc := ip;
      var i := Fetch();
      if i.None? { return false; }
      ok := Dispatch(i.value);
    }

    /** Reads one instruction; an unknown or truncated one is an error. */
    method Fetch() returns (i: Option<Instr>)
      modifies this`ip
      ensures i == Decode(program.code, old(ip))
      ensures i.Some? ==> old(ip) < |program.code| && ip == old(ip) + Width(program.code[old(ip)])
    {
      if ip >= |program.code| { return None; }
      var opcode := program.code[ip];
      var w := Width(opcode);
      if ip + w > |program.code| { return None; }
      ip := ip + 1;
      if w == 3 {
        var n := ReadShort();
        i := DecodeShort(opcode, n);
      } else if w == 2 {
        ip := ip + 1;
        i := DecodeByte(opcode, program.code[ip - 1]);
      } else {
        i := DecodeBare(opcode);
      }
    }

    /** A backward jump to before the chunk would be an error of the emitter's. */
    method JumpBack(off: Short) returns (ok: bool)
      modifies this`ip
      ensures ok == (off <= old(ip)) && ip == if ok then old(ip) - off else old(ip)
    {
      ok := off <= ip;
      if ok { ip := ip - off; }
    }

    method Dispatch(i: Instr) returns (ok: bool)
      requires Valid()
      modifies this`ip, this`top, stack
      ensures Valid()
      ensures ok ==> Execute(i, old(ip), program.consts, old(Abs().stack)) == Some(Abs())
      ensures ok <==> Fits(Execute(i, old(ip), program.consts, old(Abs().stack)), stack.Length)
    {
      hide Arith.BinaryValue, Arith.UnaryValue;
      match i
      case IPop =>
        if top == 0 { return false; }
        var _ := Pop();
        ok := true;
      case IConst(k) => ok := Constant(k);
      case INone => ok := Push(Nil);
      case ITrue => ok := Push(Bool(true));
      case IFalse => ok := Push(Bool(false));
      case IUnary(u) => ok := Unary(u);
      case IBinary(op) => ok := Binary(op);
      case IGetLocal(slot) => ok := GetLocal(slot);
      case ISetLocal(slot) => ok := SetLocal(slot);
      case IJumpIfFalse(off) => ok := JumpIfFalse(off);
      case IJumpIfNeq(off) => ok := JumpIfNeq(off);
      case IJump(off) => ip := ip + off; ok := true;
      case IBreak(off) => ip := ip + off; ok := true;
      case ILoop(off) => ok := JumpBack(off);
      case IContinue(off) => ok := JumpBack(off);
      case IMatch(_) => ok := true;
    }

    /** Runs until the instruction pointer reaches the given position, the stack overflows, or an error occurs. It
        gets there exactly when the step function does, within the fuel and the capacity. */
    method Run(end: nat, fuel: nat) returns (ok: bool, steps: nat)
      requires Valid()
      modifies this`ip, this`top, stack
      ensures Valid() && steps <= fuel
      ensures ok ==> ip == end && Runs(program, old(Abs()), steps, Abs())
      ensures ok <==> Completes(program, old(Abs()), end, fuel, stack.Length)
    {
      hide Step;
      steps := 0;
      ok := true;
      while ip != end && steps < fuel
        invariant Valid() && steps <= fuel && ok && Runs(program, old(Abs()), steps, Abs())
        invariant Completes(program, old(Abs()), end, fuel, stack.Length) ==
                    Completes(program, Abs(), end, fuel - steps, stack.Length)
        decreases fuel - steps
      {
        label before:
        ok := StepOnce();
        if !ok { return; }
        RunsSnoc(program, old(Abs()), steps, old@before(Abs()), Abs());
        steps := steps + 1;
      }
      ok := ip == end;
    }
  }

  /** A state the machine can be in: the stack holds its values, and the instruction pointer is not before the code. */
  ghost predicate Fits(st: Option<State>, capacity: nat) {
    st.Some? && st.value.ip >= 0 && |st.value.stack| <= capacity
  }

  /** Some number of steps, at most the fuel, leads to the given position with every state on the way fitting. */
  ghost predicate Completes(p: Program, a: State, end: int, fuel: nat, capacity: nat)
    decreases fuel
  {
    a.ip == end || (fuel > 0 && Fits(Step(p, a), capacity) && Completes(p, Step(p, a).value, end, fuel - 1, capacity))
  }

  /** Every run of the step function to a position is one that a machine with enough room completes. */
  lemma {:induction false} EnoughRoom(p: Program, a: State, n: nat, b: State) returns (capacity: nat)
    requires Runs(p, a, n, b) && b.ip >= 0
    ensures forall f: nat, c: nat :: n <= f && capacity <= c ==> Completes(p, a, b.ip, f, c)
    decreases n
  {
    hide Step;
    capacity := 0;
    if n > 0 {
      var next := Step(p, a).value;
      var rest := EnoughRoom(p, next, n - 1, b);
      capacity := if |next.stack| > rest then |next.stack| else rest;
      NotBefore(p, next, n - 1, b);
      forall f: nat, c: nat | n <= f && capacity <= c ensures Completes(p, a, b.ip, f, c) {
        assert Completes(p, next, b.ip, f - 1, c);
      }
    }
  }

  lemma {:induction false} NotBefore(p: Program, a: State, n: nat, b: State)
    requires Runs(p, a, n, b) && b.ip >= 0
    ensures a.ip >= 0
  {
  }

  lemma {:induction false} RunsSnoc(p: Program, a: State, n: nat, b: State, c: State)
    requires Runs(p, a, n, b) && Step(p, b) == Some(c)
    ensures Runs(p, a, n + 1, c)
  {
    assert Runs(p, c, 0, c);
    assert Runs(p, b, 1, c);
    RunsThen(p, a, n, b, 1, c);
  }

  /** The machine is deterministic: two runs from one state are one run and its continuation. */
  lemma {:induction false} RunsAgree(p: Program, a: State, m: nat, b: State, n: nat, c: State)
    requires Runs(p, a, m, b) && Runs(p, a, n, c) && m <= n
    ensures Runs(p, b, n - m, c)
    decreases m
  {
    hide Step;
    if m > 0 { RunsAgree(p, Step(p, a).value, m - 1, b, n - 1, c); }
  }

  /** A run that cannot go on gets to one state only. */
  lemma {:induction false} OneHalt(p: Program, a: State, m: nat, b: State, n: nat, c: State)
    requires Runs(p, a, m, b) && Runs(p, a, n, c) && Step(p, b).None? && Step(p, c).None?
    ensures b == c
  {
    if m <= n {
      RunsAgree(p, a, m, b, n, c);
    } else {
      RunsAgree(p, a, n, c, m, b);
    }
  }

  /** In particular one that gets to the end of the code; it then has neither a fault nor a longer run. */
  lemma {:induction false} OneEnd(p: Program, a: State, m: nat, b: State)
    requires Runs(p, a, m, b) && b.ip == |p.code|
    ensures forall c :: Reaches(p, a, c) && c.ip == |p.code| ==> c == b
    ensures !Jams(p, a) && !Lasts(p, a, m + 1)
  {
    hide Step;
    assert forall c: State :: c.ip == |p.code| ==> Step(p, c).None? by { AtEnd(p); }
    forall c | Reaches(p, a, c) && c.ip == |p.code| ensures c == b {
      var n: nat :| Runs(p, a, n, c);
      OneHalt(p, a, m, b, n, c);
    }
    if Jams(p, a) {
      var c :| Reaches(p, a, c) && Halted(p, c);
      var n: nat :| Runs(p, a, n, c);
      OneHalt(p, a, m, b, n, c);
    }
    if Lasts(p, a, m + 1) {
      var n: nat, c :| m + 1 <= n && Runs(p, a, n, c);
      RunsAgree(p, a, m, b, n, c);
    }
  }

  lemma {:induction false} AtEnd(p: Program)
    ensures forall c: State :: c.ip == |p.code| ==> Step(p, c).None?
  {
  }
}
