/** Instructions, their bytes, and the machine as a step function over (ip, stack above frame->slots). */
module Bytecode {
  import opened Base
  import opened Syntax
  import Arith

  type Byte = b: int | 0 <= b < 256
  type Short = n: int | 0 <= n < 65536

  datatype Instr =
    | IPop
    | IConst(k: nat)
    | INone
    | ITrue
    | IFalse
    | IUnary(u: UnOp)
    | IBinary(op: BinOp)
    | IGetLocal(slot: Byte)
    | ISetLocal(slot: Byte)
    | IJumpIfFalse(off: Short)
    | IJumpIfNeq(off: Short)
    | IJump(off: Short)
    | ILoop(off: Short)
    | IBreak(off: Short)
    | IContinue(off: Short)
    | IMatch(off: Short)

  function UnOpcode(u: UnOp): Byte {
    match u case Not => 8 case Neg => 9 case BitNot => 26
  }

  function BinOpcode(op: BinOp): Byte {
    match op
    case Eq => 10 case Neq => 11 case Lt => 12 case Le => 13 case Gt => 14 case Ge => 15
    case Add => 16 case Sub => 17 case Mul => 18 case Div => 19 case Mod => 20
    case BitAnd => 21 case BitOr => 22 case BitXor => 23 case Shl => 24 case Shr => 25
  }

  function Hi(n: Short): Byte { n / 256 }
  function Lo(n: Short): Byte { n % 256 }
  function Short2(hi: Byte, lo: Byte): Short { 256 * hi + lo }

  /** Constant indices below 255 use the short form; the two-byte form holds any index below 65535. */
  function Encode(i: Instr): (bytes: seq<Byte>)
    requires i.IConst? ==> i.k < 65535
    ensures |bytes| >= 1
  {
    match i
    case IPop => [0]
    case IConst(k) => if k < 255 then [2, k] else [3, Hi(k), Lo(k)]
    case INone => [5]
    case ITrue => [6]
    case IFalse => [7]
    case IUnary(u) => [UnOpcode(u)]
    case IBinary(op) => [BinOpcode(op)]
    case IGetLocal(slot) => [30, slot]
    case ISetLocal(slot) => [31, slot]
    case IJumpIfFalse(off) => [39, Hi(off), Lo(off)]
    case IJumpIfNeq(off) => [40, Hi(off), Lo(off)]
    case IJump(off) => [41, Hi(off), Lo(off)]
    case ILoop(off) => [42, Hi(off), Lo(off)]
    case IBreak(off) => [48, Hi(off), Lo(off)]
    case IContinue(off) => [49, Hi(off), Lo(off)]
    case IMatch(off) => [50, Hi(off), Lo(off)]
  }

  function Width(opcode: Byte): nat {
    if opcode in {2, 30, 31} then 2
    else if opcode in {3, 39, 40, 41, 42, 48, 49, 50} then 3
    else 1
  }

  function DecodeShort(opcode: Byte, n: Short): Option<Instr> {
    if opcode == 3 then Some(IConst(n))
    else if opcode == 39 then Some(IJumpIfFalse(n))
    else if opcode == 40 then Some(IJumpIfNeq(n))
    else if opcode == 41 then Some(IJump(n))
    else if opcode == 42 then Some(ILoop(n))
    else if opcode == 48 then Some(IBreak(n))
    else if opcode == 49 then Some(IContinue(n))
    else if opcode == 50 then Some(IMatch(n))
    else None
  }

  function DecodeByte(opcode: Byte, b: Byte): Option<Instr> {
    if opcode == 2 then Some(IConst(b))
    else if opcode == 30 then Some(IGetLocal(b))
    else if opcode == 31 then Some(ISetLocal(b))
    else None
  }

  function DecodeBare(opcode: Byte): Option<Instr> {
    match opcode
    case 0 => Some(IPop)
    case 5 => Some(INone) case 6 => Some(ITrue) case 7 => Some(IFalse)
    case 8 => Some(IUnary(Not)) case 9 => Some(IUnary(Neg)) case 26 => Some(IUnary(BitNot))
    case 10 => Some(IBinary(Eq)) case 11 => Some(IBinary(Neq))
    case 12 => Some(IBinary(Lt)) case 13 => Some(IBinary(Le))
    case 14 => Some(IBinary(Gt)) case 15 => Some(IBinary(Ge))
    case 16 => Some(IBinary(Add)) case 17 => Some(IBinary(Sub)) case 18 => Some(IBinary(Mul))
    case 19 => Some(IBinary(Div)) case 20 => Some(IBinary(Mod))
    case 21 => Some(IBinary(BitAnd)) case 22 => Some(IBinary(BitOr)) case 23 => Some(IBinary(BitXor))
    case 24 => Some(IBinary(Shl)) case 25 => Some(IBinary(Shr))
    case _ => None
  }

  /** The instruction whose opcode sits at pc, reading its operand bytes high byte first. */
  function Decode(code: seq<Byte>, pc: nat): Option<Instr> {
    if pc >= |code| then None
    else
      var w := Width(code[pc]);
      if pc + w > |code| then None
      else if w == 3 then DecodeShort(code[pc], Short2(code[pc + 1], code[pc + 2]))
      else if w == 2 then DecodeByte(code[pc], code[pc + 1])
      else DecodeBare(code[pc])
  }

  datatype State = State(ip: int, stack: seq<Value>)

  /** One instruction; None is a reported error, an undefined operation or a malformed program. */
  function Execute(i: Instr, next: int, consts: seq<Value>, stack: seq<Value>): Option<State> {
    var top := |stack| - 1;
    match i
    case IConst(k) => if k < |consts| then Some(State(next, stack + [consts[k]])) else None
    case INone => Some(State(next, stack + [Nil]))
    case ITrue => Some(State(next, stack + [Bool(true)]))
    case IFalse => Some(State(next, stack + [Bool(false)]))
    case IGetLocal(slot) => if slot <= top then Some(State(next, stack + [stack[slot]])) else None
    case IJump(off) => Some(State(next + off, stack))
    case IBreak(off) => Some(State(next + off, stack))
    case ILoop(off) => Some(State(next - off, stack))
    case IContinue(off) => Some(State(next - off, stack))
    case IMatch(_) => Some(State(next, stack))
    case IPop => if top >= 0 then Some(State(next, stack[..top])) else None
    case ISetLocal(slot) => if slot <= top then Some(State(next, stack[slot := stack[top]])) else None
    case IUnary(u) =>
      if top < 0 then None
      else
        var v :- Arith.UnaryValue(u, stack[top]);
        Some(State(next, stack[..top] + [v]))
    case IBinary(op) =>
      if top < 1 then None
      else
        var v :- Arith.BinaryValue(op, stack[top - 1], stack[top]);
        Some(State(next, stack[..top - 1] + [v]))
    case IJumpIfFalse(off) =>
      if top < 0 || !stack[top].Bool? then None
      else Some(State(if stack[top].b then next else next + off, stack))
    case IJumpIfNeq(off) =>
      if top < 1 then None
      else Some(State(if stack[top] == stack[top - 1] then next else next + off, stack[..top]))
  }

  datatype Program = Program(code: seq<Byte>, consts: seq<Value>)

  function Step(p: Program, st: State): Option<State> {
    if st.ip < 0 then None
    else
      var i :- Decode(p.code, st.ip);
      Execute(i, st.ip + Width(p.code[st.ip]), p.consts, st.stack)
  }

  /** n steps, all of them without fault. */
  ghost predicate Runs(p: Program, st: State, n: nat, end: State)
    decreases n
  {
    if n == 0 then st == end
    else
      var next := Step(p, st);
      next.Some? && Runs(p, next.value, n - 1, end)
  }

  lemma {:induction false} RunsThen(p: Program, a: State, m: nat, b: State, n: nat, c: State)
    requires Runs(p, a, m, b) && Runs(p, b, n, c)
    ensures Runs(p, a, m + n, c)
    decreases m
  {
    hide Step;
    if m > 0 {
      RunsThen(p, Step(p, a).value, m - 1, b, n, c);
    }
  }

  /** Some fault-free run of the machine leads from one state to the other. */
  ghost predicate Reaches(p: Program, a: State, b: State) {
    exists n: nat :: Runs(p, a, n, b)
  }

  lemma {:induction false} ReachRefl(p: Program, a: State)
    ensures Reaches(p, a, a)
  {
    assert Runs(p, a, 0, a);
  }

  lemma {:induction false} ReachTrans(p: Program, a: State, b: State, c: State)
    requires Reaches(p, a, b) && Reaches(p, b, c)
    ensures Reaches(p, a, c)
  {
    var m: nat :| Runs(p, a, m, b);
    var n: nat :| Runs(p, b, n, c);
    RunsThen(p, a, m, b, n, c);
  }

  /** A run of at least one step. */
  ghost predicate Passes(p: Program, a: State, b: State) {
    exists n: nat :: n > 0 && Runs(p, a, n, b)
  }

  /** A fault-free run that ends where no step is possible although there is code. */
  ghost predicate Jams(p: Program, a: State) {
    exists b :: Reaches(p, a, b) && Halted(p, b)
  }

  ghost predicate Halted(p: Program, b: State) {
    Step(p, b).None? && 0 <= b.ip < |p.code|
  }

  /** A fault-free run of at least n steps. */
  ghost predicate Lasts(p: Program, a: State, n: nat) {
    exists m: nat, b :: n <= m && Runs(p, a, m, b)
  }

  lemma {:induction false} PassTrans(p: Program, a: State, b: State, c: State)
    requires (Passes(p, a, b) && Reaches(p, b, c)) || (Reaches(p, a, b) && Passes(p, b, c))
    ensures Passes(p, a, c)
  {
    if Passes(p, a, b) && Reaches(p, b, c) {
      var m: nat :| m > 0 && Runs(p, a, m, b);
      var n: nat :| Runs(p, b, n, c);
      RunsThen(p, a, m, b, n, c);
    } else {
      var m: nat :| Runs(p, a, m, b);
      var n: nat :| n > 0 && Runs(p, b, n, c);
      RunsThen(p, a, m, b, n, c);
    }
  }

  lemma {:induction false} PassReaches(p: Program, a: State, b: State)
    requires Passes(p, a, b)
    ensures Reaches(p, a, b)
  {
  }

  lemma {:induction false} JamsLater(p: Program, a: State, b: State)
    requires Reaches(p, a, b) && Jams(p, b)
    ensures Jams(p, a)
  {
    var c :| Reaches(p, b, c) && Halted(p, c);
    ReachTrans(p, a, b, c);
  }

  lemma {:induction false} LastsLater(p: Program, a: State, b: State, n: nat)
    requires Reaches(p, a, b) && Lasts(p, b, n)
    ensures Lasts(p, a, n)
  {
    var k: nat :| Runs(p, a, k, b);
    var m: nat, c :| n <= m && Runs(p, b, m, c);
    RunsThen(p, a, k, b, m, c);
  }

  lemma {:induction false} LastsLonger(p: Program, a: State, b: State, n: nat)
    requires Passes(p, a, b) && Lasts(p, b, n)
    ensures Lasts(p, a, n + 1)
  {
    var k: nat :| k > 0 && Runs(p, a, k, b);
    var m: nat, c :| n <= m && Runs(p, b, m, c);
    RunsThen(p, a, k, b, m, c);
  }

  lemma {:induction false} LastsNone(p: Program, a: State)
    ensures Lasts(p, a, 0)
  {
    assert Runs(p, a, 0, a);
  }

  /** The elements of part lie in code from pc on. */
  ghost predicate At<T>(code: seq<T>, pc: int, part: seq<T>) {
    && 0 <= pc
    && pc + |part| <= |code|
    && forall i :: 0 <= i < |part| ==> code[pc + i] == part[i]
  }

  lemma {:induction false} AtSplit<T>(code: seq<T>, pc: int, a: seq<T>, b: seq<T>)
    requires At(code, pc, a + b)
    ensures At(code, pc, a) && At(code, pc + |a|, b)
  {
    forall i | 0 <= i < |a| ensures code[pc + i] == a[i] {
      assert (a + b)[i] == a[i];
    }
    forall i | 0 <= i < |b| ensures code[pc + |a| + i] == b[i] {
      assert (a + b)[|a| + i] == b[i];
    }
  }

  /** Encoding and decoding undo each other wherever the instruction is placed. */
  lemma {:induction false} DecodeEncode(code: seq<Byte>, pc: nat, i: Instr)
    requires i.IConst? ==> i.k < 65535
    requires At(code, pc, Encode(i))
    ensures Decode(code, pc) == Some(i) && Width(code[pc]) == |Encode(i)|
  {
    var e := Encode(i);
    assert code[pc] == e[0];
    if |e| > 1 { assert code[pc + 1] == e[1]; }
    if |e| > 2 { assert code[pc + 2] == e[2]; }
  }

  /** One step over an encoded instruction, or none if the instruction faults. */
  lemma {:induction false} StepAt(p: Program, pc: nat, i: Instr, stack: seq<Value>)
    requires i.IConst? ==> i.k < 65535
    requires At(p.code, pc, Encode(i))
    ensures var r := Execute(i, pc + |Encode(i)|, p.consts, stack);
            && (r.Some? ==> Passes(p, State(pc, stack), r.value) && Reaches(p, State(pc, stack), r.value))
            && (r.None? ==> Jams(p, State(pc, stack)))
  {
    hide Encode, Execute;
    DecodeEncode(p.code, pc, i);
    var r := Execute(i, pc + |Encode(i)|, p.consts, stack);
    assert Step(p, State(pc, stack)) == r;
    if r.Some? {
      assert Runs(p, r.value, 0, r.value);
      assert Runs(p, State(pc, stack), 1, r.value);
    } else {
      ReachRefl(p, State(pc, stack));
    }
  }
}
