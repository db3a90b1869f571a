/** i32 arithmetic as the virtual machine performs it: None stands for a reported error or a case C leaves undefined. */
module Arith {
  import opened Base
  import opened Syntax

  function Checked(n: int): Option<Value> {
    if I32_MIN <= n <= I32_MAX then Some(I32(n)) else None
  }

  function Pow2(n: nat): (p: nat)
    ensures p >= 1
  {
    if n == 0 then 1 else 2 * Pow2(n - 1)
  }

  // C division truncates toward zero and the remainder takes the dividend's sign.
  function TruncDiv(a: int, b: int): int
    requires b != 0
  {
    if a >= 0 then a / b else -((-a) / b)
  }

  function TruncMod(a: int, b: int): int
    requires b != 0
  {
    a - TruncDiv(a, b) * b
  }

  datatype BitKind = AndK | OrK | XorK

  function Bit(k: BitKind, a: bool, b: bool): bool {
    match k
    case AndK => a && b
    case OrK => a || b
    case XorK => a != b
  }

  /** The two's-complement result on width + 1 bits, from the low bit up; the last bit is the sign. */
  function Bits(k: BitKind, a: int, b: int, width: nat): (r: int)
    ensures 0 - Pow2(width) <= r < Pow2(width)
    decreases width
  {
    if width == 0 then
      if Bit(k, a % 2 == 1, b % 2 == 1) then -1 else 0
    else
      2 * Bits(k, a / 2, b / 2, width - 1) + (if Bit(k, a % 2 == 1, b % 2 == 1) then 1 else 0)
  }

  function Bitwise(k: BitKind, a: I32, b: I32): Option<Value> {
    Checked(Bits(k, a, b, 31))
  }

  function BinaryI32(op: BinOp, a: I32, b: I32): Option<Value> {
    match op
    case Add => Checked(a + b)
    case Sub => Checked(a - b)
    case Mul => Checked(a * b)
    case Div => if b == 0 then None else Checked(TruncDiv(a, b))
    case Mod => if b == 0 || (a == I32_MIN && b == -1) then None else Checked(TruncMod(a, b))
    case Eq => Some(Bool(a == b))
    case Neq => Some(Bool(a != b))
    case Lt => Some(Bool(a < b))
    case Le => Some(Bool(a <= b))
    case Gt => Some(Bool(a > b))
    case Ge => Some(Bool(a >= b))
    case BitAnd => Bitwise(AndK, a, b)
    case BitOr => Bitwise(OrK, a, b)
    case BitXor => Bitwise(XorK, a, b)
    case Shl => if 0 <= b < 32 && a >= 0 then Checked(a * Pow2(b)) else None
    case Shr => if 0 <= b < 32 then Checked(a / Pow2(b)) else None
  }

  /** read_binary's dispatch on the left operand's type; mixed types reinterpret a union and are left undefined. */
  function BinaryValue(op: BinOp, a: Value, b: Value): Option<Value> {
    match (a, b)
    case (I32(m), I32(n)) => BinaryI32(op, m, n)
    case (Bool(p), Bool(q)) =>
      if op == Eq then Some(Bool(p == q)) else if op == Neq then Some(Bool(p != q)) else None
    case (Nil, _) =>
      if op == Eq then Some(Bool(b == Nil)) else if op == Neq then Some(Bool(b != Nil)) else None
    case (_, _) => None
  }

  function UnaryValue(op: UnOp, a: Value): Option<Value> {
    match (op, a)
    case (Neg, I32(n)) => Checked(-(n as int))
    case (BitNot, I32(n)) => Checked(-(n as int) - 1)
    case (Not, Bool(p)) => Some(Bool(!p))
    case (_, _) => None
  }
}
