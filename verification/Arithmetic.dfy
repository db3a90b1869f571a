/** What one machine step over an operator computes, in plain integers. */
module Arithmetic {
  import opened Base
  import opened Syntax
  import opened Bytecode
  import Arith

  /** An operator replaces its two operands by the value, wherever it lies and whatever is below; None is a fault. */
  ghost predicate Gives(op: BinOp, a: Value, b: Value, r: Option<Value>) {
    forall p: Program, pc: nat, st: seq<Value> :: At(p.code, pc, Encode(IBinary(op))) ==>
      Step(p, State(pc, st + [a, b])) == if r.Some? then Some(State(pc + 1, st + [r.value])) else None
  }

  ghost predicate Turns(op: UnOp, a: Value, r: Option<Value>) {
    forall p: Program, pc: nat, st: seq<Value> :: At(p.code, pc, Encode(IUnary(op))) ==>
      Step(p, State(pc, st + [a])) == if r.Some? then Some(State(pc + 1, st + [r.value])) else None
  }

  lemma {:induction false} BareBytes(op: BinOp, u: UnOp)
    ensures |Encode(IBinary(op))| == 1 && |Encode(IUnary(u))| == 1
  {
  }

  lemma {:induction false} Computes(op: BinOp, a: Value, b: Value)
    ensures Gives(op, a, b, Arith.BinaryValue(op, a, b))
  {
    BareBytes(op, Not);
    hide Arith.BinaryValue, Decode, Encode, Width, At;
    forall p: Program, pc: nat, st: seq<Value> | At(p.code, pc, Encode(IBinary(op)))
      ensures Step(p, State(pc, st + [a, b])) ==
                var r := Arith.BinaryValue(op, a, b);
                if r.Some? then Some(State(pc + 1, st + [r.value])) else None
    {
      DecodeEncode(p.code, pc, IBinary(op));
      assert (st + [a, b])[..|st|] == st;
    }
  }

  lemma {:induction false} ComputesOne(op: UnOp, a: Value)
    ensures Turns(op, a, Arith.UnaryValue(op, a))
  {
    BareBytes(Add, op);
    hide Arith.UnaryValue, Decode, Encode, Width, At;
    forall p: Program, pc: nat, st: seq<Value> | At(p.code, pc, Encode(IUnary(op)))
      ensures Step(p, State(pc, st + [a])) ==
                var r := Arith.UnaryValue(op, a);
                if r.Some? then Some(State(pc + 1, st + [r.value])) else None
    {
      DecodeEncode(p.code, pc, IUnary(op));
      assert (st + [a])[..|st|] == st;
    }
  }

  /** The integer itself when 32 bits hold it, and otherwise a fault. */
  function Exact(n: int): Option<Value> {
    if -2147483648 <= n <= 2147483647 then Some(I32(n)) else None
  }

  lemma {:induction false} Sums(x: I32, y: I32)
    ensures Gives(Add, I32(x), I32(y), Exact(x + y))
    ensures Gives(Sub, I32(x), I32(y), Exact(x - y))
    ensures Gives(Mul, I32(x), I32(y), Exact(x * y))
  {
    hide Gives;
    Computes(Add, I32(x), I32(y));
    Computes(Sub, I32(x), I32(y));
    Computes(Mul, I32(x), I32(y));
  }

  /** The quotient is rounded towards zero and the remainder has the dividend's sign; there is one such pair. */
  ghost predicate Divides(x: int, y: int, q: int, r: int) {
    && x == q * y + r
    && -(if y < 0 then -y else y) < r < (if y < 0 then -y else y)
    && (r == 0 || (r < 0 <==> x < 0))
  }

  lemma {:induction false} Quotients(x: I32, y: I32)
    ensures y == 0 ==> Gives(Div, I32(x), I32(y), None) && Gives(Mod, I32(x), I32(y), None)
    ensures y != 0 ==> exists q, r :: Divides(x, y, q, r)
    ensures forall q, r :: Divides(x, y, q, r) ==>
              && Gives(Div, I32(x), I32(y), Exact(q))
              && Gives(Mod, I32(x), I32(y), if x == -2147483648 && y == -1 then None else Some(I32(r)))
  {
    hide Gives;
    Computes(Div, I32(x), I32(y));
    Computes(Mod, I32(x), I32(y));
    if y != 0 {
      var q0, r0 := Arith.TruncDiv(x, y), Arith.TruncMod(x, y);
      Truncates(x, y);
      forall q, r | Divides(x, y, q, r)
        ensures Gives(Div, I32(x), I32(y), Exact(q))
        ensures Gives(Mod, I32(x), I32(y), if x == -2147483648 && y == -1 then None else Some(I32(r)))
      {
        OneQuotient(x, y, q0, r0, q, r);
        assert -2147483648 <= r <= 2147483647;
      }
    }
  }

  lemma {:induction false} Truncates(x: int, y: int)
    requires y != 0
    ensures Divides(x, y, Arith.TruncDiv(x, y), Arith.TruncMod(x, y))
  {
    var a := if x >= 0 then x else -x;
    assert a == (a / y) * y + a % y;
    if x < 0 { assert (-(a / y)) * y == -((a / y) * y); }
  }

  lemma {:induction false} OneQuotient(x: int, y: int, q: int, r: int, u: int, v: int)
    requires Divides(x, y, q, r) && Divides(x, y, u, v)
    ensures q == u && r == v
  {
    Scales(q, u, y);
  }

  /** Different multiples of y are at least |y| apart. */
  lemma {:induction false} Scales(q: int, u: int, y: int)
    ensures q > u && y > 0 ==> q * y >= u * y + y
    ensures q > u && y < 0 ==> q * y <= u * y + y
    ensures q < u && y > 0 ==> q * y + y <= u * y
    ensures q < u && y < 0 ==> q * y + y >= u * y
  {
    if q > u {
      assert q * y - u * y == (q - u - 1) * y + y;
      NotBelow(q - u - 1, y);
    } else if q < u {
      assert u * y - q * y == (u - q - 1) * y + y;
      NotBelow(u - q - 1, y);
    }
  }

  lemma {:induction false} NotBelow(n: nat, y: int)
    ensures y > 0 ==> n * y >= 0
    ensures y < 0 ==> n * y <= 0
  {
  }

  lemma {:induction false} Comparisons(x: I32, y: I32)
    ensures Gives(Eq, I32(x), I32(y), Some(Bool(x == y))) && Gives(Neq, I32(x), I32(y), Some(Bool(x != y)))
    ensures Gives(Lt, I32(x), I32(y), Some(Bool(x < y))) && Gives(Le, I32(x), I32(y), Some(Bool(x <= y)))
    ensures Gives(Gt, I32(x), I32(y), Some(Bool(x > y))) && Gives(Ge, I32(x), I32(y), Some(Bool(x >= y)))
  {
    hide Gives;
    Computes(Eq, I32(x), I32(y));
    Computes(Neq, I32(x), I32(y));
    Computes(Lt, I32(x), I32(y));
    Computes(Le, I32(x), I32(y));
    Computes(Gt, I32(x), I32(y));
    Computes(Ge, I32(x), I32(y));
  }

  /** The bit of weight 2 to the k in two's complement; from 31 on it is the sign. */
  predicate Place(n: int, k: nat)
    decreases k
  {
    if k == 0 then n % 2 == 1 else Place(n / 2, k - 1)
  }

  /** An i32 is its 32 bits. */
  lemma {:induction false} PlacesDecide(x: int, y: int, bound: nat, k: nat)
    requires bound == Power(k) && 0 - bound <= x < bound && 0 - bound <= y < bound
    requires forall i :: 0 <= i <= k ==> Place(x, i) == Place(y, i)
    ensures x == y
    decreases k
  {
    assert Place(x, 0) == Place(y, 0);
    if k > 0 {
      forall i | 0 <= i <= k - 1 ensures Place(x / 2, i) == Place(y / 2, i) {
        assert Place(x, i + 1) == Place(y, i + 1);
      }
      PlacesDecide(x / 2, y / 2, bound / 2, k - 1);
    }
  }

  function Power(k: nat): (p: nat)
    ensures p >= 1
  {
    if k == 0 then 1 else 2 * Power(k - 1)
  }

  lemma {:induction false} Power31()
    ensures Power(31) == 0x8000_0000
  {
    assert Power(8) == 256;
    assert Power(16) == 65536;
    assert Power(24) == 0x100_0000;
    assert Power(31) == 0x8000_0000;
  }

  ghost predicate Bitwise(x: int, y: int, z: int, op: BinOp) {
    forall k :: 0 <= k < 32 ==>
      Place(z, k) == if op == BitAnd then Place(x, k) && Place(y, k)
                     else if op == BitOr then Place(x, k) || Place(y, k)
                     else Place(x, k) != Place(y, k)
  }

  /** The bitwise operators combine the bits at each of the 32 places, which decides the result. */
  lemma {:induction false} Bits(x: I32, y: I32, op: BinOp)
    requires op == BitAnd || op == BitOr || op == BitXor
    ensures exists z: I32 :: Bitwise(x, y, z, op)
    ensures forall z: I32 :: Bitwise(x, y, z, op) ==> Gives(op, I32(x), I32(y), Some(I32(z)))
  {
    hide Gives;
    Computes(op, I32(x), I32(y));
    var kind := if op == BitAnd then Arith.AndK else if op == BitOr then Arith.OrK else Arith.XorK;
    var r := Arith.Bits(kind, x, y, 31);
    PlacesOf(kind, x, y, 31);
    PowersSame(31);
    Power31();
    assert Bitwise(x, y, r, op);
    forall z: I32 | Bitwise(x, y, z, op) ensures Gives(op, I32(x), I32(y), Some(I32(z))) {
      PlacesDecide(r, z, 0x8000_0000, 31);
    }
  }

  lemma {:induction false} PowersSame(k: nat)
    ensures Arith.Pow2(k) == Power(k)
  {
    if k > 0 { PowersSame(k - 1); }
  }

  lemma {:induction false} PlacesOf(kind: Arith.BitKind, x: int, y: int, width: nat)
    ensures forall k :: 0 <= k <= width ==>
              Place(Arith.Bits(kind, x, y, width), k) == Arith.Bit(kind, Place(x, k), Place(y, k))
    decreases width
  {
    var r := Arith.Bits(kind, x, y, width);
    if width > 0 {
      PlacesOf(kind, x / 2, y / 2, width - 1);
      var s := Arith.Bits(kind, x / 2, y / 2, width - 1);
      assert r / 2 == s;
      forall k | 0 <= k <= width ensures Place(r, k) == Arith.Bit(kind, Place(x, k), Place(y, k)) {
        if k > 0 { assert Place(s, k - 1) == Arith.Bit(kind, Place(x / 2, k - 1), Place(y / 2, k - 1)); }
      }
    }
  }

  /** Shifts multiply, or divide rounding down, by the power of two; what C leaves undefined is a fault. */
  lemma {:induction false} Shifts(x: I32, y: I32)
    ensures Gives(Shl, I32(x), I32(y), if 0 <= x && 0 <= y < 32 then Exact(x * Power(y)) else None)
    ensures !(0 <= y < 32) ==> Gives(Shr, I32(x), I32(y), None)
    ensures forall z: I32 :: 0 <= y < 32 && z * Power(y) <= x < (z + 1) * Power(y) ==>
              Gives(Shr, I32(x), I32(y), Some(I32(z)))
    ensures 0 <= y < 32 ==> exists z: I32 :: z * Power(y) <= x < (z + 1) * Power(y)
  {
    hide Gives;
    Computes(Shl, I32(x), I32(y));
    Computes(Shr, I32(x), I32(y));
    if 0 <= y < 32 {
      PowersSame(y);
      Floors(x, Power(y));
      assert (x / Power(y)) * Power(y) <= x < (x / Power(y) + 1) * Power(y);
      forall z: I32 | z * Power(y) <= x < (z + 1) * Power(y)
        ensures Gives(Shr, I32(x), I32(y), Some(I32(z)))
      {
        OneFloor(x, Power(y), z);
      }
    }
  }

  lemma {:induction false} Floors(x: I32, d: nat)
    requires d >= 1
    ensures -2147483648 <= x / d <= 2147483647 && (x / d) * d <= x < (x / d + 1) * d
  {
    assert x == (x / d) * d + x % d;
    Scales(x / d, -2147483648, d);
    Scales(x / d, 2147483647, d);
    assert -2147483648 * d <= -2147483648 && 2147483647 * d >= 2147483647;
  }

  lemma {:induction false} OneFloor(x: int, d: nat, z: int)
    requires d >= 1 && z * d <= x < (z + 1) * d
    ensures x / d == z
  {
    assert x == (x / d) * d + x % d;
    Scales(x / d, z, d);
  }

  /** Besides numbers only `==` and `!=` take operands, two bools or a None on the left. */
  lemma {:induction false} OtherTypes(op: BinOp, p: bool, q: bool, v: Value)
    ensures Gives(op, Bool(p), Bool(q), if op == Eq then Some(Bool(p <==> q))
                                        else if op == Neq then Some(Bool(p != q)) else None)
    ensures Gives(op, Nil, v, if op == Eq then Some(Bool(v.Nil?)) else if op == Neq then Some(Bool(!v.Nil?)) else None)
  {
    hide Gives;
    Computes(op, Bool(p), Bool(q));
    Computes(op, Nil, v);
  }

  /** Operands of different types, unless the left one is None, are a fault. */
  lemma {:induction false} MixedTypes(op: BinOp, x: I32, p: bool)
    ensures Gives(op, I32(x), Bool(p), None) && Gives(op, Bool(p), I32(x), None)
    ensures Gives(op, I32(x), Nil, None) && Gives(op, Bool(p), Nil, None)
  {
    hide Gives;
    Computes(op, I32(x), Bool(p));
    Computes(op, Bool(p), I32(x));
    Computes(op, I32(x), Nil);
    Computes(op, Bool(p), Nil);
  }

  ghost predicate Flipped(x: int, z: int) {
    forall k :: 0 <= k < 32 ==> Place(z, k) == !Place(x, k)
  }

  /** Negation is exact or a fault, `~` flips each of the 32 bits, `!` takes a bool; nothing else is taken. */
  lemma {:induction false} Prefixes(x: I32, p: bool)
    ensures Turns(Neg, I32(x), Exact(0 - x)) && Turns(Neg, Bool(p), None) && Turns(Neg, Nil, None)
    ensures forall z: I32 :: Flipped(x, z) ==> Turns(BitNot, I32(x), Some(I32(z)))
    ensures exists z: I32 :: Flipped(x, z)
    ensures Turns(BitNot, Bool(p), None) && Turns(BitNot, Nil, None)
    ensures Turns(Not, Bool(p), Some(Bool(!p))) && Turns(Not, I32(x), None) && Turns(Not, Nil, None)
  {
    hide Turns;
    PrefixCases(x, p);
    var n: I32 := -1 - x;
    Flips(x, 31);
    assert Flipped(x, n);
    forall z: I32 | Flipped(x, z)
      ensures Turns(BitNot, I32(x), Some(I32(z)))
    {
      Power31();
      PlacesDecide(n, z, 0x8000_0000, 31);
    }
  }

  lemma {:induction false} PrefixCases(x: I32, p: bool)
    ensures Turns(Neg, I32(x), Exact(0 - x)) && Turns(Neg, Bool(p), None) && Turns(Neg, Nil, None)
    ensures Turns(BitNot, I32(x), Some(I32(-1 - x))) && Turns(BitNot, Bool(p), None) && Turns(BitNot, Nil, None)
    ensures Turns(Not, Bool(p), Some(Bool(!p))) && Turns(Not, I32(x), None) && Turns(Not, Nil, None)
  {
    hide Turns;
    ComputesOne(Neg, I32(x));
    ComputesOne(Neg, Bool(p));
    ComputesOne(Neg, Nil);
    ComputesOne(BitNot, I32(x));
    ComputesOne(BitNot, Bool(p));
    ComputesOne(BitNot, Nil);
    ComputesOne(Not, Bool(p));
    ComputesOne(Not, I32(x));
    ComputesOne(Not, Nil);
  }

  lemma {:induction false} Flips(x: int, k: nat)
    ensures forall i :: 0 <= i <= k ==> Place(-1 - x, i) == !Place(x, i)
    decreases k
  {
    assert (-1 - x) / 2 == -1 - x / 2;
    if k > 0 {
      Flips(x / 2, k - 1);
      forall i | 0 <= i <= k ensures Place(-1 - x, i) == !Place(x, i) {
        if i > 0 { assert Place(-1 - x / 2, i - 1) == !Place(x / 2, i - 1); }
      }
    }
  }
}
