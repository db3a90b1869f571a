/** Hash codes and the masking that stands for a remainder when the capacity is a power of two. */
module Hashing {
  import opened Base
  import opened Bytecode
  import Arith
  import Arithmetic

  function BitAnd(a: nat, b: nat): nat
    decreases a
  {
    if a == 0 || b == 0 then 0
    else 2 * BitAnd(a / 2, b / 2) + (if a % 2 == 1 && b % 2 == 1 then 1 else 0)
  }

  function BitXor(a: nat, b: nat): nat
    decreases a + b
  {
    if a == 0 then b else if b == 0 then a
    else 2 * BitXor(a / 2, b / 2) + (if a % 2 != b % 2 then 1 else 0)
  }

  const WORD: nat := 0x1_0000_0000

  /** FNV-1a on 32-bit words. */
  function HashFrom(h: nat, chars: seq<Byte>): (r: nat)
    requires h < WORD
    ensures r < WORD
    decreases |chars|
  {
    if chars == [] then h else HashFrom(Mix(h, chars[0]), chars[1..])
  }

  function Mix(h: nat, c: Byte): (r: nat)
    ensures r < WORD
  {
    BitXor(h, c) * 16777619 % WORD
  }

  const SEED: nat := 2166136261

  function Hash(chars: seq<Byte>): (r: nat)
    ensures r < WORD
  {
    HashFrom(SEED, chars)
  }

  /** hash_string's loop. */
  method HashString(chars: seq<Byte>) returns (hash: nat)
    ensures hash == Hash(chars)
  {
    hash := SEED;
    for i := 0 to |chars|
      invariant hash < WORD && HashFrom(hash, chars[i..]) == Hash(chars)
    {
      hide Mix;
      hash := Mix(hash, chars[i]);
    }
  }

  lemma {:induction false} XorPlaces(a: nat, b: nat, k: nat)
    ensures Arithmetic.Place(BitXor(a, b), k) == (Arithmetic.Place(a, k) != Arithmetic.Place(b, k))
    decreases k
  {
    if a == 0 || b == 0 {
      ZeroPlaces(k);
    } else {
      assert BitXor(a, b) / 2 == BitXor(a / 2, b / 2);
      if k > 0 { XorPlaces(a / 2, b / 2, k - 1); }
    }
  }

  lemma {:induction false} ZeroPlaces(k: nat)
    ensures !Arithmetic.Place(0, k)
  {
    if k > 0 { ZeroPlaces(k - 1); }
  }

  /** FNV-1a with its published constants: each further byte goes into the low bits of the hash so far, which is then
      multiplied, modulo two to the 32nd. */
  lemma {:induction false} HashGrows(chars: seq<Byte>, c: Byte) returns (x: nat)
    ensures forall k: nat ::
              Arithmetic.Place(x, k) == (Arithmetic.Place(Hash(chars), k) != Arithmetic.Place(c, k))
    ensures Hash(chars + [c]) == x * 16777619 % 4294967296
    ensures Hash([]) == 2166136261
  {
    x := BitXor(Hash(chars), c);
    forall k: nat ensures Arithmetic.Place(x, k) == (Arithmetic.Place(Hash(chars), k) != Arithmetic.Place(c, k)) {
      XorPlaces(Hash(chars), c, k);
    }
    HashLast(SEED, chars, c);
  }

  lemma {:induction false} HashLast(h: nat, chars: seq<Byte>, c: Byte)
    requires h < WORD
    ensures HashFrom(h, chars + [c]) == Mix(HashFrom(h, chars), c)
    decreases |chars|
  {
    hide Mix;
    if chars == [] {
      assert [c][1..] == [];
    } else {
      assert (chars + [c])[1..] == chars[1..] + [c];
      HashLast(Mix(h, chars[0]), chars[1..], c);
    }
  }

  ghost predicate PowerOfTwo(n: nat) {
    exists k: nat :: n == Arith.Pow2(k)
  }

  function Mask(h: nat, n: nat): nat
    requires n > 0
  {
    BitAnd(h, n - 1)
  }

  lemma {:induction false} AndLow(h: nat, k: nat)
    ensures BitAnd(h, Arith.Pow2(k) - 1) == h % Arith.Pow2(k)
    decreases k
  {
    var p := Arith.Pow2(k);
    if h == 0 || k == 0 {
    } else {
      var q := Arith.Pow2(k - 1);
      AndLow(h / 2, k - 1);
      assert (p - 1) / 2 == q - 1 && (p - 1) % 2 == 1;
      HalfMod(h, q);
    }
  }

  lemma {:induction false} HalfMod(h: nat, q: nat)
    requires q > 0
    ensures h % (2 * q) == 2 * ((h / 2) % q) + h % 2
  {
    var d, m := (h / 2) / q, (h / 2) % q;
    assert h == (2 * q) * d + (2 * m + h % 2) by {
      assert h / 2 == q * d + m;
      assert (2 * q) * d == 2 * (q * d);
    }
    assert 0 <= 2 * m + h % 2 < 2 * q;
    ModIs(h, 2 * q, d, 2 * m + h % 2);
  }

  lemma {:induction false} Multiple(n: int, e: int)
    requires n > 0
    ensures e >= 1 ==> n * e >= n
    ensures e <= -1 ==> n * e <= -n
  {
  }

  lemma {:induction false} ModIs(a: int, n: int, d: int, r: int)
    requires n > 0 && a == n * d + r && 0 <= r < n
    ensures a % n == r
  {
    var d1, r1 := a / n, a % n;
    assert n * (d - d1) == r1 - r by {
      assert a == n * d1 + r1;
      assert n * (d - d1) == n * d - n * d1;
    }
    Multiple(n, d - d1);
  }

  /** Masking with a power of two less one is the remainder, for every hash. */
  lemma {:induction false} MaskIsMod(h: nat, n: nat)
    requires PowerOfTwo(n)
    ensures n > 0 && Mask(h, n) == h % n && Mask(h, n) < n
  {
    var k: nat :| n == Arith.Pow2(k);
    AndLow(h, k);
  }

  /** So stepping an index is stepping it around the table. */
  lemma {:induction false} MaskNext(i: nat, n: nat)
    requires PowerOfTwo(n) && i < n
    ensures n > 0 && Mask(i + 1, n) == if i + 1 == n then 0 else i + 1
  {
    MaskIsMod(i + 1, n);
    if i + 1 == n { ModIs(n, n, 1, 0); } else { ModIs(i + 1, n, 0, i + 1); }
  }

  /** The growth rule keeps capacities powers of two. */
  lemma {:induction false} GrownPower(n: nat)
    requires n == 0 || PowerOfTwo(n)
    ensures PowerOfTwo(Grown(n)) && Grown(n) > n
  {
    if n < 8 {
      assert Arith.Pow2(3) == 8;
    } else {
      var k: nat :| n == Arith.Pow2(k);
      assert Arith.Pow2(k + 1) == 2 * n;
    }
  }
}
