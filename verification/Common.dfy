/** Bytes, powers and bitwise arithmetic on naturals, shared by the models of the C files. */
module Common {

  type byte = x: int | 0 <= x < 256

  type uint32 = x: int | 0 <= x < 0x1_0000_0000

  type uint64 = x: int | 0 <= x < 0x1_0000_0000_0000_0000

  const SIZE_MAX: nat := 0xFFFF_FFFF_FFFF_FFFF

  /** A sum of size_t values. */
  function Wrap(x: nat): nat {
    if x <= SIZE_MAX then x else x % (SIZE_MAX + 1)
  }

  datatype Option<+T> = None | Some(value: T)

  type Digest = s: seq<byte> | |s| == 32 witness seq(32, _ => 0)

  // A 256-bit hash function.
  type Sha = seq<byte> -> Digest

  function Zeros(n: nat): (s: seq<byte>)
    ensures |s| == n && forall i :: 0 <= i < n ==> s[i] == 0
  {
    seq(n, _ => 0)
  }

  function Pow(b: nat, n: nat): nat {
    if n == 0 then 1 else b * Pow(b, n - 1)
  }

  function Pow2(n: nat): (r: nat)
    ensures r >= 1
  {
    if n == 0 then 1 else 2 * Pow2(n - 1)
  }

  lemma {:induction false} Pow2Add(a: nat, b: nat)
    ensures Pow2(a + b) == Pow2(a) * Pow2(b)
  {
    if a == 0 {
    } else {
      Pow2Add(a - 1, b);
      assert Pow2(a + b) == 2 * Pow2(a - 1 + b);
    }
  }

  lemma {:induction false} Pow2Mono(a: nat, b: nat)
    requires a <= b
    ensures Pow2(a) <= Pow2(b)
  {
    if a >= b {
    } else {
      Pow2Mono(a, b - 1);
    }
  }

  /** C's `&` on non-negative values. */
  function BitAnd(a: nat, b: nat): nat {
    if a == 0 || b == 0 then 0
    else (if a % 2 == 1 && b % 2 == 1 then 1 else 0) + 2 * BitAnd(a / 2, b / 2)
  }

  /** C's `|` on non-negative values. */
  function BitOr(a: nat, b: nat): nat {
    if a == 0 then b
    else if b == 0 then a
    else (if a % 2 == 1 || b % 2 == 1 then 1 else 0) + 2 * BitOr(a / 2, b / 2)
  }

  /** C's `^` on non-negative values. */
  function BitXor(a: nat, b: nat): nat
    decreases a + b
  {
    if a == 0 && b == 0 then 0
    else (a + b) % 2 + 2 * BitXor(a / 2, b / 2)
  }

  lemma {:induction false} BitXorBound(a: nat, b: nat, k: nat)
    requires a < Pow2(k) && b < Pow2(k)
    ensures BitXor(a, b) < Pow2(k)
  {
    if k == 0 {
    } else {
      BitXorBound(a / 2, b / 2, k - 1);
    }
  }

  lemma BitXorParts(a: nat, b: nat)
    ensures BitXor(a, b) / 2 == BitXor(a / 2, b / 2)
    ensures BitXor(a, b) % 2 == (a + b) % 2
  {
  }

  lemma Parity(a: nat, b: nat, c: nat)
    requires c % 2 == (a + b) % 2
    ensures (c + b) % 2 == a % 2
  {
  }

  lemma {:induction false} BitXorTwice(a: nat, b: nat)
    ensures BitXor(BitXor(a, b), b) == a
    decreases a + b
  {
    if a == 0 && b == 0 {
    } else {
      var c := BitXor(a, b);
      BitXorTwice(a / 2, b / 2);
      BitXorParts(a, b);
      BitXorParts(c, b);
      Parity(a, b, c);
    }
  }

  lemma {:induction false} BitXorZero(b: nat)
    ensures BitXor(0, b) == b
  {
    if b == 0 {
    } else {
      BitXorZero(b / 2);
    }
  }

  /** C's `x & (1 << k)` as a truth value. */
  predicate TestBit(x: nat, k: nat) {
    if k == 0 then x % 2 == 1 else TestBit(x / 2, k - 1)
  }

  lemma {:induction false} TestBitIsBitAnd(x: nat, k: nat)
    ensures TestBit(x, k) <==> BitAnd(x, Pow2(k)) != 0
  {
    if k == 0 {
    } else {
      TestBitIsBitAnd(x / 2, k - 1);
    }
  }
}
