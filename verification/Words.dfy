/** Little-endian words and the modular arithmetic they need. */
module Words {
  import opened Common

  lemma Powers()
    ensures Pow2(6) == 0x40 && Pow2(8) == 0x100 && Pow2(12) == 0x1000 && Pow2(18) == 0x40000 && Pow2(20) == 0x100000
    ensures Pow2(26) == 0x4000000 && Pow2(32) == 0x1_0000_0000 && Pow2(64) == 0x1_0000_0000_0000_0000
    ensures Pow2(128) == 0x1_0000000000000000_0000000000000000
  {
    assert Pow2(6) == 0x40 && Pow2(8) == 0x100;
    Pow2Add(6, 6);
    Pow2Add(12, 6);
    Pow2Add(12, 8);
    Pow2Add(20, 6);
    Pow2Add(26, 6);
    Pow2Add(32, 32);
    Pow2Add(64, 64);
  }

  /** The number a byte string spells, least significant byte first. */
  function LE(s: seq<byte>): nat {
    if s == [] then 0 else s[0] + 256 * LE(s[1..])
  }

  lemma {:induction false} LEBound(s: seq<byte>)
    ensures LE(s) < Pow2(8 * |s|)
  {
    if s == [] {
    } else {
      LEBound(s[1..]);
      Pow2Add(8, 8 * |s[1..]|);
      assert Pow2(8) == 256;
    }
  }

  lemma {:induction false} LEConcat(a: seq<byte>, b: seq<byte>)
    ensures LE(a + b) == LE(a) + Pow2(8 * |a|) * LE(b)
  {
    if a == [] {
      assert a + b == b;
    } else {
      var k := 8 * |a[1..]|;
      LEConcat(a[1..], b);
      assert (a + b)[1..] == a[1..] + b;
      Pow2Add(8, k);
      assert Pow2(8) == 256;
      Mul3(256, Pow2(k), LE(b));
    }
  }

  lemma Mul3(a: int, b: int, c: int)
    ensures a * (b * c) == (a * b) * c
  {
  }

  lemma Distribute(lo: int, c: int, hi: int, v: int)
    ensures (lo + c * hi) * v == lo * v + c * (hi * v)
  {
    Mul3(c, hi, v);
  }

  lemma {:induction false} LEZeros(n: nat)
    ensures LE(seq(n, _ => 0)) == 0
  {
    if n == 0 {
    } else {
      LEZeros(n - 1);
      assert seq(n, _ => 0 as byte)[1..] == seq(n - 1, _ => 0 as byte);
    }
  }

  /** Four bytes, low byte first. */
  function Spell(a: nat, b: nat, c: nat, d: nat): nat {
    a + 0x100 * b + 0x10000 * c + 0x1000000 * d
  }

  lemma LESmall(s: seq<byte>)
    ensures |s| == 2 ==> LE(s) == Spell(s[0], s[1], 0, 0)
    ensures |s| == 4 ==> LE(s) == Spell(s[0], s[1], s[2], s[3])
  {
    if |s| == 2 {
      LEOne(s[1..]);
    } else if |s| == 4 {
      LEOne(s[1..][1..][1..]);
    }
  }

  lemma LEOne(s: seq<byte>)
    requires |s| == 1
    ensures LE(s) == s[0]
  {
    assert s[1..] == [];
  }

  /** UInt32GetLE. */
  function LE32(s: seq<byte>): (t: uint32)
    requires |s| == 4
  {
    LEBound(s);
    Powers();
    LE(s)
  }

  /** The `k` low bytes of a number, least significant first. */
  function ToLE(n: nat, k: nat): (s: seq<byte>)
    ensures |s| == k
  {
    if k == 0 then [] else [n % 256] + ToLE(n / 256, k - 1)
  }

  lemma {:induction false} LEToLE(n: nat, k: nat)
    requires n < Pow2(8 * k)
    ensures LE(ToLE(n, k)) == n
  {
    if k == 0 {
    } else {
      Pow2Add(8, 8 * (k - 1));
      assert Pow2(8) == 256;
      LEToLE(n / 256, k - 1);
    }
  }

  lemma {:induction false} ToLELE(s: seq<byte>)
    ensures ToLE(LE(s), |s|) == s
  {
    if s == [] {
    } else {
      ToLELE(s[1..]);
      assert LE(s) % 256 == s[0] && LE(s) / 256 == LE(s[1..]);
    }
  }

  /** The low k bytes of a number, most significant first. */
  function ToBE(n: nat, k: nat): (s: seq<byte>)
    ensures |s| == k
  {
    if k == 0 then [] else ToBE(n / 256, k - 1) + [n % 256]
  }

  // ---------------------------------------------------------------- remainders

  lemma {:induction false} ModPlusMultiple(a: int, k: nat, p: int)
    requires p > 0
    ensures (a + p * k) % p == a % p
  {
    if k == 0 {
    } else {
      ModPlusMultiple(a, k - 1, p);
      assert a + p * k == (a + p * (k - 1)) + p;
      ModPlusOne(a + p * (k - 1), p);
    }
  }

  lemma ModPlusOne(a: int, p: int)
    requires p > 0
    ensures (a + p) % p == a % p
  {
    var q, r := a / p, a % p;
    assert a == q * p + r;
    assert a + p == (q + 1) * p + r;
    ModUnique(a + p, q + 1, r, p);
  }

  lemma ModUnique(a: int, q: int, r: int, p: int)
    requires p > 0 && 0 <= r < p && a == q * p + r
    ensures a % p == r
  {
    var k := a / p - q;
    assert a == (q + k) * p + a % p;
    assert (q + k) * p == q * p + k * p;
    SmallMultiple(k, p, r - a % p);
  }

  lemma SmallMultiple(k: int, p: int, d: int)
    requires p > 0 && k * p == d && -p < d < p
    ensures d == 0
  {
    MulSize(k, p);
  }

  lemma MulSize(k: int, p: int)
    requires p > 0
    ensures k >= 1 ==> k * p >= p
    ensures k <= -1 ==> k * p <= -p
  {
  }

  /** A factor and a summand may be reduced first. */
  lemma ModMulAdd(acc: nat, x: nat, r: nat, p: nat)
    requires p > 0
    ensures ((acc % p + x) * r) % p == ((acc + x) * r) % p
  {
    var q := acc / p;
    assert acc == p * q + acc % p;
    assert (acc + x) * r == (acc % p + x) * r + p * (q * r) by {
      Mul3(p, q, r);
      assert (p * q + (acc % p + x)) * r == (p * q) * r + (acc % p + x) * r;
    }
    ModPlusMultiple((acc % p + x) * r, q * r, p);
  }

  /** Multiplication that the verifier does not multiply out. */
  function Times(a: nat, b: nat): nat {
    if a == 0 then 0 else b + Times(a - 1, b)
  }

  lemma {:induction false} TimesIsMul(a: nat, b: nat)
    ensures Times(a, b) == a * b
  {
    if a == 0 {
    } else {
      TimesIsMul(a - 1, b);
    }
  }

  lemma TimesMod(a: nat, x: nat, r: nat, p: nat)
    requires p > 0
    ensures Times(a % p + x, r) % p == Times(a + x, r) % p
  {
    TimesIsMul(a % p + x, r);
    TimesIsMul(a + x, r);
    ModMulAdd(a, x, r, p);
  }

  lemma ModAdd(a: nat, x: nat, p: nat)
    requires p > 0
    ensures (a % p + x) % p == (a + x) % p
  {
    assert a + x == a % p + x + p * (a / p);
    ModPlusMultiple(a % p + x, a / p, p);
  }

  // ---------------------------------------------------------------- masks and disjoint ORs

  lemma {:induction false} BitAndMask(x: nat, k: nat)
    ensures BitAnd(x, Pow2(k) - 1) == x % Pow2(k)
  {
    if k == 0 {
    } else {
      BitAndMask(x / 2, k - 1);
      var p := Pow2(k - 1);
      assert (Pow2(k) - 1) / 2 == p - 1;
      ModDouble(x, p);
    }
  }

  lemma ModDouble(x: nat, p: nat)
    requires p > 0
    ensures x % (2 * p) == x % 2 + 2 * ((x / 2) % p)
  {
    var q, r := (x / 2) / p, (x / 2) % p;
    assert x / 2 == q * p + r;
    assert x == q * (2 * p) + (x % 2 + 2 * r);
    ModUnique(x, q, x % 2 + 2 * r, 2 * p);
  }

  /** C's `x << k` without a width. */
  function Shl(x: nat, k: nat): nat {
    if k == 0 then x else 2 * Shl(x, k - 1)
  }

  /** C's `x >> k` on non-negative values. */
  function Shr(x: nat, k: nat): nat {
    if k == 0 then x else Shr(x / 2, k - 1)
  }

  lemma {:induction false} ShlIsMul(x: nat, k: nat)
    ensures Shl(x, k) == x * Pow2(k)
  {
    if k == 0 {
    } else {
      ShlIsMul(x, k - 1);
      assert x * Pow2(k) == 2 * (x * Pow2(k - 1));
    }
  }

  /** An OR of disjoint fields is a sum. */
  lemma {:induction false} BitOrDisjoint(a: nat, b: nat, k: nat)
    requires a < Pow2(k)
    ensures BitOr(a, Shl(b, k)) == a + Shl(b, k)
  {
    if k == 0 {
    } else {
      BitOrDisjoint(a / 2, b, k - 1);
    }
  }

  /** A number can be masked field by field. */
  lemma {:induction false} BitAndConcat(v: nat, w: nat, a: nat, b: nat, m: nat, n: nat, k: nat)
    requires v == a + Shl(b, k) && w == m + Shl(n, k)
    requires a < Pow2(k) && m < Pow2(k)
    ensures BitAnd(v, w) == BitAnd(a, m) + Shl(BitAnd(b, n), k)
  {
    if k == 0 {
    } else {
      BitAndConcat(v / 2, w / 2, a / 2, b, m / 2, n, k - 1);
      BitAndStep(v, w);
      BitAndStep(a, m);
    }
  }

  lemma BitAndStep(a: nat, b: nat)
    ensures BitAnd(a, b) == (if a % 2 == 1 && b % 2 == 1 then 1 else 0) + 2 * BitAnd(a / 2, b / 2)
  {
  }

  lemma {:induction false} BitAndBound(a: nat, b: nat)
    ensures BitAnd(a, b) <= b
  {
    if a == 0 || b == 0 {
    } else {
      BitAndBound(a / 2, b / 2);
    }
  }
}
