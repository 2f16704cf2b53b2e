/** The 26-bit limb arithmetic of _BRPoly1305Compress (BRCrypto.c) against section 2.5 of RFC 7539. */
module Poly1305 {
  import opened Common
  import opened Words

  // 2^130 - 5
  const P: nat := 0x3_ffffffffffffffff_fffffffffffffffb

  const CLAMP: nat := 0x0ffffffc_0ffffffc_0ffffffc_0fffffff

  const TWO_128: nat := 0x1_0000000000000000_0000000000000000

  // ---------------------------------------------------------------- RFC 7539, section 2.5

  function BlockValue(block: seq<byte>): nat {
    LE(block) + Pow2(8 * |block|)
  }

  function FirstBlock(data: seq<byte>): (b: seq<byte>)
    ensures data != [] ==> b != []
  {
    if |data| <= 16 then data else data[..16]
  }

  /** The accumulator after all blocks of `data`; Times is multiplication (Words.TimesIsMul). */
  function Accumulate(acc: nat, r: nat, data: seq<byte>): nat
    decreases |data|
  {
    if data == [] then acc
    else Accumulate(Times(acc + BlockValue(FirstBlock(data)), r) % P, r, data[|FirstBlock(data)|..])
  }

  function R(key: seq<byte>): nat
    requires |key| == 32
  {
    BitAnd(LE(key[..16]), CLAMP)
  }

  function Mac(key: seq<byte>, data: seq<byte>): nat
    requires |key| == 32
  {
    (Accumulate(0, R(key), data) + LE(key[16..])) % TWO_128
  }

  // ---------------------------------------------------------------- limbs

  datatype Limbs = Limbs(l0: nat, l1: nat, l2: nat, l3: nat, l4: nat)
  {
    function Limb(i: nat): nat {
      if i == 0 then l0 else if i == 1 then l1 else if i == 2 then l2 else if i == 3 then l3 else l4
    }

    /** The value of the limbs from `i` up; a loop, so that the verifier multiplies it out only on request. */
    function From(i: nat): nat
      decreases 5 - i
    {
      if i >= 5 then 0 else Limb(i) + 0x4000000 * From(i + 1)
    }

    function Value(): nat {
      From(0)
    }

    lemma Expand()
      ensures Value() == l0 + 0x4000000 * (l1 + 0x4000000 * (l2 + 0x4000000 * (l3 + 0x4000000 * l4)))
    {
      assert From(4) == l4;
      assert From(3) == l3 + 0x4000000 * l4;
      assert From(2) == l2 + 0x4000000 * (l3 + 0x4000000 * l4);
      assert From(1) == l1 + 0x4000000 * (l2 + 0x4000000 * (l3 + 0x4000000 * l4));
    }

    /** What every block leaves behind: only limb 1 may exceed 26 bits, and only just. */
    predicate Reduced() {
      l0 < 0x4000000 && l1 < 0x4000040 && l2 < 0x4000000 && l3 < 0x4000000 && l4 < 0x4000000
    }

    predicate Canonical() {
      l0 < 0x4000000 && l1 < 0x4000000 && l2 < 0x4000000 && l3 < 0x4000000 && l4 < 0x4000000
    }
  }

  // Four little-endian 32-bit words of a 16-byte block.
  datatype Quad = Quad(t0: uint32, t1: uint32, t2: uint32, t3: uint32)
  {
    function Word(i: nat): uint32 {
      if i == 0 then t0 else if i == 1 then t1 else if i == 2 then t2 else t3
    }

    function From(i: nat): nat
      decreases 4 - i
    {
      if i >= 4 then 0 else Word(i) + 0x1_0000_0000 * From(i + 1)
    }

    function Value(): nat {
      From(0)
    }

    lemma Expand()
      ensures Value() == t0 + 0x1_0000_0000 * (t1 + 0x1_0000_0000 * (t2 + 0x1_0000_0000 * t3))
    {
      assert From(3) == t3;
      assert From(2) == t2 + 0x1_0000_0000 * t3;
      assert From(1) == t1 + 0x1_0000_0000 * (t2 + 0x1_0000_0000 * t3);
    }
  }

  function Load(x: seq<byte>): (w: Quad)
    requires |x| == 16
    ensures w.Value() == LE(x)
  {
    LoadValue(x);
    Quad(LE32(x[0..4]), LE32(x[4..8]), LE32(x[8..12]), LE32(x[12..16])).Expand();
    Quad(LE32(x[0..4]), LE32(x[4..8]), LE32(x[8..12]), LE32(x[12..16]))
  }

  lemma LEWord(a: seq<byte>, b: seq<byte>)
    requires |a| == 4
    ensures LE(a + b) == LE(a) + 0x1_0000_0000 * LE(b)
  {
    Powers();
    LEConcat(a, b);
  }

  lemma LoadValue(x: seq<byte>)
    requires |x| == 16
    ensures LE(x) == LE(x[0..4]) + 0x1_0000_0000 * (LE(x[4..8]) + 0x1_0000_0000 *
                     (LE(x[8..12]) + 0x1_0000_0000 * LE(x[12..16])))
  {
    var a, b, c, d := x[0..4], x[4..8], x[8..12], x[12..16];
    var cd, bcd := x[8..16], x[4..16];
    assert cd == c + d && bcd == b + cd && x == a + bcd;
    LEWord(c, d);
    LEWord(b, cd);
    LEWord(a, bcd);
  }

  // ---------------------------------------------------------------- words to limbs

  /** `(lo >> m) | (hi << n)` on 32-bit words, for p = 2^m and q = 2^n. */
  function Straddle(lo: uint32, hi: uint32, p: nat, q: nat): nat
    requires p > 0
  {
    BitOr(lo / p, hi * q % 0x1_0000_0000)
  }

  lemma Disjoint(a: nat, b: nat, k: nat, q: nat)
    requires q == Pow2(k) && a < q
    ensures BitOr(a, q * b) == a + q * b
  {
    ShlIsMul(b, k);
    BitOrDisjoint(a, b, k);
  }

  lemma StraddleValue(lo: uint32, hi: uint32)
    ensures Straddle(lo, hi, 0x4000000, 0x40) == lo / 0x4000000 + 0x40 * (hi % 0x4000000)
    ensures Straddle(lo, hi, 0x100000, 0x1000) == lo / 0x100000 + 0x1000 * (hi % 0x100000)
    ensures Straddle(lo, hi, 0x4000, 0x40000) == lo / 0x4000 + 0x40000 * (hi % 0x4000)
  {
    Powers();
    Disjoint(lo / 0x4000000, hi % 0x4000000, 6, 0x40);
    Disjoint(lo / 0x100000, hi % 0x100000, 12, 0x1000);
    Disjoint(lo / 0x4000, hi % 0x4000, 18, 0x40000);
    ShiftedOut(hi);
  }

  lemma ShiftedOut(x: uint32)
    ensures x * 0x40 % 0x1_0000_0000 == 0x40 * (x % 0x4000000)
    ensures x * 0x1000 % 0x1_0000_0000 == 0x1000 * (x % 0x100000)
    ensures x * 0x40000 % 0x1_0000_0000 == 0x40000 * (x % 0x4000)
  {
    ModUnique(x * 0x40, x / 0x4000000, 0x40 * (x % 0x4000000), 0x1_0000_0000);
    ModUnique(x * 0x1000, x / 0x100000, 0x1000 * (x % 0x100000), 0x1_0000_0000);
    ModUnique(x * 0x40000, x / 0x4000, 0x40000 * (x % 0x4000), 0x1_0000_0000);
  }

  /** The 26-bit limbs of a block, as they are added to h (without the high bit). */
  function Split(w: Quad): Limbs {
    Limbs(BitAnd(w.t0, 0x03ffffff),
          BitAnd(Straddle(w.t0, w.t1, 0x4000000, 0x40), 0x03ffffff),
          BitAnd(Straddle(w.t1, w.t2, 0x100000, 0x1000), 0x03ffffff),
          BitAnd(Straddle(w.t2, w.t3, 0x4000, 0x40000), 0x03ffffff),
          w.t3 / 0x100)
  }

  lemma Mask26(x: nat)
    ensures BitAnd(x, 0x03ffffff) == x % 0x4000000
  {
    Powers();
    BitAndMask(x, 26);
  }

  lemma SplitLimbs(w: Quad)
    ensures Split(w) == Limbs(w.t0 % 0x4000000,
                              (w.t0 / 0x4000000 + 0x40 * (w.t1 % 0x4000000)) % 0x4000000,
                              (w.t1 / 0x100000 + 0x1000 * (w.t2 % 0x100000)) % 0x4000000,
                              (w.t2 / 0x4000 + 0x40000 * (w.t3 % 0x4000)) % 0x4000000,
                              w.t3 / 0x100)
  {
    hide BitAnd, BitOr, Shl;
    Mask26(w.t0);
    MaskedStraddle(w.t0, w.t1);
    MaskedStraddle(w.t1, w.t2);
    MaskedStraddle(w.t2, w.t3);
  }

  lemma MaskedStraddle(lo: uint32, hi: uint32)
    ensures BitAnd(Straddle(lo, hi, 0x4000000, 0x40), 0x03ffffff) ==
            (lo / 0x4000000 + 0x40 * (hi % 0x4000000)) % 0x4000000
    ensures BitAnd(Straddle(lo, hi, 0x100000, 0x1000), 0x03ffffff) ==
            (lo / 0x100000 + 0x1000 * (hi % 0x100000)) % 0x4000000
    ensures BitAnd(Straddle(lo, hi, 0x4000, 0x40000), 0x03ffffff) == (lo / 0x4000 + 0x40000 * (hi % 0x4000)) % 0x4000000
  {
    var x, y, z := Straddle(lo, hi, 0x4000000, 0x40), Straddle(lo, hi, 0x100000, 0x1000),
      Straddle(lo, hi, 0x4000, 0x40000);
    StraddleValue(lo, hi);
    Mask26(x);
    Mask26(y);
    Mask26(z);
  }

  lemma SplitValue(w: Quad)
    ensures Split(w).Canonical() && Split(w).l4 < 0x1000000 && Split(w).Value() == w.Value()
  {
    SplitLimbs(w);
    SplitSum(w.t0, w.t1, w.t2, w.t3);
  }

  lemma SplitSum(t0: uint32, t1: uint32, t2: uint32, t3: uint32)
    ensures Limbs(t0 % 0x4000000, (t0 / 0x4000000 + 0x40 * (t1 % 0x4000000)) % 0x4000000,
                  (t1 / 0x100000 + 0x1000 * (t2 % 0x100000)) % 0x4000000,
                  (t2 / 0x4000 + 0x40000 * (t3 % 0x4000)) % 0x4000000, t3 / 0x100).Value()
            == Quad(t0, t1, t2, t3).Value()
  {
    Limbs(t0 % 0x4000000, (t0 / 0x4000000 + 0x40 * (t1 % 0x4000000)) % 0x4000000,
          (t1 / 0x100000 + 0x1000 * (t2 % 0x100000)) % 0x4000000,
          (t2 / 0x4000 + 0x40000 * (t3 % 0x4000)) % 0x4000000, t3 / 0x100).Expand();
    Quad(t0, t1, t2, t3).Expand();
    SplitArith(t0, t1, t2, t3);
  }

  lemma SplitArith(t0: uint32, t1: uint32, t2: uint32, t3: uint32)
    ensures t0 % 0x4000000 + 0x4000000 * ((t0 / 0x4000000 + 0x40 * (t1 % 0x4000000)) % 0x4000000
            + 0x4000000 * ((t1 / 0x100000 + 0x1000 * (t2 % 0x100000)) % 0x4000000
            + 0x4000000 * ((t2 / 0x4000 + 0x40000 * (t3 % 0x4000)) % 0x4000000 + 0x4000000 * (t3 / 0x100))))
            == t0 + 0x1_0000_0000 * (t1 + 0x1_0000_0000 * (t2 + 0x1_0000_0000 * t3))
  {
    StraddleMod(t0, t1);
    StraddleMod(t1, t2);
    StraddleMod(t2, t3);
    SplitFields(t0, t0 % 0x4000000, t0 / 0x4000000, t1, t1 % 0x100000, t1 / 0x100000,
                t2, t2 % 0x4000, t2 / 0x4000, t3, t3 % 0x100, t3 / 0x100);
  }

  lemma StraddleMod(lo: uint32, hi: uint32)
    ensures (lo / 0x4000000 + 0x40 * (hi % 0x4000000)) % 0x4000000 == lo / 0x4000000 + 0x40 * (hi % 0x100000)
    ensures (lo / 0x100000 + 0x1000 * (hi % 0x100000)) % 0x4000000 == lo / 0x100000 + 0x1000 * (hi % 0x4000)
    ensures (lo / 0x4000 + 0x40000 * (hi % 0x4000)) % 0x4000000 == lo / 0x4000 + 0x40000 * (hi % 0x100)
  {
    DropHigh26(lo / 0x4000000, hi % 0x100000, hi / 0x100000);
    DropHigh20(lo / 0x100000, hi % 0x4000, hi / 0x4000);
    DropHigh14(lo / 0x4000, hi % 0x100, hi / 0x100);
  }

  lemma DropHigh26(l: nat, a: nat, b: nat)
    requires l < 0x40 && a < 0x100000
    ensures (l + 0x40 * ((a + 0x100000 * b) % 0x4000000)) % 0x4000000 == l + 0x40 * a
  {
    ModUnique(a + 0x100000 * b, b / 0x40, a + 0x100000 * (b % 0x40), 0x4000000);
    ModUnique(l + 0x40 * (a + 0x100000 * (b % 0x40)), b % 0x40, l + 0x40 * a, 0x4000000);
  }

  lemma DropHigh20(l: nat, a: nat, b: nat)
    requires l < 0x1000 && a < 0x4000
    ensures (l + 0x1000 * ((a + 0x4000 * b) % 0x100000)) % 0x4000000 == l + 0x1000 * a
  {
    ModUnique(a + 0x4000 * b, b / 0x40, a + 0x4000 * (b % 0x40), 0x100000);
    ModUnique(l + 0x1000 * (a + 0x4000 * (b % 0x40)), b % 0x40, l + 0x1000 * a, 0x4000000);
  }

  lemma DropHigh14(l: nat, a: nat, b: nat)
    requires l < 0x40000 && a < 0x100
    ensures (l + 0x40000 * ((a + 0x100 * b) % 0x4000)) % 0x4000000 == l + 0x40000 * a
  {
    ModUnique(a + 0x100 * b, b / 0x40, a + 0x100 * (b % 0x40), 0x4000);
    ModUnique(l + 0x40000 * (a + 0x100 * (b % 0x40)), b % 0x40, l + 0x40000 * a, 0x4000000);
  }

  lemma SplitFields(t0: nat, a0: nat, b0: nat, t1: nat, a1: nat, b1: nat, t2: nat, a2: nat, b2: nat,
                    t3: nat, a3: nat, b3: nat)
    requires t0 == a0 + 0x4000000 * b0 && t1 == a1 + 0x100000 * b1 && t2 == a2 + 0x4000 * b2 && t3 == a3 + 0x100 * b3
    ensures a0 + 0x4000000 * (b0 + 0x40 * a1 + 0x4000000 * (b1 + 0x1000 * a2
            + 0x4000000 * (b2 + 0x40000 * a3 + 0x4000000 * b3)))
            == t0 + 0x1_0000_0000 * (t1 + 0x1_0000_0000 * (t2 + 0x1_0000_0000 * t3))
  {
  }

  /** The limbs of the clamped multiplier. */
  function ClampedLimbs(w: Quad): Limbs {
    Limbs(BitAnd(w.t0, 0x03ffffff),
          BitAnd(Straddle(w.t0, w.t1, 0x4000000, 0x40), 0x03ffff03),
          BitAnd(Straddle(w.t1, w.t2, 0x100000, 0x1000), 0x03ffc0ff),
          BitAnd(Straddle(w.t2, w.t3, 0x4000, 0x40000), 0x03f03fff),
          BitAnd(w.t3 / 0x100, 0x000fffff))
  }

  lemma MaskLow(x: nat, m: nat)
    requires m < 0x4000000
    ensures BitAnd(x, m) == BitAnd(x % 0x4000000, m)
  {
    MaskTwo(x, m, x % 0x4000000, x / 0x4000000, m, 0, BitAnd(x % 0x4000000, m), 0);
  }

  lemma Shl26(x: nat)
    ensures Shl(x, 26) == 0x4000000 * x && Pow2(26) == 0x4000000
  {
    Powers();
    ShlIsMul(x, 26);
  }

  lemma MaskTwo(v: nat, w: nat, a: nat, b: nat, m: nat, n: nat, low: nat, high: nat)
    requires v == a + 0x4000000 * b && w == m + 0x4000000 * n
    requires a < 0x4000000 && m < 0x4000000 && low == BitAnd(a, m) && high == BitAnd(b, n)
    ensures BitAnd(v, w) == low + 0x4000000 * high
  {
    Shl26(b);
    Shl26(n);
    Shl26(high);
    BitAndConcat(v, w, a, b, m, n, 26);
  }

  lemma MaskTwoLimbs(a: Limbs, m: Limbs, r: Limbs, v: nat, w: nat)
    requires a.Canonical() && m.Canonical()
    requires r.l2 == BitAnd(a.l2, m.l2) && r.l3 == BitAnd(a.l3, m.l3) && r.l4 == BitAnd(a.l4, m.l4)
    requires v == a.l2 + 0x4000000 * (a.l3 + 0x4000000 * a.l4) && w == m.l2 + 0x4000000 * (m.l3 + 0x4000000 * m.l4)
    ensures BitAnd(v, w) == r.l2 + 0x4000000 * (r.l3 + 0x4000000 * r.l4)
  {
    var x, y, z := a.l3 + 0x4000000 * a.l4, m.l3 + 0x4000000 * m.l4, r.l3 + 0x4000000 * r.l4;
    MaskTwo(x, y, a.l3, a.l4, m.l3, m.l4, r.l3, r.l4);
    MaskTwo(v, w, a.l2, x, m.l2, y, r.l2, z);
  }

  lemma MaskLimbs(a: Limbs, m: Limbs, r: Limbs, v: nat, w: nat)
    requires a.Canonical() && m.Canonical() && v == a.Value() && w == m.Value()
    requires r.l0 == BitAnd(a.l0, m.l0) && r.l1 == BitAnd(a.l1, m.l1) && r.l2 == BitAnd(a.l2, m.l2)
    requires r.l3 == BitAnd(a.l3, m.l3) && r.l4 == BitAnd(a.l4, m.l4)
    ensures BitAnd(v, w) == r.Value()
  {
    var v2, w2 := a.l2 + 0x4000000 * (a.l3 + 0x4000000 * a.l4), m.l2 + 0x4000000 * (m.l3 + 0x4000000 * m.l4);
    var r2 := r.l2 + 0x4000000 * (r.l3 + 0x4000000 * r.l4);
    a.Expand();
    m.Expand();
    r.Expand();
    MaskTwoLimbs(a, m, r, v2, w2);
    var v1, w1, r1 := a.l1 + 0x4000000 * v2, m.l1 + 0x4000000 * w2, r.l1 + 0x4000000 * r2;
    MaskTwo(v1, w1, a.l1, v2, m.l1, w2, r.l1, r2);
    MaskTwo(v, w, a.l0, v1, m.l0, w1, r.l0, r1);
  }

  lemma ClampedValue(w: Quad)
    ensures ClampedLimbs(w).Canonical() && ClampedLimbs(w).Value() == BitAnd(w.Value(), CLAMP)
  {
    var c, r := Split(w), ClampedLimbs(w);
    SplitValue(w);
    Mask26(Straddle(w.t0, w.t1, 0x4000000, 0x40));
    Mask26(Straddle(w.t1, w.t2, 0x100000, 0x1000));
    Mask26(Straddle(w.t2, w.t3, 0x4000, 0x40000));
    MaskLow(Straddle(w.t0, w.t1, 0x4000000, 0x40), 0x03ffff03);
    MaskLow(Straddle(w.t1, w.t2, 0x100000, 0x1000), 0x03ffc0ff);
    MaskLow(Straddle(w.t2, w.t3, 0x4000, 0x40000), 0x03f03fff);
    var m := Limbs(0x03ffffff, 0x03ffff03, 0x03ffc0ff, 0x03f03fff, 0x000fffff);
    Mask26(w.t0);
    MaskLow(w.t0, 0x03ffffff);
    m.Expand();
    assert m.Value() == CLAMP;
    MaskLimbs(c, m, r, w.Value(), CLAMP);
    BitAndBound(c.l1, m.l1);
    BitAndBound(c.l2, m.l2);
    BitAndBound(c.l3, m.l3);
    BitAndBound(c.l4, m.l4);
  }

  // ---------------------------------------------------------------- h *= r, then a partial h %= p

  // Limbs of h may reach 2^27 + 2^6 after a block was added; limbs of r stay below 2^26.
  const H_MAX: nat := 0x8000040
  const R_MAX: nat := 0x4000000

  /** `(uint64_t)h*r`. */
  function Mul(h: nat, r: nat): (d: nat)
    requires h <= H_MAX && r <= R_MAX
    ensures d <= 0x20000100000000
  {
    MulLe(h, H_MAX, r, R_MAX);
    h * r
  }

  lemma MulLe(a: nat, b: nat, c: nat, d: nat)
    requires a <= b && c <= d
    ensures a * c <= b * d
  {
    assert a * c <= b * c;
    assert b * c <= b * d;
  }

  predicate Added(h: Limbs) {
    h.l0 <= H_MAX && h.l1 <= H_MAX && h.l2 <= H_MAX && h.l3 <= H_MAX && h.l4 <= H_MAX
  }

  const MUL_MAX: nat := 0x20000100000000

  predicate Scaled(a: Limbs) {
    a.l0 <= MUL_MAX && a.l1 <= MUL_MAX && a.l2 <= MUL_MAX && a.l3 <= MUL_MAX && a.l4 <= MUL_MAX
  }

  predicate ColumnsFit(d: Limbs) {
    d.l0 <= 21 * MUL_MAX && d.l1 <= 17 * MUL_MAX && d.l2 <= 13 * MUL_MAX && d.l3 <= 9 * MUL_MAX && d.l4 <= 5 * MUL_MAX
  }

  /** The five sums d0..d4 of the rows h[i]*r; every one fits in 64 bits. */
  function Columns(a0: Limbs, a1: Limbs, a2: Limbs, a3: Limbs, a4: Limbs): (d: Limbs)
    requires Scaled(a0) && Scaled(a1) && Scaled(a2) && Scaled(a3) && Scaled(a4)
    ensures ColumnsFit(d)
  {
    Limbs(
      a0.l0 + a1.l4 * 5 + a2.l3 * 5 + a3.l2 * 5 + a4.l1 * 5,
      a0.l1 + a1.l0 + a2.l4 * 5 + a3.l3 * 5 + a4.l2 * 5,
      a0.l2 + a1.l1 + a2.l0 + a3.l4 * 5 + a4.l3 * 5,
      a0.l3 + a1.l2 + a2.l1 + a3.l0 + a4.l4 * 5,
      a0.l4 + a1.l3 + a2.l2 + a3.l1 + a4.l0)
  }

  /** The schoolbook product and the columns differ by a multiple of 2^130 - 5. */
  lemma ColumnsValue(a0: Limbs, a1: Limbs, a2: Limbs, a3: Limbs, a4: Limbs) returns (k: nat)
    requires Scaled(a0) && Scaled(a1) && Scaled(a2) && Scaled(a3) && Scaled(a4)
    ensures Limbs(a0.Value(), a1.Value(), a2.Value(), a3.Value(), a4.Value()).Value()
            == Columns(a0, a1, a2, a3, a4).Value() + P * k
  {
    hide Limbs.From, Limbs.Value, Scaled, ColumnsFit;
    var over := Limbs(a1.l4 + a2.l3 + a3.l2 + a4.l1, a2.l4 + a3.l3 + a4.l2, a3.l4 + a4.l3, a4.l4, 0);
    over.Expand();
    k := over.Value();
    Limbs(a0.Value(), a1.Value(), a2.Value(), a3.Value(), a4.Value()).Expand();
    Columns(a0, a1, a2, a3, a4).Expand();
    a0.Expand();
    a1.Expand();
    a2.Expand();
    a3.Expand();
    a4.Expand();
  }

  /** One limb of h times all limbs of r. */
  method Scale(x: nat, r: Limbs) returns (a: Limbs)
    requires x <= H_MAX && r.Canonical()
    ensures Scaled(a) && a.Value() == Times(x, r.Value())
  {
    a := Limbs(Mul(x, r.l0), Mul(x, r.l1), Mul(x, r.l2), Mul(x, r.l3), Mul(x, r.l4));
    ScaleValue(x, r, a);
    TimesIsMul(x, r.Value());
  }

  lemma ScaleValue(x: nat, r: Limbs, a: Limbs)
    requires a == Limbs(x * r.l0, x * r.l1, x * r.l2, x * r.l3, x * r.l4)
    ensures a.Value() == x * r.Value()
  {
    hide Limbs.From, Limbs.Value;
    r.Expand();
    a.Expand();
    var v3 := r.l3 + 0x4000000 * r.l4;
    var v2 := r.l2 + 0x4000000 * v3;
    var v1 := r.l1 + 0x4000000 * v2;
    assert x * v3 == x * r.l3 + 0x4000000 * (x * r.l4);
    assert x * v2 == x * r.l2 + 0x4000000 * (x * v3);
    assert x * v1 == x * r.l1 + 0x4000000 * (x * v2);
    assert x * r.Value() == x * r.l0 + 0x4000000 * (x * v1);
  }

  lemma RowsValue(h: Limbs, v: nat)
    ensures Times(h.Value(), v)
            == Limbs(Times(h.l0, v), Times(h.l1, v), Times(h.l2, v), Times(h.l3, v), Times(h.l4, v)).Value()
  {
    h.Expand();
    Limbs(Times(h.l0, v), Times(h.l1, v), Times(h.l2, v), Times(h.l3, v), Times(h.l4, v)).Expand();
    var h3 := h.l3 + 0x4000000 * h.l4;
    var h2 := h.l2 + 0x4000000 * h3;
    var h1 := h.l1 + 0x4000000 * h2;
    HornerTimes(h.l3, h.l4, h3, v);
    HornerTimes(h.l2, h3, h2, v);
    HornerTimes(h.l1, h2, h1, v);
    HornerTimes(h.l0, h1, h.Value(), v);
  }

  lemma HornerTimes(lo: nat, hi: nat, x: nat, v: nat)
    requires x == lo + 0x4000000 * hi
    ensures Times(x, v) == Times(lo, v) + 0x4000000 * Times(hi, v)
  {
    TimesIsMul(x, v);
    TimesIsMul(lo, v);
    TimesIsMul(hi, v);
    Distribute(lo, 0x4000000, hi, v);
  }

  lemma SameMod(x: nat, y: nat, k: nat)
    requires x == y + P * k
    ensures x % P == y % P
  {
    ModPlusMultiple(y, k, P);
  }

  /** "h *= r". */
  method Multiply(h: Limbs, r: Limbs) returns (d: Limbs)
    requires Added(h) && r.Canonical()
    ensures ColumnsFit(d)
    ensures d.Value() % P == Times(h.Value(), r.Value()) % P
  {
    var a0 := Scale(h.l0, r);
    var a1 := Scale(h.l1, r);
    var a2 := Scale(h.l2, r);
    var a3 := Scale(h.l3, r);
    var a4 := Scale(h.l4, r);
    d := Columns(a0, a1, a2, a3, a4);
    RowsValue(h, r.Value());
    ghost var k := ColumnsValue(a0, a1, a2, a3, a4);
    SameMod(Times(h.Value(), r.Value()), d.Value(), k);
  }

  /** `(uint32_t)(d >> 26)`: the cast must not lose bits. */
  function High26(d: uint64): (c: uint32)
    requires d < 0x400_0000_0000_0000
  {
    d / 0x4000000
  }

  /** Passing carries q0..q3 up the limbs keeps the value. */
  lemma CarryUp(a: Limbs, c: Limbs, q0: nat, q1: nat, q2: nat, q3: nat)
    requires a.l0 == c.l0 + 0x4000000 * q0 && a.l1 + q0 == c.l1 + 0x4000000 * q1
    requires a.l2 + q1 == c.l2 + 0x4000000 * q2 && a.l3 + q2 == c.l3 + 0x4000000 * q3 && a.l4 + q3 == c.l4
    ensures a.Value() == c.Value()
  {
    a.Expand();
    c.Expand();
  }

  /** Folding the carry out of the top limb back in as 5 subtracts a multiple of 2^130 - 5. */
  lemma FoldTop(a: Limbs, c: Limbs, q4: nat, q0: nat)
    requires a.l4 == c.l4 + 0x4000000 * q4 && a.l0 + q4 * 5 == c.l0 + 0x4000000 * q0 && c.l1 == a.l1 + q0
    requires c.l2 == a.l2 && c.l3 == a.l3
    ensures a.Value() == c.Value() + P * q4
  {
    a.Expand();
    c.Expand();
  }

  /** "(partial) h %= p". */
  method Carry(d: Limbs) returns (h: Limbs)
    requires ColumnsFit(d)
    ensures h.Reduced() && h.Value() % P == d.Value() % P
  {
    var c0: uint32 := High26(d.l0);
    var d1: uint64 := d.l1 + c0;
    var c1: uint32 := High26(d1);
    var d2: uint64 := d.l2 + c1;
    var c2: uint32 := High26(d2);
    var d3: uint64 := d.l3 + c2;
    var c3: uint32 := High26(d3);
    var d4: uint64 := d.l4 + c3;
    var c4: uint32 := High26(d4);
    var h0: uint32 := d.l0 % 0x4000000 + c4 * 5;
    h := Limbs(h0 % 0x4000000, d1 % 0x4000000 + h0 / 0x4000000, d2 % 0x4000000, d3 % 0x4000000, d4 % 0x4000000);
    ghost var a := Limbs(d.l0 % 0x4000000, d1 % 0x4000000, d2 % 0x4000000, d3 % 0x4000000, d4);
    CarryUp(d, a, c0, c1, c2, c3);
    FoldTop(a, h, c4, h0 / 0x4000000);
    SameMod(d.Value(), h.Value(), c4);
  }

  // ---------------------------------------------------------------- one block

  /** "h += x": the high bit marks a full block. */
  method AddBlock(h: Limbs, w: Quad, full: bool) returns (h': Limbs)
    requires h.Reduced()
    ensures Added(h') && h'.Value() == h.Value() + w.Value() + (if full then TWO_128 else 0)
  {
    var c := Split(w);
    SplitValue(w);
    TopBit(c.l4);
    h' := Limbs(h.l0 + c.l0, h.l1 + c.l1, h.l2 + c.l2, h.l3 + c.l3, h.l4 + BitOr(c.l4, if full then 0x1000000 else 0));
    h.Expand();
    c.Expand();
    h'.Expand();
  }

  lemma TopBit(x: nat)
    requires x < 0x1000000
    ensures BitOr(x, 0x1000000) == x + 0x1000000 && BitOr(x, 0) == x
  {
    hide Pow2, Shl, BitOr;
    NoTopBit(x);
    Powers();
    Pow2Add(18, 6);
    Disjoint(x, 1, 24, 0x1000000);
  }

  lemma NoTopBit(x: nat)
    ensures BitOr(x, 0) == x
  {
  }

  /** The loop body: from any reduced h it computes (h + block) * r modulo 2^130 - 5. */
  method ProcessBlock(h: Limbs, r: Limbs, w: Quad, full: bool) returns (h': Limbs)
    requires h.Reduced() && r.Canonical()
    ensures h'.Reduced()
    ensures h'.Value() % P == Times(h.Value() % P + (w.Value() + if full then TWO_128 else 0), r.Value()) % P
  {
    hide Limbs.From, Limbs.Value, Quad.Value, Quad.From, Times, Limbs.Reduced, Limbs.Canonical;
    ghost var x := w.Value() + if full then TWO_128 else 0;
    var a := AddBlock(h, w, full);
    var d := Multiply(a, r);
    h' := Carry(d);
    ReduceFirst(h.Value(), x, r.Value(), a.Value());
  }

  lemma ReduceFirst(h: nat, x: nat, r: nat, a: nat)
    requires a == h + x
    ensures Times(h % P + x, r) % P == Times(a, r) % P
  {
    TimesMod(h, x, r, P);
  }

  // ---------------------------------------------------------------- the final reduction

  /** `x & 0x3ffffff` and `x >> 26`. */
  method Cut26(x: uint32) returns (lo: uint32, hi: uint32)
    ensures x == lo + 0x4000000 * hi && lo < 0x4000000
  {
    Mask26(x);
    lo, hi := BitAnd(x, 0x03ffffff), x / 0x4000000;
  }

  /** "fully carry h". */
  method FullCarry(h: Limbs) returns (c: Limbs)
    requires h.Reduced()
    ensures c.Canonical() && c.Value() % P == h.Value() % P
  {
    hide Limbs.From, Limbs.Value;
    var h1, q1 := Cut26(h.l1);
    var h2, q2 := Cut26(h.l2 + q1);
    var h3, q3 := Cut26(h.l3 + q2);
    var h4, q4 := Cut26(h.l4 + q3);
    var h0, q0 := Cut26(h.l0 + q4 * 5);
    assert q4 == 0 || (q4 == 1 && q1 == 1);
    c := Limbs(h0, h1 + q0, h2, h3, h4);
    ghost var a := Limbs(h.l0, h1, h2, h3, h.l4 + q3);
    CarryUp(h, a, 0, q1, q2, q3);
    FoldTop(a, c, q4, q0);
    SameMod(h.Value(), c.Value(), q4);
  }

  /** "compute h + -p": the top word wraps below zero exactly when h < p. */
  method MinusP(h: Limbs) returns (t: Limbs)
    requires h.Canonical()
    ensures h.Value() >= P ==> t.Canonical() && t.Value() == h.Value() - P
    ensures h.Value() < P ==> t.l4 >= 0x8000_0000
    ensures t.l0 < 0x4000000 && t.l1 < 0x4000000 && t.l2 < 0x4000000 && t.l3 < 0x4000000 && t.l4 < 0x1_0000_0000
  {
    hide Limbs.From, Limbs.Value;
    var t0, q0 := Cut26(h.l0 + 5);
    var t1, q1 := Cut26(h.l1 + q0);
    var t2, q2 := Cut26(h.l2 + q1);
    var t3, q3 := Cut26(h.l3 + q2);
    var t4 := h.l4 + q3;
    WrapBelow(t4 - 0x4000000);
    t := Limbs(t0, t1, t2, t3, (t4 - 0x4000000) % 0x1_0000_0000);
    ghost var a := Limbs(t0, t1, t2, t3, t4);
    CarryUp(h.(l0 := h.l0 + 5), a, q0, q1, q2, q3);
    h.Expand();
    h.(l0 := h.l0 + 5).Expand();
    t.Expand();
    a.Expand();
    TopLimb(a);
  }

  lemma WrapBelow(x: int)
    requires -0x1_0000_0000 <= x < 0x1_0000_0000
    ensures x % 0x1_0000_0000 == if x < 0 then x + 0x1_0000_0000 else x
  {
  }

  lemma TopLimb(c: Limbs)
    requires c.l0 < 0x4000000 && c.l1 < 0x4000000 && c.l2 < 0x4000000 && c.l3 < 0x4000000
    ensures c.Value() >= P + 5 <==> c.l4 >= 0x4000000
  {
    c.Expand();
  }

  /** `(h & ~b) | (t & b)` for a mask b of all zeros or all ones. */
  method Select(h: uint32, t: uint32, b: uint32) returns (r: uint32)
    requires b == 0 || b == 0xffff_ffff
    ensures r == if b == 0 then h else t
  {
    MaskAll(h);
    MaskAll(t);
    r := BitOr(BitAnd(h, 0xffff_ffff - b), BitAnd(t, b));
  }

  lemma MaskAll(x: uint32)
    ensures BitAnd(x, 0xffff_ffff) == x && BitAnd(x, 0) == 0
    ensures BitOr(x, 0) == x && BitOr(0, x) == x
  {
    Powers();
    MaskFor(x, 0xffff_ffff);
  }

  lemma MaskFor(x: uint32, m: nat)
    requires m == Pow2(32) - 1 == 0xffff_ffff
    ensures BitAnd(x, m) == x
  {
    hide Pow2, BitAnd;
    BitAndMask(x, 32);
  }

  /** "select h if h < p, or h + -p if h >= p": p is subtracted exactly when h >= p. */
  method Reduce(h: Limbs) returns (c: Limbs)
    requires h.Canonical()
    ensures c.Canonical() && c.Value() == h.Value() % P
  {
    var t := MinusP(h);
    WrapBelow(t.l4 / 0x8000_0000 - 1);
    var b: uint32 := (t.l4 / 0x8000_0000 - 1) % 0x1_0000_0000;
    var c0 := Select(h.l0, t.l0, b);
    var c1 := Select(h.l1, t.l1, b);
    var c2 := Select(h.l2, t.l2, b);
    var c3 := Select(h.l3, t.l3, b);
    var c4 := Select(h.l4, t.l4, b);
    c := Limbs(c0, c1, c2, c3, c4);
    assert c == if b == 0 then h else t;
    BelowTwoP(h);
  }

  lemma BelowTwoP(h: Limbs)
    requires h.Canonical()
    ensures h.Value() % P == if h.Value() < P then h.Value() else h.Value() - P
  {
    h.Expand();
    assert h.Value() < P + P;
    if h.Value() >= P {
      ModPlusOne(h.Value() - P, P);
    }
  }

  // ---------------------------------------------------------------- back to 32-bit words

  /** "h = h % (2^128)": four 32-bit words from the limbs. */
  method Pack(h: Limbs) returns (w: Quad)
    requires h.Canonical()
    ensures w.Value() == h.Value() % TWO_128
  {
    PackWords(h);
    w := Quad(Straddle(h.l0, h.l1, 1, 0x4000000), Straddle(h.l1, h.l2, 0x40, 0x100000),
              Straddle(h.l2, h.l3, 0x1000, 0x4000), Straddle(h.l3, h.l4, 0x40000, 0x100));
    PackSum(h, w);
    ModUnique(h.Value(), h.l4 / 0x1000000, w.Value(), TWO_128);
  }

  lemma PackWords(h: Limbs)
    requires h.Canonical()
    ensures Straddle(h.l0, h.l1, 1, 0x4000000) == h.l0 + 0x4000000 * (h.l1 % 0x40)
    ensures Straddle(h.l1, h.l2, 0x40, 0x100000) == h.l1 / 0x40 + 0x100000 * (h.l2 % 0x1000)
    ensures Straddle(h.l2, h.l3, 0x1000, 0x4000) == h.l2 / 0x1000 + 0x4000 * (h.l3 % 0x40000)
    ensures Straddle(h.l3, h.l4, 0x40000, 0x100) == h.l3 / 0x40000 + 0x100 * (h.l4 % 0x1000000)
  {
    Powers();
    Pow2Add(8, 6);
    ModUnique(h.l1 * 0x4000000, h.l1 / 0x40, 0x4000000 * (h.l1 % 0x40), 0x1_0000_0000);
    ModUnique(h.l2 * 0x100000, h.l2 / 0x1000, 0x100000 * (h.l2 % 0x1000), 0x1_0000_0000);
    ModUnique(h.l3 * 0x4000, h.l3 / 0x40000, 0x4000 * (h.l3 % 0x40000), 0x1_0000_0000);
    ModUnique(h.l4 * 0x100, h.l4 / 0x1000000, 0x100 * (h.l4 % 0x1000000), 0x1_0000_0000);
    Disjoint(h.l0, h.l1 % 0x40, 26, 0x4000000);
    Disjoint(h.l1 / 0x40, h.l2 % 0x1000, 20, 0x100000);
    Disjoint(h.l2 / 0x1000, h.l3 % 0x40000, 14, 0x4000);
    Disjoint(h.l3 / 0x40000, h.l4 % 0x1000000, 8, 0x100);
  }

  lemma PackSum(h: Limbs, w: Quad)
    requires w.t0 == h.l0 + 0x4000000 * (h.l1 % 0x40) && w.t1 == h.l1 / 0x40 + 0x100000 * (h.l2 % 0x1000)
    requires w.t2 == h.l2 / 0x1000 + 0x4000 * (h.l3 % 0x40000) && w.t3 == h.l3 / 0x40000 + 0x100 * (h.l4 % 0x1000000)
    ensures h.Value() == w.Value() + TWO_128 * (h.l4 / 0x1000000)
    ensures w.Value() < TWO_128
  {
    h.Expand();
    w.Expand();
  }

  /** "mac = (h + pad) % (2^128)". */
  method AddPad(h: Quad, s: Quad) returns (mac: Quad)
    ensures mac.Value() == (h.Value() + s.Value()) % TWO_128
  {
    hide Quad.From, Quad.Value;
    var d0: uint64 := h.t0 + s.t0;
    var d1: uint64 := h.t1 + s.t1 + d0 / 0x1_0000_0000;
    var d2: uint64 := h.t2 + s.t2 + d1 / 0x1_0000_0000;
    var d3: uint64 := h.t3 + s.t3 + d2 / 0x1_0000_0000;
    mac := Quad(d0 % 0x1_0000_0000, d1 % 0x1_0000_0000, d2 % 0x1_0000_0000, d3 % 0x1_0000_0000);
    h.Expand();
    s.Expand();
    mac.Expand();
    ModUnique(h.Value() + s.Value(), d3 / 0x1_0000_0000, mac.Value(), TWO_128);
  }

  lemma FinishMod(h: nat, c: nat, r: nat, w: nat, s: nat)
    requires c % P == h % P && r == c % P && w == r % TWO_128
    ensures (w + s) % TWO_128 == (h % P + s) % TWO_128
  {
    ModAdd(r, s, TWO_128);
  }

  method Finish(h: Limbs, s: Quad) returns (mac: Quad)
    requires h.Reduced()
    ensures mac.Value() == (h.Value() % P + s.Value()) % TWO_128
  {
    var c := FullCarry(h);
    var r := Reduce(c);
    var w := Pack(r);
    FinishMod(h.Value(), c.Value(), r.Value(), w.Value(), s.Value());
    mac := AddPad(w, s);
  }

  // ---------------------------------------------------------------- whole messages

  lemma AccumulateStep(acc: nat, r: nat, data: seq<byte>, y: nat)
    requires data != [] && y % P == Times(acc + BlockValue(FirstBlock(data)), r) % P
    ensures Accumulate(acc, r, data) == Accumulate(y % P, r, data[|FirstBlock(data)|..])
  {
  }

  /** Feeding 16-byte aligned pieces one after the other equals feeding them together. */
  lemma {:induction false} AccumulateConcat(acc: nat, r: nat, a: seq<byte>, b: seq<byte>)
    requires |a| % 16 == 0
    ensures Accumulate(Accumulate(acc, r, a), r, b) == Accumulate(acc, r, a + b)
    decreases |a|
  {
    if a == [] {
      assert a + b == b;
    } else {
      assert FirstBlock(a + b) == a[..16] == FirstBlock(a);
      assert (a + b)[16..] == a[16..] + b;
      AccumulateConcat(Times(acc + BlockValue(a[..16]), r) % P, r, a[16..], b);
    }
  }

  function PadByte(k: nat, tail: seq<byte>): byte {
    if k < |tail| then tail[k] else if k == |tail| then 1 else 0
  }

  lemma PaddedBlockValue(x: seq<byte>, tail: seq<byte>)
    requires |x| == 16 && |tail| < 16
    requires forall k | 0 <= k < 16 :: x[k] == PadByte(k, tail)
    ensures LE(x) == BlockValue(tail)
  {
    var n := |tail|;
    var zeros: seq<byte> := seq(15 - n, _ => 0);
    assert x == tail + ([1] + zeros);
    LEConcat(tail, [1] + zeros);
    assert ([1] + zeros)[1..] == zeros;
    LEZeros(15 - n);
  }

  /** The block at `i`, copied and padded in a 16-byte buffer. */
  method LoadBlock(data: seq<byte>, i: nat) returns (w: Quad)
    requires i < |data|
    ensures w.Value() + (if i + 16 <= |data| then TWO_128 else 0) == BlockValue(FirstBlock(data[i..]))
  {
    hide LE, Pow2, Quad.From;
    var x := new byte[16];
    if i + 16 > |data| {
      var n := |data| - i;
      forall k | 0 <= k < n { x[k] := data[i + k]; }
      forall k | n <= k < 16 { x[k] := 0; }
      x[n] := 1;
      PaddedBlockValue(x[..], data[i..]);
    } else {
      forall k | 0 <= k < 16 { x[k] := data[i + k]; }
      Powers();
      assert x[..] == FirstBlock(data[i..]);
    }
    w := Load(x[..]);
  }

  function State(h: array<uint32>): Limbs
    requires h.Length == 5
    reads h
  {
    Limbs(h[0], h[1], h[2], h[3], h[4])
  }

  method ClampKey(key: seq<byte>) returns (r: Limbs)
    requires |key| == 32
    ensures r.Canonical() && r.Value() == R(key)
  {
    var w := Load(key[..16]);
    ClampedValue(w);
    r := ClampedLimbs(w);
  }

  lemma PolyStep(data: seq<byte>, i: nat, acc: nat, r: nat, y: nat, x: nat)
    requires i < |data| && x == BlockValue(FirstBlock(data[i..])) && y % P == Times(acc % P + x, r) % P
    ensures Accumulate(y % P, r, if i + 16 <= |data| then data[i + 16..] else []) == Accumulate(acc % P, r, data[i..])
  {
    AccumulateStep(acc % P, r, data[i..], y);
    var n := |FirstBlock(data[i..])|;
    assert data[i..][n..] == if i + 16 <= |data| then data[i + 16..] else [];
  }

  /** The loop over 16-byte blocks. */
  method Absorb(h: Limbs, r: Limbs, data: seq<byte>) returns (s: Limbs)
    requires h.Reduced() && r.Canonical()
    ensures s.Reduced() && s.Value() % P == Accumulate(h.Value() % P, r.Value(), data)
  {
    ghost var rv := r.Value();
    s := h;
    var i := 0;
    assert data[0..] == data;
    while i < |data|
      invariant s.Reduced()
      invariant Accumulate(s.Value() % P, rv, if i <= |data| then data[i..] else [])
                == Accumulate(h.Value() % P, rv, data)
    {
      var w := LoadBlock(data, i);
      var full := i + 16 <= |data|;
      ghost var before := s.Value();
      s := ProcessBlock(s, r, w, full);
      PolyStep(data, i, before, rv, s.Value(), w.Value() + if full then TWO_128 else 0);
      i := i + 16;
    }
    assert i <= |data| ==> data[i..] == [];
  }

  /** _BRPoly1305Compress: absorbs `data` into the limbs; with `final`, leaves the four words of the tag. */
  method Compress(h: array<uint32>, key: seq<byte>, data: seq<byte>, final: bool)
    requires h.Length == 5 && |key| == 32 && State(h).Reduced()
    modifies h
    ensures !final ==> State(h).Reduced()
    ensures !final ==> State(h).Value() % P == Accumulate(old(State(h).Value()) % P, R(key), data)
    ensures final ==> Quad(h[0], h[1], h[2], h[3]).Value()
                      == (Accumulate(old(State(h).Value()) % P, R(key), data) + LE(key[16..])) % TWO_128
  {
    hide Limbs.From, Limbs.Value, Accumulate, R, LE, Quad.From, Quad.Value;
    var r := ClampKey(key);
    var s := Absorb(State(h), r, data);
    if final {
      var pad := Load(key[16..]);
      var mac := Finish(s, pad);
      h[0], h[1], h[2], h[3] := mac.t0, mac.t1, mac.t2, mac.t3;
    } else {
      h[0], h[1], h[2], h[3], h[4] := s.l0, s.l1, s.l2, s.l3, s.l4;
    }
  }

  function WordBytes(t: uint32): (s: seq<byte>)
    ensures |s| == 4
  {
    ToLE(t, 4)
  }

  function QuadBytes(w: Quad): (s: seq<byte>)
    ensures |s| == 16
  {
    WordBytes(w.t0) + (WordBytes(w.t1) + (WordBytes(w.t2) + WordBytes(w.t3)))
  }

  lemma QuadBytesValue(w: Quad)
    ensures LE(QuadBytes(w)) == w.Value()
  {
    Powers();
    LEToLE(w.t0, 4);
    LEToLE(w.t1, 4);
    LEToLE(w.t2, 4);
    LEToLE(w.t3, 4);
    LEWord(WordBytes(w.t2), WordBytes(w.t3));
    LEWord(WordBytes(w.t1), WordBytes(w.t2) + WordBytes(w.t3));
    LEWord(WordBytes(w.t0), WordBytes(w.t1) + (WordBytes(w.t2) + WordBytes(w.t3)));
    w.Expand();
  }

  lemma WordBytesLoad(t: uint32)
    ensures LE32(WordBytes(t)) == t
  {
    Powers();
    LEToLE(t, 4);
  }

  lemma QuadBytesLoad(w: Quad)
    ensures Load(QuadBytes(w)) == w
  {
    var b := QuadBytes(w);
    WordBytesLoad(w.t0);
    WordBytesLoad(w.t1);
    WordBytesLoad(w.t2);
    WordBytesLoad(w.t3);
    assert b[0..4] == WordBytes(w.t0) && b[4..8] == WordBytes(w.t1);
    assert b[8..12] == WordBytes(w.t2) && b[12..16] == WordBytes(w.t3);
  }

  /** `uint32_t h[5] = { 0, 0, 0, 0, 0 }`. */
  method NewState() returns (h: array<uint32>)
    ensures fresh(h) && h.Length == 5 && State(h).Reduced() && State(h).Value() % P == 0
  {
    h := new uint32[5](_ => 0);
    State(h).Expand();
  }

  /** BRPoly1305: the tag of RFC 7539, section 2.5, for every key and message. */
  method Poly1305(key: seq<byte>, data: seq<byte>) returns (mac16: seq<byte>)
    requires |key| == 32
    ensures |mac16| == 16 && LE(mac16) == Mac(key, data)
  {
    var h := NewState();
    Compress(h, key, data, true);
    var w := Quad(h[0], h[1], h[2], h[3]);
    QuadBytesValue(w);
    mac16 := QuadBytes(w);
  }
}
