/**
 The Mac of Poly1305 in the words of RFC 7539: the clamping of r byte by byte, the tag as the value of a polynomial, and
 the example of section 2.5.2.
 */
module Poly1305Spec {
  import opened Common
  import opened Words
  import opened Poly1305

  // ---------------------------------------------------------------- clamping

  /** Section 2.5: the top four bits of bytes 3, 7, 11 and 15 and the low two bits of bytes 4, 8 and 12 are cleared. */
  function ClampedByte(i: nat, x: byte): byte {
    if i % 4 == 3 then x % 16
    else if i % 4 == 0 && i > 0 then x / 4 * 4
    else x
  }

  function Clamped(key: seq<byte>): (c: seq<byte>)
    requires |key| == 16
    ensures |c| == 16
  {
    seq(16, i requires 0 <= i < 16 => ClampedByte(i, key[i]))
  }

  function MaskByte(i: nat): byte {
    if i % 4 == 3 then 0x0f
    else if i % 4 == 0 && i > 0 then 0xfc
    else 0xff
  }

  lemma LowByte(x: byte)
    ensures BitAnd(x, 0xff) == x && BitAnd(x, 0x0f) == x % 16
  {
    hide BitAnd, Pow2;
    Powers();
    Sixteenth();
    BitAndMask(x, 8);
    BitAndMask(x, 4);
  }

  lemma Sixteenth()
    ensures Pow2(4) == 16
  {
  }

  /** 0xfc is 0x3f two places up. */
  lemma HighBits(x: byte)
    ensures BitAnd(x, 0xfc) == x / 4 * 4
  {
    hide BitAnd, Shl, Pow2;
    Powers();
    Two();
    ShlIsMul(x / 4, 2);
    ShlIsMul(0x3f, 2);
    BitAndConcat(x, 0xfc, x % 4, x / 4, 0, 0x3f, 2);
    Nothing(x % 4);
    BitAndMask(x / 4, 6);
    ShlIsMul(BitAnd(x / 4, 0x3f), 2);
  }

  lemma Nothing(x: nat)
    ensures BitAnd(x, 0) == 0
  {
  }

  lemma ByteClamped(i: nat, x: byte)
    ensures BitAnd(x, MaskByte(i)) == ClampedByte(i, x)
  {
    LowByte(x);
    HighBits(x);
  }

  /** Numbers are masked byte by byte. */
  lemma {:induction false} MaskBytes(s: seq<byte>, m: seq<byte>, c: seq<byte>)
    requires |s| == |m| == |c| && forall i :: 0 <= i < |s| ==> BitAnd(s[i], m[i]) == c[i]
    ensures BitAnd(LE(s), LE(m)) == LE(c)
  {
    if s == [] {
    } else {
      MaskBytes(s[1..], m[1..], c[1..]);
      assert Pow2(8) == 256;
      ShlIsMul(LE(s[1..]), 8);
      ShlIsMul(LE(m[1..]), 8);
      ShlIsMul(LE(c[1..]), 8);
      BitAndConcat(LE(s), LE(m), s[0], LE(s[1..]), m[0], LE(m[1..]), 8);
    }
  }

  function Mask(): (m: seq<byte>)
    ensures |m| == 16 && forall i :: 0 <= i < 16 ==> m[i] == MaskByte(i)
  {
    [0xff, 0xff, 0xff, 0x0f] + [0xfc, 0xff, 0xff, 0x0f] + ([0xfc, 0xff, 0xff, 0x0f] + [0xfc, 0xff, 0xff, 0x0f])
  }

  lemma Spelled()
    ensures Spell(0xff, 0xff, 0xff, 0x0f) == 0x0fffffff && Spell(0xfc, 0xff, 0xff, 0x0f) == 0x0ffffffc
  {
  }

  lemma MaskIsClamp()
    ensures LE(Mask()) == CLAMP
  {
    hide LE, Pow2, Spell;
    var a: seq<byte>, b: seq<byte> := [0xff, 0xff, 0xff, 0x0f], [0xfc, 0xff, 0xff, 0x0f];
    LESmall(a);
    LESmall(b);
    Spelled();
    Powers();
    LEConcat(a, b);
    LEConcat(b, b);
    LEConcat(a + b, b + b);
  }

  /** The multiplier is the first half of the key, clamped byte by byte. */
  lemma ClampBytes(key: seq<byte>)
    requires |key| == 32
    ensures R(key) == LE(Clamped(key[..16]))
  {
    MaskIsClamp();
    forall i | 0 <= i < 16 ensures BitAnd(key[..16][i], Mask()[i]) == Clamped(key[..16])[i] {
      ByteClamped(i, key[i]);
    }
    MaskBytes(key[..16], Mask(), Clamped(key[..16]));
  }

  // ---------------------------------------------------------------- a polynomial

  /** The blocks of a message as numbers: each with a one bit behind its last byte. */
  function Coefficients(data: seq<byte>): seq<nat>
    decreases |data|
  {
    if data == [] then []
    else
      var b := if |data| <= 16 then data else data[..16];
      [LE(b) + Pow2(8 * |b|)] + Coefficients(data[|b|..])
  }

  /** c[0]*r^n + c[1]*r^(n-1) + .. + c[n-1]*r. */
  function Evaluate(r: nat, c: seq<nat>): nat {
    if c == [] then 0 else c[0] * Pow(r, |c|) + Evaluate(r, c[1..])
  }

  /** acc, reduced or not, moves up by n places. */
  lemma Reduce(acc: nat, b: nat, r: nat, n: nat, rest: nat)
    requires n > 0
    ensures ((acc + b) * r % P * Pow(r, n - 1) + rest) % P == (acc * Pow(r, n) + (b * Pow(r, n) + rest)) % P
  {
    var x, q := (acc + b) * r, Pow(r, n - 1);
    ModMulAdd(x, 0, q, P);
    ModAdd(x % P * q, rest, P);
    ModAdd(x * q, rest, P);
    assert x * q == (acc + b) * Pow(r, n) by {
      Mul3(acc + b, r, q);
    }
    assert (acc + b) * Pow(r, n) == acc * Pow(r, n) + b * Pow(r, n);
  }

  lemma {:induction false} AccumulateIs(acc: nat, r: nat, data: seq<byte>)
    ensures Accumulate(acc, r, data) % P ==
            (acc * Pow(r, |Coefficients(data)|) + Evaluate(r, Coefficients(data))) % P
    decreases |data|
  {
    hide BlockValue, Times, Pow, Evaluate;
    if data == [] {
      One(r);
    } else {
      var b := FirstBlock(data);
      FirstCoefficient(data);
      TimesIsMul(acc + BlockValue(b), r);
      AccumulateIs((acc + BlockValue(b)) * r % P, r, data[|b|..]);
      StepIs(acc, BlockValue(b), r, Coefficients(data[|b|..]));
    }
  }

  lemma FirstCoefficient(data: seq<byte>)
    requires data != []
    ensures Coefficients(data) == [BlockValue(FirstBlock(data))] + Coefficients(data[|FirstBlock(data)|..])
  {
  }

  /** One step of both sides. */
  lemma StepIs(acc: nat, b: nat, r: nat, rest: seq<nat>)
    ensures ((acc + b) * r % P * Pow(r, |rest|) + Evaluate(r, rest)) % P ==
            (acc * Pow(r, |[b] + rest|) + Evaluate(r, [b] + rest)) % P
  {
    hide Pow;
    assert ([b] + rest)[1..] == rest;
    Reduce(acc, b, r, |rest| + 1, Evaluate(r, rest));
  }

  lemma One(r: nat)
    ensures Pow(r, 0) == 1 && Evaluate(r, []) == 0
  {
  }

  lemma Below(acc: nat, r: nat, data: seq<byte>)
    requires acc < P
    ensures Accumulate(acc, r, data) < P
    decreases |data|
  {
    hide LE, Pow2, Times;
  }

  /** The Mac of a message is its polynomial at the clamped half of the key, modulo 2^130 - 5, plus the other half,
      modulo 2^128. */
  lemma MacIsPolynomial(key: seq<byte>, data: seq<byte>)
    requires |key| == 32
    ensures Pow2(130) > 5
    ensures Mac(key, data) ==
            (Evaluate(LE(Clamped(key[..16])), Coefficients(data)) % (Pow2(130) - 5) + LE(key[16..])) % Pow2(128)
  {
    hide LE, Clamped, Evaluate, Coefficients, Accumulate, BitAnd;
    var r := R(key);
    ClampBytes(key);
    AccumulateIs(0, r, data);
    Below(0, r, data);
    Small(Accumulate(0, r, data));
    Powers();
    Pow2Add(128, 2);
    Two();
  }

  lemma Small(x: nat)
    requires x < P
    ensures x % P == x
  {
  }

  lemma Two()
    ensures Pow2(2) == 4
  {
  }

  // ---------------------------------------------------------------- section 2.5.2

  /** The key 85d6..f51b. */
  function KeyR(): (s: seq<byte>)
    ensures |s| == 16
  {
    ([0x85, 0xd6, 0xbe, 0x78] + [0x57, 0x55, 0x6d, 0x33]) +
    ([0x7f, 0x44, 0x52, 0xfe] + [0x42, 0xd5, 0x06, 0xa8])
  }

  function KeyS(): (s: seq<byte>)
    ensures |s| == 16
  {
    ([0x01, 0x03, 0x80, 0x8a] + [0xfb, 0x0d, 0xb2, 0xfd]) +
    ([0x4a, 0xbf, 0xf6, 0xaf] + [0x41, 0x49, 0xf5, 0x1b])
  }

  /** "Cryptographic Fo", "rum Research Gro" and "up". */
  function Text(): seq<byte> {
    Text1() + (Text2() + [0x75, 0x70])
  }

  function Text1(): (s: seq<byte>)
    ensures |s| == 16
  {
    ([0x43, 0x72, 0x79, 0x70] + [0x74, 0x6f, 0x67, 0x72]) +
    ([0x61, 0x70, 0x68, 0x69] + [0x63, 0x20, 0x46, 0x6f])
  }

  function Text2(): (s: seq<byte>)
    ensures |s| == 16
  {
    ([0x72, 0x75, 0x6d, 0x20] + [0x52, 0x65, 0x73, 0x65]) +
    ([0x61, 0x72, 0x63, 0x68] + [0x20, 0x47, 0x72, 0x6f])
  }

  lemma Eight(a: seq<byte>, b: seq<byte>)
    requires |a| == |b| == 4
    ensures LE(a + b) == Spell(a[0], a[1], a[2], a[3]) + 0x1_0000_0000 * Spell(b[0], b[1], b[2], b[3])
  {
    hide LE, Pow2, Spell;
    LESmall(a);
    LESmall(b);
    LEWord(a, b);
  }

  lemma LEDouble(a: seq<byte>, b: seq<byte>)
    requires |a| == 8
    ensures LE(a + b) == LE(a) + 0x1_0000_0000_0000_0000 * LE(b)
  {
    hide LE, Pow2;
    Powers();
    LEConcat(a, b);
    assert 8 * |a| == 64;
  }

  lemma Sixteen(a: seq<byte>, b: seq<byte>, c: seq<byte>, d: seq<byte>)
    requires |a| == |b| == |c| == |d| == 4
    ensures LE((a + b) + (c + d)) == Spell(a[0], a[1], a[2], a[3]) + 0x1_0000_0000 * Spell(b[0], b[1], b[2], b[3]) +
                                     0x1_0000_0000_0000_0000 * (Spell(c[0], c[1], c[2], c[3]) +
                                                                0x1_0000_0000 * Spell(d[0], d[1], d[2], d[3]))
  {
    hide LE, Pow2, Spell;
    Eight(a, b);
    Eight(c, d);
    LEDouble(a + b, c + d);
  }

  lemma ClampedKey()
    ensures Clamped(KeyR()) == ([0x85, 0xd6, 0xbe, 0x08] + [0x54, 0x55, 0x6d, 0x03]) +
                               ([0x7c, 0x44, 0x52, 0x0e] + [0x40, 0xd5, 0x06, 0x08])
  {
  }

  lemma RIs()
    ensures LE(Clamped(KeyR())) == 0x806d5400e52447c036d555408bed685
  {
    hide LE, Clamped, KeyR;
    ClampedKey();
    Sixteen([0x85, 0xd6, 0xbe, 0x08], [0x54, 0x55, 0x6d, 0x03], [0x7c, 0x44, 0x52, 0x0e],
            [0x40, 0xd5, 0x06, 0x08]);
  }

  lemma SIs()
    ensures LE(KeyS()) == 0x1bf54941aff6bf4afdb20dfb8a800301
  {
    hide LE;
    Sixteen([0x01, 0x03, 0x80, 0x8a], [0xfb, 0x0d, 0xb2, 0xfd], [0x4a, 0xbf, 0xf6, 0xaf],
            [0x41, 0x49, 0xf5, 0x1b]);
  }

  lemma Text1Is()
    ensures LE(Text1()) == 0x6f4620636968706172676f7470797243
  {
    hide LE;
    Sixteen([0x43, 0x72, 0x79, 0x70], [0x74, 0x6f, 0x67, 0x72], [0x61, 0x70, 0x68, 0x69],
            [0x63, 0x20, 0x46, 0x6f]);
  }

  lemma Text2Is()
    ensures LE(Text2()) == 0x6f7247206863726165736552206d7572
  {
    hide LE;
    Sixteen([0x72, 0x75, 0x6d, 0x20], [0x52, 0x65, 0x73, 0x65], [0x61, 0x72, 0x63, 0x68],
            [0x20, 0x47, 0x72, 0x6f]);
  }

  lemma FirstOf(a: seq<byte>, rest: seq<byte>)
    requires 0 < |a| <= 16 && (rest == [] || |a| == 16)
    ensures Coefficients(a + rest) == [LE(a) + Pow2(8 * |a|)] + Coefficients(rest)
  {
    hide LE, Pow2;
    var data := a + rest;
    assert data[|a|..] == rest;
    assert (if |data| <= 16 then data else data[..16]) == a;
  }

  lemma LastTwo()
    ensures LE([0x75, 0x70]) + Pow2(16) == 0x17075
  {
    hide LE, Pow2;
    LESmall([0x75, 0x70]);
    Pow2Add(8, 8);
    Powers();
  }

  lemma TextCoefficients()
    ensures Coefficients(Text()) == [0x16f4620636968706172676f7470797243, 0x16f7247206863726165736552206d7572, 0x17075]
  {
    hide LE, Pow2, Text1, Text2;
    Powers();
    Text1Is();
    Text2Is();
    LastTwo();
    FirstOf(Text1(), Text2() + [0x75, 0x70]);
    FirstOf(Text2(), [0x75, 0x70]);
    FirstOf([0x75, 0x70], []);
    assert [0x75, 0x70] + [] == [0x75 as byte, 0x70];
  }

  lemma ThreeTerms(r: nat, a: nat, b: nat, c: nat)
    ensures Evaluate(r, [a, b, c]) == a * (r * (r * r)) + (b * (r * r) + c * r)
  {
    assert Pow(r, 1) == r && Pow(r, 2) == r * r && Pow(r, 3) == r * (r * r);
    assert [a, b, c][1..] == [b, c] && [b, c][1..] == [c] && [c][1..] == [];
    assert Evaluate(r, []) == 0;
    assert Evaluate(r, [c]) == c * r;
    assert Evaluate(r, [b, c]) == b * (r * r) + c * r;
  }

  /** The polynomial of section 2.5.2 and its value modulo 2^130 - 5. */
  lemma PolynomialNumber(r: nat, x: nat)
    requires r == 0x806d5400e52447c036d555408bed685
    requires x == 0x16f4620636968706172676f7470797243 * (r * (r * r)) +
                  (0x16f7247206863726165736552206d7572 * (r * r) + 0x17075 * r)
    ensures x % 0x3_ffffffffffffffff_fffffffffffffffb == 0x28d31b7caff946c77c8844335369d03a7
  {
    var q := 0xb97b2eac85a795ec9dbb22f53ca528e0b95ac97db107fec164e33f8719f76264fabe3d0ccf6b74cf925a48256f81;
    Cubes(r);
    ModUnique(x, q, 0x28d31b7caff946c77c8844335369d03a7, 0x3_ffffffffffffffff_fffffffffffffffb);
  }

  lemma Cubes(r: nat)
    requires r == 0x806d5400e52447c036d555408bed685
    ensures r * r == 0x406d82b18977ff05ecb41869491c3190b61af7923f4dc6433f94f3712ea119
    ensures r * (r * r) ==
            0x2052451d92e0e013dbab7ef97864974a75d48e84f78ebad08f3f5d7447cf1be13e77771d6275fc03281ef207297fd
  {
  }

  lemma TagNumber()
    ensures (0x28d31b7caff946c77c8844335369d03a7 + 0x1bf54941aff6bf4afdb20dfb8a800301) %
            0x1_0000000000000000_0000000000000000 == 0xa927010caf8b2bc2c6365130c11d06a8
  {
    ModUnique(0x2a927010caf8b2bc2c6365130c11d06a8, 2, 0xa927010caf8b2bc2c6365130c11d06a8,
              0x1_0000000000000000_0000000000000000);
  }

  lemma Moduli()
    ensures Pow2(128) == 0x1_0000000000000000_0000000000000000
    ensures Pow2(130) == 0x4_0000000000000000_0000000000000000
  {
    hide Pow2;
    Powers();
    Pow2Add(128, 2);
    Two();
  }

  /** The tag a8061dc1305136c6c22b8baf0c0127a9. */
  lemma Published()
    ensures Mac(KeyR() + KeyS(), Text()) == 0xa927010caf8b2bc2c6365130c11d06a8
  {
    hide LE, Clamped, Evaluate, Coefficients, Mac, Text, KeyR, KeyS, Pow2;
    var key := KeyR() + KeyS();
    assert key[..16] == KeyR() && key[16..] == KeyS();
    MacIsPolynomial(key, Text());
    RIs();
    SIs();
    TextCoefficients();
    var r: nat := 0x806d5400e52447c036d555408bed685;
    ThreeTerms(r, 0x16f4620636968706172676f7470797243, 0x16f7247206863726165736552206d7572, 0x17075);
    PolynomialNumber(r, 0x16f4620636968706172676f7470797243 * (r * (r * r)) +
                        (0x16f7247206863726165736552206d7572 * (r * r) + 0x17075 * r));
    Moduli();
    TagNumber();
  }
}
