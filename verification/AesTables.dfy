/**
 The substitution tables of BRBIP38Key.c: `sbox` is the table of FIPS 197, section 5.1.1, and `sboxi` undoes it.
 */
module AesTables {
  import Aes

  /** Entry i of sixteen. */
  function Pick(i: bv8, v0: bv8, v1: bv8, v2: bv8, v3: bv8, v4: bv8, v5: bv8, v6: bv8, v7: bv8, v8: bv8,
                v9: bv8, v10: bv8, v11: bv8, v12: bv8, v13: bv8, v14: bv8, v15: bv8): bv8 {
    if i < 8 then
      if i < 4 then
        if i < 2 then (if i < 1 then v0 else v1) else (if i < 3 then v2 else v3)
      else
        if i < 6 then (if i < 5 then v4 else v5) else (if i < 7 then v6 else v7)
    else
      if i < 12 then
        if i < 10 then (if i < 9 then v8 else v9) else (if i < 11 then v10 else v11)
      else
        if i < 14 then (if i < 13 then v12 else v13) else (if i < 15 then v14 else v15)
  }

  /** `sbox`: row by the high four bits, column by the low four. */
  function Sbox(x: bv8): bv8 {
    var c := x & 15;
    Pick(x >> 4,
         Pick(c, 0x63, 0x7c, 0x77, 0x7b, 0xf2, 0x6b, 0x6f, 0xc5, 0x30, 0x01, 0x67, 0x2b, 0xfe, 0xd7, 0xab, 0x76),
         Pick(c, 0xca, 0x82, 0xc9, 0x7d, 0xfa, 0x59, 0x47, 0xf0, 0xad, 0xd4, 0xa2, 0xaf, 0x9c, 0xa4, 0x72, 0xc0),
         Pick(c, 0xb7, 0xfd, 0x93, 0x26, 0x36, 0x3f, 0xf7, 0xcc, 0x34, 0xa5, 0xe5, 0xf1, 0x71, 0xd8, 0x31, 0x15),
         Pick(c, 0x04, 0xc7, 0x23, 0xc3, 0x18, 0x96, 0x05, 0x9a, 0x07, 0x12, 0x80, 0xe2, 0xeb, 0x27, 0xb2, 0x75),
         Pick(c, 0x09, 0x83, 0x2c, 0x1a, 0x1b, 0x6e, 0x5a, 0xa0, 0x52, 0x3b, 0xd6, 0xb3, 0x29, 0xe3, 0x2f, 0x84),
         Pick(c, 0x53, 0xd1, 0x00, 0xed, 0x20, 0xfc, 0xb1, 0x5b, 0x6a, 0xcb, 0xbe, 0x39, 0x4a, 0x4c, 0x58, 0xcf),
         Pick(c, 0xd0, 0xef, 0xaa, 0xfb, 0x43, 0x4d, 0x33, 0x85, 0x45, 0xf9, 0x02, 0x7f, 0x50, 0x3c, 0x9f, 0xa8),
         Pick(c, 0x51, 0xa3, 0x40, 0x8f, 0x92, 0x9d, 0x38, 0xf5, 0xbc, 0xb6, 0xda, 0x21, 0x10, 0xff, 0xf3, 0xd2),
         Pick(c, 0xcd, 0x0c, 0x13, 0xec, 0x5f, 0x97, 0x44, 0x17, 0xc4, 0xa7, 0x7e, 0x3d, 0x64, 0x5d, 0x19, 0x73),
         Pick(c, 0x60, 0x81, 0x4f, 0xdc, 0x22, 0x2a, 0x90, 0x88, 0x46, 0xee, 0xb8, 0x14, 0xde, 0x5e, 0x0b, 0xdb),
         Pick(c, 0xe0, 0x32, 0x3a, 0x0a, 0x49, 0x06, 0x24, 0x5c, 0xc2, 0xd3, 0xac, 0x62, 0x91, 0x95, 0xe4, 0x79),
         Pick(c, 0xe7, 0xc8, 0x37, 0x6d, 0x8d, 0xd5, 0x4e, 0xa9, 0x6c, 0x56, 0xf4, 0xea, 0x65, 0x7a, 0xae, 0x08),
         Pick(c, 0xba, 0x78, 0x25, 0x2e, 0x1c, 0xa6, 0xb4, 0xc6, 0xe8, 0xdd, 0x74, 0x1f, 0x4b, 0xbd, 0x8b, 0x8a),
         Pick(c, 0x70, 0x3e, 0xb5, 0x66, 0x48, 0x03, 0xf6, 0x0e, 0x61, 0x35, 0x57, 0xb9, 0x86, 0xc1, 0x1d, 0x9e),
         Pick(c, 0xe1, 0xf8, 0x98, 0x11, 0x69, 0xd9, 0x8e, 0x94, 0x9b, 0x1e, 0x87, 0xe9, 0xce, 0x55, 0x28, 0xdf),
         Pick(c, 0x8c, 0xa1, 0x89, 0x0d, 0xbf, 0xe6, 0x42, 0x68, 0x41, 0x99, 0x2d, 0x0f, 0xb0, 0x54, 0xbb, 0x16))
  }

  /** `sboxi`: row by the high four bits, column by the low four. */
  function Sboxi(x: bv8): bv8 {
    var c := x & 15;
    Pick(x >> 4,
         Pick(c, 0x52, 0x09, 0x6a, 0xd5, 0x30, 0x36, 0xa5, 0x38, 0xbf, 0x40, 0xa3, 0x9e, 0x81, 0xf3, 0xd7, 0xfb),
         Pick(c, 0x7c, 0xe3, 0x39, 0x82, 0x9b, 0x2f, 0xff, 0x87, 0x34, 0x8e, 0x43, 0x44, 0xc4, 0xde, 0xe9, 0xcb),
         Pick(c, 0x54, 0x7b, 0x94, 0x32, 0xa6, 0xc2, 0x23, 0x3d, 0xee, 0x4c, 0x95, 0x0b, 0x42, 0xfa, 0xc3, 0x4e),
         Pick(c, 0x08, 0x2e, 0xa1, 0x66, 0x28, 0xd9, 0x24, 0xb2, 0x76, 0x5b, 0xa2, 0x49, 0x6d, 0x8b, 0xd1, 0x25),
         Pick(c, 0x72, 0xf8, 0xf6, 0x64, 0x86, 0x68, 0x98, 0x16, 0xd4, 0xa4, 0x5c, 0xcc, 0x5d, 0x65, 0xb6, 0x92),
         Pick(c, 0x6c, 0x70, 0x48, 0x50, 0xfd, 0xed, 0xb9, 0xda, 0x5e, 0x15, 0x46, 0x57, 0xa7, 0x8d, 0x9d, 0x84),
         Pick(c, 0x90, 0xd8, 0xab, 0x00, 0x8c, 0xbc, 0xd3, 0x0a, 0xf7, 0xe4, 0x58, 0x05, 0xb8, 0xb3, 0x45, 0x06),
         Pick(c, 0xd0, 0x2c, 0x1e, 0x8f, 0xca, 0x3f, 0x0f, 0x02, 0xc1, 0xaf, 0xbd, 0x03, 0x01, 0x13, 0x8a, 0x6b),
         Pick(c, 0x3a, 0x91, 0x11, 0x41, 0x4f, 0x67, 0xdc, 0xea, 0x97, 0xf2, 0xcf, 0xce, 0xf0, 0xb4, 0xe6, 0x73),
         Pick(c, 0x96, 0xac, 0x74, 0x22, 0xe7, 0xad, 0x35, 0x85, 0xe2, 0xf9, 0x37, 0xe8, 0x1c, 0x75, 0xdf, 0x6e),
         Pick(c, 0x47, 0xf1, 0x1a, 0x71, 0x1d, 0x29, 0xc5, 0x89, 0x6f, 0xb7, 0x62, 0x0e, 0xaa, 0x18, 0xbe, 0x1b),
         Pick(c, 0xfc, 0x56, 0x3e, 0x4b, 0xc6, 0xd2, 0x79, 0x20, 0x9a, 0xdb, 0xc0, 0xfe, 0x78, 0xcd, 0x5a, 0xf4),
         Pick(c, 0x1f, 0xdd, 0xa8, 0x33, 0x88, 0x07, 0xc7, 0x31, 0xb1, 0x12, 0x10, 0x59, 0x27, 0x80, 0xec, 0x5f),
         Pick(c, 0x60, 0x51, 0x7f, 0xa9, 0x19, 0xb5, 0x4a, 0x0d, 0x2d, 0xe5, 0x7a, 0x9f, 0x93, 0xc9, 0x9c, 0xef),
         Pick(c, 0xa0, 0xe0, 0x3b, 0x4d, 0xae, 0x2a, 0xf5, 0xb0, 0xc8, 0xeb, 0xbb, 0x3c, 0x83, 0x53, 0x99, 0x61),
         Pick(c, 0x17, 0x2b, 0x04, 0x7e, 0xba, 0x77, 0xd6, 0x26, 0xe1, 0x69, 0x14, 0x63, 0x55, 0x21, 0x0c, 0x7d))
  }

  // ---------------------------------------------------------------- what the table is

  /** b if the lowest bit of a is set. */
  function If(a: bv8, b: bv8): bv8 {
    if a & 1 == 1 then b else 0
  }

  /** The product in GF(2^8), FIPS 197, section 4.2: the sum of a*x^i over the bits i of b. */
  function Product(a: bv8, b: bv8): bv8 {
    var a1 := Aes.Xt(a);
    var a2 := Aes.Xt(a1);
    var a3 := Aes.Xt(a2);
    var a4 := Aes.Xt(a3);
    var a5 := Aes.Xt(a4);
    var a6 := Aes.Xt(a5);
    var a7 := Aes.Xt(a6);
    If(b, a) ^ If(b >> 1, a1) ^ If(b >> 2, a2) ^ If(b >> 3, a3) ^ If(b >> 4, a4) ^ If(b >> 5, a5) ^ If(b >> 6, a6) ^
    If(b >> 7, a7)
  }

  /** Turned left by n places. */
  function Turn(b: bv8, n: bv8): bv8
    requires n <= 8
  {
    (b << n) | (b >> (8 - n))
  }

  /** The affine transformation of FIPS 197, section 5.1.1. */
  function Affine(b: bv8): bv8 {
    b ^ Turn(b, 1) ^ Turn(b, 2) ^ Turn(b, 3) ^ Turn(b, 4) ^ 0x63
  }

  function Unaffine(b: bv8): bv8 {
    Turn(b, 1) ^ Turn(b, 3) ^ Turn(b, 6) ^ 0x05
  }

  lemma AffineUnaffine(b: bv8)
    ensures Affine(Unaffine(b)) == b
  {
  }

  predicate Inverted(x: bv8) {
    Product(x, Unaffine(Sbox(x))) == 1
  }

  /** The sixteen bytes that start with the digit of b. */
  lemma Sixteen(x: bv8, b: bv8)
    requires x & 0xf0 == b && b & 0x0f == 0
    ensures x == b || x == b | 1 || x == b | 2 || x == b | 3 || x == b | 4 || x == b | 5 || x == b | 6 || x == b | 7 ||
            x == b | 8 || x == b | 9 || x == b | 10 || x == b | 11 || x == b | 12 || x == b | 13 || x == b | 14 ||
            x == b | 15
  {
  }

  lemma Row0(x: bv8)
    requires x & 0xf0 == 0x00 && x != 0
    ensures Inverted(x)
  {
    Sixteen(x, 0x00);
  }

  lemma Row1(x: bv8)
    requires x & 0xf0 == 0x10
    ensures Inverted(x)
  {
    Sixteen(x, 0x10);
  }

  lemma Row2(x: bv8)
    requires x & 0xf0 == 0x20
    ensures Inverted(x)
  {
    Sixteen(x, 0x20);
  }

  lemma Row3(x: bv8)
    requires x & 0xf0 == 0x30
    ensures Inverted(x)
  {
    Sixteen(x, 0x30);
  }

  lemma Row4(x: bv8)
    requires x & 0xf0 == 0x40
    ensures Inverted(x)
  {
    Sixteen(x, 0x40);
  }

  lemma Row5(x: bv8)
    requires x & 0xf0 == 0x50
    ensures Inverted(x)
  {
    Sixteen(x, 0x50);
  }

  lemma Row6(x: bv8)
    requires x & 0xf0 == 0x60
    ensures Inverted(x)
  {
    Sixteen(x, 0x60);
  }

  lemma Row7(x: bv8)
    requires x & 0xf0 == 0x70
    ensures Inverted(x)
  {
    Sixteen(x, 0x70);
  }

  lemma Row8(x: bv8)
    requires x & 0xf0 == 0x80
    ensures Inverted(x)
  {
    Sixteen(x, 0x80);
  }

  lemma Row9(x: bv8)
    requires x & 0xf0 == 0x90
    ensures Inverted(x)
  {
    Sixteen(x, 0x90);
  }

  lemma Rowa(x: bv8)
    requires x & 0xf0 == 0xa0
    ensures Inverted(x)
  {
    Sixteen(x, 0xa0);
  }

  lemma Rowb(x: bv8)
    requires x & 0xf0 == 0xb0
    ensures Inverted(x)
  {
    Sixteen(x, 0xb0);
  }

  lemma Rowc(x: bv8)
    requires x & 0xf0 == 0xc0
    ensures Inverted(x)
  {
    Sixteen(x, 0xc0);
  }

  lemma Rowd(x: bv8)
    requires x & 0xf0 == 0xd0
    ensures Inverted(x)
  {
    Sixteen(x, 0xd0);
  }

  lemma Rowe(x: bv8)
    requires x & 0xf0 == 0xe0
    ensures Inverted(x)
  {
    Sixteen(x, 0xe0);
  }

  lemma Rowf(x: bv8)
    requires x & 0xf0 == 0xf0
    ensures Inverted(x)
  {
    Sixteen(x, 0xf0);
  }

  lemma LowRows(x: bv8)
    requires 0 < x < 0x80
    ensures Inverted(x)
  {
    hide Inverted;
    HighDigit(x);
    var h := x & 0xf0;
    if h == 0x00 { Row0(x); }
    if h == 0x10 { Row1(x); }
    if h == 0x20 { Row2(x); }
    if h == 0x30 { Row3(x); }
    if h == 0x40 { Row4(x); }
    if h == 0x50 { Row5(x); }
    if h == 0x60 { Row6(x); }
    if h == 0x70 { Row7(x); }
  }

  lemma HighRows(x: bv8)
    requires x >= 0x80
    ensures Inverted(x)
  {
    hide Inverted;
    HighDigit(x);
    var h := x & 0xf0;
    if h == 0x80 { Row8(x); }
    if h == 0x90 { Row9(x); }
    if h == 0xa0 { Rowa(x); }
    if h == 0xb0 { Rowb(x); }
    if h == 0xc0 { Rowc(x); }
    if h == 0xd0 { Rowd(x); }
    if h == 0xe0 { Rowe(x); }
    if h == 0xf0 { Rowf(x); }
  }

  lemma HighDigit(x: bv8)
    ensures var h := x & 0xf0;
            if x < 0x80 then h == 0x00 || h == 0x10 || h == 0x20 || h == 0x30 || h == 0x40 || h == 0x50 ||
                              h == 0x60 || h == 0x70
            else h == 0x80 || h == 0x90 || h == 0xa0 || h == 0xb0 || h == 0xc0 || h == 0xd0 || h == 0xe0 || h == 0xf0
  {
  }

  /** The table is the affine transformation of the inverse in GF(2^8), with 0 for the inverse of 0. */
  lemma SboxIsFips(x: bv8) returns (y: bv8)
    ensures Sbox(x) == Affine(y)
    ensures if x == 0 then y == 0 else Product(x, y) == 1
  {
    hide Product;
    y := Unaffine(Sbox(x));
    AffineUnaffine(Sbox(x));
    if 0 < x < 0x80 {
      LowRows(x);
    } else if x >= 0x80 {
      HighRows(x);
    }
  }

  /** Xt is multiplication by x: shift left and reduce by x^8 + x^4 + x^3 + x + 1. */
  lemma XtReduces(x: bv8)
    ensures Aes.Xt(x) as bv16 == if x < 0x80 then (x as bv16) << 1 else ((x as bv16) << 1) ^ 0x11b
  {
  }

  // ---------------------------------------------------------------- and back

  lemma LowHalf(x: bv8)
    requires x < 0x80
    ensures Sboxi(Sbox(x)) == x
  {
  }

  lemma HighHalf(x: bv8)
    requires x >= 0x80
    ensures Sboxi(Sbox(x)) == x
  {
  }

  lemma SboxiSbox(x: bv8)
    ensures Sboxi(Sbox(x)) == x
  {
    hide Sbox, Sboxi;
    if x < 0x80 {
      LowHalf(x);
    } else {
      HighHalf(x);
    }
  }

  lemma TablesInverse()
    ensures Aes.Undoes(Sboxi, Sbox)
  {
    forall x ensures Sboxi(Sbox(x)) == x {
      SboxiSbox(x);
    }
  }
}
