/**
 The 8-to-5 regrouping of BRBech32Encode and the 5-to-8 packing of BRBech32Decode. A byte string is read as one
 string of bits, high bit first; symbol k holds its bits 5k to 5k+4, with zeros past the end.
 */
module Bech32Bits {

  function At(s: seq<bv8>, k: nat): bv8 {
    if k < |s| then s[k] else 0
  }

  predicate Symbols(s: seq<bv8>) {
    forall k :: 0 <= k < |s| ==> s[k] < 32
  }

  /** Five bits from bit o of two bytes. */
  function Window5(o: nat, a: bv8, b: bv8): (c: bv8)
    ensures c < 32
  {
    if o == 0 then a >> 3 else Window5(o - 1, (a << 1) | (b >> 7), b << 1)
  }

  /** Symbol k of a byte string. */
  function Five(data: seq<bv8>, k: nat): (c: bv8)
    ensures c < 32
  {
    Window5(5 * k % 8, At(data, 5 * k / 8), At(data, 5 * k / 8 + 1))
  }

  /** Eight bits from bit o of three symbols. */
  function Window8(o: nat, a: bv8, b: bv8, c: bv8): bv8 {
    if o == 0 then (a << 3) | (b >> 2)
    else Window8(o - 1, ((a << 1) | (b >> 4)) & 0x1f, ((b << 1) | (c >> 4)) & 0x1f, (c << 1) & 0x1f)
  }

  /** Byte i of a symbol string. */
  function Eight(syms: seq<bv8>, i: nat): bv8 {
    Window8(8 * i % 5, At(syms, 8 * i / 5), At(syms, 8 * i / 5 + 1), At(syms, 8 * i / 5 + 2))
  }

  function To5(data: seq<bv8>): (s: seq<bv8>)
    ensures |s| == (8 * |data| + 4) / 5 && Symbols(s)
  {
    seq((8 * |data| + 4) / 5, k requires 0 <= k => Five(data, k))
  }

  function To8(syms: seq<bv8>): (s: seq<bv8>)
    ensures |s| == 5 * |syms| / 8
  {
    seq(5 * |syms| / 8, i requires 0 <= i => Eight(syms, i))
  }

  // ---------------------------------------------------------------- round trip

  lemma Window5Is(o: nat, a: bv8, b: bv8)
    requires o < 8
    ensures Window5(o, a, b) == if o == 0 then a >> 3
                                else if o == 1 then (a >> 2) & 0x1f
                                else if o == 2 then (a >> 1) & 0x1f
                                else if o == 3 then a & 0x1f
                                else if o == 4 then ((a << 1) | (b >> 7)) & 0x1f
                                else if o == 5 then ((a << 2) | (b >> 6)) & 0x1f
                                else if o == 6 then ((a << 3) | (b >> 5)) & 0x1f
                                else ((a << 4) | (b >> 4)) & 0x1f
  {
    if o == 0 {
    } else {
      Window5Is(o - 1, (a << 1) | (b >> 7), b << 1);
    }
  }

  lemma Window8Step(a: bv8, b: bv8, c: bv8, a': bv8, b': bv8, c': bv8)
    requires a < 32 && b < 32 && c < 32
    requires a' == ((a << 1) | (b >> 4)) & 0x1f && b' == ((b << 1) | (c >> 4)) & 0x1f && c' == (c << 1) & 0x1f
    ensures (a' << 3) | (b' >> 2) == (a << 4) | (b >> 1)
    ensures (a' << 4) | (b' >> 1) == (a << 5) | b
    ensures (a' << 5) | b' == (a << 6) | (b << 1) | (c >> 4)
    ensures (a' << 6) | (b' << 1) | (c' >> 4) == (a << 7) | (b << 2) | (c >> 3)
  {
  }

  lemma Window8Is(o: nat, a: bv8, b: bv8, c: bv8)
    requires o < 5 && a < 32 && b < 32 && c < 32
    ensures Window8(o, a, b, c) == if o == 0 then (a << 3) | (b >> 2)
                                   else if o == 1 then (a << 4) | (b >> 1)
                                   else if o == 2 then (a << 5) | b
                                   else if o == 3 then (a << 6) | (b << 1) | (c >> 4)
                                   else (a << 7) | (b << 2) | (c >> 3)
  {
    if o == 0 {
    } else {
      var a', b', c' := ((a << 1) | (b >> 4)) & 0x1f, ((b << 1) | (c >> 4)) & 0x1f, (c << 1) & 0x1f;
      Window8Step(a, b, c, a', b', c');
      Window8Is(o - 1, a', b', c');
    }
  }

  /** Eight symbols from five bytes, high bits first. */
  function Group(a: bv8, b: bv8, c: bv8, d: bv8, e: bv8): seq<bv8> {
    [a >> 3, ((a << 2) | (b >> 6)) & 0x1f, (b >> 1) & 0x1f, ((b << 4) | (c >> 4)) & 0x1f,
     ((c << 1) | (d >> 7)) & 0x1f, (d >> 2) & 0x1f, ((d << 3) | (e >> 5)) & 0x1f, e & 0x1f]
  }

  /** Every five bytes make eight symbols. */
  lemma Regrouped(data: seq<bv8>, g: nat)
    requires 5 * g + 5 <= |data|
    ensures To5(data)[8 * g..8 * g + 8] ==
            Group(data[5 * g], data[5 * g + 1], data[5 * g + 2], data[5 * g + 3], data[5 * g + 4])
  {
    var t := To5(data)[8 * g..8 * g + 8];
    FiveOfGroup(data, g);
    EightEqual(t, data[5 * g], data[5 * g + 1], data[5 * g + 2], data[5 * g + 3], data[5 * g + 4]);
  }

  lemma EightEqual(t: seq<bv8>, a: bv8, b: bv8, c: bv8, d: bv8, e: bv8)
    requires |t| == 8 && t[0] == a >> 3 && t[1] == ((a << 2) | (b >> 6)) & 0x1f && t[2] == (b >> 1) & 0x1f
    requires t[3] == ((b << 4) | (c >> 4)) & 0x1f && t[4] == ((c << 1) | (d >> 7)) & 0x1f && t[5] == (d >> 2) & 0x1f
    requires t[6] == ((d << 3) | (e >> 5)) & 0x1f && t[7] == e & 0x1f
    ensures t == Group(a, b, c, d, e)
  {
  }

  lemma FiveOfGroup(data: seq<bv8>, g: nat)
    requires 5 * g + 5 <= |data|
    ensures var a, b, c, d, e := data[5 * g], data[5 * g + 1], data[5 * g + 2], data[5 * g + 3], data[5 * g + 4];
            && Five(data, 8 * g) == a >> 3
            && Five(data, 8 * g + 1) == ((a << 2) | (b >> 6)) & 0x1f
            && Five(data, 8 * g + 2) == (b >> 1) & 0x1f
            && Five(data, 8 * g + 3) == ((b << 4) | (c >> 4)) & 0x1f
            && Five(data, 8 * g + 4) == ((c << 1) | (d >> 7)) & 0x1f
            && Five(data, 8 * g + 5) == (d >> 2) & 0x1f
            && Five(data, 8 * g + 6) == ((d << 3) | (e >> 5)) & 0x1f
            && Five(data, 8 * g + 7) == e & 0x1f
  {
    hide Window5;
    var a, b, c, d, e := data[5 * g], data[5 * g + 1], data[5 * g + 2], data[5 * g + 3], data[5 * g + 4];
    Window5Is(0, a, b);
    Window5Is(5, a, b);
    Window5Is(2, b, c);
    Window5Is(7, b, c);
    Window5Is(4, c, d);
    Window5Is(1, d, e);
    Window5Is(6, d, e);
    Window5Is(3, e, At(data, 5 * g + 5));
    FiveAt(data, 8 * g, 5 * g, 0);
    FiveAt(data, 8 * g + 1, 5 * g, 5);
    FiveAt(data, 8 * g + 2, 5 * g + 1, 2);
    FiveAt(data, 8 * g + 3, 5 * g + 1, 7);
    FiveAt(data, 8 * g + 4, 5 * g + 2, 4);
    FiveAt(data, 8 * g + 5, 5 * g + 3, 1);
    FiveAt(data, 8 * g + 6, 5 * g + 3, 6);
    FiveAt(data, 8 * g + 7, 5 * g + 4, 3);
  }

  lemma FiveAt(data: seq<bv8>, k: nat, q: nat, r: nat)
    requires 5 * k == 8 * q + r && r < 8
    ensures Five(data, k) == Window5(r, At(data, q), At(data, q + 1))
  {
  }

  // The bits of a byte x come back from the symbols that hold them; p and q are its neighbours.

  lemma Back0(x: bv8, q: bv8, z: bv8)
    ensures Window8(0, Window5(0, x, q), Window5(5, x, q), z) == x
  {
    Window5Is(0, x, q);
    Window5Is(5, x, q);
  }

  lemma Back1(p: bv8, x: bv8, q: bv8)
    ensures Window8(3, Window5(5, p, x), Window5(2, x, q), Window5(7, x, q)) == x
  {
    Window5Is(5, p, x);
    Window5Is(2, x, q);
    Window5Is(7, x, q);
    Window8Is(3, Window5(5, p, x), Window5(2, x, q), Window5(7, x, q));
  }

  lemma Back2(p: bv8, x: bv8, q: bv8, z: bv8)
    requires z < 32
    ensures Window8(1, Window5(7, p, x), Window5(4, x, q), z) == x
  {
    Window5Is(7, p, x);
    Window5Is(4, x, q);
    Window8Is(1, Window5(7, p, x), Window5(4, x, q), z);
  }

  lemma Back3(p: bv8, x: bv8, q: bv8)
    ensures Window8(4, Window5(4, p, x), Window5(1, x, q), Window5(6, x, q)) == x
  {
    Window5Is(4, p, x);
    Window5Is(1, x, q);
    Window5Is(6, x, q);
    Window8Is(4, Window5(4, p, x), Window5(1, x, q), Window5(6, x, q));
  }

  lemma Back4(p: bv8, x: bv8, q: bv8, z: bv8)
    requires z < 32
    ensures Window8(2, Window5(6, p, x), Window5(3, x, q), z) == x
  {
    Window5Is(6, p, x);
    Window5Is(3, x, q);
    Window8Is(2, Window5(6, p, x), Window5(3, x, q), z);
  }

  // Byte 5g + m starts at bit 8m of the group that symbols 8g to 8g+7 hold.

  ghost predicate Agree(data: seq<bv8>, syms: seq<bv8>, k: nat) {
    At(syms, k) == Five(data, k)
  }

  lemma Byte0(g: nat, data: seq<bv8>, syms: seq<bv8>)
    requires Agree(data, syms, 8 * g) && Agree(data, syms, 8 * g + 1)
    ensures Eight(syms, 5 * g) == At(data, 5 * g)
  {
    Back0(At(data, 5 * g), At(data, 5 * g + 1), At(syms, 8 * g + 2));
  }

  lemma Byte1(g: nat, data: seq<bv8>, syms: seq<bv8>)
    requires Agree(data, syms, 8 * g + 1) && Agree(data, syms, 8 * g + 2) && Agree(data, syms, 8 * g + 3)
    ensures Eight(syms, 5 * g + 1) == At(data, 5 * g + 1)
  {
    hide Window5, Window8;
    Back1(At(data, 5 * g), At(data, 5 * g + 1), At(data, 5 * g + 2));
  }

  lemma Byte2(g: nat, data: seq<bv8>, syms: seq<bv8>)
    requires At(syms, 8 * g + 5) < 32
    requires Agree(data, syms, 8 * g + 3) && Agree(data, syms, 8 * g + 4)
    ensures Eight(syms, 5 * g + 2) == At(data, 5 * g + 2)
  {
    Back2(At(data, 5 * g + 1), At(data, 5 * g + 2), At(data, 5 * g + 3), At(syms, 8 * g + 5));
  }

  lemma Byte3(g: nat, data: seq<bv8>, syms: seq<bv8>)
    requires Agree(data, syms, 8 * g + 4) && Agree(data, syms, 8 * g + 5) && Agree(data, syms, 8 * g + 6)
    ensures Eight(syms, 5 * g + 3) == At(data, 5 * g + 3)
  {
    hide Window5, Window8;
    Back3(At(data, 5 * g + 2), At(data, 5 * g + 3), At(data, 5 * g + 4));
  }

  lemma Byte4(g: nat, data: seq<bv8>, syms: seq<bv8>)
    requires At(syms, 8 * g + 8) < 32
    requires Agree(data, syms, 8 * g + 6) && Agree(data, syms, 8 * g + 7)
    ensures Eight(syms, 5 * g + 4) == At(data, 5 * g + 4)
  {
    hide Window5, Window8;
    Back4(At(data, 5 * g + 3), At(data, 5 * g + 4), At(data, 5 * g + 5), At(syms, 8 * g + 8));
  }

  lemma To5At(data: seq<bv8>, k: nat)
    requires 5 * k < 8 * |data|
    ensures Agree(data, To5(data), k)
  {
  }

  lemma Group0(data: seq<bv8>, g: nat)
    requires 5 * g < |data|
    ensures Eight(To5(data), 5 * g) == At(data, 5 * g)
  {
    To5At(data, 8 * g);
    To5At(data, 8 * g + 1);
    Byte0(g, data, To5(data));
  }

  lemma Group1(data: seq<bv8>, g: nat)
    requires 5 * g + 1 < |data|
    ensures Eight(To5(data), 5 * g + 1) == At(data, 5 * g + 1)
  {
    To5At(data, 8 * g + 1);
    To5At(data, 8 * g + 2);
    To5At(data, 8 * g + 3);
    Byte1(g, data, To5(data));
  }

  lemma Group2(data: seq<bv8>, g: nat)
    requires 5 * g + 2 < |data|
    ensures Eight(To5(data), 5 * g + 2) == At(data, 5 * g + 2)
  {
    To5At(data, 8 * g + 3);
    To5At(data, 8 * g + 4);
    Byte2(g, data, To5(data));
  }

  lemma Group3(data: seq<bv8>, g: nat)
    requires 5 * g + 3 < |data|
    ensures Eight(To5(data), 5 * g + 3) == At(data, 5 * g + 3)
  {
    To5At(data, 8 * g + 4);
    To5At(data, 8 * g + 5);
    To5At(data, 8 * g + 6);
    Byte3(g, data, To5(data));
  }

  lemma Group4(data: seq<bv8>, g: nat)
    requires 5 * g + 4 < |data|
    ensures Eight(To5(data), 5 * g + 4) == At(data, 5 * g + 4)
  {
    To5At(data, 8 * g + 6);
    To5At(data, 8 * g + 7);
    Byte4(g, data, To5(data));
  }

  lemma ByteBack(data: seq<bv8>, i: nat, g: nat, m: nat)
    requires i < |data| && i == 5 * g + m && m < 5
    ensures Eight(To5(data), i) == At(data, i)
  {
    hide Eight, To5, At;
    if m == 0 {
      Group0(data, g);
    } else if m == 1 {
      Group1(data, g);
    } else if m == 2 {
      Group2(data, g);
    } else if m == 3 {
      Group3(data, g);
    } else {
      Group4(data, g);
    }
  }

  /** Regrouping to symbols and back restores every byte string. */
  lemma To8To5(data: seq<bv8>)
    ensures To8(To5(data)) == data
  {
    forall i | 0 <= i < |data| ensures To8(To5(data))[i] == data[i] {
      ByteBack(data, i, i / 5, i % 5);
    }
  }

  // ---------------------------------------------------------------- shifts by a variable amount

  function Shl(a: bv8, n: nat): bv8 {
    if n == 0 then a else Shl(a, n - 1) << 1
  }

  function Shr(a: bv8, n: nat): bv8 {
    if n == 0 then a else Shr(a, n - 1) >> 1
  }

  lemma ShlIs(a: bv8, n: nat)
    requires n < 8
    ensures Shl(a, n) == if n == 0 then a else if n == 1 then a << 1 else if n == 2 then a << 2
            else if n == 3 then a << 3
                         else if n == 4 then a << 4 else if n == 5 then a << 5 else if n == 6 then a << 6 else a << 7
  {
    if n == 0 {
    } else {
      ShlIs(a, n - 1);
    }
  }

  lemma ShrIs(a: bv8, n: nat)
    requires n < 8
    ensures Shr(a, n) == if n == 0 then a else if n == 1 then a >> 1 else if n == 2 then a >> 2
            else if n == 3 then a >> 3
                         else if n == 4 then a >> 4 else if n == 5 then a >> 5 else if n == 6 then a >> 6 else a >> 7
  {
    if n == 0 {
    } else {
      ShrIs(a, n - 1);
    }
  }

  // ---------------------------------------------------------------- the encoder's loop

  /** `(j % 5)*8 - ((j % 5)*8/5)*5`. */
  function Offset5(j: nat): (x: nat)
    ensures x <= 4
  {
    j % 5 * 8 - j % 5 * 8 / 5 * 5
  }

  /** `((a << (5 - x)) | (b >> (3 + x))) & 0x1f`. */
  function Across(a: bv8, b: bv8, x: nat): bv8
    requires x <= 4
  {
    (Shl(a, 5 - x) | Shr(b, 3 + x)) & 0x1f
  }

  /** `(b >> (x - 2)) & 0x1f`. */
  function Inside(b: bv8, x: nat): bv8
    requires 2 <= x <= 4
  {
    Shr(b, x - 2) & 0x1f
  }

  lemma OffsetIs(g: nat, m: nat)
    requires m < 5
    ensures Offset5(5 * g + m) == if m == 0 then 0 else if m == 1 then 3 else if m == 2 then 1 else if m == 3 then 4
            else 2
    ensures 8 * (5 * g + m) / 5 == 8 * g + if m == 0 then 0 else if m == 1 then 1 else if m == 2 then 3
            else if m == 3 then 4 else 6
  {
    assert (5 * g + m) % 5 == m;
  }

  lemma AcrossIs0(a: bv8, b: bv8)
    ensures Across(a, b, 0) == b >> 3
  {
    ShlIs(a, 5);
    ShrIs(b, 3);
  }

  lemma Emit0(data: seq<bv8>, g: nat, a: bv8, b: bv8)
    requires b == At(data, 5 * g)
    ensures Across(a, b, 0) == Five(data, 8 * g)
  {
    assert 5 * (8 * g) / 8 == 5 * g;
    Window5Is(0, b, At(data, 5 * g + 1));
    AcrossIs0(a, b);
  }

  lemma Emit1(data: seq<bv8>, g: nat, a: bv8, b: bv8)
    requires a == At(data, 5 * g) && b == At(data, 5 * g + 1)
    ensures Across(a, b, 3) == Five(data, 8 * g + 1)
    ensures Inside(b, 3) == Five(data, 8 * g + 2)
  {
    Window5Is(5, a, b);
    Window5Is(2, b, At(data, 5 * g + 2));
    ShlIs(a, 2);
    ShrIs(b, 6);
    ShrIs(b, 1);
  }

  lemma Emit2(data: seq<bv8>, g: nat, a: bv8, b: bv8)
    requires a == At(data, 5 * g + 1) && b == At(data, 5 * g + 2)
    ensures Across(a, b, 1) == Five(data, 8 * g + 3)
  {
    Window5Is(7, a, b);
    ShlIs(a, 4);
    ShrIs(b, 4);
  }

  lemma Emit3(data: seq<bv8>, g: nat, a: bv8, b: bv8)
    requires a == At(data, 5 * g + 2) && b == At(data, 5 * g + 3)
    ensures Across(a, b, 4) == Five(data, 8 * g + 4)
    ensures Inside(b, 4) == Five(data, 8 * g + 5)
  {
    ShlIs(a, 1);
    ShrIs(b, 7);
    ShrIs(b, 2);
    Window5Is(4, a, b);
    Window5Is(1, b, At(data, 5 * g + 4));
  }

  lemma Emit4(data: seq<bv8>, g: nat, a: bv8, b: bv8)
    requires a == At(data, 5 * g + 3) && b == At(data, 5 * g + 4)
    ensures Across(a, b, 2) == Five(data, 8 * g + 6)
    ensures Inside(b, 2) == Five(data, 8 * g + 7)
  {
    ShlIs(a, 3);
    ShrIs(b, 5);
    Window5Is(6, a, b);
    Window5Is(3, b, At(data, 5 * g + 5));
  }

  /** The symbols that iteration j writes: number 8j/5, and the next one when x >= 2. */
  lemma Emit(data: seq<bv8>, j: nat, g: nat, m: nat, a: bv8, b: bv8)
    requires j == 5 * g + m && m < 5 && b == At(data, j) && (m > 0 ==> a == At(data, j - 1))
    ensures Across(a, b, Offset5(j)) == Five(data, 8 * j / 5)
    ensures Offset5(j) >= 2 ==> Inside(b, Offset5(j)) == Five(data, 8 * j / 5 + 1)
    ensures 8 * (j + 1) / 5 == 8 * j / 5 + if Offset5(j) >= 2 then 2 else 1
  {
    hide Five, Across, Inside, At;
    OffsetIs(g, m);
    if m == 0 {
      Emit0(data, g, a, b);
    } else if m == 1 {
      Emit1(data, g, a, b);
    } else if m == 2 {
      Emit2(data, g, a, b);
    } else if m == 3 {
      Emit3(data, g, a, b);
    } else {
      Emit4(data, g, a, b);
    }
  }

  // ---------------------------------------------------------------- the decoder's loop

  /** Symbol k, when only the first j have been read. */
  function Read(syms: seq<bv8>, j: nat, k: nat): bv8 {
    if k < j then At(syms, k) else 0
  }

  /** Byte i of the buffer after j symbols. */
  function Partial(syms: seq<bv8>, j: nat, i: nat): bv8 {
    Window8(8 * i % 5, Read(syms, j, 8 * i / 5), Read(syms, j, 8 * i / 5 + 1), Read(syms, j, 8 * i / 5 + 2))
  }

  // A symbol that lies at place t of a byte's three is ORed in where its bits belong.

  lemma Place0(c: bv8)
    requires c < 32
    ensures Window8(0, c, 0, 0) == Window8(0, 0, 0, 0) | Shr(c << 3, 0)
  {
  }

  lemma Place1Bits(a: bv8, c: bv8)
    requires a < 32 && c < 32
    ensures (a << 3) | (c >> 2) == ((a << 3) | (0 >> 2)) | ((c << 3) >> 5)
    ensures (a << 4) | (c >> 1) == ((a << 4) | (0 >> 1)) | ((c << 3) >> 4)
    ensures (a << 5) | c == ((a << 5) | 0) | ((c << 3) >> 3)
    ensures (a << 6) | (c << 1) | (0 >> 4) == ((a << 6) | (0 << 1) | (0 >> 4)) | ((c << 3) >> 2)
    ensures (a << 7) | (c << 2) | (0 >> 3) == ((a << 7) | (0 << 2) | (0 >> 3)) | ((c << 3) >> 1)
  {
  }

  lemma Place1At0(o: nat, a: bv8, c: bv8)
    requires o == 0 && a < 32 && c < 32
    ensures Window8(o, a, c, 0) == Window8(o, a, 0, 0) | Shr(c << 3, 5 - o)
  {
    Window8Is(o, a, c, 0);
    Window8Is(o, a, 0, 0);
    ShrIs(c << 3, 5 - o);
    Place1Bits(a, c);
  }

  lemma Place1At1(o: nat, a: bv8, c: bv8)
    requires o == 1 && a < 32 && c < 32
    ensures Window8(o, a, c, 0) == Window8(o, a, 0, 0) | Shr(c << 3, 5 - o)
  {
    Window8Is(o, a, c, 0);
    Window8Is(o, a, 0, 0);
    ShrIs(c << 3, 5 - o);
    Place1Bits(a, c);
  }

  lemma Place1At2(o: nat, a: bv8, c: bv8)
    requires o == 2 && a < 32 && c < 32
    ensures Window8(o, a, c, 0) == Window8(o, a, 0, 0) | Shr(c << 3, 5 - o)
  {
    Window8Is(o, a, c, 0);
    Window8Is(o, a, 0, 0);
    ShrIs(c << 3, 5 - o);
    Place1Bits(a, c);
  }

  lemma Place1At3(o: nat, a: bv8, c: bv8)
    requires o == 3 && a < 32 && c < 32
    ensures Window8(o, a, c, 0) == Window8(o, a, 0, 0) | Shr(c << 3, 5 - o)
  {
    Window8Is(o, a, c, 0);
    Window8Is(o, a, 0, 0);
    ShrIs(c << 3, 5 - o);
    Place1Bits(a, c);
  }

  lemma Place1At4(o: nat, a: bv8, c: bv8)
    requires o == 4 && a < 32 && c < 32
    ensures Window8(o, a, c, 0) == Window8(o, a, 0, 0) | Shr(c << 3, 5 - o)
  {
    Window8Is(o, a, c, 0);
    Window8Is(o, a, 0, 0);
    ShrIs(c << 3, 5 - o);
    Place1Bits(a, c);
  }

  lemma Place1(o: nat, a: bv8, c: bv8)
    requires o < 5 && a < 32 && c < 32
    ensures Window8(o, a, c, 0) == Window8(o, a, 0, 0) | Shr(c << 3, 5 - o)
  {
    if o == 0 {
      Place1At0(o, a, c);
    } else if o == 1 {
      Place1At1(o, a, c);
    } else if o == 2 {
      Place1At2(o, a, c);
    } else if o == 3 {
      Place1At3(o, a, c);
    } else {
      Place1At4(o, a, c);
    }
  }

  lemma Place2Bits(a: bv8, b: bv8, c: bv8)
    requires a < 32 && b < 32 && c < 32
    ensures (a << 6) | (b << 1) | (c >> 4) == ((a << 6) | (b << 1) | (0 >> 4)) | ((c << 3) >> 7)
    ensures (a << 7) | (b << 2) | (c >> 3) == ((a << 7) | (b << 2) | (0 >> 3)) | ((c << 3) >> 6)
  {
  }

  lemma Place2(o: nat, a: bv8, b: bv8, c: bv8)
    requires o < 5 && a < 32 && b < 32 && c < 32
    ensures o < 3 ==> Window8(o, a, b, c) == Window8(o, a, b, 0)
    ensures o >= 3 ==> Window8(o, a, b, c) == Window8(o, a, b, 0) | Shr(c << 3, 10 - o)
  {
    hide Window8, Shr;
    Window8Is(o, a, b, c);
    Window8Is(o, a, b, 0);
    Place2Bits(a, b, c);
    if o >= 3 {
      ShrIs(c << 3, 10 - o);
    }
    assert o < 3 || o == 3 || o == 4;
  }

  /** A symbol that starts before the byte contributes its low bits. */
  lemma PlaceBefore(o: nat, c: bv8)
    requires 1 <= o < 5 && c < 32
    ensures Window8(o, c, 0, 0) == Window8(o, 0, 0, 0) | Shl(c, 3 + o)
  {
    ShlIs(c, 3 + o);
    Window8Is(o, c, 0, 0);
    Window8Is(o, 0, 0, 0);
  }

  /** What symbol c adds to byte i when its bits start at bit x of byte p. */
  function Contribution(c: bv8, p: nat, x: nat, i: nat): bv8
    requires x < 8
  {
    if i == p then Shr(c << 3, x) else if i == p + 1 && x > 3 then Shl(c, 11 - x) else 0
  }

  /** Where symbol j lies among the three of byte i, in terms of the byte p and the bit x at which it starts. */
  lemma PlaceAt(j: nat, i: nat, a: nat, o: nat, p: nat, x: nat)
    requires a == 8 * i / 5 && o == 8 * i % 5 && p == 5 * j / 8 && x == 5 * j % 8
    ensures j == a ==> if o == 0 then i == p && x == 0 else i == p + 1 && x == 8 - o
    ensures j == a + 1 ==> i == p && x == 5 - o
    ensures j == a + 2 ==> if o < 3 then i < p else i == p && x == 10 - o
    ensures j < a || j > a + 2 ==> i != p && (i == p + 1 ==> x <= 3)
  {
    assert 8 * i == 5 * a + o && 5 * j == 8 * p + x;
  }

  lemma NothingAdded(b: bv8)
    ensures b | 0 == b
  {
  }

  lemma NotPlaced(b: bv8, c: bv8, p: nat, x: nat, i: nat)
    requires x < 8 && i != p && (i == p + 1 ==> x <= 3)
    ensures b == b | Contribution(c, p, x, i)
  {
    NothingAdded(b);
  }

  lemma PlacedFirst(o: nat, c: bv8, p: nat, x: nat, i: nat)
    requires o < 5 && x < 8 && c < 32 && if o == 0 then i == p && x == 0 else i == p + 1 && x == 8 - o
    ensures Window8(o, c, 0, 0) == Window8(o, 0, 0, 0) | Contribution(c, p, x, i)
  {
    hide Window8, Shr, Shl;
    if o == 0 {
      Place0(c);
    } else {
      PlaceBefore(o, c);
    }
  }

  lemma PlacedSecond(o: nat, a: bv8, c: bv8, p: nat, x: nat, i: nat)
    requires o < 5 && x < 8 && a < 32 && c < 32 && i == p && x == 5 - o
    ensures Window8(o, a, c, 0) == Window8(o, a, 0, 0) | Contribution(c, p, x, i)
  {
    hide Window8, Shr, Shl;
    Place1(o, a, c);
  }

  lemma PlacedThird(o: nat, a: bv8, b: bv8, c: bv8, p: nat, x: nat, i: nat)
    requires o < 5 && x < 8 && a < 32 && b < 32 && c < 32 && if o < 3 then i < p else i == p && x == 10 - o
    ensures Window8(o, a, b, c) == Window8(o, a, b, 0) | Contribution(c, p, x, i)
  {
    hide Window8, Shr, Shl;
    Place2(o, a, b, c);
    NothingAdded(Window8(o, a, b, 0));
  }

  lemma PlaceIs(syms: seq<bv8>, j: nat, i: nat, a: nat, o: nat, p: nat, x: nat)
    requires j < |syms| && (forall k :: 0 <= k <= j ==> syms[k] < 32)
    requires a == 8 * i / 5 && o == 8 * i % 5 && p == 5 * j / 8 && x == 5 * j % 8
    ensures Partial(syms, j + 1, i) == Partial(syms, j, i) | Contribution(syms[j], p, x, i)
  {
    hide Window8, Contribution;
    PlaceAt(j, i, a, o, p, x);
    var c := syms[j];
    var u, v, w := Read(syms, j, a), Read(syms, j, a + 1), Read(syms, j, a + 2);
    if j == a {
      PlacedFirst(o, c, p, x, i);
    } else if j == a + 1 {
      PlacedSecond(o, u, c, p, x, i);
    } else if j == a + 2 {
      PlacedThird(o, u, v, c, p, x, i);
    } else {
      NotPlaced(Window8(o, u, v, w), c, p, x, i);
    }
  }
}
