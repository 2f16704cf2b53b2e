/**
 One published address of BIP 173: under "bc", the version 0 program 751e..3bd6 is
 bc1qw508d6qejxtdg4y5r3zarvary0c5xw7kv8f3t4. It fixes how the human-readable part enters the checksum, the first value
 of the register, the digits and the order of the symbols.
 */
module Bech32Example {
  import opened Common
  import opened Bech32
  import opened Bech32Alphabet
  import opened Bech32Checksum
  import Bits = Bech32Bits

  /** "bc". */
  function Hrp(): seq<bv8> {
    [0x62, 0x63]
  }

  function Prog(): (s: seq<bv8>)
    ensures |s| == 20
  {
    [0x75, 0x1e, 0x76, 0xe8, 0x19, 0x91, 0x96, 0xd4, 0x54, 0x94, 0x1c, 0x45, 0xd1, 0xb3, 0xa3, 0x23,
     0xf1, 0x43, 0x3b, 0xd6]
  }

  /** "w508d6qejxtdg4y5r3zarvary0c5xw7k". */
  function DataText(): seq<bv8> {
    [0x77, 0x35, 0x30, 0x38, 0x64, 0x36, 0x71, 0x65] +
    [0x6a, 0x78, 0x74, 0x64, 0x67, 0x34, 0x79, 0x35] +
    [0x72, 0x33, 0x7a, 0x61, 0x72, 0x76, 0x61, 0x72] +
    [0x79, 0x30, 0x63, 0x35, 0x78, 0x77, 0x37, 0x6b]
  }

  /** "bc1q", the symbols of the program, and "v8f3t4". */
  function Text(): seq<bv8> {
    [0x62, 0x63, 0x31, 0x71] + DataText() + [0x76, 0x38, 0x66, 0x33, 0x74, 0x34]
  }

  // ---------------------------------------------------------------- the symbols

  lemma ExpandedHrp()
    ensures Expand(Hrp()) == [3, 3, 0, 2, 3]
  {
    assert Map(HighBits, Hrp()) == [3, 3] && Map(LowBits, Hrp()) == [2, 3];
  }

  /** The symbols of the program. */
  function Data(): seq<bv8> {
    [14, 20, 15, 7, 13, 26, 0, 25] + [18, 6, 11, 13, 8, 21, 4, 20] +
    [3, 17, 2, 29, 3, 12, 29, 3] + [4, 15, 24, 20, 6, 14, 30, 22]
  }

  lemma Groups()
    ensures Bits.Group(0x75, 0x1e, 0x76, 0xe8, 0x19) == [14, 20, 15, 7, 13, 26, 0, 25]
    ensures Bits.Group(0x91, 0x96, 0xd4, 0x54, 0x94) == [18, 6, 11, 13, 8, 21, 4, 20]
    ensures Bits.Group(0x1c, 0x45, 0xd1, 0xb3, 0xa3) == [3, 17, 2, 29, 3, 12, 29, 3]
    ensures Bits.Group(0x23, 0xf1, 0x43, 0x3b, 0xd6) == [4, 15, 24, 20, 6, 14, 30, 22]
  {
  }

  lemma ProgramSymbols()
    ensures Bits.To5(Prog()) == Data()
  {
    hide Bits.Group, Bits.To5;
    Groups();
    var t := Bits.To5(Prog());
    Bits.Regrouped(Prog(), 0);
    Bits.Regrouped(Prog(), 1);
    Bits.Regrouped(Prog(), 2);
    Bits.Regrouped(Prog(), 3);
    FourParts(t);
  }

  lemma FourParts(t: seq<bv8>)
    requires |t| == 32
    ensures t == t[8 * 0..8 * 0 + 8] + t[8 * 1..8 * 1 + 8] + t[8 * 2..8 * 2 + 8] + t[8 * 3..8 * 3 + 8]
  {
  }

  // ---------------------------------------------------------------- the checksum

  function Fed(chk: bv32, c: bv8): bv32 {
    X(Polymod(chk), c as bv32)
  }

  lemma FeedOnto(chk: bv32, s: seq<bv8>, c: bv8, t: seq<bv8>)
    requires t == s + [c]
    ensures Feed(Polymod, chk, t) == Fed(Feed(Polymod, chk, s), c)
  {
    FeedAppend(Polymod, chk, s, c);
  }

  function Four(chk: bv32, a: bv8, b: bv8, c: bv8, d: bv8): bv32 {
    Fed(Fed(Fed(Fed(chk, a), b), c), d)
  }

  lemma FeedFour(chk: bv32, a: bv8, b: bv8, c: bv8, d: bv8)
    ensures Feed(Polymod, chk, [a, b, c, d]) == Four(chk, a, b, c, d)
  {
    hide Feed, Fed;
    FeedNone(Polymod, chk);
    FeedOnto(chk, [], a, [a]);
    FeedOnto(chk, [a], b, [a, b]);
    FeedOnto(chk, [a, b], c, [a, b, c]);
    FeedOnto(chk, [a, b, c], d, [a, b, c, d]);
  }

  /** The register r after the word s becomes q after eight more symbols. */
  lemma Next(start: bv32, s: seq<bv8>, r: bv32, a: bv8, b: bv8, c: bv8, d: bv8, e: bv8, f: bv8, g: bv8, h: bv8, q: bv32)
    requires Feed(Polymod, start, s) == r && q == Four(Four(r, a, b, c, d), e, f, g, h)
    ensures Feed(Polymod, start, s + [a, b, c, d, e, f, g, h]) == q
  {
    hide Feed, Four;
    FeedFour(r, a, b, c, d);
    FeedFour(Four(r, a, b, c, d), e, f, g, h);
    assert [a, b, c, d, e, f, g, h] == [a, b, c, d] + [e, f, g, h];
    FeedConcat(Polymod, r, [a, b, c, d], [e, f, g, h]);
    FeedConcat(Polymod, start, s, [a, b, c, d, e, f, g, h]);
  }

  lemma HrpValue()
    ensures Fed(Four(1, 3, 3, 0, 2), 3) == 0x02318043 && Fed(0x02318043, 0) == 0x3d5a5fd2
  {
  }

  lemma AfterHrp()
    ensures Feed(Polymod, 1, [3, 3, 0, 2, 3]) == 0x02318043
  {
    hide Feed, Fed, Four;
    HrpValue();
    FeedFour(1, 3, 3, 0, 2);
    FeedOnto(1, [3, 3, 0, 2], 3, [3, 3, 0, 2, 3]);
  }

  lemma DataValues()
    ensures Four(Four(0x3d5a5fd2, 14, 20, 15, 7), 13, 26, 0, 25) == 0x2b1bcbce
    ensures Four(Four(0x2b1bcbce, 18, 6, 11, 13), 8, 21, 4, 20) == 0x23a1ff4b
    ensures Four(Four(0x23a1ff4b, 3, 17, 2, 29), 3, 12, 29, 3) == 0x2a387174
    ensures Four(Four(0x2a387174, 4, 15, 24, 20), 6, 14, 30, 22) == 0x0979c4ed
  {
  }

  lemma AfterData()
    ensures Feed(Polymod, 0x02318043, [0] + Data()) == 0x0979c4ed
  {
    hide Feed, Fed, Four;
    HrpValue();
    DataValues();
    var s := [0];
    FeedNone(Polymod, 0x02318043);
    FeedOnto(0x02318043, [], 0, s);
    Next(0x02318043, s, 0x3d5a5fd2, 14, 20, 15, 7, 13, 26, 0, 25, 0x2b1bcbce);
    s := s + [14, 20, 15, 7, 13, 26, 0, 25];
    Next(0x02318043, s, 0x2b1bcbce, 18, 6, 11, 13, 8, 21, 4, 20, 0x23a1ff4b);
    s := s + [18, 6, 11, 13, 8, 21, 4, 20];
    Next(0x02318043, s, 0x23a1ff4b, 3, 17, 2, 29, 3, 12, 29, 3, 0x2a387174);
    s := s + [3, 17, 2, 29, 3, 12, 29, 3];
    Next(0x02318043, s, 0x2a387174, 4, 15, 24, 20, 6, 14, 30, 22, 0x0979c4ed);
    s := s + [4, 15, 24, 20, 6, 14, 30, 22];
    assert s == [0] + Data();
  }

  lemma LastValue()
    ensures Fed(Fed(Four(0x0979c4ed, 0, 0, 0, 0), 0), 0) == 0x1874c574
  {
  }

  lemma AfterZeros()
    ensures Check(Polymod, 0x0979c4ed) == 0x1874c575
  {
    hide Feed, Fed, Four;
    LastValue();
    Zeros6();
    var r: bv32 := 0x0979c4ed;
    FeedFour(r, 0, 0, 0, 0);
    FeedOnto(r, [0, 0, 0, 0], 0, [0, 0, 0, 0, 0]);
    FeedOnto(r, [0, 0, 0, 0, 0], 0, [0, 0, 0, 0, 0, 0]);
  }

  lemma Zeros6()
    ensures ZeroSymbols(6) == [0, 0, 0, 0, 0, 0]
  {
  }

  lemma OneDigit(m: bv32, n: nat, c: bv8, s: seq<bv8>)
    requires Five(m) == c && Digits(m >> 5, n) == s
    ensures Digits(m, n + 1) == s + [c]
  {
  }

  lemma SixDigits()
    ensures Digits(0x1874c575, 6) == [12, 7, 9, 17, 11, 21]
  {
    OneDigit(0xc, 0, 12, []);
    OneDigit(0x187, 1, 7, [12]);
    OneDigit(0x30e9, 2, 9, [12, 7]);
    OneDigit(0x61d31, 3, 17, [12, 7, 9]);
    OneDigit(0xc3a62b, 4, 11, [12, 7, 9, 17]);
    OneDigit(0x1874c575, 5, 21, [12, 7, 9, 17, 11]);
  }

  /** The six symbols of the checksum. */
  lemma CheckSymbols()
    ensures Checksum(Polymod, Hrp(), Body(0, Prog())) == [12, 7, 9, 17, 11, 21]
  {
    hide Feed, Expand, Hrp, Prog, Check, Data;
    ExpandedHrp();
    AfterHrp();
    ProgramSymbols();
    AfterData();
    AfterZeros();
    SixDigits();
    FeedConcat(Polymod, 1, Expand(Hrp()), Body(0, Prog()));
  }

  // ---------------------------------------------------------------- the address

  lemma Digits4()
    ensures Map(Char, [14, 20, 15, 7, 13, 26, 0, 25]) == [0x77, 0x35, 0x30, 0x38, 0x64, 0x36, 0x71, 0x65]
    ensures Map(Char, [18, 6, 11, 13, 8, 21, 4, 20]) == [0x6a, 0x78, 0x74, 0x64, 0x67, 0x34, 0x79, 0x35]
    ensures Map(Char, [3, 17, 2, 29, 3, 12, 29, 3]) == [0x72, 0x33, 0x7a, 0x61, 0x72, 0x76, 0x61, 0x72]
    ensures Map(Char, [4, 15, 24, 20, 6, 14, 30, 22]) == [0x79, 0x30, 0x63, 0x35, 0x78, 0x77, 0x37, 0x6b]
    ensures Map(Char, [12, 7, 9, 17, 11, 21]) == [0x76, 0x38, 0x66, 0x33, 0x74, 0x34]
    ensures Map(Char, [0]) == [0x71]
  {
  }

  lemma InText()
    ensures Map(Char, [0] + Data() + [12, 7, 9, 17, 11, 21]) ==
            [0x71] + DataText() + [0x76, 0x38, 0x66, 0x33, 0x74, 0x34]
  {
    hide Map, Char;
    Digits4();
    var d0, d1 := [14, 20, 15, 7, 13, 26, 0, 25], [18, 6, 11, 13, 8, 21, 4, 20];
    var d2, d3 := [3, 17, 2, 29, 3, 12, 29, 3], [4, 15, 24, 20, 6, 14, 30, 22];
    MapConcat(Char, d0, d1);
    MapConcat(Char, d0 + d1, d2);
    MapConcat(Char, d0 + d1 + d2, d3);
    MapConcat(Char, [0], Data());
    MapConcat(Char, [0] + Data(), [12, 7, 9, 17, 11, 21]);
  }

  /** The published address is the encoding, and decoding gives the program back. */
  lemma Published()
    ensures AddressOf(Polymod, Hrp(), 0, Prog()) == Text()
    ensures Meaning(Polymod, Text()) == Some(Address(Hrp(), 0, Prog()))
  {
    hide Checksum, Meaning, Data, DataText, Map, Prog;
    CheckSymbols();
    ProgramSymbols();
    InText();
    PolymodIsRegister();
    RoundTrip(Polymod, Hrp(), 0, Prog());
  }
}
