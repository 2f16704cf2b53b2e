/**
 Base58 and Base58Check (BRBase58.c). A string is a sequence of ASCII codes without its NUL; a numeral is a sequence
 of digits, most significant first.
 */
module Base58 {
  import opened Common
  import opened Radix

  // ---------------------------------------------------------------- the alphabet

  const ONE: byte := 0x31

  /** chars[d]. */
  function Char(d: nat): (c: byte)
    requires d < 58
  {
    if d < 9 then d + 0x31
    else if d < 17 then d - 9 + 0x41
    else if d < 22 then d - 17 + 0x4a
    else if d < 33 then d - 22 + 0x50
    else if d < 44 then d - 33 + 0x61
    else d - 44 + 0x6d
  }

  const INVALID: nat := 0xffff_ffff

  /** The switch of BRBase58Decode. */
  function Digit(c: byte): nat {
    if 0x31 <= c <= 0x39 then c - 0x31
    else if 0x41 <= c <= 0x48 then c - 0x41 + 9
    else if 0x4a <= c <= 0x4e then c - 0x4a + 17
    else if 0x50 <= c <= 0x5a then c - 0x50 + 22
    else if 0x61 <= c <= 0x6b then c - 0x61 + 33
    else if 0x6d <= c <= 0x7a then c - 0x6d + 44
    else INVALID
  }

  lemma Alphabet(d: nat, c: byte)
    ensures d < 58 ==> Digit(Char(d)) == d && (Char(d) == ONE <==> d == 0)
    ensures Digit(c) < 58 ==> Char(Digit(c)) == c
  {
  }

  // ---------------------------------------------------------------- what the encodings are

  /** How many times `c` opens s. */
  function Lead(c: nat, s: seq<nat>): (z: nat)
    ensures z <= |s|
  {
    if s == [] || s[0] != c then 0 else 1 + Lead(c, s[1..])
  }

  function Repeat(c: byte, n: nat): (s: seq<byte>)
    ensures |s| == n && forall i :: 0 <= i < n ==> s[i] == c
  {
    seq(n, _ => c)
  }

  function Chars(s: seq<nat>): (t: seq<byte>)
    requires Digits(58, s)
    ensures |t| == |s| && forall i :: 0 <= i < |s| ==> t[i] == Char(s[i])
  {
    seq(|s|, i requires 0 <= i < |s| => Char(s[i]))
  }

  /** A '1' for every leading zero byte, then the number in base 58. */
  function Encoded(data: seq<byte>): seq<byte> {
    Repeat(ONE, Lead(0, data)) + Chars(Numeral(58, Value(256, data)))
  }

  /** The digits of s up to the first character that is none. */
  function DigitsOf(s: seq<byte>): (d: seq<nat>)
    ensures |d| <= |s| && Digits(58, d)
  {
    if s == [] || Digit(s[0]) >= 58 then [] else [Digit(s[0])] + DigitsOf(s[1..])
  }

  function Bytes(s: seq<nat>): (t: seq<byte>)
    requires Digits(256, s)
    ensures t == s
  {
    s
  }

  /** A zero byte for every leading '1', then the number in base 256. */
  function Decoded(s: seq<byte>): seq<byte> {
    Repeat(0, Lead(ONE, s)) + Bytes(Numeral(256, Value(58, DigitsOf(s))))
  }

  // ---------------------------------------------------------------- round trips

  lemma {:induction false} LeadOf(c: nat, z: nat, s: seq<nat>, t: seq<nat>)
    requires z <= |s| && t == s[z..] && (forall i :: 0 <= i < z ==> s[i] == c) && (t != [] ==> t[0] != c)
    ensures Lead(c, s) == z
  {
    if z == 0 {
    } else {
      LeadOf(c, z - 1, s[1..], t);
    }
  }

  lemma {:induction false} Leading(c: nat, s: seq<nat>)
    ensures forall i :: 0 <= i < Lead(c, s) ==> s[i] == c
    ensures Lead(c, s) < |s| ==> s[Lead(c, s)] != c
  {
    if s == [] || s[0] != c {
    } else {
      Leading(c, s[1..]);
    }
  }

  /** A numeral is its leading zeros and its shortest form. */
  lemma Stripped(b: nat, s: seq<nat>)
    requires b >= 2 && Digits(b, s)
    ensures s == Zeros(Lead(0, s)) + Numeral(b, Value(b, s))
  {
    var z := Lead(0, s);
    Leading(0, s);
    assert s == Zeros(z) + s[z..];
    LeadingZeros(b, z, s[z..]);
    NumeralValue(b, s[z..]);
  }

  lemma {:induction false} DigitsOfChars(d: seq<nat>)
    requires Digits(58, d)
    ensures DigitsOf(Chars(d)) == d
  {
    if d == [] {
    } else {
      DigitsOfChars(d[1..]);
      Alphabet(d[0], 0);
      assert Chars(d)[1..] == Chars(d[1..]);
      assert d == [d[0]] + d[1..];
    }
  }

  lemma {:induction false} CharsOfDigits(s: seq<byte>)
    ensures Chars(DigitsOf(s)) == s[..|DigitsOf(s)|]
  {
    if s == [] || Digit(s[0]) >= 58 {
    } else {
      CharsOfDigits(s[1..]);
      Alphabet(0, s[0]);
      var d := DigitsOf(s);
      assert Chars(d)[1..] == Chars(d[1..]);
      assert d[1..] == DigitsOf(s[1..]);
    }
  }

  /** Leading ones are the characters of leading zeros. */
  lemma CharsOfPadded(z: nat, d: seq<nat>)
    requires Digits(58, d)
    ensures Digits(58, Zeros(z) + d) && Chars(Zeros(z) + d) == Repeat(ONE, z) + Chars(d)
  {
    Alphabet(0, 0);
  }

  lemma {:induction false} SameLead(s: seq<byte>)
    ensures Lead(ONE, s) == Lead(0, DigitsOf(s))
  {
    if s == [] || Digit(s[0]) >= 58 {
    } else {
      Alphabet(Digit(s[0]), s[0]);
      SameLead(s[1..]);
      assert DigitsOf(s)[1..] == DigitsOf(s[1..]);
    }
  }

  lemma LeadOfPadded(b: nat, z: nat, n: nat)
    requires b >= 2
    ensures Lead(0, Zeros(z) + Numeral(b, n)) == z
  {
    var s := Zeros(z) + Numeral(b, n);
    if n > 0 {
      NumeralLeads(b, n);
    }
    assert s[z..] == Numeral(b, n);
    LeadOf(0, z, s, Numeral(b, n));
  }

  lemma ValueOfPadded(b: nat, z: nat, n: nat)
    requires b >= 2
    ensures Value(b, Zeros(z) + Numeral(b, n)) == n
  {
    LeadingZeros(b, z, Numeral(b, n));
    ValueNumeral(b, n);
  }

  lemma DecodeEncode(data: seq<byte>)
    ensures Decoded(Encoded(data)) == data
    ensures |DigitsOf(Encoded(data))| == |Encoded(data)|
  {
    var z, n := Lead(0, data), Value(256, data);
    var d, e := Zeros(z) + Numeral(58, n), Encoded(data);
    CharsOfPadded(z, Numeral(58, n));
    DigitsOfChars(d);
    SameLead(e);
    LeadOfPadded(58, z, n);
    ValueOfPadded(58, z, n);
    Stripped(256, data);
  }

  /** Decoding keeps exactly the characters before the first one outside the alphabet. */
  lemma EncodeDecode(s: seq<byte>)
    ensures Encoded(Decoded(s)) == s[..|DigitsOf(s)|]
  {
    var d, e := DigitsOf(s), Decoded(s);
    var z, n := Lead(ONE, s), Value(58, d);
    SameLead(s);
    Stripped(58, d);
    assert e == Zeros(z) + Numeral(256, n);
    LeadOfPadded(256, z, n);
    ValueOfPadded(256, z, n);
    CharsOfPadded(z, Numeral(58, n));
    CharsOfDigits(s);
  }

  predicate InAlphabet(s: seq<byte>) {
    forall i :: 0 <= i < |s| ==> Digit(s[i]) < 58
  }

  lemma {:induction false} AllDigits(s: seq<byte>)
    ensures |DigitsOf(s)| == |s| <==> InAlphabet(s)
  {
    if s == [] {
    } else {
      AllDigits(s[1..]);
      if Digit(s[0]) < 58 {
        assert InAlphabet(s[1..]) ==> forall i :: 0 < i < |s| ==> s[i] == s[1..][i - 1];
      }
    }
  }

  /** Base58 is a bijection between byte strings and the strings over its alphabet. */
  lemma Bijection(s: seq<byte>)
    ensures Encoded(Decoded(s)) == s <==> InAlphabet(s)
  {
    EncodeDecode(s);
    AllDigits(s);
    assert |DigitsOf(s)| == |s| ==> s[..|DigitsOf(s)|] == s;
  }

  // ---------------------------------------------------------------- digit buffers

  /** The inner loops: a buffer of digits in base b, times m plus c, in place from the last digit up. With b = 256 the
      remainder and quotient are written `& 0xff` and `>> 8`. */
  method MulAddInPlace(buf: array<nat>, b: nat, m: nat, c: nat) returns (carry: nat)
    requires b > 0 && c < m && Digits(b, buf[..])
    modifies buf
    ensures buf[..] == MulAdd(b, old(buf[..]), m, c)
    ensures carry == CarryOut(b, old(buf[..]), m, c) < m
  {
    carry := c;
    var j := buf.Length;
    ghost var s, done := buf[..], [];
    assert s[..j] == s;
    while j > 0
      invariant 0 <= j <= buf.Length && carry < m
      invariant buf[..j] == s[..j] && buf[j..] == done
      invariant MulAdd(b, s, m, c) == MulAdd(b, s[..j], m, carry) + done
      invariant CarryOut(b, s, m, c) == CarryOut(b, s[..j], m, carry)
    {
      j := j - 1;
      LastDigit(s, j, buf[..j + 1]);
      var digit;
      carry, digit := Step(b, m, carry, buf[j], s[..j + 1], s[..j], done);
      Put(buf, j, digit, done);
      done := [digit] + done;
    }
  }

  /** `carry += buf[j - 1]*m, buf[j - 1] = carry % b, carry /= b`. */
  method Step(b: nat, m: nat, c: nat, d: nat, ghost t: seq<nat>, ghost u: seq<nat>, ghost done: seq<nat>)
    returns (carry: nat, digit: nat)
    requires b > 0 && c < m && d < b && t != [] && u == t[..|t| - 1] && d == t[|t| - 1]
    ensures carry < m
    ensures MulAdd(b, t, m, c) + done == MulAdd(b, u, m, carry) + ([digit] + done)
    ensures CarryOut(b, t, m, c) == CarryOut(b, u, m, carry)
  {
    var x := c + d * m;
    MulAddLast(b, t, m, c, x, u, done);
    CarryFits(c, d, b, m, x);
    carry, digit := x / b, x % b;
  }

  lemma LastDigit(s: seq<nat>, j: nat, t: seq<nat>)
    requires j < |s| && t == s[..j + 1]
    ensures t[j] == s[j] && t[..j] == s[..j]
  {
  }

  method Put(buf: array<nat>, j: nat, d: nat, ghost done: seq<nat>)
    requires j < buf.Length && buf[j + 1..] == done
    modifies buf
    ensures buf[j..] == [d] + done && buf[..j] == old(buf[..j])
  {
    buf[j] := d;
    assert buf[j..] == [buf[j]] + buf[j + 1..];
  }

  lemma MulAddLast(b: nat, t: seq<nat>, m: nat, c: nat, x: nat, u: seq<nat>, done: seq<nat>)
    requires b > 0 && t != [] && u == t[..|t| - 1] && x == c + t[|t| - 1] * m
    ensures x / b >= 0 && x % b >= 0
    ensures MulAdd(b, t, m, c) + done == MulAdd(b, u, m, x / b) + ([x % b] + done)
    ensures CarryOut(b, t, m, c) == CarryOut(b, u, m, x / b)
  {
    QuotientIsNat(x, b);
  }

  /** The carry stays below the multiplier. */
  lemma CarryFits(c: nat, d: nat, b: nat, m: nat, x: nat)
    requires b > 0 && c < m && d < b && x == c + d * m
    ensures x / b < m
  {
    MulMono(d, b - 1, m, m);
    DistributeOver(b, 0 - 1, m);
    DivIdentity(x, b);
    if x / b >= m {
      MulMono(m, x / b, b, b);
      Commute(m, b);
    }
  }

  // ---------------------------------------------------------------- the buffers are long enough

  function EncodeSize(n: nat): nat {
    n * 138 / 100 + 1
  }

  function DecodeSize(n: nat): nat {
    n * 733 / 1000 + 1
  }

  lemma Pow8()
    ensures Pow(256, 8) <= Pow(58, 11)
  {
    assert Pow(256, 8) == 0x1_0000_0000_0000_0000;
    assert Pow(58, 11) == 24986644000165537792;
  }

  function Square(x: nat): nat {
    x * x
  }

  lemma PowDouble(b: nat, n: nat, m: nat, v: nat)
    requires m == n + n && v == Pow(b, n)
    ensures Pow(b, m) == Square(v)
  {
    PowAdd(b, n, n);
  }

  lemma Tower(b: nat, v7: nat, v8: nat, v64: nat)
    requires v7 == Pow(b, 7) && v8 == Pow(b, 8) && v64 == Square(Square(Square(v8)))
    ensures Pow(b, 64) == v64 && Pow(b, 71) == v64 * v7
  {
    PowDouble(b, 8, 16, v8);
    PowDouble(b, 16, 32, Square(v8));
    PowDouble(b, 32, 64, Square(Square(v8)));
    PowAdd(b, 64, 7);
  }

  lemma Tower52(b: nat, v4: nat, v16: nat, v32: nat)
    requires v4 == Pow(b, 4) && v16 == Square(Square(v4)) && v32 == Square(v16)
    ensures Pow(b, 52) == v32 * v16 * v4
  {
    PowDouble(b, 4, 8, v4);
    PowDouble(b, 8, 16, Square(v4));
    PowDouble(b, 16, 32, v16);
    PowAdd(b, 32, 16);
    PowAdd(b, 48, 4);
  }

  lemma Pow71()
    ensures Pow(58, 71) <= Pow(256, 52)
  {
    Tower(58, 2207984167552, 128063081718016,
          72342179355466901471258927612150153907721848234316445933056526044582001260898145151856420451025374266490194231296);
    Tower52(256, 0x100000000, 0x100000000000000000000000000000000,
            0x10000000000000000000000000000000000000000000000000000000000000000);
  }

  lemma EncodeFits(n: nat)
    ensures Pow(256, n) <= Pow(58, EncodeSize(n))
  {
    Pow8();
    LogBound(256, 58, 8, 11, n, EncodeSize(n));
  }

  lemma DecodeFits(n: nat)
    ensures Pow(58, n) <= Pow(256, DecodeSize(n))
  {
    Pow71();
    LogBound(58, 256, 71, 52, n, DecodeSize(n));
  }

  // ---------------------------------------------------------------- BRBase58Encode

  /** One more digit c, in base m, of a number that the buffer holds in base b and that fits: nothing is carried out. */
  method TakeDigit(buf: array<nat>, b: nat, m: nat, c: nat, ghost v: nat)
    requires b > 0 && c < m && Digits(b, buf[..]) && Value(b, buf[..]) == v
    requires v * m + c < Pow(b, buf.Length)
    modifies buf
    ensures Digits(b, buf[..]) && Value(b, buf[..]) == v * m + c
  {
    ghost var s := buf[..];
    MulAddValue(b, s, m, c);
    var carry := MulAddInPlace(buf, b, m, c);
    NoCarry(Value(b, buf[..]), Pow(b, buf.Length), carry);
  }

  lemma NoCarry(v: nat, p: nat, o: nat)
    requires v + p * o < p
    ensures o == 0 && p * o == 0
  {
    AtLeast(o, p);
    Commute(o, p);
  }

  /** Reading the digits of `d` in base m into a buffer of digits in base b that holds that many. */
  lemma Reads(d: seq<nat>, i: nat, b: nat, m: nat, size: nat)
    requires i < |d| && m > 0 && Digits(m, d) && Pow(m, |d|) <= Pow(b, size)
    ensures Value(m, d[..i + 1]) == Value(m, d[..i]) * m + d[i]
    ensures Value(m, d[..i + 1]) < Pow(b, size)
  {
    assert d[..i + 1] == d[..i] + [d[i]];
    ValueAppend(m, d[..i], d[i]);
    ValueBound(m, d[..i + 1]);
    PowMonoExp(m, i + 1, |d|);
  }

  method CountLead(c: nat, s: seq<nat>) returns (z: nat)
    ensures z == Lead(c, s)
  {
    z := 0;
    assert s[0..] == s;
    while z < |s| && s[z] == c
      invariant z <= |s| && Lead(c, s) == z + Lead(c, s[z..])
    {
      z := z + 1;
      assert s[z - 1..][1..] == s[z..];
    }
  }

  method EncodeBuffer(data: seq<byte>, z: nat) returns (buf: array<nat>)
    requires z <= |data|
    ensures fresh(buf) && Digits(58, buf[..]) && Value(58, buf[..]) == Value(256, data[z..])
  {
    var d := data[z..];
    buf := new nat[EncodeSize(|d|)](_ => 0);
    assert buf[..] == Zeros(buf.Length);
    ZerosAreNothing(58, buf.Length);
    EncodeFits(|d|);
    for i := 0 to |d|
      invariant Digits(58, buf[..]) && Value(58, buf[..]) == Value(256, d[..i])
    {
      Reads(d, i, 58, 256, buf.Length);
      TakeDigit(buf, 58, 256, d[i], Value(256, d[..i]));
    }
    assert d[..|d|] == d;
  }

  /** What to write: z ones, then the buffer without its leading zeros. */
  lemma EncodedFrom(data: seq<byte>, z: nat, b: seq<nat>, i: nat)
    requires z == Lead(0, data) && Digits(58, b) && Value(58, b) == Value(256, data[z..]) && i == Lead(0, b)
    ensures Encoded(data) == Repeat(ONE, z) + Chars(b[i..])
  {
    Leading(0, data);
    assert data == Zeros(z) + data[z..];
    LeadingZeros(256, z, data[z..]);
    Stripped(58, b);
    assert b[i..] == Numeral(58, Value(58, b));
  }

  /** BRBase58Encode. */
  method Base58Encode(str: array?<byte>, strLen: nat, data: seq<byte>) returns (len: nat)
    requires str != null ==> strLen <= str.Length
    modifies str
    ensures str == null || |Encoded(data)| < strLen ==> len == |Encoded(data)| + 1
    ensures str != null && |Encoded(data)| < strLen ==>
              str[..len] == Encoded(data) + [0] && str[len..] == old(str[|Encoded(data)| + 1..])
    ensures str != null && |Encoded(data)| >= strLen ==> len == 0 && str[..] == old(str[..])
  {
    var z := CountLead(0, data);
    var buf := EncodeBuffer(data, z);
    var i := CountLead(0, buf[..]);
    EncodedFrom(data, z, buf[..], i);
    len := z + buf.Length - i + 1;
    if str != null {
      if len <= strLen {
        WriteString(str, Repeat(ONE, z), Chars(buf[i..]));
      } else {
        len := 0;
      }
    }
  }

  method WriteString(str: array<byte>, a: seq<byte>, b: seq<byte>)
    requires |a| + |b| + 1 <= str.Length
    modifies str
    ensures str[..|a| + |b| + 1] == a + b + [0]
    ensures str[|a| + |b| + 1..] == old(str[|a| + |b| + 1..])
  {
    var s := a + b + [0];
    for k := 0 to |s|
      invariant str[..k] == s[..k] && str[|s|..] == old(str[|s|..])
    {
      str[k] := s[k];
    }
  }

  // ---------------------------------------------------------------- BRBase58Decode

  lemma {:induction false} DigitsOfAre(s: seq<byte>)
    ensures forall i :: 0 <= i < |DigitsOf(s)| ==> DigitsOf(s)[i] == Digit(s[i]) && Digit(s[i]) < 58
    ensures |DigitsOf(s)| < |s| ==> Digit(s[|DigitsOf(s)|]) >= 58
  {
    if s == [] || Digit(s[0]) >= 58 {
    } else {
      DigitsOfAre(s[1..]);
      assert forall i :: 0 < i < |DigitsOf(s)| ==> DigitsOf(s)[i] == DigitsOf(s[1..])[i - 1];
    }
  }

  method DecodeBuffer(s: seq<byte>) returns (buf: array<nat>)
    ensures fresh(buf) && Digits(256, buf[..]) && Value(256, buf[..]) == Value(58, DigitsOf(s))
  {
    hide DigitsOf, Digit, Pow;
    ghost var d := DigitsOf(s);
    buf := new nat[DecodeSize(|s|)](_ => 0);
    assert buf[..] == Zeros(buf.Length);
    ZerosAreNothing(256, buf.Length);
    DecodeFits(|s|);
    PowMonoExp(58, |d|, |s|);
    DigitsOfAre(s);
    var i := 0;
    while i < |s| && Digit(s[i]) < 58
      invariant 0 <= i <= |d|
      invariant Digits(256, buf[..]) && Value(256, buf[..]) == Value(58, d[..i])
    {
      assert i < |d|;
      Reads(d, i, 256, 58, buf.Length);
      TakeDigit(buf, 256, 58, Digit(s[i]), Value(58, d[..i]));
      i := i + 1;
    }
    assert d[..|d|] == d;
  }

  lemma {:induction false} DigitsOfPadded(s: seq<byte>, z: nat)
    requires z == Lead(ONE, s)
    ensures DigitsOf(s) == Zeros(z) + DigitsOf(s[z..])
  {
    if z > 0 {
      DigitsOfPadded(s[1..], z - 1);
      SliceOnce(s, z);
      OneMoreZero(z - 1, DigitsOf(s[z..]));
    } else {
      assert s[0..] == s;
    }
  }

  lemma SliceOnce(s: seq<byte>, z: nat)
    requires 0 < z <= |s|
    ensures s[1..][z - 1..] == s[z..]
  {
  }

  lemma OneMoreZero(z: nat, d: seq<nat>)
    ensures Zeros(z + 1) + d == [0] + (Zeros(z) + d)
  {
  }

  lemma DecodedFrom(s: seq<byte>, z: nat, b: seq<nat>, i: nat)
    requires z == Lead(ONE, s) && Digits(256, b) && Value(256, b) == Value(58, DigitsOf(s[z..])) && i == Lead(0, b)
    ensures Decoded(s) == Repeat(0, z) + Bytes(b[i..])
  {
    DigitsOfPadded(s, z);
    LeadingZeros(58, z, DigitsOf(s[z..]));
    Stripped(256, b);
    assert b[i..] == Numeral(256, Value(256, b));
  }

  /** BRBase58Decode. */
  method Base58Decode(data: array?<byte>, dataLen: nat, s: seq<byte>) returns (len: nat)
    requires data != null ==> dataLen <= data.Length
    modifies data
    ensures data == null || |Decoded(s)| <= dataLen ==> len == |Decoded(s)|
    ensures data != null && |Decoded(s)| <= dataLen ==>
              data[..len] == Decoded(s) && data[len..] == old(data[|Decoded(s)|..])
    ensures data != null && |Decoded(s)| > dataLen ==> len == 0 && data[..] == old(data[..])
  {
    var z := CountLead(ONE, s);
    var buf := DecodeBuffer(s[z..]);
    var i := CountLead(0, buf[..]);
    DecodedFrom(s, z, buf[..], i);
    len := z + buf.Length - i;
    if data != null {
      if len <= dataLen {
        CopyBytes(data, Repeat(0, z) + Bytes(buf[i..]));
      } else {
        len := 0;
      }
    }
  }

  /** `memset` and `memcpy` from the start of the destination. */
  method CopyBytes(data: array<byte>, s: seq<byte>)
    requires |s| <= data.Length
    modifies data
    ensures data[..|s|] == s && data[|s|..] == old(data[|s|..])
  {
    for k := 0 to |s|
      invariant data[..k] == s[..k] && data[|s|..] == old(data[|s|..])
    {
      data[k] := s[k];
    }
  }

  lemma ValueAfterZeros(data: seq<byte>, z: nat)
    requires z == Lead(0, data)
    ensures Value(256, data) < Pow(256, |data| - z)
  {
    Leading(0, data);
    assert data == Zeros(z) + data[z..];
    LeadingZeros(256, z, data[z..]);
    ValueBound(256, data[z..]);
  }

  /** The buffer size that a caller must provide. */
  lemma EncodedLength(data: seq<byte>)
    ensures |Encoded(data)| <= EncodeSize(|data|)
  {
    var z := Lead(0, data);
    var n := |data| - z;
    ValueAfterZeros(data, z);
    EncodeFits(n);
    NumeralLength(58, Value(256, data), EncodeSize(n));
    SizeGrows(z, n);
  }

  lemma SizeGrows(z: nat, n: nat)
    ensures z + EncodeSize(n) <= EncodeSize(n + z)
  {
  }

  // ---------------------------------------------------------------- Base58Check

  // `sha` stands for BRSHA256_2.

  function CheckEncoded(sha: Sha, data: seq<byte>): seq<byte> {
    Encoded(data + sha(data)[..4])
  }

  /** The bytes before a correct checksum; BRBase58CheckDecode has no other answer than 0 bytes for a wrong one. */
  function CheckDecoded(sha: Sha, s: seq<byte>): seq<byte> {
    var d := Decoded(s);
    if |d| >= 4 && d[|d| - 4..] == sha(d[..|d| - 4])[..4] then d[..|d| - 4] else []
  }

  lemma CheckRoundTrip(sha: Sha, data: seq<byte>)
    ensures CheckDecoded(sha, CheckEncoded(sha, data)) == data
  {
    var d := data + sha(data)[..4];
    DecodeEncode(d);
    assert d[..|d| - 4] == data && d[|d| - 4..] == sha(data)[..4];
  }

  lemma CheckEncodedLength(sha: Sha, data: seq<byte>)
    ensures |CheckEncoded(sha, data)| <= EncodeSize(|data| + 4)
  {
    EncodedLength(data + sha(data)[..4]);
  }

  /** A string over the alphabet that decodes to something is the encoding of what it decodes to. */
  lemma CheckReencodes(sha: Sha, s: seq<byte>)
    requires CheckDecoded(sha, s) != []
    ensures CheckEncoded(sha, CheckDecoded(sha, s)) == s <==> InAlphabet(s)
  {
    var d := Decoded(s);
    assert d == d[..|d| - 4] + d[|d| - 4..];
    Bijection(s);
  }

  lemma {:induction false} NumeralLength(b: nat, n: nat, k: nat)
    requires b >= 2 && n < Pow(b, k)
    ensures |Numeral(b, n)| <= k
  {
    if n == 0 {
    } else {
      QuotientIsNat(n, b);
      QuotientBelow(n, b, Pow(b, k - 1));
      NumeralLength(b, n / b, k - 1);
    }
  }

  lemma QuotientBelow(n: nat, b: nat, p: nat)
    requires b > 0 && n < b * p
    ensures n / b < p
  {
    DivIdentity(n, b);
    if n / b >= p {
      MulMono(p, n / b, b, b);
      Commute(p, b);
    }
  }

  /** Decoding never lengthens, so the strlen-sized buffer of BRBase58CheckDecode is enough. */
  lemma DecodedLength(s: seq<byte>)
    ensures |Decoded(s)| <= |s|
  {
    var z := Lead(ONE, s);
    var d := DigitsOf(s[z..]);
    DigitsOfPadded(s, z);
    LeadingZeros(58, z, d);
    ValueBound(58, d);
    PowMonoBase(58, 256, |d|);
    NumeralLength(256, Value(58, d), |d|);
  }

  /** BRBase58CheckEncode. */
  method Base58CheckEncode(sha: Sha, str: array?<byte>, strLen: nat, data: seq<byte>) returns (len: nat)
    requires str != null ==> strLen <= str.Length
    modifies str
    ensures var e := CheckEncoded(sha, data);
            && (str == null || |e| < strLen ==> len == |e| + 1)
            && (str != null && |e| < strLen ==>
                  str[..len] == e + [0] && str[len..] == old(str[|CheckEncoded(sha, data)| + 1..]))
            && (str != null && |e| >= strLen ==> len == 0 && str[..] == old(str[..]))
  {
    len := Base58Encode(str, strLen, data + sha(data)[..4]);
  }

  /** BRBase58CheckDecode. */
  method Base58CheckDecode(sha: Sha, data: array?<byte>, dataLen: nat, s: seq<byte>) returns (len: nat)
    requires data != null ==> dataLen <= data.Length
    modifies data
    ensures var d := CheckDecoded(sha, s);
            && (data == null || |d| <= dataLen ==> len == |d|)
            && (data != null && |d| <= dataLen ==>
                  data[..len] == d && data[len..] == old(data[|CheckDecoded(sha, s)|..]))
            && (data != null && |d| > dataLen ==> len == 0 && data[..] == old(data[..]))
  {
    var buf := new byte[|s|];
    DecodedLength(s);
    len := Base58Decode(buf, |s|, s);
    if len >= 4 {
      len := len - 4;
      assert buf[..len + 4][..len] == buf[..len] && buf[..len + 4][len..] == buf[len..len + 4];
      var md := sha(buf[..len]);
      if buf[len..len + 4] != md[..4] { len := 0; }
      if data != null && len <= dataLen { CopyBytes(data, buf[..len]); }
    } else {
      len := 0;
    }
    if data != null && len > dataLen { len := 0; }
    assert data != null ==> data[0..] == data[..] && old(data[0..]) == old(data[..]);
  }

  // ---------------------------------------------------------------- spelled out

  lemma Digits9(d: nat)
    requires d < 9
    ensures "123456789"[d] as int == 0x31 + d
  {
  }

  lemma UpperRuns(d: nat)
    ensures d < 8 ==> "ABCDEFGH"[d] as int == 0x41 + d
    ensures d < 5 ==> "JKLMN"[d] as int == 0x4a + d
    ensures d < 11 ==> "PQRSTUVWXYZ"[d] as int == 0x50 + d
  {
  }

  lemma LowerRuns(d: nat)
    ensures d < 11 ==> "abcdefghijk"[d] as int == 0x61 + d
    ensures d < 14 ==> "mnopqrstuvwxyz"[d] as int == 0x6d + d
  {
  }

  /** Character i of six strings in a row, by the lengths of the first five. */
  lemma SixRuns(a: string, b: string, c: string, d: string, e: string, f: string, i: nat)
    requires i < |a| + |b| + |c| + |d| + |e| + |f|
    ensures (a + b + c + d + e + f)[i] ==
            if i < |a| then a[i]
            else if i < |a| + |b| then b[i - |a|]
            else if i < |a| + |b| + |c| then c[i - |a| - |b|]
            else if i < |a| + |b| + |c| + |d| then d[i - |a| - |b| - |c|]
            else if i < |a| + |b| + |c| + |d| + |e| then e[i - |a| - |b| - |c| - |d|]
            else f[i - |a| - |b| - |c| - |d| - |e|]
  {
  }

  /** The digits are the characters of the alphabet in `chars`: everything but 0, O, I and l. */
  lemma CharsAre(d: nat)
    requires d < 58
    ensures Char(d) ==
            ("123456789" + "ABCDEFGH" + "JKLMN" + "PQRSTUVWXYZ" + "abcdefghijk" + "mnopqrstuvwxyz")[d] as int
  {
    SixRuns("123456789", "ABCDEFGH", "JKLMN", "PQRSTUVWXYZ", "abcdefghijk", "mnopqrstuvwxyz", d);
    if d < 9 {
      Digits9(d);
    } else if d < 33 {
      UpperRuns(if d < 17 then d - 9 else if d < 22 then d - 17 else d - 22);
    } else {
      LowerRuns(if d < 44 then d - 33 else d - 44);
    }
  }

  lemma OneDigit(b: nat, n: nat, rest: seq<nat>, d: nat)
    requires b >= 2 && n > 0 && Numeral(b, n / b) == rest && d == n % b
    ensures Numeral(b, n) == rest + [d]
  {
  }

  /** Two zero bytes and "bbb" are "11a3gV": zeros count, and the high digit comes first. */
  lemma EncodedBbb()
    ensures Encoded([0, 0, 0x62, 0x62, 0x62]) == [0x31, 0x31, 0x61, 0x33, 0x67, 0x56]
  {
    var data: seq<byte> := [0, 0, 0x62, 0x62, 0x62];
    ValueBbb();
    NumeralBbb();
    assert data[1..] == [0, 0x62, 0x62, 0x62] && data[1..][1..] == [0x62, 0x62, 0x62];
    assert Lead(0, data[1..][1..]) == 0;
    assert Lead(0, data[1..]) == 1;
    assert Lead(0, data) == 2;
  }

  lemma NextByte(s: seq<nat>, x: nat, t: seq<nat>)
    requires t == s + [x]
    ensures Value(256, t) == Value(256, s) * 256 + x
  {
    assert t[..|t| - 1] == s;
  }

  lemma ValueBbb()
    ensures Value(256, [0, 0, 0x62, 0x62, 0x62]) == 0x626262
  {
    hide Value;
    NoDigits();
    NextByte([], 0, [0]);
    NextByte([0], 0, [0, 0]);
    NextByte([0, 0], 0x62, [0, 0, 0x62]);
    NextByte([0, 0, 0x62], 0x62, [0, 0, 0x62, 0x62]);
    NextByte([0, 0, 0x62, 0x62], 0x62, [0, 0, 0x62, 0x62, 0x62]);
  }

  lemma NoDigits()
    ensures Value(256, []) == 0 && Numeral(58, 0) == []
  {
  }

  lemma NumeralBbb()
    ensures Numeral(58, 0x626262) == [33, 2, 39, 28]
  {
    hide Numeral;
    NoDigits();
    OneDigit(58, 33, [], 33);
    OneDigit(58, 1916, [33], 2);
    OneDigit(58, 111167, [33, 2], 39);
    OneDigit(58, 6447714, [33, 2, 39], 28);
  }

  /** What is encoded ends in the first four bytes of the hash of the rest. */
  lemma CheckEncodedIs(sha: Sha, data: seq<byte>)
    ensures Decoded(CheckEncoded(sha, data)) ==
            data + [sha(data)[0], sha(data)[1], sha(data)[2], sha(data)[3]]
  {
    DecodeEncode(data + sha(data)[..4]);
  }

  /** Decoding gives the bytes before such a checksum; with any other ending, or fewer than four bytes, nothing. */
  lemma CheckDecodedIs(sha: Sha, s: seq<byte>, data: seq<byte>, end: seq<byte>)
    requires Decoded(s) == data + end && |end| == 4
    ensures CheckDecoded(sha, s) ==
            if end == [sha(data)[0], sha(data)[1], sha(data)[2], sha(data)[3]] then data else []
  {
    var d := Decoded(s);
    assert d[..|d| - 4] == data && d[|d| - 4..] == end;
    assert sha(data)[..4] == [sha(data)[0], sha(data)[1], sha(data)[2], sha(data)[3]];
  }
}
