/** The Bech32 digits, characters and case rules of BRBech32.c; a character is its ASCII code. */
module Bech32Alphabet {

  /** `chars[c]` for "qpzry9x8gf2tvdw0s3jn54khce6mua7l". */
  function Char(c: bv8): bv8 {
    if c < 16 then
      if c < 8 then
        if c < 4 then
          if c < 2 then
            if c < 1 then 0x71 else 0x70
          else
            if c < 3 then 0x7a else 0x72
        else
          if c < 6 then
            if c < 5 then 0x79 else 0x39
          else
            if c < 7 then 0x78 else 0x38
      else
        if c < 12 then
          if c < 10 then
            if c < 9 then 0x67 else 0x66
          else
            if c < 11 then 0x32 else 0x74
        else
          if c < 14 then
            if c < 13 then 0x76 else 0x64
          else
            if c < 15 then 0x77 else 0x30
    else
      if c < 24 then
        if c < 20 then
          if c < 18 then
            if c < 17 then 0x73 else 0x33
          else
            if c < 19 then 0x6a else 0x6e
        else
          if c < 22 then
            if c < 21 then 0x35 else 0x34
          else
            if c < 23 then 0x6b else 0x68
      else
        if c < 28 then
          if c < 26 then
            if c < 25 then 0x63 else 0x65
          else
            if c < 27 then 0x36 else 0x6d
        else
          if c < 30 then
            if c < 29 then 0x75 else 0x61
          else
            if c < 31 then 0x37 else 0x6c
  }

  const INVALID: bv8 := 0xff

  /** The switch of BRBech32Decode on a lower-case character. */
  function DigitOf(c: bv8): bv8 {
    if c == 0x71 then 0 else if c == 0x70 then 1 else if c == 0x7a then 2 else if c == 0x72 then 3
    else if c == 0x79 then 4 else if c == 0x39 then 5 else if c == 0x78 then 6 else if c == 0x38 then 7
    else if c == 0x67 then 8 else if c == 0x66 then 9 else if c == 0x32 then 10 else if c == 0x74 then 11
    else if c == 0x76 then 12 else if c == 0x64 then 13 else if c == 0x77 then 14 else if c == 0x30 then 15
    else if c == 0x73 then 16 else if c == 0x33 then 17 else if c == 0x6a then 18 else if c == 0x6e then 19
    else if c == 0x35 then 20 else if c == 0x34 then 21 else if c == 0x6b then 22 else if c == 0x68 then 23
    else if c == 0x63 then 24 else if c == 0x65 then 25 else if c == 0x36 then 26 else if c == 0x6d then 27
    else if c == 0x75 then 28 else if c == 0x61 then 29 else if c == 0x37 then 30 else if c == 0x6c then 31
    else 0xff
  }

  predicate IsUpper(c: bv8) {
    0x41 <= c <= 0x5a
  }

  predicate IsLower(c: bv8) {
    0x61 <= c <= 0x7a
  }

  function Lower(c: bv8): bv8 {
    if IsUpper(c) then c + 0x20 else c
  }

  function Digit(c: bv8): bv8 {
    DigitOf(Lower(c))
  }

  predicate Printable(c: bv8) {
    33 <= c <= 126
  }

  const ONE: bv8 := 0x31

  lemma CharPlain(c: bv8)
    requires c < 32
    ensures Char(c) != ONE && Printable(Char(c)) && !IsUpper(Char(c))
  {
  }

  lemma DigitChar(c: bv8)
    requires c < 32
    ensures DigitOf(Char(c)) == c
  {
  }

  lemma CharIs(c: bv8)
    requires c < 32
    ensures Digit(Char(c)) == c && Char(c) != ONE && Printable(Char(c)) && !IsUpper(Char(c))
  {
    CharPlain(c);
    LowerIs(Char(c));
    DigitChar(c);
  }

  lemma Row0(c: bv8)
    requires c < 8
    ensures Char(c) as int == "qpzry9x8"[c as int] as int
  {
    assert c == 0 || c == 1 || c == 2 || c == 3 || c == 4 || c == 5 || c == 6 || c == 7;
  }

  lemma Row1(c: bv8)
    requires 8 <= c < 16
    ensures Char(c) as int == "gf2tvdw0"[c as int - 8] as int
  {
    assert c == 8 || c == 9 || c == 10 || c == 11 || c == 12 || c == 13 || c == 14 || c == 15;
  }

  lemma Row2(c: bv8)
    requires 16 <= c < 24
    ensures Char(c) as int == "s3jn54kh"[c as int - 16] as int
  {
    assert c == 16 || c == 17 || c == 18 || c == 19 || c == 20 || c == 21 || c == 22 || c == 23;
  }

  lemma Row3(c: bv8)
    requires 24 <= c < 32
    ensures Char(c) as int == "ce6mua7l"[c as int - 24] as int
  {
    assert c == 24 || c == 25 || c == 26 || c == 27 || c == 28 || c == 29 || c == 30 || c == 31;
  }

  /** The digits are the characters of the alphabet in `chars`. */
  lemma CharsAre(c: bv8)
    requires c < 32
    ensures Char(c) as int == ("qpzry9x8" + "gf2tvdw0" + "s3jn54kh" + "ce6mua7l")[c as int] as int
  {
    hide Char;
    if c < 8 {
      Row0(c);
    } else if c < 16 {
      Row1(c);
    } else if c < 24 {
      Row2(c);
    } else {
      Row3(c);
    }
  }

  lemma DigitRange(d: bv8)
    ensures DigitOf(d) < 32 || DigitOf(d) == INVALID
  {
  }

  lemma NotOne()
    ensures Digit(ONE) == INVALID
  {
  }

  lemma DigitIs(c: bv8)
    ensures Digit(c) < 32 || Digit(c) == INVALID
    ensures Digit(c) < 32 ==> c != ONE
  {
    DigitRange(Lower(c));
    NotOne();
  }

  lemma LowerIs(c: bv8)
    ensures Lower(c) & 0x1f == c & 0x1f
    ensures !IsUpper(c) ==> Lower(c) == c
    ensures !IsUpper(Lower(c))
  {
  }
}
