/**
 BRBech32Encode and BRBech32Decode against BIP 173. Strings are sequences of ASCII codes without the terminating NUL.
 The checksum step is a parameter `pm` of most members, so that proofs use only its laws; the last section puts
 polymod in its place.
 */
module Bech32 {
  import opened Common
  import opened Bech32Alphabet
  import opened Bech32Checksum
  import Bits = Bech32Bits

  // ---------------------------------------------------------------- the address format of BIP 173

  function Map(f: bv8 -> bv8, s: seq<bv8>): (t: seq<bv8>)
    ensures |t| == |s|
    ensures forall i :: 0 <= i < |s| ==> t[i] == f(s[i])
  {
    seq(|s|, i requires 0 <= i < |s| => f(s[i]))
  }

  function HighBits(c: bv8): bv8 {
    Lower(c) >> 5
  }

  function LowBits(c: bv8): bv8 {
    c & 0x1f
  }

  /** The human-readable part as the checksum sees it: high bits, zero, low bits. */
  function Expand(hrp: seq<bv8>): seq<bv8> {
    Map(HighBits, hrp) + [0] + Map(LowBits, hrp)
  }

  function Body(ver: bv8, prog: seq<bv8>): (s: seq<bv8>)
    ensures |s| == 1 + (8 * |prog| + 4) / 5
  {
    [ver] + Bits.To5(prog)
  }

  function Checksum(pm: Step, hrp: seq<bv8>, body: seq<bv8>): (s: seq<bv8>)
    ensures |s| == 6 && Bits.Symbols(s)
  {
    Digits(Check(pm, Feed(pm, 1, Expand(hrp) + body)), 6)
  }

  function AddressOf(pm: Step, hrp: seq<bv8>, ver: bv8, prog: seq<bv8>): (s: seq<bv8>)
    ensures |s| == |hrp| + 1 + 1 + (8 * |prog| + 4) / 5 + 6
  {
    hrp + [ONE] + Map(Char, Body(ver, prog) + Checksum(pm, hrp, Body(ver, prog)))
  }

  // What a string means: the human-readable part, the witness version and the witness program.
  datatype Address = Address(hrp: seq<bv8>, ver: bv8, prog: seq<bv8>)

  predicate MixedCase(s: seq<bv8>) {
    (exists i :: 0 <= i < |s| && IsUpper(s[i])) && (exists i :: 0 <= i < |s| && IsLower(s[i]))
  }

  predicate AllPrintable(s: seq<bv8>) {
    forall i :: 0 <= i < |s| ==> Printable(s[i])
  }

  /** The last '1' at or before position n, not counting position 0; 0 if there is none. */
  function Separator(s: seq<bv8>, n: nat): nat {
    if n == 0 then 0 else if n < |s| && s[n] == ONE then n else Separator(s, n - 1)
  }

  predicate WellShaped(s: seq<bv8>, sep: nat) {
    AllPrintable(s) && !MixedCase(s) && 8 <= |s| <= 90 && 1 <= sep && sep + 8 <= |s|
  }

  predicate ChecksOut(pm: Step, hrp: seq<bv8>, syms: seq<bv8>) {
    Bits.Symbols(syms) && Feed(pm, 1, Expand(hrp) + syms) == 1
  }

  function Program(syms: seq<bv8>): seq<bv8>
    requires 7 <= |syms|
  {
    Bits.To8(syms[1..|syms| - 6])
  }

  function Meaning(pm: Step, s: seq<bv8>): Option<Address> {
    var sep := Separator(s, |s|);
    if !WellShaped(s, sep) then None
    else
      var hrp, syms := s[..sep], Map(Digit, s[sep + 1..]);
      if !ChecksOut(pm, hrp, syms) || syms[0] > 16 || !(2 <= |Program(syms)| <= 40) then None
      else Some(Address(Map(Lower, hrp), syms[0], Program(syms)))
  }

  // ---------------------------------------------------------------- round trip

  lemma {:induction false} SeparatorIs(s: seq<bv8>, n: nat, k: nat)
    requires 1 <= k < |s| && k <= n && s[k] == ONE
    requires forall i :: k < i < |s| ==> s[i] != ONE
    ensures Separator(s, n) == k
  {
    if n <= k {
    } else {
      SeparatorIs(s, n - 1, k);
    }
  }

  lemma {:induction false} NoSeparator(s: seq<bv8>, n: nat)
    requires forall i :: 1 <= i < |s| ==> s[i] != ONE
    ensures Separator(s, n) == 0
  {
    if n == 0 {
    } else {
      NoSeparator(s, n - 1);
    }
  }

  lemma MapChar(d: seq<bv8>)
    requires Bits.Symbols(d)
    ensures Map(Digit, Map(Char, d)) == d
    ensures forall i :: 0 <= i < |d| ==> var c := Map(Char, d)[i]; c != ONE && Printable(c) && !IsUpper(c)
  {
    forall i | 0 <= i < |d| ensures Digit(Char(d[i])) == d[i] && Char(d[i]) != ONE && Printable(Char(d[i])) &&
      !IsUpper(Char(d[i])) {
      CharIs(d[i]);
    }
  }

  predicate LowerCase(hrp: seq<bv8>) {
    forall i :: 0 <= i < |hrp| ==> Printable(hrp[i]) && !IsUpper(hrp[i])
  }

  lemma MapLower(hrp: seq<bv8>)
    requires LowerCase(hrp)
    ensures Map(Lower, hrp) == hrp
  {
    forall i | 0 <= i < |hrp| ensures Lower(hrp[i]) == hrp[i] {
      LowerIs(hrp[i]);
    }
  }

  predicate Witness(ver: bv8, prog: seq<bv8>) {
    ver <= 16 && 2 <= |prog| <= 40
  }

  function Word(pm: Step, hrp: seq<bv8>, ver: bv8, prog: seq<bv8>): seq<bv8> {
    Body(ver, prog) + Checksum(pm, hrp, Body(ver, prog))
  }

  lemma WordProgram(ver: bv8, prog: seq<bv8>, c: seq<bv8>, w: seq<bv8>)
    requires |c| == 6 && w == Body(ver, prog) + c
    ensures |w| >= 7 && w[0] == ver && Program(w) == prog
  {
    assert w[1..|w| - 6] == Bits.To5(prog);
    Bits.To8To5(prog);
  }

  lemma SymbolsConcat(s: seq<bv8>, t: seq<bv8>)
    requires Bits.Symbols(s) && Bits.Symbols(t)
    ensures Bits.Symbols(s + t)
  {
  }

  lemma ConcatAssoc(a: seq<bv8>, b: seq<bv8>, c: seq<bv8>)
    ensures a + b + c == a + (b + c)
  {
  }

  lemma WordChecksOut(pm: Step, hrp: seq<bv8>, b: seq<bv8>)
    requires Register(pm) && Bits.Symbols(b)
    ensures ChecksOut(pm, hrp, b + Checksum(pm, hrp, b))
  {
    var e := Expand(hrp);
    var c := Checksum(pm, hrp, b);
    ChecksumWorks(pm, 1, e + b);
    FeedConcat(pm, 1, e + b, c);
    ConcatAssoc(e, b, c);
    SymbolsConcat(b, c);
  }

  lemma BodySymbols(ver: bv8, prog: seq<bv8>)
    requires ver <= 16
    ensures Bits.Symbols(Body(ver, prog))
  {
  }

  /** Where the parts of an address lie. */
  lemma AddressParts(hrp: seq<bv8>, d: seq<bv8>, s: seq<bv8>)
    requires hrp != [] && LowerCase(hrp) && Bits.Symbols(d) && s == hrp + [ONE] + Map(Char, d)
    ensures Separator(s, |s|) == |hrp| && s[..|hrp|] == hrp && Map(Digit, s[|hrp| + 1..]) == d
    ensures AllPrintable(s) && !MixedCase(s)
  {
    MapChar(d);
    SeparatorIs(s, |s|, |hrp|);
    assert s[|hrp| + 1..] == Map(Char, d);
  }

  lemma MeaningIs(pm: Step, s: seq<bv8>, hrp: seq<bv8>, w: seq<bv8>)
    requires AllPrintable(s) && !MixedCase(s) && |s| == |hrp| + 1 + |w| && |w| >= 7
    requires Separator(s, |s|) == |hrp| > 0 && s[..|hrp|] == hrp && Map(Digit, s[|hrp| + 1..]) == w &&
             Map(Lower, hrp) == hrp
    requires ChecksOut(pm, hrp, w) && w[0] <= 16 && 2 <= |Program(w)| <= 40
    ensures Meaning(pm, s) == if |s| <= 90 then Some(Address(hrp, w[0], Program(w))) else None
  {
  }

  lemma EmptyHrp(pm: Step, w: seq<bv8>)
    requires Bits.Symbols(w)
    ensures Meaning(pm, [ONE] + Map(Char, w)) == None
  {
    var s := [ONE] + Map(Char, w);
    MapChar(w);
    NoSeparator(s, |s|);
  }

  /** For a lower-case human-readable part and a witness program, decoding undoes encoding exactly when the
      human-readable part is not empty and the address fits in 90 characters. */
  lemma RoundTrip(pm: Step, hrp: seq<bv8>, ver: bv8, prog: seq<bv8>)
    requires Register(pm) && LowerCase(hrp) && Witness(ver, prog)
    ensures Meaning(pm, AddressOf(pm, hrp, ver, prog)) == Some(Address(hrp, ver, prog))
            <==> hrp != [] && |AddressOf(pm, hrp, ver, prog)| <= 90
  {
    hide Body, Checksum, Separator, Meaning, Map, Program;
    var s, w := AddressOf(pm, hrp, ver, prog), Word(pm, hrp, ver, prog);
    BodySymbols(ver, prog);
    WordChecksOut(pm, hrp, Body(ver, prog));
    WordProgram(ver, prog, Checksum(pm, hrp, Body(ver, prog)), w);
    assert s == hrp + [ONE] + Map(Char, w);
    if hrp == [] {
      EmptyHrp(pm, w);
      assert s == [ONE] + Map(Char, w);
    } else {
      AddressParts(hrp, w, s);
      MapLower(hrp);
      MeaningIs(pm, s, hrp, w);
    }
  }

  /** What a lower-case string must satisfy: at most 90 characters, a version of at most 16, 2 to 40 bytes of program
      besides the six symbols of the checksum, and a register that ends at 1. */
  lemma AcceptedIff(pm: Step, hrp: seq<bv8>, d: seq<bv8>, s: seq<bv8>)
    requires hrp != [] && LowerCase(hrp) && Bits.Symbols(d) && s == hrp + [0x31] + Map(Char, d)
    ensures Meaning(pm, s).Some? <==>
              |s| <= 90 && |d| >= 7 && d[0] <= 16 && 2 <= 5 * (|d| - 7) / 8 <= 40 &&
              Feed(pm, 1, Expand(hrp) + d) == 1
  {
    hide Feed, Expand, Bits.To8, Separator;
    AddressParts(hrp, d, s);
  }

  // ---------------------------------------------------------------- case

  /** A lower-case letter in upper case. */
  function Raised(c: bv8): bv8 {
    if IsLower(c) then c - 0x20 else c
  }

  lemma RaisedIs(c: bv8)
    ensures !IsUpper(c) ==> Lower(Raised(c)) == c
    ensures !IsUpper(c) ==> !IsLower(Raised(c))
    ensures Raised(c) == ONE <==> c == ONE
    ensures Printable(Raised(c)) <==> Printable(c)
    ensures Raised(c) & 0x1f == c & 0x1f
  {
  }

  lemma RaisedParts(s: seq<bv8>)
    requires forall i :: 0 <= i < |s| ==> !IsUpper(s[i])
    ensures Map(Digit, Map(Raised, s)) == Map(Digit, s) && Map(Lower, Map(Raised, s)) == Map(Lower, s)
    ensures Map(HighBits, Map(Raised, s)) == Map(HighBits, s) && Map(LowBits, Map(Raised, s)) == Map(LowBits, s)
  {
    var t := Map(Raised, s);
    forall i | 0 <= i < |s| ensures Lower(t[i]) == Lower(s[i]) && LowBits(t[i]) == LowBits(s[i]) {
      RaisedIs(s[i]);
      LowerIs(s[i]);
    }
  }

  lemma {:induction false} RaisedSeparator(s: seq<bv8>, n: nat)
    ensures Separator(Map(Raised, s), n) == Separator(s, n)
  {
    if n == 0 {
    } else {
      if n < |s| {
        RaisedIs(s[n]);
      }
      RaisedSeparator(s, n - 1);
    }
  }

  lemma RaisedShape(s: seq<bv8>, sep: nat)
    requires forall i :: 0 <= i < |s| ==> !IsUpper(s[i])
    ensures WellShaped(Map(Raised, s), sep) <==> WellShaped(s, sep)
  {
    var t := Map(Raised, s);
    forall i | 0 <= i < |s| ensures (Printable(t[i]) <==> Printable(s[i])) && !IsLower(t[i]) {
      RaisedIs(s[i]);
    }
    if AllPrintable(t) {
      forall i | 0 <= i < |s| ensures Printable(s[i]) {
        assert Printable(t[i]);
      }
    }
  }

  lemma MapSlice(f: bv8 -> bv8, s: seq<bv8>, i: nat, j: nat)
    requires i <= j <= |s|
    ensures Map(f, s)[i..j] == Map(f, s[i..j])
  {
  }

  /** An address means the same in upper case. */
  lemma CaseIgnored(pm: Step, s: seq<bv8>)
    requires forall i :: 0 <= i < |s| ==> !IsUpper(s[i])
    ensures Meaning(pm, Map(Raised, s)) == Meaning(pm, s)
  {
    hide Feed, Bits.To8, Separator, WellShaped, Map;
    var t, sep := Map(Raised, s), Separator(s, |s|);
    RaisedSeparator(s, |s|);
    RaisedShape(s, sep);
    if WellShaped(s, sep) {
      ShapeHolds(s, sep);
      MapSlice(Raised, s, 0, sep);
      MapSlice(Raised, s, sep + 1, |s|);
      assert s[0..sep] == s[..sep] && t[0..sep] == t[..sep];
      assert s[sep + 1..|s|] == s[sep + 1..] && t[sep + 1..|s|] == t[sep + 1..];
      RaisedParts(s[..sep]);
      RaisedParts(s[sep + 1..]);
    }
  }

  lemma ShapeHolds(s: seq<bv8>, sep: nat)
    requires WellShaped(s, sep)
    ensures 1 <= sep && sep + 8 <= |s|
  {
  }

  /** Upper and lower case in one string are refused. */
  lemma MixedRefused(pm: Step, s: seq<bv8>, i: nat, j: nat)
    requires i < |s| && j < |s| && IsUpper(s[i]) && IsLower(s[j])
    ensures Meaning(pm, s) == None
  {
    assert MixedCase(s);
  }

  // ---------------------------------------------------------------- error detection

  /** Every character is one of the 32 digits, in either case. */
  predicate AllDigits(s: seq<bv8>) {
    Bits.Symbols(Map(Digit, s))
  }

  lemma {:induction false} SameSeparator(s: seq<bv8>, t: seq<bv8>, n: nat, sep: nat)
    requires |s| == |t| && sep < |s| && s[..sep + 1] == t[..sep + 1] && n >= sep
    requires forall i :: sep < i < |s| ==> s[i] != ONE && t[i] != ONE
    ensures Separator(s, n) == Separator(t, n)
  {
    if n > sep {
      SameSeparator(s, t, n - 1, sep);
    } else {
      SameBelow(s, t, n);
    }
  }

  lemma {:induction false} SameBelow(s: seq<bv8>, t: seq<bv8>, n: nat)
    requires n < |s| && n < |t| && s[..n + 1] == t[..n + 1]
    ensures Separator(s, n) == Separator(t, n)
  {
    assert s[n] == s[..n + 1][n] && t[n] == t[..n + 1][n];
    if n == 0 {
    } else {
      assert s[..n] == s[..n + 1][..n] && t[..n] == t[..n + 1][..n];
      SameBelow(s, t, n - 1);
    }
  }

  lemma DigitsHaveNoSeparator(s: seq<bv8>)
    requires AllDigits(s)
    ensures forall i :: 0 <= i < |s| ==> s[i] != ONE
  {
    forall i | 0 <= i < |s| ensures s[i] != ONE {
      assert Map(Digit, s)[i] < 32;
      DigitIs(s[i]);
    }
  }

  lemma MapConcat(f: bv8 -> bv8, a: seq<bv8>, b: seq<bv8>)
    ensures Map(f, a + b) == Map(f, a) + Map(f, b)
  {
  }

  lemma MapParts(a: seq<bv8>, u: seq<bv8>, z: seq<bv8>)
    ensures Map(Digit, a + u + z) == Map(Digit, a) + Map(Digit, u) + Map(Digit, z)
  {
    MapConcat(Digit, a + u, z);
    MapConcat(Digit, a, u);
  }

  lemma SameHead(head: seq<bv8>, s: seq<bv8>, t: seq<bv8>)
    requires head != [] && |s| == |t| && AllDigits(s) && AllDigits(t)
    ensures Separator(head + s, |head + s|) == Separator(head + t, |head + t|)
  {
    var x, y := head + s, head + t;
    DigitsHaveNoSeparator(s);
    DigitsHaveNoSeparator(t);
    assert x[..|head|] == y[..|head|];
    SameSeparator(x, y, |x|, |head| - 1);
  }

  lemma Accepted(pm: Step, head: seq<bv8>, tail: seq<bv8>)
    requires var s := head + tail;
             Meaning(pm, s).Some? && |head| == Separator(s, |s|) + 1
    ensures |head| >= 1 && ChecksOut(pm, head[..|head| - 1], Map(Digit, tail))
  {
    var s := head + tail;
    assert s[..|head| - 1] == head[..|head| - 1] && s[|head|..] == tail;
  }

  lemma PartsAreDigits(a: seq<bv8>, u: seq<bv8>, v: seq<bv8>, z: seq<bv8>)
    requires AllDigits(a + u + z) && AllDigits(v)
    ensures AllDigits(a + v + z) && AllDigits(u) && AllDigits(z)
  {
    MapParts(a, u, z);
    MapParts(a, v, z);
    SplitSymbols(Map(Digit, a), Map(Digit, u), Map(Digit, z));
    SymbolsConcat(Map(Digit, a), Map(Digit, v));
    SymbolsConcat(Map(Digit, a) + Map(Digit, v), Map(Digit, z));
  }

  lemma SplitSymbols(a: seq<bv8>, u: seq<bv8>, z: seq<bv8>)
    requires Bits.Symbols(a + u + z)
    ensures Bits.Symbols(a) && Bits.Symbols(u) && Bits.Symbols(z)
  {
    forall i | 0 <= i < |a| ensures a[i] < 32 { assert a[i] == (a + u + z)[i]; }
    forall i | 0 <= i < |u| ensures u[i] < 32 { assert u[i] == (a + u + z)[|a| + i]; }
    forall i | 0 <= i < |z| ensures z[i] < 32 { assert z[i] == (a + u + z)[|a| + |u| + i]; }
  }

  /** `x` and `y` are the symbols that differ, within `e + a` before and `z` after. */
  lemma OneChecksOut(pm: Step, hrp: seq<bv8>, a: seq<bv8>, x: seq<bv8>, y: seq<bv8>, z: seq<bv8>)
    requires Register(pm) && |x| == |y| <= 6 && x != y && Bits.Symbols(x) && Bits.Symbols(y) && Bits.Symbols(z)
    requires ChecksOut(pm, hrp, a + x + z)
    ensures !ChecksOut(pm, hrp, a + y + z)
  {
    var e := Expand(hrp);
    BurstDetected(pm, 1, e + a, x, y, z);
    FourParts(e, a, x, z);
    FourParts(e, a, y, z);
  }

  lemma FourParts(e: seq<bv8>, a: seq<bv8>, x: seq<bv8>, z: seq<bv8>)
    ensures e + a + x + z == e + (a + x + z)
  {
  }

  /** `head` ends in the separator. Replacing up to six consecutive characters `u` of the data part of an accepted
      address by other digits `v`, not all of the same value, always makes it unacceptable. */
  lemma BurstRefused(pm: Step, head: seq<bv8>, a: seq<bv8>, u: seq<bv8>, v: seq<bv8>, z: seq<bv8>)
    requires Register(pm)
    requires var s := head + (a + u + z);
             Meaning(pm, s).Some? && |head| == Separator(s, |s|) + 1
    requires |u| == |v| <= 6 && AllDigits(v) && Map(Digit, u) != Map(Digit, v)
    ensures Meaning(pm, head + (a + v + z)) == None
  {
    var s, t := a + u + z, a + v + z;
    Accepted(pm, head, s);
    PartsAreDigits(a, u, v, z);
    SameHead(head, s, t);
    MapParts(a, u, z);
    MapParts(a, v, z);
    OneChecksOut(pm, head[..|head| - 1], Map(Digit, a), Map(Digit, u), Map(Digit, v), Map(Digit, z));
    if Meaning(pm, head + t).Some? {
      Accepted(pm, head, t);
    }
  }

  // ---------------------------------------------------------------- BRBech32Encode

  /** One symbol into the checksum. */
  method FeedOne(pm: Step, chk: bv32, c: bv8, ghost s: seq<bv8>, ghost start: bv32) returns (r: bv32)
    requires chk == Feed(pm, start, s)
    ensures r == Feed(pm, start, s + [c])
  {
    FeedAppend(pm, start, s, c);
    r := X(pm(chk), c as bv32);
  }

  lemma TakeNext(s: seq<bv8>, i: nat)
    requires i < |s|
    ensures s[..i + 1] == s[..i] + [s[i]]
  {
  }

  method FeedHigh(pm: Step, hrp: seq<bv8>) returns (chk: bv32)
    ensures chk == Feed(pm, 1, Map(HighBits, hrp))
  {
    ghost var s := Map(HighBits, hrp);
    chk := 1;
    for i := 0 to |hrp|
      invariant chk == Feed(pm, 1, s[..i])
    {
      TakeNext(s, i);
      chk := FeedOne(pm, chk, Lower(hrp[i]) >> 5, s[..i], 1);
    }
    assert s[..|hrp|] == s;
  }

  method FeedLow(pm: Step, hrp: seq<bv8>, start: bv32) returns (chk: bv32)
    ensures chk == Feed(pm, start, Map(LowBits, hrp))
  {
    ghost var s := Map(LowBits, hrp);
    chk := start;
    for i := 0 to |hrp|
      invariant chk == Feed(pm, start, s[..i])
    {
      TakeNext(s, i);
      chk := FeedOne(pm, chk, hrp[i] & 0x1f, s[..i], start);
    }
    assert s[..|hrp|] == s;
  }

  /** Both loops over the human-readable part and the step between them. */
  method FeedHrp(pm: Step, hrp: seq<bv8>) returns (chk: bv32)
    ensures chk == Feed(pm, 1, Expand(hrp))
  {
    chk := FeedHigh(pm, hrp);
    chk := FeedOne(pm, chk, 0, Map(HighBits, hrp), 1);
    FeedConcat(pm, 1, Map(HighBits, hrp) + [0], Map(LowBits, hrp));
    chk := FeedLow(pm, hrp, chk);
  }

  const ROOM: nat := 91

  /** `char addr[91]` and the index i that every write moves on. The source never compares the two; `inside` records
      whether all writes so far went into the buffer, and a write that does not is left out. */
  class Line {
    const addr: array<bv8>
    var i: nat
    var inside: bool
    ghost var text: seq<bv8>

    ghost predicate Valid()
      reads this, addr
    {
      && addr.Length == ROOM && i == |text| && (inside <==> i <= ROOM)
      && forall k :: 0 <= k < i && k < ROOM ==> addr[k] == text[k]
    }

    constructor ()
      ensures Valid() && fresh(addr) && text == []
    {
      addr := new bv8[ROOM](_ => 0);
      i, inside, text := 0, true, [];
    }

    method Put(c: bv8)
      requires Valid()
      modifies this, addr
      ensures Valid() && text == old(text) + [c]
    {
      if i < ROOM {
        addr[i] := c;
      } else {
        inside := false;
      }
      i, text := i + 1, text + [c];
    }
  }

  /** The buffer holds the symbols s behind the text `before`. */
  ghost predicate Wrote(line: Line, before: seq<bv8>, s: seq<bv8>)
    reads line, line.addr
  {
    line.Valid() && line.text == before + Map(Char, s)
  }

  lemma MapAppend(before: seq<bv8>, s: seq<bv8>, c: bv8)
    ensures before + Map(Char, s) + [Char(c)] == before + Map(Char, s + [c])
  {
    MapConcat(Char, s, [c]);
    ConcatAssoc(before, Map(Char, s), Map(Char, [c]));
  }

  /** `addr[i++] = chars[c]`. */
  method PutSymbol(line: Line, c: bv8, ghost before: seq<bv8>, ghost s: seq<bv8>)
    requires Wrote(line, before, s)
    modifies line, line.addr
    ensures Wrote(line, before, s + [c])
  {
    MapAppend(before, s, c);
    line.Put(Char(c));
  }

  /** The checks on each character of the human-readable part, which is copied on the way. */
  method CopyHrp(line: Line, hrp: seq<bv8>) returns (ok: bool)
    requires line.Valid() && line.text == []
    modifies line, line.addr
    ensures line.Valid() && (ok <==> |hrp| <= 84 && LowerCase(hrp))
    ensures ok ==> line.text == hrp
  {
    for i := 0 to |hrp|
      invariant i <= 84 && LowerCase(hrp[..i])
      invariant line.Valid() && line.text == hrp[..i]
    {
      if i > 83 || hrp[i] < 33 || hrp[i] > 126 || IsUpper(hrp[i]) {
        assert i <= 83 ==> !(Printable(hrp[i]) && !IsUpper(hrp[i]));
        return false;
      }
      TakeNext(hrp, i);
      line.Put(hrp[i]);
    }
    assert hrp[..|hrp|] == hrp;
    return true;
  }

  /** How many symbols j turns of the loop write for |data| bytes. */
  function Written(len: nat, j: nat): nat {
    if j <= len then 8 * j / 5 else (8 * len + 4) / 5
  }

  lemma WrittenNext(len: nat, j: nat)
    requires j <= len
    ensures Written(len, j + 1) == Written(len, j) + (if j < len || j % 5 > 0 then 1 else 0) +
                                                     (if j < len && Bits.Offset5(j) >= 2 then 1 else 0)
    ensures Written(len, j + 1) <= Written(len, len + 1)
  {
    Bits.OffsetIs(j / 5, j % 5);
  }

  /** The loop that regroups the witness program, writing symbols and feeding each to the checksum. */
  method Regroup(pm: Step, line: Line, data: seq<bv8>, chk: bv32) returns (r: bv32)
    requires line.Valid()
    modifies line, line.addr
    ensures Wrote(line, old(line.text), Bits.To5(data))
    ensures r == Feed(pm, chk, Bits.To5(data))
  {
    hide Map, Bits.Across, Bits.Inside, Bits.Offset5, Bits.Five;
    var a: bv8, b: bv8 := 0, 0;
    r := chk;
    ghost var s: seq<bv8> := [];
    for j := 0 to |data| + 1
      invariant b == if j == 0 then 0 else Bits.At(data, j - 1)
      invariant |s| == Written(|data|, j)
      invariant Going(pm, data, chk, r, s) && Wrote(line, old(line.text), s)
    {
      a, b := b, if j < |data| then data[j] else 0;
      Bits.Emit(data, j, j / 5, j % 5, a, b);
      WrittenNext(|data|, j);
      r, s := RegroupOne(pm, line, data, j, a, b, r, s, chk, old(line.text));
    }
    assert s == Bits.To5(data);
  }

  /** The symbols so far are the first ones of `data`, all of them fed to the checksum. */
  ghost predicate Going(pm: Step, data: seq<bv8>, start: bv32, chk: bv32, s: seq<bv8>) {
    chk == Feed(pm, start, s) && forall k :: 0 <= k < |s| ==> s[k] == Bits.Five(data, k)
  }

  /** `chk = polymod(chk) ^ c, addr[i++] = chars[c]`. */
  method FeedAndPut(pm: Step, line: Line, c: bv8, chk: bv32, ghost s: seq<bv8>, ghost data: seq<bv8>, ghost start: bv32,
                    ghost before: seq<bv8>) returns (r: bv32, ghost out: seq<bv8>)
    requires Going(pm, data, start, chk, s) && Wrote(line, before, s) && c == Bits.Five(data, |s|)
    modifies line, line.addr
    ensures Going(pm, data, start, r, out) && Wrote(line, before, out) && |out| == |s| + 1
  {
    r := FeedOne(pm, chk, c, s, start);
    PutSymbol(line, c, before, s);
    out := s + [c];
  }

  /** The body of that loop. */
  method RegroupOne(pm: Step, line: Line, data: seq<bv8>, j: nat, a: bv8, b: bv8, chk: bv32, ghost s: seq<bv8>,
                    ghost start: bv32, ghost before: seq<bv8>) returns (r: bv32, ghost out: seq<bv8>)
    requires j <= |data| && |s| == 8 * j / 5 && Going(pm, data, start, chk, s) && Wrote(line, before, s)
    requires Bits.Across(a, b, Bits.Offset5(j)) == Bits.Five(data, |s|)
    requires Bits.Offset5(j) >= 2 ==> Bits.Inside(b, Bits.Offset5(j)) == Bits.Five(data, |s| + 1)
    modifies line, line.addr
    ensures Going(pm, data, start, r, out) && Wrote(line, before, out)
    ensures |out| == |s| + (if j < |data| || j % 5 > 0 then 1 else 0) +
            (if j < |data| && Bits.Offset5(j) >= 2 then 1 else 0)
  {
    r, out := chk, s;
    var x := Bits.Offset5(j);
    if j < |data| || j % 5 > 0 {
      r, out := FeedAndPut(pm, line, Bits.Across(a, b, x), r, out, data, start, before);
    }
    if x >= 2 && j < |data| {
      r, out := FeedAndPut(pm, line, Bits.Inside(b, x), r, out, data, start, before);
    }
  }

  /** `for (j = 0; j < 6; j++) chk = polymod(chk); chk ^= 1`. */
  method Close(pm: Step, chk: bv32) returns (r: bv32)
    ensures r == Check(pm, chk)
  {
    r := chk;
    for j := 0 to 6
      invariant r == Feed(pm, chk, ZeroSymbols(j))
    {
      r := FeedOne(pm, r, 0, ZeroSymbols(j), chk);
    }
    r := X(r, 1);
  }

  /** The last loop: the six symbols of the checksum. */
  method PutChecksum(line: Line, chk: bv32)
    requires line.Valid()
    modifies line, line.addr
    ensures Wrote(line, old(line.text), Digits(chk, 6))
  {
    hide Digits, Map, Five, Down;
    ghost var six := Digits(chk, 6);
    assert six[..0] == [] && Map(Char, []) == [];
    for j := 0 to 6
      invariant Wrote(line, old(line.text), six[..j])
    {
      DigitAt(chk, j);
      TakeNext(six, j);
      PutSymbol(line, Five(Down(chk, 5 - j)), old(line.text), six[..j]);
    }
    assert six[..6] == six;
  }

  /** `chk >> n*5`. */
  function Down(r: bv32, n: nat): bv32
    requires n <= 5
  {
    if n == 0 then r else if n == 1 then r >> 5 else if n == 2 then r >> 10 else if n == 3 then r >> 15
    else if n == 4 then r >> 20 else r >> 25
  }

  lemma DigitAt(m: bv32, j: nat)
    requires j < 6
    ensures Digits(m, 6)[j] == Five(Down(m, 5 - j))
  {
    hide Five;
    DigitsAre(m);
  }

  lemma DigitsAre(m: bv32)
    ensures Digits(m, 6) == [Five(m >> 25), Five(m >> 20), Five(m >> 15), Five(m >> 10), Five(m >> 5), Five(m)]
  {
    var m1, m2, m3, m4, m5 := m >> 5, m >> 10, m >> 15, m >> 20, m >> 25;
    ShiftsAdd(m);
    DigitsNext(m5, 0);
    DigitsNext(m4, 1);
    DigitsNext(m3, 2);
    DigitsNext(m2, 3);
    DigitsNext(m1, 4);
    DigitsNext(m, 5);
  }

  lemma ShiftsAdd(m: bv32)
    ensures m >> 5 >> 5 == m >> 10 && m >> 10 >> 5 == m >> 15 && m >> 15 >> 5 == m >> 20 && m >> 20 >> 5 == m >> 25
  {
  }

  lemma DigitsNext(m: bv32, n: nat)
    ensures Digits(m, n + 1) == Digits(m >> 5, n) + [Five(m)]
  {
  }

  function VersionOf(op: bv8): bv8 {
    if op >= 0x51 then op + 1 - 0x51 else 0
  }

  /** When BRBech32Encode returns 0: its length test counts program bytes, not symbols. */
  predicate EncodeRefuses(hrp: seq<bv8>, op: bv8, prog: seq<bv8>) {
    || |hrp| > 84 || !LowerCase(hrp)
    || 0 < op < 0x51
    || VersionOf(op) > 16 || |prog| < 2 || |prog| > 40 || |hrp| + 1 + 1 + |prog| + 6 >= 91
  }

  /** For a lower-case part: taken are OP_0 and OP_1 to OP_16, with programs of 2 to 40 bytes, when the part and the
      program are 82 bytes or fewer together. */
  lemma RefusedSizes(hrp: seq<bv8>, op: bv8, prog: seq<bv8>)
    requires LowerCase(hrp)
    ensures !EncodeRefuses(hrp, op, prog) <==>
              (op == 0 || 0x51 <= op <= 0x60) && 2 <= |prog| <= 40 && |hrp| + |prog| <= 82
  {
    VersionIs(op);
  }

  /** OP_1 to OP_16 stand for the versions 1 to 16, and everything below for version 0. */
  lemma VersionIs(op: bv8)
    ensures VersionOf(op) > 16 <==> op > 0x60
    ensures 0x51 <= op <= 0x60 ==> VersionOf(op) == op - 0x50
    ensures op < 0x51 ==> VersionOf(op) == 0
  {
  }

  /** The 90 characters of an address and its NUL fit in `addr`. */
  predicate EncodeFits(hrp: seq<bv8>, prog: seq<bv8>) {
    |hrp| + 8 + (8 * |prog| + 4) / 5 <= 90
  }

  /** BRBech32Encode on `data` == [op, |prog|] + prog. All writes stay inside its buffer exactly when `inside`; what
      the source does otherwise is not defined. `n` counts the NUL. */
  method Encode(pm: Step, addr91: array<bv8>, hrp: seq<bv8>, op: bv8, prog: seq<bv8>) returns (n: nat, inside: bool)
    requires addr91.Length >= ROOM
    modifies addr91
    ensures EncodeRefuses(hrp, op, prog) ==> inside && n == 0
    ensures !EncodeRefuses(hrp, op, prog) ==> (inside <==> EncodeFits(hrp, prog))
    ensures n == 0 || !inside ==> addr91[..] == old(addr91[..])
    ensures !EncodeRefuses(hrp, op, prog) && inside ==>
              var a := AddressOf(pm, hrp, VersionOf(op), prog);
              n == |a| + 1 <= ROOM && addr91[..n] == a + [0] && addr91[n..] == old(addr91[n..])
  {
    var line := new Line();
    var ok := CopyHrp(line, hrp);
    if !ok { return 0, true; }
    line.Put(ONE);
    if 0 < op < 0x51 { return 0, true; }
    var ver := VersionOf(op);
    if ver > 16 || |prog| < 2 || |prog| > 40 || |hrp| + 1 + 1 + |prog| + 6 >= 91 { return 0, true; }
    EncodeRest(pm, line, hrp, ver, prog);
    line.Put(0);
    n, inside := line.i, line.inside;
    if inside {
      CopyLine(addr91, line);
    }
  }

  /** What BRBech32Encode writes behind the separator. */
  method EncodeRest(pm: Step, line: Line, hrp: seq<bv8>, ver: bv8, prog: seq<bv8>)
    requires line.Valid() && line.text == hrp + [ONE]
    modifies line, line.addr
    ensures line.Valid() && line.text == AddressOf(pm, hrp, ver, prog)
  {
    ghost var e := Expand(hrp);
    ghost var out := Bits.To5(prog);
    var chk := FeedHrp(pm, hrp);
    chk := FeedOne(pm, chk, ver, e, 1);
    line.Put(Char(ver));
    chk := Regroup(pm, line, prog, chk);
    FeedConcat(pm, 1, e + [ver], out);
    ConcatAssoc(e, [ver], out);
    chk := Close(pm, chk);
    PutChecksum(line, chk);
    TextIs(hrp + [ONE], ver, out, Digits(chk, 6));
  }

  lemma TextIs(before: seq<bv8>, ver: bv8, out: seq<bv8>, six: seq<bv8>)
    ensures before + [Char(ver)] + Map(Char, out) + Map(Char, six) == before + Map(Char, [ver] + out + six)
  {
    MapConcat(Char, [ver] + out, six);
    MapConcat(Char, [ver], out);
    assert Map(Char, [ver]) == [Char(ver)];
  }

  /** `memcpy(addr91, addr, i)`. */
  method CopyLine(addr91: array<bv8>, line: Line)
    requires line.Valid() && line.inside && addr91.Length >= ROOM && addr91 != line.addr
    modifies addr91
    ensures addr91[..|line.text|] == line.text && addr91[|line.text|..] == old(addr91[|line.text|..])
  {
    forall k | 0 <= k < line.i {
      addr91[k] := line.addr[k];
    }
  }

  /** The length test of BRBech32Encode lets addresses through that are too long for its buffer: with 42 characters and
      40 bytes it writes 115. */
  lemma AcceptedTooLong()
    ensures var hrp, prog := seq(42, _ => 0x61), seq(40, _ => 0);
            && !EncodeRefuses(hrp, 0, prog) && !EncodeFits(hrp, prog)
            && |AddressOf(Polymod, hrp, VersionOf(0), prog)| + 1 == 115
  {
    var hrp: seq<bv8> := seq(42, _ => 0x61);
    assert forall i :: 0 <= i < 42 ==> Printable(hrp[i]) && !IsUpper(hrp[i]);
  }

  // ---------------------------------------------------------------- BRBech32Decode

  /** The loop over all characters. */
  method Scan(s: seq<bv8>) returns (ok: bool)
    ensures ok <==> AllPrintable(s) && !MixedCase(s)
  {
    var upper, lower := false, false;
    for i := 0 to |s|
      invariant AllPrintable(s[..i])
      invariant lower <==> exists k :: 0 <= k < i && IsLower(s[k])
      invariant upper <==> exists k :: 0 <= k < i && IsUpper(s[k])
    {
      if s[i] < 33 || s[i] > 126 {
        assert !Printable(s[i]);
        return false;
      }
      if IsLower(s[i]) { lower := true; }
      if IsUpper(s[i]) { upper := true; }
      TakeNext(s, i);
    }
    assert s[..|s|] == s;
    return !(upper && lower);
  }

  method FindSeparator(s: seq<bv8>) returns (sep: nat)
    ensures sep == Separator(s, |s|) && sep <= |s|
  {
    sep := |s|;
    while sep > 0 && !(sep < |s| && s[sep] == ONE)
      invariant sep <= |s| && Separator(s, sep) == Separator(s, |s|)
    {
      sep := sep - 1;
    }
  }

  const BUF: nat := 52

  /** Each byte of the buffer holds the bits of the first j symbols that belong to it. */
  ghost predicate Packed(buf: array<bv8>, syms: seq<bv8>, j: nat)
    requires buf.Length == BUF
    reads buf
  {
    forall i :: 0 <= i < BUF ==> buf[i] == Bits.Partial(syms, j, i)
  }

  /** The index arithmetic on j/8 and j%8. */
  lemma Positions(j: nat)
    ensures j % 8 * 5 - j % 8 * 5 / 8 * 8 == 5 * j % 8
    ensures j / 8 * 5 + j % 8 * 5 / 8 == 5 * j / 8
  {
    var g, m := j / 8, j % 8;
    Groups(j, g, m, 5 * m / 8, 5 * m % 8);
  }

  lemma Groups(j: nat, g: nat, m: nat, q: nat, r: nat)
    requires j == 8 * g + m && 5 * m == 8 * q + r && r < 8
    ensures 5 * j / 8 == 5 * g + q && 5 * j % 8 == r
  {
  }

  // OR as a named function, so that proofs about the buffer need not look inside it.
  function Or(a: bv8, b: bv8): bv8 {
    a | b
  }

  lemma NothingToOr(b: bv8)
    ensures Or(b, 0) == b
  {
  }

  lemma PackedNext(syms: seq<bv8>, j: nat, p: nat, x: nat)
    requires j < |syms| && (forall k :: 0 <= k <= j ==> syms[k] < 32) && p == 5 * j / 8 && x == 5 * j % 8
    ensures forall i: nat ::
              Bits.Partial(syms, j + 1, i) == Or(Bits.Partial(syms, j, i), Bits.Contribution(syms[j], p, x, i))
  {
    forall i: nat
      ensures Bits.Partial(syms, j + 1, i) == Or(Bits.Partial(syms, j, i), Bits.Contribution(syms[j], p, x, i))
    {
      Bits.PlaceIs(syms, j, i, 8 * i / 5, 8 * i % 5, p, x);
    }
  }

  /** `buf[...] |= (c << 3) >> x; if (x > 3) buf[... + 1] |= c << (11 - x)`. */
  method Pack(buf: array<bv8>, j: nat, c: bv8, ghost syms: seq<bv8>)
    requires buf.Length == BUF && j <= 80 && j < |syms| && (forall k :: 0 <= k <= j ==> syms[k] < 32)
    requires c == syms[j] && Packed(buf, syms, j)
    modifies buf
    ensures Packed(buf, syms, j + 1)
  {
    Positions(j);
    var x := j % 8 * 5 - j % 8 * 5 / 8 * 8;
    var p := j / 8 * 5 + j % 8 * 5 / 8;
    OrBoth(buf, p, x, c);
    PackedNext(syms, j, p, x);
  }

  method OrBoth(buf: array<bv8>, p: nat, x: nat, c: bv8)
    requires p + 1 < buf.Length && x < 8
    modifies buf
    ensures forall i :: 0 <= i < buf.Length ==> buf[i] == Or(old(buf[i]), Bits.Contribution(c, p, x, i))
  {
    hide Bits.Shr, Bits.Shl, Or;
    OrInto(buf, p, Bits.Shr(c << 3, x));
    if x > 3 {
      OrInto(buf, p + 1, Bits.Shl(c, 11 - x));
    }
    forall i | 0 <= i < buf.Length ensures buf[i] == Or(old(buf[i]), Bits.Contribution(c, p, x, i)) {
      NothingToOr(old(buf[i]));
    }
  }

  method OrInto(buf: array<bv8>, p: nat, v: bv8)
    requires p < buf.Length
    modifies buf
    ensures forall i :: 0 <= i < buf.Length ==> buf[i] == if i == p then Or(old(buf[i]), v) else old(buf[i])
  {
    buf[p] := buf[p] | v;
  }

  /** The symbols that go into the buffer: not the version, not the checksum. */
  function Inner(d: seq<bv8>): seq<bv8>
    requires |d| >= 7
  {
    d[1..|d| - 6]
  }

  /** The loop over the data part, which is `d` once decoded. */
  method ReadData(pm: Step, s: seq<bv8>, sep: nat, start: bv32, ghost d: seq<bv8>)
    returns (ok: bool, ver: bv8, buf: array<bv8>, chk: bv32)
    requires sep + 8 <= |s| <= 90 && sep >= 1 && d == Map(Digit, s[sep + 1..])
    ensures fresh(buf) && buf.Length == BUF
    ensures ok <==> Bits.Symbols(d)
    ensures ok ==> chk == Feed(pm, start, d) && ver == d[0] && Packed(buf, Inner(d), |d| - 7)
  {
    hide Digit, Feed, Packed, Bits.Partial;
    buf := new bv8[BUF](_ => 0);
    ok, ver, chk := true, 0xff, start;
    ghost var j := 0;
    ZeroPacked(buf, Inner(d));
    FeedNone(pm, start);
    assert d[..0] == [];
    for i := sep + 1 to |s|
      invariant Bits.Symbols(d[..i - sep - 1]) && chk == Feed(pm, start, d[..i - sep - 1])
      invariant i > sep + 1 ==> ver == d[0]
      invariant j == (if i == sep + 1 then 0 else if i + 6 >= |s| then |d| - 7 else i - sep - 2)
      invariant Packed(buf, Inner(d), j)
    {
      var c := Digit(s[i]);
      DigitIs(s[i]);
      ghost var t := i - sep - 1;
      assert c == d[t];
      if c == INVALID {
        return false, ver, buf, chk;
      }
      TakeNext(d, t);
      chk := FeedOne(pm, chk, c, d[..t], start);
      if i == sep + 1 {
        ver := c;
      } else if i + 6 < |s| {
        PackAt(buf, i - sep - 2, c, d);
        j := j + 1;
      }
    }
    assert d[..|d|] == d;
  }

  lemma ZeroPacked(buf: array<bv8>, syms: seq<bv8>)
    requires buf.Length == BUF && forall i :: 0 <= i < BUF ==> buf[i] == 0
    ensures Packed(buf, syms, 0)
  {
    forall i: nat | i < BUF ensures Bits.Partial(syms, 0, i) == 0 {
      Bits.Window8Is(8 * i % 5, 0, 0, 0);
    }
  }

  method PackAt(buf: array<bv8>, j: nat, c: bv8, ghost d: seq<bv8>)
    requires buf.Length == BUF && |d| <= 88 && j < |d| - 7 && Bits.Symbols(d[..j + 2]) && c == d[j + 1] &&
             Packed(buf, Inner(d), j)
    modifies buf
    ensures Packed(buf, Inner(d), j + 1)
  {
    forall k | 0 <= k <= j ensures Inner(d)[k] < 32 {
      assert Inner(d)[k] == d[..j + 2][k + 1];
    }
    Pack(buf, j, c, Inner(d));
  }

  lemma AllPacked(buf: array<bv8>, syms: seq<bv8>, n: nat)
    requires buf.Length == BUF && Packed(buf, syms, |syms|) && n == 5 * |syms| / 8 && n <= BUF
    ensures buf[..n] == Bits.To8(syms)
  {
    forall i | 0 <= i < n ensures buf[i] == Bits.Eight(syms, i) {
      assert buf[i] == Bits.Partial(syms, |syms|, i);
    }
  }

  /** The opcode byte for a witness version. */
  function OpOf(ver: bv8): bv8 {
    if ver == 0 then 0 else ver + 0x51 - 1
  }

  /** BRBech32Decode: hrp84 gets `hrp`, data42 gets [op, |prog|] + prog, and the result is 2 + |prog|. */
  method Decode(pm: Step, s: seq<bv8>) returns (n: nat, hrp: seq<bv8>, op: bv8, prog: seq<bv8>)
    ensures Meaning(pm, s) == None ==> n == 0
    ensures Meaning(pm, s).Some? ==>
              var a := Meaning(pm, s).value;
              n == 2 + |prog| && hrp == a.hrp && op == OpOf(a.ver) && prog == a.prog && |hrp| < 84
  {
    hide Separator, Feed, Packed, Lower, Digit, Expand, Bits.To8;
    n, hrp, op, prog := 0, [], 0, [];
    var ok := Scan(s);
    if !ok { return; }
    var sep := FindSeparator(s);
    if |s| < 8 || |s| > 90 || sep < 1 || sep + 2 + 6 > |s| { return; }
    var chk := FeedHrp(pm, s[..sep]);
    ghost var d := Map(Digit, s[sep + 1..]);
    var ver: bv8, buf: array<bv8>;
    ok, ver, buf, chk := ReadData(pm, s, sep, chk, d);
    if !ok { return; }
    FeedConcat(pm, 1, Expand(s[..sep]), d);
    var bufLen := (|s| - (sep + 2 + 6)) * 5 / 8;
    if chk != 1 || ver > 16 || bufLen < 2 || bufLen > 40 { return; }
    AllPacked(buf, Inner(d), bufLen);
    hrp, op, prog := Map(Lower, s[..sep]), OpOf(ver), buf[..bufLen];
    n := 2 + bufLen;
  }

  // ---------------------------------------------------------------- with polymod

  /** What BRBech32Encode accepts and writes inside its buffer, BRBech32Decode takes back, exactly when the
      human-readable part is not empty. */
  lemma EncodeThenDecode(hrp: seq<bv8>, op: bv8, prog: seq<bv8>)
    requires !EncodeRefuses(hrp, op, prog) && EncodeFits(hrp, prog)
    ensures Meaning(Polymod, AddressOf(Polymod, hrp, VersionOf(op), prog)) == Some(Address(hrp, VersionOf(op), prog))
            <==> hrp != []
  {
    PolymodIsRegister();
    RoundTrip(Polymod, hrp, VersionOf(op), prog);
  }

  /** Replacing up to six consecutive characters of the data part, one of them by a digit of another value. */
  lemma ErrorDetected(head: seq<bv8>, a: seq<bv8>, u: seq<bv8>, v: seq<bv8>, z: seq<bv8>)
    requires var s := head + (a + u + z);
             Meaning(Polymod, s).Some? && |head| == Separator(s, |s|) + 1
    requires |u| == |v| <= 6 && AllDigits(v) && Map(Digit, u) != Map(Digit, v)
    ensures Meaning(Polymod, head + (a + v + z)) == None
  {
    PolymodIsRegister();
    BurstRefused(Polymod, head, a, u, v, z);
  }

  lemma CutAt(s: seq<bv8>, n: nat, i: nat, c: bv8, head: seq<bv8>, a: seq<bv8>, z: seq<bv8>)
    requires n <= i < |s| && head == s[..n] && a == s[n..i] && z == s[i + 1..]
    ensures s == head + (a + [s[i]] + z) && s[i := c] == head + (a + [c] + z)
  {
    assert head + a == s[..i];
    ConcatAssoc(head, a, [s[i]]);
    ConcatAssoc(head, a, [c]);
    ConcatAssoc(head, a + [s[i]], z);
    ConcatAssoc(head, a + [c], z);
    UpdateIs(s, i, c);
    UpdateIs(s, i, s[i]);
  }

  lemma UpdateIs(s: seq<bv8>, i: nat, c: bv8)
    requires i < |s|
    ensures s[i := c] == s[..i] + [c] + s[i + 1..]
  {
  }

  lemma OneDigit(b: bv8, c: bv8)
    requires Digit(c) < 32 && Digit(c) != Digit(b)
    ensures AllDigits([c]) && Map(Digit, [b]) != Map(Digit, [c])
  {
    assert Map(Digit, [b])[0] == Digit(b) && Map(Digit, [c])[0] == Digit(c);
  }

  /** Replacing one character of the data part by a digit of another value. */
  lemma SubstitutionDetected(s: seq<bv8>, i: nat, c: bv8)
    requires Meaning(Polymod, s).Some? && Separator(s, |s|) < i < |s|
    requires Digit(c) < 32 && Digit(c) != Digit(s[i])
    ensures Meaning(Polymod, s[i := c]) == None
  {
    var n := Separator(s, |s|) + 1;
    var head, a, z := s[..n], s[n..i], s[i + 1..];
    CutAt(s, n, i, c, head, a, z);
    OneDigit(s[i], c);
    ErrorDetected(head, a, [s[i]], [c], z);
  }

  method Bech32Encode(addr91: array<bv8>, hrp: seq<bv8>, op: bv8, prog: seq<bv8>) returns (n: nat, inside: bool)
    requires addr91.Length >= ROOM
    modifies addr91
    ensures EncodeRefuses(hrp, op, prog) ==> inside && n == 0
    ensures !EncodeRefuses(hrp, op, prog) ==> (inside <==> EncodeFits(hrp, prog))
    ensures n == 0 || !inside ==> addr91[..] == old(addr91[..])
    ensures !EncodeRefuses(hrp, op, prog) && inside ==>
              var a := AddressOf(Polymod, hrp, VersionOf(op), prog);
              n == |a| + 1 <= ROOM && addr91[..n] == a + [0] && addr91[n..] == old(addr91[n..])
  {
    n, inside := Encode(Polymod, addr91, hrp, op, prog);
  }

  method Bech32Decode(s: seq<bv8>) returns (n: nat, hrp: seq<bv8>, op: bv8, prog: seq<bv8>)
    ensures Meaning(Polymod, s) == None ==> n == 0
    ensures Meaning(Polymod, s).Some? ==>
              var a := Meaning(Polymod, s).value;
              n == 2 + |prog| && hrp == a.hrp && op == OpOf(a.ver) && prog == a.prog && |hrp| < 84
  {
    n, hrp, op, prog := Decode(Polymod, s);
  }
}
