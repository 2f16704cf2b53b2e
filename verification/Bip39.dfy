/**
 BIP 39 mnemonics (BRBIP39Mnemonic.c): 11-bit groups of the entropy followed by its checksum, and the phrase they
 spell. SHA-256 is a parameter.
 */
module Bip39 {
  import opened Common
  import opened Words
  import opened BitStream
  import Radix

  const WORDS: nat := 2048

  // ---------------------------------------------------------------- BIP 39, "Generating the mnemonic"

  /** The word indices of entropy of 4k bytes: its bits and the first k bits of its hash, in 3k groups of 11. */
  function Indices(sha: Sha, data: seq<byte>, k: nat): (idx: seq<nat>)
    requires |data| == 4 * k && k <= 256
    ensures |idx| == 3 * k
  {
    TimesIsMul(|data + sha(data)|, 8);
    TimesIsMul(3 * k, 11);
    Groups(11, Stream(8, data + sha(data)), 3 * k)
  }

  /** The entropy that 3k indices spell, without looking at the checksum. */
  function Entropy(idx: seq<nat>, k: nat): (data: seq<nat>)
    requires |idx| == 3 * k
    ensures |data| == 4 * k
  {
    TimesIsMul(3 * k, 11);
    TimesIsMul(4 * k, 8);
    Groups(8, Stream(11, idx), 4 * k)
  }

  lemma StreamLengths(k: nat)
    ensures Times(3 * k, 11) == 33 * k && Times(4 * k, 8) == 32 * k && Times(4 * k + 32, 8) == 32 * k + 256
  {
    TimesIsMul(3 * k, 11);
    TimesIsMul(4 * k, 8);
    TimesIsMul(4 * k + 32, 8);
  }

  lemma BytesBelow(s: seq<byte>)
    ensures Below(8, s)
  {
    Powers();
  }

  function AsBytes(s: seq<nat>): (t: seq<byte>)
    requires Below(8, s)
    ensures t == s
  {
    Powers();
    s
  }

  lemma EntropyBelow(idx: seq<nat>, k: nat)
    requires |idx| == 3 * k
    ensures Below(8, Entropy(idx, k))
    ensures |Stream(11, idx)| == 33 * k && Stream(8, Entropy(idx, k)) == Stream(11, idx)[..32 * k]
  {
    StreamLengths(k);
    StreamGroups(8, Stream(11, idx), 4 * k);
  }

  /** The checksum: the last k of 33k bits are the first k bits of the hash of the entropy. */
  predicate ChecksumHolds(sha: Sha, idx: seq<nat>, k: nat)
    requires |idx| == 3 * k && k <= 8
  {
    EntropyBelow(idx, k);
    Stream(11, idx)[32 * k..] == Bits(8, sha(AsBytes(Entropy(idx, k)))[0])[..k]
  }

  lemma FirstByte(h: Digest)
    ensures Stream(8, h)[..8] == Bits(8, h[0])
  {
    assert h == [h[0]] + h[1..];
    StreamConcat(8, [h[0]], h[1..]);
    StreamOne(8, h[0]);
  }

  /** The data bits d, the hash bits h, and the first m = n + k of both. */
  lemma Cut(d: seq<bool>, h: seq<bool>, n: nat, k: nat, m: nat, s: seq<bool>)
    requires |d| == n && m == n + k && k <= 8 <= |h| && s == (d + h)[..m]
    ensures s[..n] == d && s[n..] == h[..8][..k]
  {
  }

  lemma Paste(d: seq<bool>, h: seq<bool>, n: nat, k: nat, m: nat, s: seq<bool>)
    requires |d| == n && m == n + k && k <= 8 <= |h| && |s| == m && s[..n] == d && s[n..] == h[..8][..k]
    ensures s == (d + h)[..m]
  {
    assert s == s[..n] + s[n..];
    assert h[..8][..k] == h[..k];
  }

  /** Splitting entropy into words and reading it back restores it, with a correct checksum. */
  lemma EntropyOfIndices(sha: Sha, data: seq<byte>, k: nat)
    requires |data| == 4 * k && k <= 8
    ensures Below(11, Indices(sha, data, k)) && Entropy(Indices(sha, data, k), k) == data
    ensures ChecksumHolds(sha, Indices(sha, data, k), k)
  {
    var h, idx := sha(data), Indices(sha, data, k);
    StreamLengths(k);
    StreamConcat(8, data, h);
    StreamGroups(11, Stream(8, data + h), 3 * k);
    Cut(Stream(8, data), Stream(8, h), 32 * k, k, 33 * k, Stream(11, idx));
    BytesBelow(data);
    GroupsStream(8, data, Stream(11, idx));
    FirstByte(h);
  }

  /** Indices with a correct checksum are the ones that their entropy spells. */
  lemma IndicesOfEntropy(sha: Sha, idx: seq<nat>, k: nat)
    requires |idx| == 3 * k && k <= 8 && Below(11, idx) && ChecksumHolds(sha, idx, k)
    ensures Below(8, Entropy(idx, k)) && Indices(sha, AsBytes(Entropy(idx, k)), k) == idx
  {
    EntropyBelow(idx, k);
    var data := AsBytes(Entropy(idx, k));
    var h := sha(data);
    StreamLengths(k);
    StreamConcat(8, data, h);
    FirstByte(h);
    Paste(Stream(8, data), Stream(8, h), 32 * k, k, 33 * k, Stream(11, idx));
    GroupsStream(11, idx, Stream(8, data + h));
  }

  /** The words are the digits in base 2048 of one number: the entropy, high byte first, followed by the first k bits of
      its hash. */
  lemma IndicesAreDigits(sha: Sha, data: seq<byte>, k: nat)
    requires |data| == 4 * k && k <= 8
    ensures Radix.Digits(2048, Indices(sha, data, k))
    ensures Radix.Value(2048, Indices(sha, data, k)) ==
            Radix.Value(256, data) * Pow2(k) + sha(data)[0] / Pow2(8 - k)
  {
    hide Stream, Bits, Number, Groups, Pow2;
    var h, idx := sha(data), Indices(sha, data, k);
    StreamLengths(k);
    StreamConcat(8, data, h);
    StreamGroups(11, Stream(8, data + h), 3 * k);
    Cut(Stream(8, data), Stream(8, h), 32 * k, k, 33 * k, Stream(11, idx));
    FirstByte(h);
    var s := Stream(11, idx);
    assert s == s[..32 * k] + s[32 * k..];
    NumberConcat(Stream(8, data), Bits(8, h[0])[..k]);
    BytesBelow(data);
    NumberStream(8, data);
    NumberStream(11, idx);
    Powers();
    NumberTop(8, h[0], k);
    Pow2Add(8, 3);
    Eight();
  }

  lemma Eight()
    ensures Pow2(3) == 8
  {
  }

  // ---------------------------------------------------------------- phrases

  type WordList = seq<string>

  predicate SpaceFree(w: string) {
    forall i :: 0 <= i < |w| ==> w[i] != ' '
  }

  /** 2048 different words, none empty or with a space in it. */
  predicate Good(wl: WordList) {
    && |wl| == WORDS
    && (forall i :: 0 <= i < |wl| ==> wl[i] != "" && SpaceFree(wl[i]))
    && (forall i, j :: 0 <= i < j < |wl| ==> wl[i] != wl[j])
  }

  predicate NoSpaces(wl: WordList) {
    forall i :: 0 <= i < |wl| ==> SpaceFree(wl[i])
  }

  predicate InRange(idx: seq<nat>) {
    forall i :: 0 <= i < |idx| ==> idx[i] < WORDS
  }

  /** The words with single spaces between them. */
  function Phrase(wl: WordList, idx: seq<nat>): string
    requires |wl| == WORDS && InRange(idx)
  {
    if idx == [] then ""
    else if |idx| == 1 then wl[idx[0]]
    else wl[idx[0]] + " " + Phrase(wl, idx[1..])
  }

  lemma {:induction false} PhraseAppend(wl: WordList, idx: seq<nat>, d: nat)
    requires |wl| == WORDS && InRange(idx) && d < WORDS && idx != []
    ensures Phrase(wl, idx + [d]) == Phrase(wl, idx) + " " + wl[d]
  {
    assert (idx + [d])[1..] == idx[1..] + [d];
    if |idx| <= 1 {
    } else {
      PhraseAppend(wl, idx[1..], d);
      assert wl[idx[0]] + " " + (Phrase(wl, idx[1..]) + " " + wl[d]) == wl[idx[0]] + " " + Phrase(wl, idx[1..]) + " " +
        wl[d];
    }
  }

  /** strchr: the first space, or the end. */
  function SpaceAt(s: string): (n: nat)
    ensures n <= |s| && (n < |s| ==> s[n] == ' ') && SpaceFree(s[..n])
  {
    if s == "" || s[0] == ' ' then 0
    else
      var n := SpaceAt(s[1..]);
      assert forall i :: 0 < i < n + 1 ==> s[i] == s[1..][..n][i - 1];
      1 + n
  }

  function Token(s: string): string {
    s[..SpaceAt(s)]
  }

  lemma {:induction false} SpaceAtIs(w: string, s: string, n: nat)
    requires n <= |s| && s[..n] == w && SpaceFree(w) && (n < |s| ==> s[n] == ' ')
    ensures SpaceAt(s) == n && Token(s) == w
  {
    if n == 0 {
    } else {
      assert s[0] == w[0] && s[1..][..n - 1] == w[1..];
      SpaceAtIs(w[1..], s[1..], n - 1);
    }
  }

  /** The test on one word of the list. */
  predicate Matches(w: string, s: string) {
    |w| <= |s| && s[..|w|] == w && (|w| == |s| || s[|w|] == ' ')
  }

  lemma MatchesToken(w: string, s: string)
    requires SpaceFree(w)
    ensures Matches(w, s) <==> w == Token(s)
  {
    if Matches(w, s) {
      SpaceAtIs(w, s, |w|);
    }
  }

  /** The first index from i on of a word that s begins with; the length of the list if there is none. */
  function Find(wl: WordList, s: string, i: nat): (n: nat)
    requires i <= |wl|
    ensures i <= n <= |wl| && (n < |wl| ==> Matches(wl[n], s))
    decreases |wl| - i
  {
    if i == |wl| || Matches(wl[i], s) then i else Find(wl, s, i + 1)
  }

  /** In a list of different words without spaces, that is the one that s begins with up to its first space. */
  lemma {:induction false} FindIs(wl: WordList, s: string, n: nat, i: nat)
    requires i <= n < |wl| && wl[n] == Token(s)
    requires (forall j :: i <= j <= n ==> SpaceFree(wl[j])) && forall j :: i <= j < n ==> wl[j] != wl[n]
    ensures Find(wl, s, i) == n
    decreases n - i
  {
    hide Matches, SpaceFree, Token;
    MatchesToken(wl[i], s);
    if i == n {
    } else {
      FindIs(wl, s, n, i + 1);
    }
  }


  // The indices read, and whether the phrase ended after them.
  datatype Reading = Reading(idx: seq<nat>, ended: bool)

  /** The words of s, at most `room` of them, up to the first that is not in the list. */
  function Read(wl: WordList, s: string, room: nat): (r: Reading)
    ensures |r.idx| <= room && forall i :: 0 <= i < |r.idx| ==> r.idx[i] < |wl|
    decreases |wl|, room
  {
    if s == "" then Reading([], true)
    else
      var n, sp := Find(wl, s, 0), SpaceAt(s);
      if room == 0 || n == |wl| then Reading([], false)
      else if sp == |s| then Reading([n], true)
      else
        var r := Read(wl, s[sp + 1..], room - 1);
        Reading([n] + r.idx, r.ended)
  }

  lemma FirstWord(wl: WordList, idx: seq<nat>, s: string)
    requires Good(wl) && InRange(idx) && idx != [] && s == Phrase(wl, idx)
    ensures s != "" && Token(s) == wl[idx[0]] && SpaceAt(s) == |wl[idx[0]]| && Find(wl, s, 0) == idx[0]
    ensures |idx| == 1 ==> SpaceAt(s) == |s|
    ensures |idx| > 1 ==> SpaceAt(s) < |s| && s[SpaceAt(s) + 1..] == Phrase(wl, idx[1..])
  {
    var w := wl[idx[0]];
    assert s[..|w|] == w;
    SpaceAtIs(w, s, |w|);
    FindIs(wl, s, idx[0], 0);
  }

  /** Reading back a phrase gives its indices when there is room for them. */
  lemma {:induction false} ReadPhrase(wl: WordList, idx: seq<nat>, room: nat)
    requires Good(wl) && InRange(idx) && idx != []
    ensures |idx| <= room ==> Read(wl, Phrase(wl, idx), room) == Reading(idx, true)
    ensures |idx| > room ==> !Read(wl, Phrase(wl, idx), room).ended
    decreases room
  {
    hide Phrase;
    FirstWord(wl, idx, Phrase(wl, idx));
    if room > 0 && |idx| > 1 {
      ReadPhrase(wl, idx[1..], room - 1);
      ReadNext(wl, Phrase(wl, idx), Phrase(wl, idx[1..]), idx[0], room);
      HeadTail(idx);
    } else if room > 0 {
      HeadTail(idx);
    } else {
    }
  }

  lemma HeadTail(idx: seq<nat>)
    requires idx != []
    ensures idx == [idx[0]] + idx[1..] && (|idx| == 1 ==> idx == [idx[0]])
  {
  }

  lemma ReadNext(wl: WordList, s: string, t: string, n: nat, room: nat)
    requires s != "" && room > 0 && n < |wl| && Find(wl, s, 0) == n && SpaceAt(s) < |s| && s[SpaceAt(s) + 1..] == t
    ensures Read(wl, s, room).idx == [n] + Read(wl, t, room - 1).idx
    ensures Read(wl, s, room).ended == Read(wl, t, room - 1).ended
  {
    hide Token, Find, SpaceAt;
  }

  /** Whatever is read to its end is the phrase of its indices, up to one trailing space. */
  lemma {:induction false} PhraseOfRead(wl: WordList, s: string, room: nat)
    requires |wl| == WORDS && NoSpaces(wl) && s != "" && Read(wl, s, room).ended
    ensures var idx := Read(wl, s, room).idx;
            InRange(idx) && idx != [] && (s == Phrase(wl, idx) || s == Phrase(wl, idx) + " ")
    decreases room
  {
    hide Find, SpaceAt, SpaceFree, Matches;
    var n, sp := Find(wl, s, 0), SpaceAt(s);
    MatchesToken(wl[n], s);
    if sp >= |s| {
    } else {
      var t := s[sp + 1..];
      SplitAt(s, sp);
      if t != "" {
        PhraseOfRead(wl, t, room - 1);
        PhraseCons(wl, n, Read(wl, t, room - 1).idx, t, s);
      }
    }
  }

  lemma SplitAt(s: string, n: nat)
    requires n < |s| && s[n] == ' '
    ensures s == s[..n] + " " + s[n + 1..]
  {
  }

  lemma PhraseCons(wl: WordList, n: nat, idx: seq<nat>, t: string, s: string)
    requires |wl| == WORDS && n < WORDS && InRange(idx) && idx != [] && s == wl[n] + " " + t
    requires t == Phrase(wl, idx) || t == Phrase(wl, idx) + " "
    ensures InRange([n] + idx) && (s == Phrase(wl, [n] + idx) || s == Phrase(wl, [n] + idx) + " ")
  {
    var p := Phrase(wl, idx);
    assert ([n] + idx)[1..] == idx;
    assert Phrase(wl, [n] + idx) == wl[n] + " " + p;
    assert wl[n] + " " + (p + " ") == wl[n] + " " + p + " ";
  }

  // ---------------------------------------------------------------- the two directions together

  /** What BRBIP39Decode returns: no bytes for a phrase it does not accept. */
  function Decoded(sha: Sha, wl: WordList, s: string): (data: seq<byte>)
    requires |wl| == WORDS
  {
    var r := Read(wl, s, 24);
    if !r.ended || |r.idx| % 3 != 0 then [] else Checked(sha, r.idx, |r.idx| / 3)
  }

  function Checked(sha: Sha, idx: seq<nat>, k: nat): (data: seq<byte>)
    requires |idx| == 3 * k && k <= 8
  {
    if !ChecksumHolds(sha, idx, k) then []
    else
      EntropyBelow(idx, k);
      AsBytes(Entropy(idx, k))
  }

  lemma Pow2Of11()
    ensures Pow2(11) == WORDS
  {
    Powers();
  }

  lemma BelowInRange(idx: seq<nat>)
    ensures Below(11, idx) <==> InRange(idx)
  {
    Pow2Of11();
  }

  lemma IndicesBelow(sha: Sha, data: seq<byte>, k: nat)
    requires |data| == 4 * k && k <= 256
    ensures Below(11, Indices(sha, data, k))
  {
    TimesIsMul(|data + sha(data)|, 8);
    TimesIsMul(3 * k, 11);
    StreamGroups(11, Stream(8, data + sha(data)), 3 * k);
  }

  lemma NotEnded(sha: Sha, wl: WordList, s: string)
    requires |wl| == WORDS && !Read(wl, s, 24).ended
    ensures Decoded(sha, wl, s) == []
  {
  }

  lemma ThirdOf(idx: seq<nat>, k: nat)
    requires |idx| == 3 * k
    ensures |idx| / 3 == k && |idx| % 3 == 0
  {
  }

  lemma Ended(sha: Sha, wl: WordList, s: string, idx: seq<nat>)
    requires |wl| == WORDS && Read(wl, s, 24) == Reading(idx, true) && |idx| % 3 == 0
    ensures Decoded(sha, wl, s) == Checked(sha, idx, |idx| / 3)
  {
  }

  /** Decoding a mnemonic gives back the entropy exactly when there are at most 32 bytes of it. */
  lemma DecodeEncode(sha: Sha, wl: WordList, data: seq<byte>, k: nat)
    requires Good(wl) && |data| == 4 * k && 1 <= k <= 256
    ensures InRange(Indices(sha, data, k))
    ensures Decoded(sha, wl, Phrase(wl, Indices(sha, data, k))) == data <==> k <= 8
  {
    var idx := Indices(sha, data, k);
    IndicesBelow(sha, data, k);
    BelowInRange(idx);
    ReadPhrase(wl, idx, 24);
    if k <= 8 {
      EntropyOfIndices(sha, data, k);
      ThirdOf(idx, k);
      Ended(sha, wl, Phrase(wl, idx), idx);
    } else {
      NotEnded(sha, wl, Phrase(wl, idx));
    }
  }

  /** A phrase that is accepted is the mnemonic of what it decodes to, up to one trailing space. */
  lemma EncodeDecode(sha: Sha, wl: WordList, s: string) returns (data: seq<byte>, k: nat)
    requires |wl| == WORDS && NoSpaces(wl) && Decoded(sha, wl, s) != []
    ensures data == Decoded(sha, wl, s) && |data| == 4 * k && 1 <= k <= 8
    ensures InRange(Indices(sha, data, k))
    ensures s == Phrase(wl, Indices(sha, data, k)) || s == Phrase(wl, Indices(sha, data, k)) + " "
  {
    var idx := Read(wl, s, 24).idx;
    k := Accepted(sha, wl, s, idx);
    PhraseOfRead(wl, s, 24);
    BelowInRange(idx);
    IndicesOfEntropy(sha, idx, k);
    data := AsBytes(Entropy(idx, k));
  }

  lemma Accepted(sha: Sha, wl: WordList, s: string, idx: seq<nat>) returns (k: nat)
    requires |wl| == WORDS && Decoded(sha, wl, s) != [] && idx == Read(wl, s, 24).idx
    ensures s != "" && Read(wl, s, 24).ended && |idx| == 3 * k && 1 <= k <= 8 && ChecksumHolds(sha, idx, k)
    ensures Decoded(sha, wl, s) == Entropy(idx, k)
  {
    k := |idx| / 3;
    Ended(sha, wl, s, idx);
  }

  // ---------------------------------------------------------------- BRBIP39Encode

  /** UInt32GetBE. */
  function BE32(buf: seq<byte>, j: nat): nat
    requires j + 4 <= |buf|
  {
    var a: nat, b: nat, c: nat, d: nat := buf[j], buf[j + 1], buf[j + 2], buf[j + 3];
    a * 0x1000000 + b * 0x10000 + c * 0x100 + d
  }

  lemma WordBits(buf: seq<byte>, j: nat)
    requires j + 4 <= |buf|
    ensures 8 * j + 32 <= |Stream(8, buf)| && Stream(8, buf)[8 * j..8 * j + 32] == Bits(32, BE32(buf, j))
  {
    hide Bits, Stream;
    TimesIsMul(j, 8);
    TimesIsMul(j + 4, 8);
    StreamSlice(8, buf, j, j + 4, 8 * j, 8 * j + 32);
    assert buf[j..j + 4] == [buf[j], buf[j + 1], buf[j + 2], buf[j + 3]];
    Bits32(buf[j], buf[j + 1], buf[j + 2], buf[j + 3], BE32(buf, j));
  }

  /** Eleven bits from bit o of a 32-bit number. */
  lemma Window11(x: nat, o: nat)
    requires o <= 21
    ensures Bits(11, Shr(x, 32 - (11 + o)) % WORDS) == Bits(32, x)[o..o + 11]
  {
    var s := 32 - (11 + o);
    Powers();
    BitsShift(32, x, s);
    BitsMod(32 - s, Shr(x, s), 11);
    LastOfFirst(Bits(32, x), o + 11, o);
  }

  /** `(x >> (32 - (11 + i*11 % 8))) % BIP39_WORDLIST_COUNT`. */
  method ReadWord(buf: seq<byte>, i: nat) returns (n: nat)
    requires i * 11 / 8 + 4 <= |buf|
    ensures n < WORDS && 11 * i + 11 <= |Stream(8, buf)| && Bits(11, n) == Stream(8, buf)[11 * i..11 * i + 11]
  {
    var j, o := i * 11 / 8, i * 11 % 8;
    WordBits(buf, j);
    var x := BE32(buf, j);
    Window11(x, o);
    n := Shr(x, 32 - (11 + o)) % WORDS;
    Subslice(Stream(8, buf), 8 * j, Bits(32, x), o, 11, 11 * i);
  }

  lemma Subslice(s: seq<bool>, lo: nat, t: seq<bool>, o: nat, w: nat, at: nat)
    requires lo + |t| <= |s| && t == s[lo..lo + |t|] && o + w <= |t| && at == lo + o
    ensures t[o..o + w] == s[at..at + w]
  {
    assert forall k :: o <= k < o + w ==> t[k] == s[lo + k];
    assert t[o..o + w] == s[lo + o..lo + o + w];
  }

  lemma LastOfFirst(b: seq<bool>, n: nat, o: nat)
    requires o <= n <= |b|
    ensures b[..n][o..] == b[o..n]
  {
  }

  // The most entropy for which BRBIP39Encode reads 32 bits for each word within data and hash.
  const LONGEST: nat := 968

  lemma ReadsInside(k: nat)
    ensures 4 * k <= LONGEST <==> forall i :: 0 <= i < 3 * k ==> WordInside(k, i)
  {
    if 4 * k > LONGEST {
      assert !WordInside(k, 3 * k - 1);
    }
  }

  /** With 972 bytes the last word is read behind the buffer. */
  lemma LastReadOutside()
    ensures 4 * 243 == 972 && !WordInside(243, 3 * 243 - 1)
  {
  }

  /** The read for word i of entropy of 4k bytes. */
  predicate WordInside(k: nat, i: nat) {
    i * 11 / 8 + 4 <= 4 * k + 32
  }

  lemma IndexIs(sha: Sha, data: seq<byte>, buf: seq<byte>, i: nat, k: nat, n: nat)
    requires |data| == 4 * k && k <= 256 && i < 3 * k && buf == data + sha(data) && n < WORDS
    requires 11 * i + 11 <= |Stream(8, buf)| && Bits(11, n) == Stream(8, buf)[11 * i..11 * i + 11]
    ensures n == Indices(sha, data, k)[i]
  {
    hide Bits, Stream, Pow2;
    TimesIsMul(|data + sha(data)|, 8);
    TimesIsMul(3 * k, 11);
    TimesIsMul(i, 11);
    Power11(n);
    GroupIs(11, Stream(8, buf), 3 * k, i, 11 * i, 11 * i + 11, n);
  }

  lemma Power11(n: nat)
    ensures n < WORDS <==> n < Pow2(11)
  {
    Pow2Of11();
  }

  const NUL: char := 0 as char

  /** strncpy(&phrase[off], word, n - off): cuts the word off at n, or fills up with NUL. */
  method CopyWord(phrase: array<char>, off: nat, n: nat, word: string)
    requires off < n <= phrase.Length
    modifies phrase
    ensures phrase[..off] == old(phrase[..off]) && phrase[n..] == old(phrase[n..])
    ensures off + |word| <= n ==> phrase[off..off + |word|] == word
    ensures forall j :: off + |word| <= j < n ==> phrase[j] == NUL
  {
    for j := off to n
      invariant phrase[..off] == old(phrase[..off]) && phrase[n..] == old(phrase[n..])
      invariant forall i :: off <= i < j ==> phrase[i] == if i < off + |word| then word[i - off] else NUL
    {
      phrase[j] := if j < off + |word| then word[j - off] else NUL;
    }
  }

  /** The phrase of the first words, and zeros behind it as far as the buffer goes. */
  ghost predicate Spelled(phrase: array?<char>, n: nat, i: nat, len: nat, p: string)
    requires phrase != null ==> n <= phrase.Length
    reads phrase
  {
    && len == |p|
    && (phrase != null && len <= n ==> phrase[..len] == p && (i > 0 ==> forall j :: len <= j < n ==> phrase[j] == NUL))
  }

  /** The loop body that adds word i at length len. */
  method AddWord(phrase: array?<char>, n: nat, i: nat, len: nat, word: string, ghost p: string)
    returns (next: nat, ghost q: string)
    requires phrase != null ==> n <= phrase.Length
    requires Spelled(phrase, n, i, len, p) && (i == 0 ==> p == "")
    modifies phrase
    ensures q == (if i == 0 then word else p + " " + word) && Spelled(phrase, n, i + 1, next, q)
    ensures phrase != null ==> phrase[n..] == old(phrase[n..])
  {
    next := len;
    if i > 0 && phrase != null && next < n { phrase[next] := ' '; }
    if i > 0 { next := next + 1; }
    if phrase != null && next < n { CopyWord(phrase, next, n, word); }
    next := next + |word|;
    q := if i == 0 then word else p + " " + word;
    assert phrase != null && next <= n ==> phrase[..next] == q;
  }

  lemma PhraseNext(wl: WordList, idx: seq<nat>, i: nat)
    requires |wl| == WORDS && InRange(idx) && i < |idx|
    ensures Phrase(wl, idx[..i + 1]) == if i == 0 then wl[idx[i]] else Phrase(wl, idx[..i]) + " " + wl[idx[i]]
  {
    assert idx[..i + 1] == idx[..i] + [idx[i]];
    if i > 0 {
      PhraseAppend(wl, idx[..i], idx[i]);
    }
  }

  /** The mnemonic of entropy of 4k bytes. */
  function Mnemonic(sha: Sha, wl: WordList, data: seq<byte>): string
    requires |wl| == WORDS && |data| % 4 == 0 && |data| <= LONGEST
  {
    IndicesBelow(sha, data, |data| / 4);
    BelowInRange(Indices(sha, data, |data| / 4));
    Phrase(wl, Indices(sha, data, |data| / 4))
  }

  /** The first i words of it. */
  function FirstWords(sha: Sha, wl: WordList, data: seq<byte>, k: nat, i: nat): string
    requires |wl| == WORDS && |data| == 4 * k <= LONGEST && i <= 3 * k
  {
    IndicesBelow(sha, data, k);
    BelowInRange(Indices(sha, data, k));
    Phrase(wl, Indices(sha, data, k)[..i])
  }

  lemma FirstWordsNext(sha: Sha, wl: WordList, data: seq<byte>, k: nat, i: nat, w: nat)
    requires |wl| == WORDS && |data| == 4 * k <= LONGEST && i < 3 * k && w == Indices(sha, data, k)[i] < WORDS
    ensures FirstWords(sha, wl, data, k, i + 1)
            == if i == 0 then wl[w] else FirstWords(sha, wl, data, k, i) + " " + wl[w]
  {
    IndicesBelow(sha, data, k);
    BelowInRange(Indices(sha, data, k));
    PhraseNext(wl, Indices(sha, data, k), i);
  }

  lemma AllWords(sha: Sha, wl: WordList, data: seq<byte>, k: nat)
    requires |wl| == WORDS && |data| == 4 * k <= LONGEST
    ensures FirstWords(sha, wl, data, k, 0) == "" && FirstWords(sha, wl, data, k, 3 * k) == Mnemonic(sha, wl, data)
  {
    var idx := Indices(sha, data, k);
    assert idx[..0] == [] && idx[..3 * k] == idx;
  }

  method NextIndex(sha: Sha, wl: WordList, data: seq<byte>, buf: seq<byte>, i: nat, ghost k: nat) returns (w: nat)
    requires |wl| == WORDS && |data| == 4 * k && i < 3 * k && buf == data + sha(data) && i * 11 / 8 + 4 <= |buf|
    ensures w < WORDS
    ensures 4 * k <= LONGEST ==>
              FirstWords(sha, wl, data, k, i + 1) == if i == 0 then wl[w]
                else FirstWords(sha, wl, data, k, i) + " " + wl[w]
  {
    hide FirstWords, BE32, Bits, Stream, Indices;
    w := ReadWord(buf, i);
    if 4 * k <= LONGEST {
      IndexIs(sha, data, buf, i, k, w);
      FirstWordsNext(sha, wl, data, k, i, w);
    }
  }

  /** BRBIP39Encode; `n` is phraseLen. All its reads stay inside data and hash exactly when `inside`; the model stops at
      the first one that does not, where what the source does is not defined. */
  method Encode(sha: Sha, wl: WordList, phrase: array?<char>, n: nat, data: seq<byte>) returns (r: nat, inside: bool)
    requires |wl| == WORDS && data != [] && (phrase != null ==> n <= phrase.Length)
    modifies phrase
    ensures |data| % 4 != 0 ==> inside && r == 0 && (phrase != null ==> phrase[..] == old(phrase[..]))
    ensures |data| % 4 == 0 ==> (inside <==> |data| <= LONGEST)
    ensures |data| % 4 == 0 && inside ==>
              var p := Mnemonic(sha, wl, data);
              && (phrase == null || |p| < n ==> r == |p| + 1)
              && (phrase != null && |p| < n ==> phrase[..|p|] == p && phrase[|p|] == NUL)
              && (phrase != null && |p| >= n ==> r == 0)
    ensures phrase != null ==> phrase[n..] == old(phrase[n..])
  {
    hide Mnemonic, FirstWords, WordInside, BE32;
    if |data| % 4 != 0 { return 0, true; }
    ghost var k := |data| / 4;
    assert |data| == 4 * k;
    ReadsInside(k);
    if 4 * k <= LONGEST {
      AllWords(sha, wl, data, k);
    }
    var buf := data + sha(data);
    var len: nat := 0;
    ghost var p := "";
    for i := 0 to |data| * 3 / 4
      invariant Spelled(phrase, n, i, len, p) && (i == 0 ==> p == "")
      invariant 4 * k <= LONGEST ==> p == FirstWords(sha, wl, data, k, i)
      invariant forall j :: 0 <= j < i ==> WordInside(k, j)
      invariant phrase != null ==> phrase[n..] == old(phrase[n..])
    {
      WordInsideIs(k, i);
      if i * 11 / 8 + 4 > |buf| { return 0, false; }
      var w := NextIndex(sha, wl, data, buf, i, k);
      len, p := AddWord(phrase, n, i, len, wl[w], p);
    }
    r := if phrase == null || len + 1 <= n then len + 1 else 0;
    inside := true;
  }

  lemma WordInsideIs(k: nat, i: nat)
    ensures WordInside(k, i) <==> i * 11 / 8 + 4 <= 4 * k + 32
  {
  }

  // ---------------------------------------------------------------- BRBIP39Decode

  method FindWord(wl: WordList, s: string) returns (n: nat)
    ensures n == Find(wl, s, 0)
  {
    n := 0;
    while n < |wl| && !Matches(wl[n], s)
      invariant n <= |wl| && Find(wl, s, n) == Find(wl, s, 0)
    {
      n := n + 1;
    }
  }

  method FindSpace(s: string) returns (n: nat)
    ensures n == SpaceAt(s)
  {
    n := 0;
    assert s[0..] == s;
    while n < |s| && s[n] != ' '
      invariant n <= |s| && SpaceAt(s) == n + SpaceAt(s[n..])
    {
      n := n + 1;
      assert s[n - 1..][1..] == s[n..];
    }
  }

  /** What remains of a reading when idx has been read, s is left, and there is room for more words. */
  ghost predicate Reads(wl: WordList, phrase: string, idx: seq<nat>, s: string, room: nat) {
    Read(wl, phrase, 24) == Reading(idx + Read(wl, s, room).idx, Read(wl, s, room).ended)
  }

  lemma ReadsUnknown(wl: WordList, phrase: string, idx: seq<nat>, s: string, room: nat)
    requires Reads(wl, phrase, idx, s, room) && s != "" && (room == 0 || Find(wl, s, 0) == |wl|)
    ensures Read(wl, phrase, 24) == Reading(idx, false)
  {
    assert idx + [] == idx;
  }

  lemma ReadsLast(wl: WordList, phrase: string, idx: seq<nat>, s: string, room: nat, n: nat)
    requires Reads(wl, phrase, idx, s, room) && s != "" && room > 0 && n == Find(wl, s, 0) < |wl| && SpaceAt(s) == |s|
    ensures Read(wl, phrase, 24) == Reading(idx + [n], true)
  {
  }

  lemma ReadsMore(wl: WordList, phrase: string, idx: seq<nat>, s: string, room: nat, n: nat, t: string)
    requires Reads(wl, phrase, idx, s, room) && s != "" && room > 0 && n == Find(wl, s, 0) < |wl|
    requires SpaceAt(s) < |s| && t == s[SpaceAt(s) + 1..]
    ensures Reads(wl, phrase, idx + [n], t, room - 1)
  {
    ReadNext(wl, s, t, n, room);
    Associate(idx, n, Read(wl, t, room - 1).idx);
  }

  lemma Associate(a: seq<nat>, n: nat, b: seq<nat>)
    ensures a + ([n] + b) == a + [n] + b
  {
  }

  /** The loop body: `next` is None where `word` becomes NULL or the loop breaks off. */
  method NextWord(wl: WordList, word: string, idx: seq<nat>, room: nat, ghost phrase: string)
    returns (more: seq<nat>, next: Option<string>, ended: bool)
    requires word != "" && room > 0 && Reads(wl, phrase, idx, word, room)
    ensures next.None? ==> Read(wl, phrase, 24) == Reading(more, ended)
    ensures next.Some? ==> |more| == |idx| + 1 && Reads(wl, phrase, more, next.value, room - 1)
  {
    var n := FindWord(wl, word);
    if n == |wl| {
      ReadsUnknown(wl, phrase, idx, word, room);
      return idx, None, false;
    }
    var sp := FindSpace(word);
    if sp == |word| {
      ReadsLast(wl, phrase, idx, word, room, n);
      return idx + [n], None, true;
    }
    ReadsMore(wl, phrase, idx, word, room, n, word[sp + 1..]);
    return idx + [n], Some(word[sp + 1..]), false;
  }

  /** The loop over the words of the phrase; `ended` is `!word || *word == 0`. */
  method ReadWords(wl: WordList, phrase: string) returns (idx: seq<nat>, ended: bool)
    ensures Reading(idx, ended) == Read(wl, phrase, 24)
  {
    idx := [];
    var word, room := phrase, 24;
    FirstReads(wl, phrase);
    while word != "" && room > 0
      invariant Reads(wl, phrase, idx, word, room)
      decreases room
    {
      var next;
      idx, next, ended := NextWord(wl, word, idx, room, phrase);
      if next == None { return; }
      word, room := next.value, room - 1;
    }
    LastReads(wl, phrase, idx, word, room);
    ended := word == "";
  }

  lemma FirstReads(wl: WordList, phrase: string)
    ensures Reads(wl, phrase, [], phrase, 24)
  {
    assert [] + Read(wl, phrase, 24).idx == Read(wl, phrase, 24).idx;
  }

  lemma LastReads(wl: WordList, phrase: string, idx: seq<nat>, word: string, room: nat)
    requires Reads(wl, phrase, idx, word, room) && (word == "" || room == 0)
    ensures Read(wl, phrase, 24) == Reading(idx, word == "")
  {
    assert idx + [] == idx;
  }

  /** All bits of the words, and eleven zeros behind them. */
  function Padded(idx: seq<nat>): seq<bool> {
    Stream(11, idx) + Bits(11, 0)
  }

  lemma TwoWords(idx: seq<nat>, q: nat, y: nat)
    requires q < |idx| && y == if q + 1 < |idx| then idx[q + 1] else 0
    ensures 11 * q + 22 <= |Padded(idx)|
    ensures Padded(idx)[11 * q..11 * q + 22] == Bits(11, idx[q]) + Bits(11, y)
  {
    hide Bits, Stream, Times;
    var p := idx + [0];
    StreamAppend(11, idx, 0);
    TimesIsMul(q, 11);
    TimesIsMul(q + 2, 11);
    StreamSlice(11, p, q, q + 2, 11 * q, 11 * q + 22);
    assert p[q..q + 2] == [idx[q]] + [y];
    StreamAppend(11, [idx[q]], y);
    StreamOne(11, idx[q]);
  }

  /** Eight bits from bit r of two words. */
  lemma Window8(x: nat, y: nat, r: nat)
    requires y < WORDS && r <= 10
    ensures Bits(8, Shr(x * WORDS + y, 14 - r) % 256) == (Bits(11, x) + Bits(11, y))[r..r + 8]
  {
    hide Bits, Shr, Pow2;
    var s := 14 - r;
    var v := x * WORDS + y;
    Powers();
    Power11(y);
    JoinWords(x, y, v);
    BitsShift(22, v, s);
    BitsMod(22 - s, Shr(v, s), 8);
    LastOfFirst(Bits(22, v), r + 8, r);
  }

  lemma JoinWords(x: nat, y: nat, v: nat)
    requires y < Pow2(11) && v == x * WORDS + y
    ensures Bits(22, v) == Bits(11, x) + Bits(11, y)
  {
    hide Bits, Shl, Pow2;
    Pow2Of11();
    ShlIsMul(x, 11);
    BitsJoin(11, 11, x, y);
  }

  lemma Position(i: nat, q: nat, r: nat)
    requires q == i * 8 / 11 && r == i * 8 % 11
    ensures r <= 10 && 8 * i == 11 * q + r && (q + 2) * 11 - (i + 1) * 8 == 14 - r
  {
  }

  lemma TwoWordsFrom(idx: seq<nat>, q: nat, y: nat, r: nat, at: nat)
    requires q < |idx| && y == (if q + 1 < |idx| then idx[q + 1] else 0) && r <= 10 && at == 11 * q + r
    ensures at + 8 <= |Padded(idx)| && Padded(idx)[at..at + 8] == (Bits(11, idx[q]) + Bits(11, y))[r..r + 8]
  {
    hide Bits, Padded;
    var lo := 11 * q;
    TwoWords(idx, q, y);
    Subslice(Padded(idx), lo, Bits(11, idx[q]) + Bits(11, y), r, 8, at);
  }

  /** The byte before the 8i-th bit has been read into b. */
  ghost predicate Packed(idx: seq<nat>, i: nat, b: byte) {
    8 * i + 8 <= |Padded(idx)| && Bits(8, b) == Padded(idx)[8 * i..8 * i + 8]
  }

  lemma PackIs(idx: seq<nat>, i: nat, q: nat, r: nat, x: nat, y: nat, b: byte)
    requires InRange(idx) && q < |idx| && r <= 10 && 8 * i == 11 * q + r
    requires x == idx[q] && y == (if q + 1 < |idx| then idx[q + 1] else 0) && b == Shr(x * WORDS + y, 14 - r) % 256
    ensures Packed(idx, i, b)
  {
    TwoWordsFrom(idx, q, y, r, 8 * i);
    Window8(x, y, r);
  }

  /** Byte i: `((x*2048 + y) >> ((i*8/11 + 2)*11 - (i + 1)*8)) & 0xff`. */
  method PackByte(idx: seq<nat>, i: nat) returns (b: byte)
    requires InRange(idx) && i * 8 / 11 < |idx|
    ensures Packed(idx, i, b)
  {
    var q, r := i * 8 / 11, i * 8 % 11;
    Position(i, q, r);
    var x, y := idx[q], if q + 1 < |idx| then idx[q + 1] else 0;
    b := Shr(x * WORDS + y, (q + 2) * 11 - (i + 1) * 8) % 256;
    PackIs(idx, i, q, r, x, y, b);
  }

  lemma Inside(s: seq<bool>, z: seq<bool>, lo: nat, hi: nat)
    requires lo <= hi <= |s|
    ensures (s + z)[lo..hi] == s[lo..hi]
  {
  }

  lemma Across(s: seq<bool>, z: seq<bool>, lo: nat, k: nat)
    requires |s| == lo + k && k <= 8 <= k + |z|
    ensures (s + z)[lo..lo + 8][..k] == s[lo..]
  {
    assert forall i :: lo <= i < lo + k ==> (s + z)[i] == s[i];
  }

  /** A byte of the entropy: its eight bits lie within the words. */
  lemma EntropyByte(idx: seq<nat>, k: nat, i: nat, b: byte)
    requires |idx| == 3 * k && i < 4 * k && Packed(idx, i, b)
    ensures Entropy(idx, k)[i] == b
  {
    var lo, s := 8 * i, Stream(11, idx);
    StreamLengths(k);
    TimesIsMul(i, 8);
    Inside(s, Bits(11, 0), lo, lo + 8);
    Power8(b);
    GroupIs(8, s, 4 * k, i, lo, lo + 8, b);
  }

  lemma Power8(b: byte)
    ensures b < Pow2(8)
  {
    Powers();
  }

  /** The byte after the entropy starts with the k bits of the checksum. */
  lemma ChecksumByte(idx: seq<nat>, k: nat, b: byte)
    requires |idx| == 3 * k && k <= 8 && Packed(idx, 4 * k, b)
    ensures |Stream(11, idx)| == 33 * k && Bits(8, b)[..k] == Stream(11, idx)[32 * k..]
  {
    StreamLengths(k);
    Across(Stream(11, idx), Bits(11, 0), 32 * k, k);
  }

  /** The loop that packs the words into bytes. */
  method Unpack(idx: seq<nat>, k: nat) returns (buf: array<byte>, b: byte)
    requires |idx| == 3 * k && k <= 8 && InRange(idx)
    ensures fresh(buf) && 4 * k <= buf.Length && buf[..4 * k] == Entropy(idx, k)
    ensures |Stream(11, idx)| == 33 * k && Bits(8, b)[..k] == Stream(11, idx)[32 * k..]
  {
    hide Entropy, Packed, Stream, Bits, Times;
    var n := (3 * k * 11 + 7) / 8;
    BufferSize(k, n);
    buf, b := new byte[n](_ => 0), 0;
    StreamLengths(k);
    ghost var e := Entropy(idx, k);
    for i := 0 to n
      invariant forall j :: 0 <= j < i && j < 4 * k ==> buf[j] == e[j]
      invariant i > 0 ==> Packed(idx, i - 1, b)
    {
      b := PackByte(idx, i);
      buf[i] := b;
      if i < 4 * k {
        EntropyByte(idx, k, i, b);
      }
    }
    if k > 0 {
      ChecksumByte(idx, k, b);
    }
  }

  lemma BufferSize(k: nat, n: nat)
    requires k <= 8 && n == (3 * k * 11 + 7) / 8
    ensures n == if k == 0 then 0 else 4 * k + 1
    ensures forall i :: 0 <= i < n ==> i * 8 / 11 < 3 * k
  {
  }

  /** `b >> (8 - k) == hash[0] >> (8 - k)` compares k bits. */
  lemma SameTopBits(b: byte, h: byte, k: nat)
    requires k <= 8
    ensures Shr(b, 8 - k) == Shr(h, 8 - k) <==> Bits(8, b)[..k] == Bits(8, h)[..k]
  {
    BitsShift(8, b, 8 - k);
    BitsShift(8, h, 8 - k);
    Powers();
    ShrBelow(b, 8 - k, k);
    ShrBelow(h, 8 - k, k);
    if Bits(8, b)[..k] == Bits(8, h)[..k] {
      BitsInjective(k, Shr(b, 8 - k), Shr(h, 8 - k));
    }
  }

  lemma {:induction false} ShrBelow(v: nat, s: nat, k: nat)
    requires v < Pow2(s + k)
    ensures Shr(v, s) < Pow2(k)
  {
    if s == 0 {
    } else {
      ShrBelow(v / 2, s - 1, k);
    }
  }

  lemma ThirdsOf(idx: seq<nat>)
    requires |idx| % 3 == 0
    ensures |idx| == 3 * (|idx| / 3) && |idx| * 4 / 3 == 4 * (|idx| / 3)
  {
  }

  /** BRBIP39Decode; `n` is dataLen. */
  method Decode(sha: Sha, wl: WordList, data: array?<byte>, n: nat, phrase: string) returns (r: nat)
    requires |wl| == WORDS && (data != null ==> n <= data.Length)
    modifies data
    ensures var d := Decoded(sha, wl, phrase);
            && (data == null || |d| <= n ==> r == |d|)
            && (data != null && |d| <= n ==> data[..r] == d && data[r..] == old(data[|Decoded(sha, wl, phrase)|..]))
            && (data != null && |d| > n ==> r == 0 && data[..] == old(data[..]))
  {
    var d := Entropize(sha, wl, phrase);
    r := |d|;
    if data != null && r <= n {
      forall k | 0 <= k < r { data[k] := d[k]; }
    }
    if data != null && r > n { r := 0; }
  }

  /** Everything up to the copy into the caller's buffer. */
  method Entropize(sha: Sha, wl: WordList, phrase: string) returns (d: seq<byte>)
    requires |wl| == WORDS
    ensures d == Decoded(sha, wl, phrase)
  {
    var idx, ended := ReadWords(wl, phrase);
    d := [];
    if |idx| % 3 == 0 && ended {
      ThirdsOf(idx);
      var k := |idx| / 3;
      EntropyBelow(idx, k);
      var buf, b := Unpack(idx, k);
      var hash := sha(buf[..|idx| * 4 / 3]);
      SameTopBits(b, hash[0], k);
      if Shr(b, 8 - k) == Shr(hash[0], 8 - k) {
        d := buf[..|idx| * 4 / 3];
      }
    }
  }
}
