/**
 ChaCha20 with its hand-carried 64-bit counter, and the AEAD built on it and on Poly1305 (BRCrypto.c), against
 sections 2.4 and 2.8 of RFC 7539. The twenty rounds and the final addition that turn a state into 64 key stream
 bytes are the parameter `core`.
 */
module Aead {
  import opened Common
  import opened Words
  import Poly = Poly1305

  const TWO_32: nat := 0x1_0000_0000
  const TWO_64: nat := 0x1_0000_0000_0000_0000

  // Words 4..15 of the ChaCha state; `lo` and `hi` are s[12] and s[13].
  datatype State = State(key: seq<byte>, lo: uint32, hi: uint32, iv: seq<byte>)

  type KeyBlock = b: seq<byte> | |b| == 64 witness seq(64, _ => 0)

  type Core = State -> KeyBlock

  function Xor(a: byte, b: byte): byte {
    assert Pow2(8) == 256;
    BitXorBound(a, b, 8);
    BitXor(a, b)
  }

  lemma XorTwice(a: byte, b: byte)
    ensures Xor(Xor(a, b), b) == a
    ensures Xor(0, b) == b
  {
    BitXorTwice(a, b);
    BitXorZero(b);
  }

  // ---------------------------------------------------------------- ChaCha20

  /** Key stream block `n` for a 64-bit block counter that wraps. */
  function KeyBlockAt(core: Core, key: seq<byte>, iv: seq<byte>, counter: nat, n: nat): KeyBlock {
    var c := (counter + n) % TWO_64;
    core(State(key, c % TWO_32, c / TWO_32, iv))
  }

  function KeyByte(core: Core, key: seq<byte>, iv: seq<byte>, counter: nat, i: nat): byte {
    KeyBlockAt(core, key, iv, counter, i / 64)[i % 64]
  }

  function Crypt(core: Core, key: seq<byte>, iv: seq<byte>, counter: nat, data: seq<byte>): (r: seq<byte>)
    ensures |r| == |data|
  {
    seq(|data|, i requires 0 <= i < |data| => Xor(data[i], KeyByte(core, key, iv, counter, i)))
  }

  /** `s[12]++; if (s[12] == 0) s[13]++;` counts in 64 bits. */
  method NextCounter(lo: uint32, hi: uint32, ghost c: nat) returns (lo': uint32, hi': uint32)
    requires lo == c % TWO_64 % TWO_32 && hi == c % TWO_64 / TWO_32
    ensures lo' == (c + 1) % TWO_64 % TWO_32 && hi' == (c + 1) % TWO_64 / TWO_32
  {
    lo' := (lo + 1) % TWO_32;
    hi' := hi;
    if lo' == 0 { hi' := (hi + 1) % TWO_32; }
    CountUp(c);
  }

  /** The next 64 bytes of key stream. */
  method NextKeyBlock(core: Core, key: seq<byte>, iv: seq<byte>, lo: uint32, hi: uint32, ghost counter: nat,
                      ghost n: nat)
    returns (b: KeyBlock, lo': uint32, hi': uint32)
    requires lo == (counter + n) % TWO_64 % TWO_32 && hi == (counter + n) % TWO_64 / TWO_32
    ensures b == KeyBlockAt(core, key, iv, counter, n)
    ensures lo' == (counter + n + 1) % TWO_64 % TWO_32 && hi' == (counter + n + 1) % TWO_64 / TWO_32
  {
    b := core(State(key, lo, hi, iv));
    lo', hi' := NextCounter(lo, hi, counter + n);
  }

  lemma CountUp(c: nat)
    ensures (c + 1) % TWO_64 == if c % TWO_64 == TWO_64 - 1 then 0 else c % TWO_64 + 1
  {
  }

  /** BRChacha20; `out` may be `data` itself. */
  method Chacha20(core: Core, out: array<byte>, key: seq<byte>, iv: seq<byte>, data: array<byte>, len: nat,
                  counter: nat)
    requires len <= data.Length && len <= out.Length && counter < TWO_64
    modifies out
    ensures out[..len] == Crypt(core, key, iv, counter, old(data[..len]))
    ensures out[len..] == old(out[len..])
  {
    hide Xor, KeyBlockAt;
    var lo, hi := counter % TWO_32, counter / TWO_32;
    var b: KeyBlock := seq(64, _ => 0);
    ghost var n, d := 0, data[..len];
    var i := 0;
    while i < len
      invariant 0 <= i <= len && n == (if i % 64 == 0 then i / 64 else i / 64 + 1)
      invariant lo == (counter + n) % TWO_64 % TWO_32 && hi == (counter + n) % TWO_64 / TWO_32
      invariant i % 64 != 0 ==> b == KeyBlockAt(core, key, iv, counter, i / 64)
      invariant forall k | 0 <= k < i :: out[k] == Xor(d[k], KeyByte(core, key, iv, counter, k))
      invariant forall k | i <= k < len :: data[k] == d[k]
      invariant out[len..] == old(out[len..])
    {
      if i % 64 == 0 {
        b, lo, hi := NextKeyBlock(core, key, iv, lo, hi, counter, n);
        n := n + 1;
      }
      assert b == KeyBlockAt(core, key, iv, counter, i / 64);
      out[i] := Xor(data[i], b[i % 64]);
      i := i + 1;
    }
  }

  // ---------------------------------------------------------------- RFC 7539, section 2.8

  // `dataLen/64 >= UINT32_MAX` is refused.
  predicate Short(data: seq<byte>) {
    |data| / 64 < 0xffff_ffff
  }

  /** Fewer than 2^38 - 64 bytes, so that the RFC's block counter fits in 32 bits. */
  lemma ShortIs(data: seq<byte>)
    ensures Short(data) <==> |data| < 0x40_0000_0000 - 64
    ensures Short(data) && data != [] ==> 1 + (|data| - 1) / 64 < 0x1_0000_0000
  {
  }

  /** The 32-bit block counter of the RFC occupies one word; the nonce fills the next three. */
  function RfcCrypt(core: Core, key: seq<byte>, nonce: seq<byte>, data: seq<byte>): (r: seq<byte>)
    requires |nonce| == 12 && Short(data)
    ensures |r| == |data|
  {
    seq(|data|, i requires 0 <= i < |data| =>
      Xor(data[i], core(State(key, 1 + i / 64, LE32(nonce[..4]), nonce[4..]))[i % 64]))
  }

  function OneTimeKey(core: Core, key: seq<byte>, nonce: seq<byte>): (k: seq<byte>)
    requires |nonce| == 12
    ensures |k| == 32
  {
    core(State(key, 0, LE32(nonce[..4]), nonce[4..]))[..32]
  }

  function Pad16(x: seq<byte>): (z: seq<byte>)
    ensures (|x| + |z|) % 16 == 0
  {
    Zeros((16 - |x| % 16) % 16)
  }

  function Lengths(ad: seq<byte>, c: seq<byte>): seq<byte> {
    ToLE(|ad|, 8) + ToLE(|c|, 8)
  }

  function MacData(ad: seq<byte>, c: seq<byte>): seq<byte> {
    ad + Pad16(ad) + (c + Pad16(c)) + Lengths(ad, c)
  }

  /** n rounded up to a multiple of 16. */
  function Up16(n: nat): nat {
    (n + 15) / 16 * 16
  }

  /** Additional data and ciphertext, each up to a multiple of 16 with zeros, then their lengths in eight bytes each,
      low byte first. */
  lemma MacDataLayout(ad: seq<byte>, c: seq<byte>)
    requires |ad| < TWO_64 && |c| < TWO_64
    ensures var d, n, m := MacData(ad, c), Up16(|ad|), Up16(|c|);
            && |d| == n + m + 16
            && d[..|ad|] == ad && (forall i :: |ad| <= i < n ==> d[i] == 0)
            && d[n..n + |c|] == c && (forall i :: n + |c| <= i < n + m ==> d[i] == 0)
            && LE(d[n + m..n + m + 8]) == |ad| && LE(d[n + m + 8..]) == |c|
  {
    hide ToLE, LE;
    var d, n, m := MacData(ad, c), Up16(|ad|), Up16(|c|);
    RoundUp(|ad|);
    RoundUp(|c|);
    EightBack(|ad|);
    EightBack(|c|);
    FourPlaces(ad + Pad16(ad), c + Pad16(c), ToLE(|ad|, 8), ToLE(|c|, 8), d);
    assert d[..n] == ad + Pad16(ad) && d[n..n + m] == c + Pad16(c);
    forall i | |ad| <= i < n ensures d[i] == 0 {
      assert d[i] == d[..n][i];
    }
    forall i | n + |c| <= i < n + m ensures d[i] == 0 {
      assert d[i] == d[n..n + m][i - n];
    }
    assert d[..|ad|] == d[..n][..|ad|] && d[n..n + |c|] == d[n..n + m][..|c|];
  }

  lemma RoundUp(n: nat)
    ensures n + (16 - n % 16) % 16 == Up16(n)
  {
  }

  lemma EightBack(n: nat)
    requires n < TWO_64
    ensures LE(ToLE(n, 8)) == n
  {
    Powers();
    LEToLE(n, 8);
  }

  lemma FourPlaces(a: seq<byte>, b: seq<byte>, x: seq<byte>, y: seq<byte>, d: seq<byte>)
    requires d == a + b + (x + y)
    ensures d[..|a|] == a && d[|a|..|a| + |b|] == b && d[|a| + |b|..|a| + |b| + |x|] == x && d[|a| + |b| + |x|..] == y
  {
  }

  function Mac(core: Core, key: seq<byte>, nonce: seq<byte>, ad: seq<byte>, c: seq<byte>): nat
    requires |nonce| == 12
  {
    Poly.Mac(OneTimeKey(core, key, nonce), MacData(ad, c))
  }

  function Seal(core: Core, key: seq<byte>, nonce: seq<byte>, data: seq<byte>, ad: seq<byte>): seq<byte>
    requires |nonce| == 12 && Short(data)
  {
    var c := RfcCrypt(core, key, nonce, data);
    c + ToLE(Mac(core, key, nonce, ad, c), 16)
  }

  /** A seal in bytes: ciphertext from key stream block 1 on, then the tag under the first half of block 0. */
  lemma SealBytes(core: Core, key: seq<byte>, nonce: seq<byte>, data: seq<byte>, ad: seq<byte>)
    requires |nonce| == 12 && Short(data)
    ensures var s, n, first := Seal(core, key, nonce, data, ad), |data|, LE32(nonce[..4]);
            && |s| == n + 16
            && (forall i :: 0 <= i < n ==>
                  s[i] == Xor(data[i], core(State(key, 1 + i / 64, first, nonce[4..]))[i % 64]))
            && LE(s[n..]) == Poly.Mac(core(State(key, 0, first, nonce[4..]))[..32], MacData(ad, s[..n]))
  {
    hide Xor, MacData, ToLE, LE, LE32;
    var c := RfcCrypt(core, key, nonce, data);
    var tag := Mac(core, key, nonce, ad, c);
    var s := Seal(core, key, nonce, data, ad);
    assert s[..|data|] == c && s[|data|..] == ToLE(tag, 16);
    Powers();
    LEToLE(tag, 16);
  }

  function Open(core: Core, key: seq<byte>, nonce: seq<byte>, data: seq<byte>, ad: seq<byte>): Option<seq<byte>>
    requires |nonce| == 12
  {
    if |data| < 16 || !Short(data[..|data| - 16]) then None
    else
      var c, tag := data[..|data| - 16], data[|data| - 16..];
      if LE(tag) == Mac(core, key, nonce, ad, c) then Some(RfcCrypt(core, key, nonce, c)) else None
  }

  lemma RfcCryptTwice(core: Core, key: seq<byte>, nonce: seq<byte>, data: seq<byte>)
    requires |nonce| == 12 && Short(data)
    ensures RfcCrypt(core, key, nonce, RfcCrypt(core, key, nonce, data)) == data
  {
    var c := RfcCrypt(core, key, nonce, data);
    forall i | 0 <= i < |data| ensures RfcCrypt(core, key, nonce, c)[i] == data[i] {
      XorTwice(data[i], core(State(key, 1 + i / 64, LE32(nonce[..4]), nonce[4..]))[i % 64]);
    }
  }

  lemma TagBound(key: seq<byte>, data: seq<byte>)
    requires |key| == 32
    ensures Poly.Mac(key, data) < Pow2(128)
  {
    Powers();
  }

  /** Decryption undoes encryption, whatever the key, nonce, associated data and core. */
  lemma OpenSeal(core: Core, key: seq<byte>, nonce: seq<byte>, data: seq<byte>, ad: seq<byte>)
    requires |nonce| == 12 && Short(data)
    ensures Open(core, key, nonce, Seal(core, key, nonce, data, ad), ad) == Some(data)
  {
    var c := RfcCrypt(core, key, nonce, data);
    var mac := Mac(core, key, nonce, ad, c);
    var sealed := Seal(core, key, nonce, data, ad);
    assert sealed[..|data|] == c && sealed[|data|..] == ToLE(mac, 16);
    TagBound(OneTimeKey(core, key, nonce), MacData(ad, c));
    LEToLE(mac, 16);
    RfcCryptTwice(core, key, nonce, data);
  }

  lemma SealOfOpened(core: Core, key: seq<byte>, nonce: seq<byte>, data: seq<byte>, ad: seq<byte>, c: seq<byte>,
                     p: seq<byte>)
    requires |nonce| == 12 && |data| >= 16 && c == data[..|data| - 16] && Short(c) && p == RfcCrypt(core, key, nonce, c)
    requires LE(data[|data| - 16..]) == Mac(core, key, nonce, ad, c)
    ensures Short(p) && Seal(core, key, nonce, p, ad) == data
  {
    hide RfcCrypt, Mac, LE, ToLE;
    RfcCryptTwice(core, key, nonce, c);
    ToLELE(data[|data| - 16..]);
    assert data == c + data[|data| - 16..];
  }

  /** A box opens exactly when it is the seal of what it opens to: no other 128 tag bits are accepted. */
  lemma OpenOnlySealed(core: Core, key: seq<byte>, nonce: seq<byte>, data: seq<byte>, ad: seq<byte>)
    requires |nonce| == 12
    ensures Open(core, key, nonce, data, ad).Some? <==>
            exists p | Short(p) :: Seal(core, key, nonce, p, ad) == data
  {
    hide RfcCrypt, Mac, LE, Seal;
    if Open(core, key, nonce, data, ad).Some? {
      var c := data[..|data| - 16];
      SealOfOpened(core, key, nonce, data, ad, c, RfcCrypt(core, key, nonce, c));
    } else if exists p | Short(p) :: Seal(core, key, nonce, p, ad) == data {
      var p :| Short(p) && Seal(core, key, nonce, p, ad) == data;
      OpenSeal(core, key, nonce, p, ad);
    }
  }

  // ---------------------------------------------------------------- the C functions

  /** `counter` with the first nonce word in its upper half. */
  function Counter(nonce: seq<byte>): (c: nat)
    requires |nonce| == 12
    ensures c + 1 < TWO_64 && c % TWO_32 == 0
  {
    LE32(nonce[..4]) * TWO_32
  }

  lemma CounterWords(nonce: seq<byte>, n: nat)
    requires |nonce| == 12 && n < TWO_32
    ensures (Counter(nonce) + n) % TWO_64 % TWO_32 == n
    ensures (Counter(nonce) + n) % TWO_64 / TWO_32 == LE32(nonce[..4])
  {
    WordPair(LE32(nonce[..4]), n);
  }

  lemma WordPair(hi: uint32, lo: uint32)
    ensures (hi * TWO_32 + lo) % TWO_64 % TWO_32 == lo && (hi * TWO_32 + lo) % TWO_64 / TWO_32 == hi
  {
  }

  /** Within the length limit the counter never carries into the nonce word. */
  lemma CryptIsRfc(core: Core, key: seq<byte>, nonce: seq<byte>, data: seq<byte>)
    requires |nonce| == 12 && Short(data)
    ensures Crypt(core, key, nonce[4..], Counter(nonce) + 1, data) == RfcCrypt(core, key, nonce, data)
  {
    forall i | 0 <= i < |data|
      ensures Crypt(core, key, nonce[4..], Counter(nonce) + 1, data)[i] == RfcCrypt(core, key, nonce, data)[i]
    {
      CounterWords(nonce, 1 + i / 64);
    }
  }

  /** The one-time key, in place over 32 zeros. */
  method MacKey(core: Core, key: seq<byte>, nonce: seq<byte>) returns (macKey: seq<byte>)
    requires |nonce| == 12
    ensures macKey == OneTimeKey(core, key, nonce)
  {
    var k := new byte[32](_ => 0);
    assert k[..32] == Zeros(32);
    Chacha20(core, k, key, nonce[4..], k, 32, Counter(nonce));
    macKey := k[..];
    assert k[..32] == k[..];
    KeyFromZeros(core, key, nonce);
  }

  lemma KeyFromZeros(core: Core, key: seq<byte>, nonce: seq<byte>)
    requires |nonce| == 12
    ensures Crypt(core, key, nonce[4..], Counter(nonce), Zeros(32)) == OneTimeKey(core, key, nonce)
  {
    CounterWords(nonce, 0);
    forall i | 0 <= i < 32
      ensures Crypt(core, key, nonce[4..], Counter(nonce), Zeros(32))[i] == OneTimeKey(core, key, nonce)[i]
    {
      XorTwice(0, KeyByte(core, key, nonce[4..], Counter(nonce), i));
    }
  }

  lemma SplitPadded(x: seq<byte>)
    ensures var n := |x| / 16 * 16;
            |x[..n]| % 16 == 0 && x + Pad16(x) == x[..n] + (if |x| % 16 == 0 then [] else x[n..] + Zeros(16 - |x| % 16))
  {
  }

  /** The aligned part of `x`, then its tail in a zeroed 16-byte pad; `acc` is the accumulator, modulo 2^130 - 5. */
  method FeedPadded(h: array<uint32>, macKey: seq<byte>, x: seq<byte>, ghost acc: nat) returns (ghost acc': nat)
    requires h.Length == 5 && |macKey| == 32 && Poly.State(h).Reduced() && Poly.State(h).Value() % Poly.P == acc
    modifies h
    ensures Poly.State(h).Reduced() && Poly.State(h).Value() % Poly.P == acc'
    ensures acc' == Poly.Accumulate(acc, Poly.R(macKey), x + Pad16(x))
  {
    var n := |x| / 16 * 16;
    SplitPadded(x);
    Poly.Compress(h, macKey, x[..n], false);
    if |x| % 16 != 0 {
      var pad := x[n..] + Zeros(16 - |x| % 16);
      Poly.Compress(h, macKey, pad, false);
      Poly.AccumulateConcat(acc, Poly.R(macKey), x[..n], pad);
    } else {
      assert x[..n] + [] == x[..n];
    }
    acc' := Poly.State(h).Value() % Poly.P;
  }

  /** The last call; the tag words are then in h[0..3]. */
  method FeedLast(h: array<uint32>, macKey: seq<byte>, x: seq<byte>, ghost acc: nat) returns (tag: Poly.Quad)
    requires h.Length == 5 && |macKey| == 32 && Poly.State(h).Reduced() && Poly.State(h).Value() % Poly.P == acc
    modifies h
    ensures tag.Value() == (Poly.Accumulate(acc, Poly.R(macKey), x) + LE(macKey[16..])) % Poly.TWO_128
  {
    Poly.Compress(h, macKey, x, true);
    tag := Poly.Quad(h[0], h[1], h[2], h[3]);
  }

  lemma MacOfPieces(key: seq<byte>, ad: seq<byte>, c: seq<byte>, acc1: nat, acc2: nat, tag: nat)
    requires |key| == 32
    requires acc1 == Poly.Accumulate(0, Poly.R(key), ad + Pad16(ad))
    requires acc2 == Poly.Accumulate(acc1, Poly.R(key), c + Pad16(c))
    requires tag == (Poly.Accumulate(acc2, Poly.R(key), Lengths(ad, c)) + LE(key[16..])) % Poly.TWO_128
    ensures tag == Poly.Mac(key, MacData(ad, c))
  {
    hide Pad16, Lengths, Poly.Accumulate, Poly.R, LE;
    var acc := ThreePieces(Poly.R(key), ad + Pad16(ad), c + Pad16(c), Lengths(ad, c), acc1, acc2);
  }

  lemma ThreePieces(r: nat, a: seq<byte>, d: seq<byte>, l: seq<byte>, acc1: nat, acc2: nat) returns (acc: nat)
    requires |a| % 16 == 0 && |d| % 16 == 0
    requires acc1 == Poly.Accumulate(0, r, a) && acc2 == Poly.Accumulate(acc1, r, d)
    ensures acc == Poly.Accumulate(acc2, r, l) == Poly.Accumulate(0, r, a + d + l)
  {
    acc := Poly.Accumulate(acc2, r, l);
    AlignedSum(|a|, |d|);
    TwoPieces(0, r, a, d, a + d, acc1, acc2);
    TwoPieces(0, r, a + d, l, a + d + l, acc2, acc);
  }

  lemma AlignedSum(x: nat, y: nat)
    requires x % 16 == 0 && y % 16 == 0
    ensures (x + y) % 16 == 0
  {
  }

  lemma TwoPieces(acc: nat, r: nat, a: seq<byte>, b: seq<byte>, ab: seq<byte>, acc1: nat, acc2: nat)
    requires |a| % 16 == 0 && ab == a + b && acc1 == Poly.Accumulate(acc, r, a) && acc2 == Poly.Accumulate(acc1, r, b)
    ensures acc2 == Poly.Accumulate(acc, r, ab)
  {
    Poly.AccumulateConcat(acc, r, a, b);
  }

  /** The tag over ad, pad, ciphertext, pad and both lengths, assembled by up to five calls. */
  method Tag(macKey: seq<byte>, ad: seq<byte>, c: seq<byte>) returns (tag: Poly.Quad)
    requires |macKey| == 32
    ensures tag.Value() == Poly.Mac(macKey, MacData(ad, c))
  {
    hide Pad16, Lengths, Poly.Accumulate, Poly.R, LE, MacData;
    var h := Poly.NewState();
    ghost var acc1 := FeedPadded(h, macKey, ad, 0);
    ghost var acc2 := FeedPadded(h, macKey, c, acc1);
    assert acc1 == Poly.Accumulate(0, Poly.R(macKey), ad + Pad16(ad));
    tag := FeedLast(h, macKey, Lengths(ad, c), acc2);
    MacOfPieces(macKey, ad, c, acc1, acc2, tag.Value());
  }

  /** The comparison of all four tag words. */
  method TagMatches(macKey: seq<byte>, ad: seq<byte>, c: seq<byte>, tag: seq<byte>) returns (ok: bool)
    requires |macKey| == 32 && |tag| == 16
    ensures ok <==> LE(tag) == Poly.Mac(macKey, MacData(ad, c))
  {
    var h := Tag(macKey, ad, c);
    var mac := Poly.Load(tag);
    SameTag(tag, h);
    ok := !(mac.t0 != h.t0 || mac.t1 != h.t1 || mac.t2 != h.t2 || mac.t3 != h.t3);
  }

  lemma TagBytes(tag: Poly.Quad, mac: nat)
    requires tag.Value() == mac
    ensures Poly.QuadBytes(tag) == ToLE(mac, 16)
  {
    Poly.QuadBytesValue(tag);
    ToLELE(Poly.QuadBytes(tag));
  }

  /** BRChacha20Poly1305AEADEncrypt; `out` may be `data` itself. */
  method Encrypt(core: Core, out: array?<byte>, outLen: nat, key: seq<byte>, nonce: seq<byte>,
                 data: array<byte>, ad: seq<byte>) returns (n: nat)
    requires |nonce| == 12 && (out != null ==> outLen <= out.Length)
    modifies out
    ensures out == null ==> n == data.Length + 16
    ensures out != null && (outLen < data.Length + 16 || !Short(old(data[..]))) ==> n == 0 && out[..] == old(out[..])
    ensures out != null && outLen >= data.Length + 16 && Short(old(data[..])) ==>
              && n == data.Length + 16 && out[..n] == Seal(core, key, nonce, old(data[..]), ad) &&
                 out[n..] == old(out[n..])
  {
    if out == null { return data.Length + 16; }
    if outLen < data.Length + 16 || data.Length / 64 >= 0xffff_ffff { return 0; }
    SealInto(core, out, key, nonce, data, data.Length, ad);
    assert data[..data.Length] == data[..] && old(data[..data.Length]) == old(data[..]);
    n := data.Length + 16;
  }

  method SealInto(core: Core, out: array<byte>, key: seq<byte>, nonce: seq<byte>, data: array<byte>, len: nat,
                  ad: seq<byte>)
    requires |nonce| == 12 && len <= data.Length && len + 16 <= out.Length && Short(data[..len])
    modifies out
    ensures out[..len + 16] == Seal(core, key, nonce, old(data[..len]), ad)
    ensures out[len + 16..] == old(out[len + 16..])
  {
    hide Crypt, RfcCrypt, OneTimeKey, MacData, Poly.Mac, ToLE;
    var macKey := MacKey(core, key, nonce);
    CryptIsRfc(core, key, nonce, data[..len]);
    Chacha20(core, out, key, nonce[4..], data, len, Counter(nonce) + 1);
    ghost var rest := out[len..];
    assert rest[16..] == out[len + 16..] && rest[16..] == old(out[len..])[16..] == old(out[len + 16..]);
    var c := out[..len];
    var h := Tag(macKey, ad, c);
    TagBytes(h, Mac(core, key, nonce, ad, c));
    CopyInto(out, len, Poly.QuadBytes(h));
  }

  /** `memcpy(out + off, bytes, 16)`. */
  method CopyInto(out: array<byte>, off: nat, bytes: seq<byte>)
    requires off + |bytes| <= out.Length
    modifies out
    ensures out[..off + |bytes|] == old(out[..off]) + bytes
    ensures out[off + |bytes|..] == old(out[off + |bytes|..])
  {
    forall k | off <= k < off + |bytes| { out[k] := bytes[k - off]; }
  }

  lemma SameTag(x: seq<byte>, tag: Poly.Quad)
    requires |x| == 16
    ensures Poly.Load(x) == tag <==> LE(x) == tag.Value()
  {
    if LE(x) == tag.Value() {
      Poly.QuadBytesValue(tag);
      ToLELE(Poly.QuadBytes(tag));
      ToLELE(x);
      Poly.QuadBytesLoad(tag);
    }
  }

  /** `outLen + 16` as a size_t. */
  function RoomFor(outLen: nat): (r: nat)
    ensures r <= outLen + 16
  {
    if outLen + 16 < TWO_64 then outLen + 16 else (outLen + 16) % TWO_64
  }

  lemma RoomWraps(outLen: nat)
    requires outLen < 0x1_0000_0000_0000_0000
    ensures RoomFor(outLen) == outLen + 16 || RoomFor(outLen) == outLen + 16 - 0x1_0000_0000_0000_0000
    ensures RoomFor(outLen) < 0x1_0000_0000_0000_0000
  {
  }

  /** BRChacha20Poly1305AEADDecrypt; `out` may be `data` itself, and `outLen + 16` wraps like the size_t it is. */
  method Decrypt(core: Core, out: array?<byte>, outLen: nat, key: seq<byte>, nonce: seq<byte>,
                 data: array<byte>, ad: seq<byte>) returns (n: nat)
    requires |nonce| == 12 && outLen < TWO_64 && data.Length < TWO_64 && (out != null ==> outLen <= out.Length)
    modifies out
    ensures out == null ==> n == if data.Length < 16 then 0 else data.Length - 16
    ensures out != null ==>
              var p := Open(core, key, nonce, old(data[..]), ad);
              if p.Some? && RoomFor(outLen) >= data.Length then
                n == data.Length - 16 && out[..n] == p.value && out[n..] == old(out[n..])
              else n == 0 && out[..] == old(out[..])
  {
    hide RfcCrypt, LE, MacData, OneTimeKey, Crypt;
    if out == null { return if data.Length < 16 then 0 else data.Length - 16; }
    if data.Length < 16 || (data.Length - 16) / 64 >= 0xffff_ffff || RoomFor(outLen) < data.Length { return 0; }
    n := data.Length - 16;
    ghost var all := data[..];
    assert data[..n] == all[..n] && data[n..] == all[n..];
    var macKey := MacKey(core, key, nonce);
    var ok := TagMatches(macKey, ad, data[..n], data[n..]);
    if !ok { n := 0; }
    CryptIsRfc(core, key, nonce, data[..n]);
    Chacha20(core, out, key, nonce[4..], data, n, Counter(nonce) + 1);
    assert n == 0 ==> out[0..] == out[..] && old(out[0..]) == old(out[..]);
  }
}
