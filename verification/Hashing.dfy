/**
 The block loop and the hand-written padding of BRSHA1, BRSHA224, BRSHA256, BRSHA384 and BRSHA512 (BRCrypto.c) against
 section 5.1 of FIPS 180-4. The compression function is a parameter, and so is what it leaves behind in the block
 buffer, because _BRSHA1Compress expands the message schedule in place.
 */
module Hashing {
  import opened Common
  import opened Words

  // ---------------------------------------------------------------- FIPS 180-4

  // The sizes of a hash function: the block, and where its length field starts.
  datatype Sizes = Sizes(block: nat, field: nat)

  /** 64-byte blocks with an 8-byte length, or 128 and 16. */
  predicate Known(z: Sizes) {
    z == Sizes(64, 56) || z == Sizes(128, 112)
  }

  /** How many zero bytes lie between the 80 and the length, for a message that leaves r bytes in its last block. */
  function Gap(z: Sizes, r: nat): nat
    requires Known(z) && r < z.block
  {
    if r < z.field then z.field - 1 - r else z.block + z.field - 1 - r
  }

  /** The smallest solution k of l + 1 + k = 448 mod 512 (or 896 mod 1024), in bytes. */
  lemma GapIsSmallest(z: Sizes, len: nat, k: nat)
    requires Known(z)
    ensures (len + 1 + Gap(z, len % z.block)) % z.block == z.field
    ensures (len + 1 + k) % z.block == z.field ==> Gap(z, len % z.block) <= k
  {
    if z.block == 64 {
      Gap64(len, k);
    } else {
      Gap128(len, k);
    }
  }

  lemma Gap64(len: nat, k: nat)
    ensures (len + 1 + Gap(Sizes(64, 56), len % 64)) % 64 == 56
    ensures (len + 1 + k) % 64 == 56 ==> Gap(Sizes(64, 56), len % 64) <= k
  {
  }

  lemma Gap128(len: nat, k: nat)
    ensures (len + 1 + Gap(Sizes(128, 112), len % 128)) % 128 == 112
    ensures (len + 1 + k) % 128 == 112 ==> Gap(Sizes(128, 112), len % 128) <= k
  {
  }

  /** The padded message, for a length field of the right size. */
  function Padded(z: Sizes, data: seq<byte>, field: seq<byte>): seq<byte>
    requires Known(z)
  {
    data + [0x80] + Zeros(Gap(z, |data| % z.block)) + field
  }

  /** The compression function over all blocks in order; a message of whole blocks is consumed entirely. */
  function Fold<S>(f: (S, seq<byte>) -> S, h: S, block: nat, msg: seq<byte>): S
    requires block > 0
    decreases |msg|
  {
    if |msg| < block then h else f(Fold(f, h, block, msg[..|msg| - block]), msg[|msg| - block..])
  }

  lemma FoldAppend<S>(f: (S, seq<byte>) -> S, h: S, block: nat, msg: seq<byte>, b: seq<byte>)
    requires block > 0 && |b| == block
    ensures Fold(f, h, block, msg + b) == f(Fold(f, h, block, msg), b)
  {
    var all := msg + b;
    assert all[..|all| - block] == msg && all[|all| - block..] == b;
  }

  // ---------------------------------------------------------------- the length field

  /** `x[14] = be32(len >> 29), x[15] = be32(len << 3)`. */
  function Field32(len: nat): (s: seq<byte>)
    ensures |s| == 8
  {
    ToBE(len / 0x2000_0000 % 0x1_0000_0000, 4) + ToBE(len * 8 % 0x1_0000_0000, 4)
  }

  /** `x[14] = 0, x[15] = be64(len*8)`. */
  function Field64(len: nat): (s: seq<byte>)
    ensures |s| == 16
  {
    Zeros(8) + ToBE(len * 8 % 0x1_0000_0000_0000_0000, 8)
  }

  function Drop(n: nat, k: nat): nat {
    if k == 0 then n else Drop(n / 256, k - 1)
  }

  lemma {:induction false} ToBESplit(n: nat, a: nat, b: nat)
    ensures ToBE(n, a + b) == ToBE(Drop(n, b), a) + ToBE(n, b)
  {
    if b == 0 {
    } else {
      ToBESplit(n / 256, a, b - 1);
      assert ToBE(Drop(n, b), a) + (ToBE(n / 256, b - 1) + [n % 256]) == ToBE(Drop(n, b), a) + ToBE(n / 256, b - 1) +
        [n % 256];
    }
  }

  /** The low k bytes only depend on the low k bytes. */
  lemma {:induction false} ToBELow(n: nat, m: nat, k: nat, p: nat)
    requires p == Pow256(k) && m % p == n % p
    ensures ToBE(m, k) == ToBE(n, k)
  {
    if k == 0 {
    } else {
      var q := Pow256(k - 1);
      Mod256(n, q);
      Mod256(m, q);
      ToBELow(n / 256, m / 256, k - 1, q);
    }
  }

  function Pow256(k: nat): (p: nat)
    ensures p > 0
  {
    if k == 0 then 1 else 256 * Pow256(k - 1)
  }

  lemma Mod256(n: nat, p: nat)
    requires p > 0
    ensures n % (256 * p) == 256 * ((n / 256) % p) + n % 256
  {
    var q, r := (n / 256) / p, (n / 256) % p;
    assert n / 256 == q * p + r;
    Mul3(q, 256, p);
    ModUnique(n, q, 256 * r + n % 256, 256 * p);
  }

  lemma DropFour(n: nat, k: nat)
    ensures Drop(n, k + 4) == Drop(n / 0x1_0000_0000, k)
  {
    var a := n / 256;
    var b := a / 256;
    var c := b / 256;
    assert Drop(n, k + 4) == Drop(a, k + 3) == Drop(b, k + 2) == Drop(c, k + 1) == Drop(c / 256, k);
  }

  lemma DropIs(n: nat)
    ensures Drop(n, 4) == n / 0x1_0000_0000
    ensures Drop(n, 8) == n / 0x1_0000_0000_0000_0000
  {
    DropFour(n, 0);
    DropFour(n, 4);
    DropFour(n / 0x1_0000_0000, 0);
  }

  lemma Pow256Is()
    ensures Pow256(4) == 0x1_0000_0000 && Pow256(8) == 0x1_0000_0000_0000_0000
  {
    assert Pow256(4) == 0x1_0000_0000;
  }

  lemma ModTwice(n: nat, p: nat)
    requires p > 0
    ensures n % p % p == n % p
  {
    ModUnique(n % p, 0, n % p, p);
  }

  lemma LowFour(n: nat, p: nat)
    requires p == 0x1_0000_0000
    ensures ToBE(n % p, 4) == ToBE(n, 4)
  {
    Pow256Is();
    ModTwice(n, p);
    ToBELow(n, n % p, 4, p);
  }

  /** The two 32-bit halves are the 64-bit length in bits. */
  lemma Field32Is(len: nat)
    ensures Field32(len) == ToBE(8 * len, 8)
  {
    hide ToBE, Drop, Pow256;
    var n, p, half := 8 * len, 0x1_0000_0000, len / 0x2000_0000;
    DropIs(n);
    assert n / p == half;
    ToBESplit(n, 4, 4);
    LowFour(n, p);
    LowFour(half, p);
  }

  lemma {:induction false} ToBEZero(k: nat)
    ensures ToBE(0, k) == Zeros(k)
  {
    if k == 0 {
    } else {
      ToBEZero(k - 1);
    }
  }

  /** The 128-bit length has a zero upper half exactly below 2^61 bytes. */
  lemma Field64Is(len: nat)
    requires len < 0x1_0000_0000_0000_0000
    ensures Field64(len) == ToBE(8 * len, 16) <==> len < 0x2000_0000_0000_0000
  {
    var n, p := 8 * len, 0x1_0000_0000_0000_0000;
    DropIs(n);
    Pow256Is();
    ToBESplit(n, 8, 8);
    ModTwice(n, p);
    ToBELow(n, n % p, 8, p);
    UpperHalf(n / p, Zeros(8), ToBE(n, 8), ToBE(n % p, 8));
  }

  /** For 2^61 bytes the field says 0. */
  lemma LengthTooLong()
    ensures Field64(0x2000_0000_0000_0000) == Zeros(16) &&
            Field64(0x2000_0000_0000_0000) != ToBE(8 * 0x2000_0000_0000_0000, 16)
  {
    hide ToBE;
    var len := 0x2000_0000_0000_0000;
    Field64Is(len);
    ToBEZero(8);
    assert Field64(len) == Zeros(8) + ToBE(0, 8);
  }

  lemma UpperHalf(top: nat, z: seq<byte>, low: seq<byte>, low': seq<byte>)
    requires z == Zeros(8) && low == low' && top < 8
    ensures z + low' == ToBE(top, 8) + low <==> top == 0
  {
    if top == 0 {
      ToBEZero(8);
    } else {
      var t := ToBE(top, 8);
      assert t[7] == top;
      assert (t + low)[7] == t[7] && (z + low')[7] == z[7];
    }
  }

  // ---------------------------------------------------------------- the block buffer

  // What the compression function leaves in the buffer.
  type Junk = seq<byte> -> seq<byte>

  /** `compress(buf, x)`: the new state, and the buffer scribbled over. */
  method Compress<S>(f: (S, seq<byte>) -> S, junk: Junk, h: S, x: array<byte>) returns (r: S)
    modifies x
    ensures r == f(h, old(x[..]))
  {
    r := f(h, x[..]);
    var j := junk(x[..]);
    forall k | 0 <= k < x.Length && k < |j| { x[k] := j[k]; }
  }

  /** `memcpy(x, s, |s|)`. */
  method Load(x: array<byte>, s: seq<byte>)
    requires |s| <= x.Length
    modifies x
    ensures x[..|s|] == s
  {
    forall k | 0 <= k < |s| { x[k] := s[k]; }
  }

  /** `memset` to zero from `from` on. */
  method Clear(x: array<byte>, from: nat)
    requires from <= x.Length
    modifies x
    ensures x[..from] == old(x[..from]) && x[from..] == Zeros(x.Length - from)
  {
    forall k | from <= k < x.Length { x[k] := 0; }
  }

  /** Writing the length field over the end of the buffer. */
  method SetField(x: array<byte>, from: nat, field: seq<byte>)
    requires from + |field| == x.Length
    modifies x
    ensures x[..] == old(x[..from]) + field
  {
    forall k | from <= k < x.Length { x[k] := field[k - from]; }
  }

  /** The loop over whole blocks; the bytes of the last one that did not fill it are at the start of the buffer. */
  method Blocks<S>(f: (S, seq<byte>) -> S, junk: Junk, z: Sizes, h0: S, data: seq<byte>, x: array<byte>)
    returns (h: S, i: nat)
    requires Known(z) && x.Length == z.block
    modifies x
    ensures i <= |data| < i + z.block && i % z.block == 0
    ensures h == Fold(f, h0, z.block, data[..i]) && x[..|data| - i] == data[i..]
  {
    h, i := h0, 0;
    while i < |data|
      invariant i <= |data| && i % z.block == 0
      invariant h == Fold(f, h0, z.block, data[..i])
      decreases |data| - i
    {
      var n := if i + z.block < |data| then z.block else |data| - i;
      Load(x, data[i..i + n]);
      if i + z.block > |data| {
        assert data[i..i + n] == data[i..];
        break;
      }
      assert x[..] == data[i..i + z.block];
      h := Compress(f, junk, h, x);
      assert data[..i + z.block] == data[..i] + data[i..i + z.block];
      FoldAppend(f, h0, z.block, data[..i], data[i..i + z.block]);
      ModPlusOne(i, z.block);
      i := i + z.block;
    }
  }

  lemma RemainderIs(len: nat, i: nat, b: nat)
    requires b > 0 && i <= len < i + b && i % b == 0
    ensures len % b == len - i
  {
    assert i == (i / b) * b;
    ModUnique(len, i / b, len - i, b);
  }

  /** One final block: the rest, 80, zeros and the length. */
  lemma PadOne(z: Sizes, data: seq<byte>, i: nat, field: seq<byte>)
    requires Known(z) && i <= |data| < i + z.block && i % z.block == 0 && |field| == z.block - z.field &&
             |data| - i < z.field
    ensures var r := data[i..];
            Padded(z, data, field) == data[..i] + (r + [0x80] + Zeros(z.field - 1 - |r|) + field)
  {
    RemainderIs(|data|, i, z.block);
  }

  /** Two of them: the length did not fit behind the rest. */
  lemma PadTwo(z: Sizes, data: seq<byte>, i: nat, field: seq<byte>)
    requires Known(z) && i <= |data| < i + z.block && i % z.block == 0 && |field| == z.block - z.field &&
             |data| - i >= z.field
    ensures var r := data[i..];
            Padded(z, data, field) == data[..i] + (r + [0x80] + Zeros(z.block - 1 - |r|)) + (Zeros(z.field) + field)
  {
    RemainderIs(|data|, i, z.block);
    var r := data[i..];
    assert Zeros(z.block + z.field - 1 - |r|) == Zeros(z.block - 1 - |r|) + Zeros(z.field);
  }

  /** Appending the 80 and clearing the remainder of the buffer. */
  method Mark(x: array<byte>, r: nat)
    requires r < x.Length
    modifies x
    ensures x[..] == old(x[..r]) + [0x80] + Zeros(x.Length - 1 - r)
  {
    Clear(x, r);
    x[r] := 0x80;
    assert x[r + 1..] == Zeros(x.Length - 1 - r);
    assert x[..] == x[..r] + [x[r]] + x[r + 1..];
  }

  /** The whole hash: the compression function over the blocks of the padded message, each once and in order. The buffer
      starts with anything in it. */
  method Hash<S>(f: (S, seq<byte>) -> S, junk: Junk, z: Sizes, h0: S, data: seq<byte>, field: seq<byte>, x: array<byte>)
    returns (h: S)
    requires Known(z) && x.Length == z.block && |field| == z.block - z.field
    modifies x
    ensures h == Fold(f, h0, z.block, Padded(z, data, field))
  {
    var i: nat;
    h, i := Blocks(f, junk, z, h0, data, x);
    var r := |data| - i;
    Mark(x, r);
    ghost var first := data[i..] + [0x80] + Zeros(z.block - 1 - r);
    assert x[..] == first;
    if r >= z.field {
      PadTwo(z, data, i, field);
      FoldAppend(f, h0, z.block, data[..i], first);
      FoldAppend(f, h0, z.block, data[..i] + first, Zeros(z.field) + field);
      h := Compress(f, junk, h, x);
      Clear(x, 0);
      assert x[..z.field] == Zeros(z.field);
    } else {
      PadOne(z, data, i, field);
      FoldAppend(f, h0, z.block, data[..i], data[i..] + [0x80] + Zeros(z.field - 1 - r) + field);
      assert x[..z.field] == data[i..] + [0x80] + Zeros(z.field - 1 - r);
    }
    SetField(x, z.field, field);
    h := Compress(f, junk, h, x);
  }

  // Word number i of a state.
  type WordOf<!S> = (S, nat) -> nat

  /** The message digest: the first n words of the state, high byte first. */
  function MessageDigest<S>(word: WordOf<S>, h: S, w: nat, n: nat): (md: seq<byte>)
    ensures |md| == Times(n, w)
  {
    if n == 0 then [] else MessageDigest(word, h, w, n - 1) + ToBE(word(h, n - 1), w)
  }

  /** The last loop, which swaps the bytes of each word, and the copy of the first n words. */
  method Output<S>(word: WordOf<S>, h: S, w: nat, n: nat) returns (md: seq<byte>)
    ensures md == MessageDigest(word, h, w, n)
  {
    md := [];
    for i := 0 to n
      invariant md == MessageDigest(word, h, w, i)
    {
      md := md + ToBE(word(h, i), w);
    }
  }

  /** BRSHA1, BRSHA224 and BRSHA256, of whose states n = 5, 7 and 8 words are kept: the padded message of section
      5.1.1. */
  method Hash32<S>(f: (S, seq<byte>) -> S, junk: Junk, word: WordOf<S>, n: nat, h0: S, data: seq<byte>, x: array<byte>)
    returns (md: seq<byte>)
    requires x.Length == 64
    modifies x
    ensures md == MessageDigest(word, Fold(f, h0, 64, Padded(Sizes(64, 56), data, ToBE(8 * |data|, 8))), 4, n)
  {
    Field32Is(|data|);
    var h := Hash(f, junk, Sizes(64, 56), h0, data, Field32(|data|), x);
    md := Output(word, h, 4, n);
  }

  /** BRSHA384 and BRSHA512, of whose states n = 6 and 8 words are kept: the padded message of section 5.1.2, for
      messages of less than 2^61 bytes. */
  method Hash64<S>(f: (S, seq<byte>) -> S, junk: Junk, word: WordOf<S>, n: nat, h0: S, data: seq<byte>, x: array<byte>)
    returns (md: seq<byte>)
    requires x.Length == 128 && |data| < 0x1_0000_0000_0000_0000
    modifies x
    ensures md == MessageDigest(word, Fold(f, h0, 128, Padded(Sizes(128, 112), data, Field64(|data|))), 8, n)
    ensures |data| < 0x2000_0000_0000_0000 ==>
              md == MessageDigest(word, Fold(f, h0, 128, Padded(Sizes(128, 112), data, ToBE(8 * |data|, 16))), 8, n)
  {
    Field64Is(|data|);
    var h := Hash(f, junk, Sizes(128, 112), h0, data, Field64(|data|), x);
    md := Output(word, h, 8, n);
  }

  /** A padded message is a whole number of blocks. */
  lemma PaddedLength(z: Sizes, data: seq<byte>, field: seq<byte>)
    requires Known(z) && |field| == z.block - z.field
    ensures |Padded(z, data, field)| % z.block == 0
  {
    var n := |data| + 1 + Gap(z, |data| % z.block);
    GapIsSmallest(z, |data|, 0);
    FillsUp(n, z.field, z.block);
  }

  lemma FillsUp(n: nat, field: nat, block: nat)
    requires 0 < field < block && n % block == field
    ensures (n + (block - field)) % block == 0
  {
    var q := n / block;
    assert n == q * block + field;
    assert n + (block - field) == (q + 1) * block + 0;
    ModUnique(n + (block - field), q + 1, 0, block);
  }

  // ---------------------------------------------------------------- spelled out

  /** The blocks are compressed from the first to the last. */
  lemma TwoBlocks<S>(f: (S, seq<byte>) -> S, h: S, block: nat, a: seq<byte>, b: seq<byte>)
    requires |a| == |b| == block > 0
    ensures Fold(f, h, block, a + b) == f(f(h, a), b)
  {
    assert (a + b)[..block] == a && (a + b)[block..] == b;
    assert a[..0] == [] && a[0..] == a;
    assert Fold(f, h, block, []) == h;
    assert Fold(f, h, block, a) == f(h, a);
  }

  /** Word i of the digest lies at w*i. */
  lemma {:induction false} DigestWords<S>(word: WordOf<S>, h: S, w: nat, n: nat, i: nat)
    requires i < n
    ensures Times(i, w) + w <= |MessageDigest(word, h, w, n)|
    ensures MessageDigest(word, h, w, n)[Times(i, w)..Times(i, w) + w] == ToBE(word(h, i), w)
  {
    var before := MessageDigest(word, h, w, n - 1);
    if i >= n - 1 {
    } else {
      DigestWords(word, h, w, n - 1, i);
      assert (before + ToBE(word(h, n - 1), w))[Times(i, w)..Times(i, w) + w] == before[Times(i, w)..Times(i, w) + w];
    }
  }

  /** "abc", the example of sections 5.1.1 and 5.1.2: one block that ends in the length of 24 bits. */
  lemma PaddedAbc()
    ensures Padded(Sizes(64, 56), [0x61, 0x62, 0x63], Field32(3)) ==
            [0x61, 0x62, 0x63, 0x80] + Zeros(52) + [0, 0, 0, 0, 0, 0, 0, 24]
    ensures Padded(Sizes(128, 112), [0x61, 0x62, 0x63], Field64(3)) ==
            [0x61, 0x62, 0x63, 0x80] + Zeros(108) + (Zeros(8) + [0, 0, 0, 0, 0, 0, 0, 24])
  {
    hide ToBE;
    Words24();
    var data: seq<byte> := [0x61, 0x62, 0x63];
    assert data + [0x80] == [0x61, 0x62, 0x63, 0x80];
    assert Field32(3) == [0, 0, 0, 0, 0, 0, 0, 24];
  }

  lemma OneMore(n: nat, k: nat, b: byte, s: seq<byte>)
    requires ToBE(n / 256, k) == s && b == n % 256
    ensures ToBE(n, k + 1) == s + [b]
  {
  }

  lemma Words24()
    ensures ToBE(0, 4) == [0, 0, 0, 0] && ToBE(24, 4) == [0, 0, 0, 24] && ToBE(24, 8) == [0, 0, 0, 0, 0, 0, 0, 24]
  {
    hide ToBE;
    NoBytes();
    OneMore(0, 0, 0, []);
    OneMore(0, 1, 0, [0]);
    OneMore(0, 2, 0, [0, 0]);
    OneMore(0, 3, 0, [0, 0, 0]);
    OneMore(0, 4, 0, [0, 0, 0, 0]);
    OneMore(0, 5, 0, [0, 0, 0, 0, 0]);
    OneMore(0, 6, 0, [0, 0, 0, 0, 0, 0]);
    OneMore(24, 3, 24, [0, 0, 0]);
    OneMore(24, 7, 24, [0, 0, 0, 0, 0, 0, 0]);
  }

  lemma NoBytes()
    ensures ToBE(0, 0) == []
  {
  }
}
