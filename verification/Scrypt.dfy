/**
 The mixing loops of BRScrypt (BRCrypto.c) against scryptBlockMix and scryptROMix of RFC 7914, sections 4 and 5. The
 Salsa20/8 core is a parameter. Arrays hold 64-bit little-endian words, eight to a 64-byte block.
 */
module Scrypt {
  import opened Common
  import opened Words

  type Block = b: seq<uint64> | |b| == 8 witness seq(8, _ => 0)

  type Core = Block -> Block

  function XorWord(a: uint64, b: uint64): uint64 {
    Powers();
    BitXorBound(a, b, 64);
    BitXor(a, b)
  }

  function XorBlock(a: Block, b: Block): (c: Block)
    ensures forall j :: 0 <= j < 8 ==> c[j] == XorWord(a[j], b[j])
  {
    seq(8, j requires 0 <= j < 8 => XorWord(a[j], b[j]))
  }

  // ---------------------------------------------------------------- RFC 7914

  /** X after k steps of scryptBlockMix; step k outputs Y[k] = X(k + 1). */
  function X(salsa: Core, b: seq<Block>, k: nat): Block
    requires k <= |b| && b != []
  {
    if k == 0 then b[|b| - 1] else salsa(XorBlock(X(salsa, b, k - 1), b[k - 1]))
  }

  /** Block p of the output: Y[0], Y[2], .., Y[2r-2], then Y[1], Y[3], .., Y[2r-1]. */
  function Out(salsa: Core, b: seq<Block>, r: nat, p: nat): Block
    requires |b| == 2 * r && p < 2 * r
  {
    if p < r then X(salsa, b, 2 * p + 1) else X(salsa, b, 2 * (p - r) + 2)
  }

  /** scryptBlockMix. */
  function BlockMix(salsa: Core, b: seq<Block>, r: nat): (c: seq<Block>)
    requires |b| == 2 * r && r > 0
    ensures |c| == 2 * r
  {
    seq(2 * r, p requires 0 <= p < 2 * r => Out(salsa, b, r, p))
  }

  /** V[i]. */
  function V(salsa: Core, b: seq<Block>, r: nat, i: nat): (c: seq<Block>)
    requires |b| == 2 * r && r > 0
    ensures |c| == 2 * r
  {
    if i == 0 then b else BlockMix(salsa, V(salsa, b, r, i - 1), r)
  }

  function XorAll(a: seq<Block>, b: seq<Block>): (c: seq<Block>)
    requires |a| == |b|
    ensures |c| == |a| && forall k :: 0 <= k < |a| ==> c[k] == XorBlock(a[k], b[k])
  {
    seq(|a|, k requires 0 <= k < |a| => XorBlock(a[k], b[k]))
  }

  /** A block as a little-endian integer. */
  function Integer(b: seq<uint64>): nat {
    if b == [] then 0 else b[0] + 0x1_0000_0000_0000_0000 * Integer(b[1..])
  }

  function Integerify(b: seq<Block>): nat
    requires b != []
  {
    Integer(b[|b| - 1])
  }

  /** One step of the second loop of scryptROMix. */
  function Turn(salsa: Core, b: seq<Block>, r: nat, n: nat, x: seq<Block>): (c: seq<Block>)
    requires |b| == |x| == 2 * r && r > 0 && n > 0
    ensures |c| == 2 * r
  {
    BlockMix(salsa, XorAll(x, V(salsa, b, r, Integerify(x) % n)), r)
  }

  type Mixer = seq<Block> -> seq<Block>

  /** That step as a function of X alone. */
  function Turner(salsa: Core, b: seq<Block>, r: nat, n: nat): Mixer
    requires |b| == 2 * r && r > 0 && n > 0
  {
    (x: seq<Block>) => if |x| == 2 * r then Turn(salsa, b, r, n, x) else x
  }

  function Iterate(f: Mixer, x: seq<Block>, i: nat): seq<Block> {
    if i == 0 then x else f(Iterate(f, x, i - 1))
  }

  /** scryptROMix: n steps from V[n], which is X after the first loop. */
  function ROMix(salsa: Core, b: seq<Block>, r: nat, n: nat): seq<Block>
    requires |b| == 2 * r && r > 0 && n > 0
  {
    Iterate(Turner(salsa, b, r, n), V(salsa, b, r, n), n)
  }

  // ---------------------------------------------------------------- flat arrays

  function Blocks(s: seq<uint64>): (b: seq<Block>)
    ensures |b| == |s| / 8
  {
    seq(|s| / 8, k requires 0 <= k < |s| / 8 => s[8 * k..8 * k + 8])
  }

  /** `for (j = 0; j < 8; j++) b[j] ^= src[off + j]`. */
  method XorInto(b: array<uint64>, src: array<uint64>, off: nat)
    requires b.Length == 8 && off + 8 <= src.Length && b != src
    modifies b
    ensures b[..] == XorBlock(old(b[..]), src[off..off + 8])
  {
    for j := 0 to 8
      invariant forall k :: 0 <= k < 8 ==> b[k] == if k < j then XorWord(old(b[k]), src[off + k]) else old(b[k])
    {
      b[j] := XorWord(b[j], src[off + j]);
    }
  }

  method Salsa(salsa: Core, b: array<uint64>)
    requires b.Length == 8
    modifies b
    ensures b[..] == salsa(old(b[..]))
  {
    var c := salsa(b[..]);
    forall j | 0 <= j < 8 { b[j] := c[j]; }
  }

  /** `memcpy(&dest[off], s, ...)`. */
  method Store(dest: array<uint64>, off: nat, s: seq<uint64>)
    requires off + |s| <= dest.Length
    modifies dest
    ensures dest[off..off + |s|] == s
    ensures forall k :: 0 <= k < dest.Length && !(off <= k < off + |s|) ==> dest[k] == old(dest[k])
  {
    forall k | off <= k < off + |s| { dest[k] := s[k - off]; }
  }

  /** Block q of an array. */
  function Chunk(a: array<uint64>, q: nat): Block
    requires 8 * q + 8 <= a.Length
    reads a
  {
    a[8 * q..8 * q + 8]
  }

  lemma BlocksAre(a: array<uint64>, q: nat)
    requires 8 * q + 8 <= a.Length
    ensures Blocks(a[..])[q] == Chunk(a, q)
  {
  }

  /** `memcpy(&dest[off], b, 64)` at a block boundary. */
  method StoreBlock(dest: array<uint64>, off: nat, ghost q: nat, b: Block)
    requires off == 8 * q && off + 8 <= dest.Length
    modifies dest
    ensures Chunk(dest, q) == b
    ensures forall p: nat :: p != q && 8 * p + 8 <= dest.Length ==> Chunk(dest, p) == old(Chunk(dest, p))
  {
    Store(dest, off, b);
  }

  /** Half of the loop body: one step of scryptBlockMix on block k, its output stored as block q. */
  method MixStep(salsa: Core, dest: array<uint64>, src: array<uint64>, b: array<uint64>, from: nat, to: nat,
                 ghost s: seq<Block>, ghost k: nat, ghost q: nat)
    requires b.Length == 8 && b != src && b != dest && dest != src && from + 8 <= src.Length && to + 8 <= dest.Length
    requires k < |s| && b[..] == X(salsa, s, k) && from == 8 * k && Chunk(src, k) == s[k] && to == 8 * q
    modifies dest, b
    ensures b[..] == X(salsa, s, k + 1) && Chunk(dest, q) == X(salsa, s, k + 1)
    ensures forall p: nat :: p != q && 8 * p + 8 <= dest.Length ==> Chunk(dest, p) == old(Chunk(dest, p))
  {
    XorInto(b, src, from);
    Salsa(salsa, b);
    assert b[..] == X(salsa, s, k + 1);
    StoreBlock(dest, to, q, b[..]);
  }

  lemma OutsAre(salsa: Core, s: seq<Block>, r: nat, i: nat, t: nat, q: nat)
    requires |s| == 2 * r && i == 2 * t && t < r && q == r + t
    ensures Out(salsa, s, r, t) == X(salsa, s, i + 1) && Out(salsa, s, r, q) == X(salsa, s, i + 2)
  {
  }

  /** The loop body: one even and one odd step. */
  method MixPair(salsa: Core, dest: array<uint64>, src: array<uint64>, b: array<uint64>, r: nat, i: nat,
                 ghost s: seq<Block>, ghost t: nat, ghost q: nat)
    requires src.Length == dest.Length == 16 * r && b.Length == 8 && dest != src && b != src && b != dest
    requires s == Blocks(src[..]) && i == 2 * t && t < r && q == r + t && b[..] == X(salsa, s, i)
    modifies dest, b
    ensures b[..] == X(salsa, s, i + 2)
    ensures Chunk(dest, t) == Out(salsa, s, r, t) && Chunk(dest, q) == Out(salsa, s, r, q)
    ensures forall p: nat :: p != t && p != q && 8 * p + 8 <= dest.Length ==> Chunk(dest, p) == old(Chunk(dest, p))
  {
    hide X, Out, XorBlock;
    OutsAre(salsa, s, r, i, t, q);
    BlocksAre(src, i);
    BlocksAre(src, i + 1);
    MixStep(salsa, dest, src, b, i * 8, i * 4, s, i, t);
    MixStep(salsa, dest, src, b, i * 8 + 8, i * 4 + r * 8, s, i + 1, q);
  }

  /** _blockmix_salsa8; the buffers have `16*r` words, a 32-bit product, and no index below wraps when that does not. */
  method BlockMixSalsa8(salsa: Core, dest: array<uint64>, src: array<uint64>, b: array<uint64>, r: nat)
    requires r > 0 && src.Length == dest.Length == 16 * r < 0x1_0000_0000 && b.Length == 8 && dest != src && b != src &&
             b != dest
    modifies dest, b
    ensures Blocks(dest[..]) == BlockMix(salsa, Blocks(src[..]), r)
  {
    hide X, Out, BlockMix, XorBlock, Blocks;
    ghost var s := Blocks(src[..]);
    BlocksAre(src, 2 * r - 1);
    Store(b, 0, src[(2 * r - 1) * 8..(2 * r - 1) * 8 + 8]);
    assert b[..] == b[0..8];
    XStarts(salsa, s);
    ghost var t := 0;
    var i := 0;
    while i < 2 * r
      invariant i == 2 * t && t <= r
      invariant b[..] == X(salsa, s, i)
      invariant forall p :: 0 <= p < t || r <= p < r + t ==> Chunk(dest, p) == Out(salsa, s, r, p)
    {
      MixPair(salsa, dest, src, b, r, i, s, t, r + t);
      i, t := i + 2, t + 1;
    }
    Interleaved(salsa, dest, s, r);
  }

  lemma XStarts(salsa: Core, s: seq<Block>)
    requires s != []
    ensures X(salsa, s, 0) == s[|s| - 1]
  {
  }

  lemma Interleaved(salsa: Core, dest: array<uint64>, s: seq<Block>, r: nat)
    requires r > 0 && dest.Length == 16 * r && |s| == 2 * r
    requires forall p :: 0 <= p < 2 * r ==> Chunk(dest, p) == Out(salsa, s, r, p)
    ensures Blocks(dest[..]) == BlockMix(salsa, s, r)
  {
    forall p | 0 <= p < 2 * r ensures Blocks(dest[..])[p] == Out(salsa, s, r, p) {
      BlocksAre(dest, p);
    }
  }

  // ---------------------------------------------------------------- the masked index

  lemma {:induction false} Pow2Split(k: nat)
    requires k <= 64
    ensures 0x1_0000_0000_0000_0000 == Pow2(64 - k) * Pow2(k)
  {
    Powers();
    Pow2Add(64 - k, k);
  }

  /** For a power of two, masking the first word of the last block is Integerify modulo n. */
  lemma MaskIsIntegerify(b: seq<Block>, n: nat, k: nat)
    requires b != [] && n == Pow2(k) && k <= 64
    ensures BitAnd(b[|b| - 1][0], n - 1) == Integerify(b) % n
    ensures BitAnd(b[|b| - 1][0], n - 1) < n
  {
    var last := b[|b| - 1];
    BitAndMask(last[0], k);
    Pow2Split(k);
    LowWord(last[0], Integer(last[1..]), Pow2(64 - k), n);
  }

  lemma LowWord(w: nat, rest: nat, q: nat, n: nat)
    requires n > 0 && q * n == 0x1_0000_0000_0000_0000
    ensures (w + 0x1_0000_0000_0000_0000 * rest) % n == w % n
  {
    ModPlusMultiple(w, q * rest, n);
    Mul3(n, q, rest);
    assert n * q == q * n;
  }

  // ---------------------------------------------------------------- the table

  /** A product of two of C's 32-bit unsigned integers. */
  function Mul32(a: uint32, b: uint32): uint32 {
    a * b % 0x1_0000_0000
  }

  /** `malloc(128*r*n)`. */
  function TableBytes(r: uint32, n: uint32): uint32 {
    Mul32(Mul32(128, r), n)
  }

  /** `memcpy(&v[j*(16*r)], x, 128*r)` stays inside the table. */
  predicate RowInside(r: uint32, n: uint32, j: uint32) {
    8 * Mul32(j, Mul32(16, r)) + Mul32(128, r) <= TableBytes(r, n)
  }

  /** What a caller can check: the size of the table, multiplied without wrapping, is below 2^32. */
  predicate TableFits(r: uint32, n: uint32) {
    128 * (r * n) < 0x1_0000_0000
  }

  lemma Mul32Small(a: uint32, b: uint32)
    requires a * b < 0x1_0000_0000
    ensures Mul32(a, b) == a * b
  {
  }

  lemma NoWrap(r: uint32, n: uint32)
    requires n > 0 && TableFits(r, n)
    ensures Mul32(16, r) == 16 * r && Mul32(128, r) == 128 * r && TableBytes(r, n) == 128 * (r * n)
  {
    Below(0, n, r);
    Mul32Small(16, r);
    Mul32Small(128, r);
    Mul3(128, r, n);
    Mul32Small(128 * r, n);
  }

  lemma RowNoWrap(r: uint32, n: uint32, j: uint32)
    requires j < n && TableFits(r, n)
    ensures 128 * r < 0x1_0000_0000 && Mul32(j, 16 * r) == j * (16 * r)
    ensures 8 * (j * (16 * r)) + 128 * r <= 128 * (r * n)
  {
    Below(0, n, r);
    Below(j, n, r);
    Sixteen(j, r);
    Mul32Small(j, 16 * r);
  }

  lemma Sixteen(j: nat, r: nat)
    ensures j * (16 * r) == 16 * (j * r)
  {
  }

  /** The first row that does not fit into a table of `size` bytes. */
  lemma RowOutside(r: uint32, n: uint32, size: uint32) returns (j: uint32)
    requires 0 < 128 * r < 0x1_0000_0000 <= 128 * (r * n)
    ensures j < n && 8 * Mul32(j, 16 * r) + 128 * r > size
  {
    var k := size / (128 * r);
    Quotient(size, 128 * r);
    Eight(k, r);
    NotBelow(k, n, r);
    j := k;
    Mul32Small(j, 16 * r);
  }

  lemma Quotient(a: nat, w: nat)
    requires w > 0
    ensures a / w * w <= a < a / w * w + w
  {
  }

  lemma Eight(k: nat, r: nat)
    ensures k * (128 * r) == 128 * (k * r) == 8 * (k * (16 * r))
  {
  }

  lemma Grows(a: nat, b: nat, r: nat)
    requires a <= b
    ensures a * r <= b * r
  {
  }

  lemma NotBelow(k: nat, n: nat, r: nat)
    requires k * r < r * n
    ensures k < n
  {
    if n <= k {
      Grows(n, k, r);
    }
  }

  lemma RowsInside(r: uint32, n: uint32, j: uint32)
    requires j < n && TableFits(r, n)
    ensures RowInside(r, n, j)
  {
    NoWrap(r, n);
    RowNoWrap(r, n, j);
  }

  /** The rows that the first loop stores, two in each turn: row n too when n is odd. */
  predicate StoresRow(n: uint32, j: uint32) {
    j < n + n % 2
  }

  /** The table holds every row that the loop stores exactly when its size does not wrap and n is even. */
  lemma TableHolds(r: uint32, n: uint32)
    requires r > 0 && n > 0
    ensures Mul32(128, r) == 128 * r && (forall j: uint32 | StoresRow(n, j) :: RowInside(r, n, j))
            <==> TableFits(r, n) && n % 2 == 0
  {
    if TableFits(r, n) {
      NoWrap(r, n);
      if n % 2 == 0 {
        forall j: uint32 | StoresRow(n, j) ensures RowInside(r, n, j) {
          RowsInside(r, n, j);
        }
      } else {
        OddRow(r, n);
      }
    } else if 128 * r < 0x1_0000_0000 {
      NotFits(r, n);
    }
  }

  /** For an odd n the last row lies right behind the table. */
  lemma OddRow(r: uint32, n: uint32)
    requires r > 0 && TableFits(r, n) && n % 2 == 1
    ensures StoresRow(n, n) && !RowInside(r, n, n)
  {
    NoWrap(r, n);
    Sixteen(n, r);
    Mul32Small(n, 16 * r);
  }

  lemma NotFits(r: uint32, n: uint32)
    requires 0 < 128 * r < 0x1_0000_0000 && !TableFits(r, n)
    ensures exists j: uint32 :: StoresRow(n, j) && !RowInside(r, n, j)
  {
    var j := RowOutside(r, n, TableBytes(r, n));
    Mul32Small(16, r);
    Mul32Small(128, r);
    assert StoresRow(n, j) && !RowInside(r, n, j);
  }

  /** With n = 2^22 and r = 8 the size wraps to nothing; with n = 1 the second row does not fit. */
  lemma TableWraps()
    ensures TableBytes(8, 0x400000) == 0 && !TableFits(8, 0x400000) && StoresRow(0x400000, 0) &&
            !RowInside(8, 0x400000, 0)
    ensures TableBytes(1, 1) == 128 && TableFits(1, 1) && StoresRow(1, 1) && !RowInside(1, 1, 1)
  {
  }

  /** The calls for BIP 38 keys and for the proof of work stay far below that. */
  lemma CallersFit()
    ensures TableFits(8, 16384) && TableFits(1, 1024)
  {
  }

  // ---------------------------------------------------------------- the loops of BRScrypt

  lemma Below(m: nat, n: nat, w: nat)
    requires m < n
    ensures m * w + w <= n * w
  {
    assert (m + 1) * w <= n * w;
  }

  /** Row t of the table v holds V[t]. */
  ghost predicate RowOf(salsa: Core, v: seq<uint64>, b: seq<Block>, r: nat, t: nat)
    requires |b| == 2 * r && r > 0
  {
    var lo := Times(t, 16 * r);
    lo + 16 * r <= |v| && Blocks(v[lo..lo + 16 * r]) == V(salsa, b, r, t)
  }

  /** Rows 0 to n - 1 are filled. */
  ghost predicate RowsOf(salsa: Core, v: seq<uint64>, b: seq<Block>, r: nat, n: nat)
    requires |b| == 2 * r && r > 0
  {
    n == 0 || (RowsOf(salsa, v, b, r, n - 1) && RowOf(salsa, v, b, r, n - 1))
  }

  ghost predicate Rows(salsa: Core, v: array<uint64>, b: seq<Block>, r: nat, n: nat)
    requires |b| == 2 * r && r > 0
    reads v
  {
    RowsOf(salsa, v[..], b, r, n)
  }

  lemma {:induction false} RowsAt(salsa: Core, v: seq<uint64>, b: seq<Block>, r: nat, n: nat, t: nat)
    requires |b| == 2 * r && r > 0 && t < n && RowsOf(salsa, v, b, r, n)
    ensures RowOf(salsa, v, b, r, t)
  {
    if t >= n - 1 {
    } else {
      RowsAt(salsa, v, b, r, n - 1, t);
    }
  }

  lemma {:induction false} RowsKept(salsa: Core, u: seq<uint64>, v: seq<uint64>, b: seq<Block>, r: nat, n: nat)
    requires |b| == 2 * r && r > 0 && RowsOf(salsa, u, b, r, n) && |u| == |v|
    requires forall k :: 0 <= k < Times(n, 16 * r) && k < |v| ==> v[k] == u[k]
    ensures RowsOf(salsa, v, b, r, n)
  {
    if n == 0 {
    } else {
      var w := 16 * r;
      assert Times(n, w) == w + Times(n - 1, w);
      RowsKept(salsa, u, v, b, r, n - 1);
      SameRow(u, v, Times(n - 1, w), w);
    }
  }

  lemma SameRow(u: seq<uint64>, v: seq<uint64>, lo: nat, w: nat)
    requires |u| == |v| && lo + w <= |u| && forall k :: 0 <= k < lo + w ==> v[k] == u[k]
    ensures v[lo..lo + w] == u[lo..lo + w]
  {
  }

  /** `memcpy(&v[j*(16*r)], x, 128*r)`. */
  method StoreRow(salsa: Core, v: array<uint64>, x: array<uint64>, r: uint32, j: uint32, n: uint32, ghost b: seq<Block>)
    requires |b| == 2 * r && r > 0 && v.Length == n * (16 * r) && x.Length == 16 * r && v != x && j < n &&
             TableFits(r, n)
    requires Blocks(x[..]) == V(salsa, b, r, j) && Rows(salsa, v, b, r, j)
    modifies v
    ensures Rows(salsa, v, b, r, j + 1)
  {
    var w := 16 * r;
    Below(j, n, w);
    TimesIsMul(j, w);
    NoWrap(r, n);
    RowNoWrap(r, n, j);
    ghost var u := v[..];
    Store(v, Mul32(j, Mul32(16, r)), x[..]);
    RowsKept(salsa, u, v[..], b, r, j);
    RowStored(salsa, v[..], x[..], b, r, j, j * w);
  }

  lemma RowStored(salsa: Core, v: seq<uint64>, x: seq<uint64>, b: seq<Block>, r: nat, j: nat, lo: nat)
    requires |b| == 2 * r && r > 0 && lo == Times(j, 16 * r) && lo + 16 * r <= |v| && v[lo..lo + 16 * r] == x
    requires Blocks(x) == V(salsa, b, r, j)
    ensures RowOf(salsa, v, b, r, j)
  {
  }

  /** `for (k = 0; k < 16*r; k++) x[k] ^= v[m*(16*r) + k]`. */
  method XorRow(x: array<uint64>, v: array<uint64>, lo: nat)
    requires x != v && lo + x.Length <= v.Length
    modifies x
    ensures x[..] == XorWords(old(x[..]), v[lo..lo + x.Length])
  {
    for k := 0 to x.Length
      invariant forall j :: 0 <= j < x.Length ==> x[j] == if j < k then XorWord(old(x[j]), v[lo + j]) else old(x[j])
    {
      x[k] := XorWord(x[k], v[lo + k]);
    }
  }

  function XorWords(a: seq<uint64>, b: seq<uint64>): (c: seq<uint64>)
    requires |a| == |b|
    ensures |c| == |a| && forall k :: 0 <= k < |a| ==> c[k] == XorWord(a[k], b[k])
  {
    seq(|a|, k requires 0 <= k < |a| => XorWord(a[k], b[k]))
  }

  lemma XorBlocks(a: seq<uint64>, b: seq<uint64>)
    requires |a| == |b|
    ensures Blocks(XorWords(a, b)) == XorAll(Blocks(a), Blocks(b))
  {
    var c := XorWords(a, b);
    forall k | 0 <= k < |a| / 8 ensures Blocks(c)[k] == XorBlock(Blocks(a)[k], Blocks(b)[k]) {
      forall j | 0 <= j < 8 ensures Blocks(c)[k][j] == XorWord(Blocks(a)[k][j], Blocks(b)[k][j]) {
        assert Blocks(c)[k][j] == c[8 * k + j];
      }
    }
  }

  /** `le64(x[(2*r - 1)*8]) & (n - 1)`. */
  method PickRow(x: array<uint64>, r: nat, n: nat, ghost log: nat) returns (m: nat)
    requires r > 0 && x.Length == 16 * r && n == Pow2(log) && log <= 64
    ensures m < n && m == Integerify(Blocks(x[..])) % n
  {
    hide Integer, Integerify, BitAnd;
    BlocksAre(x, 2 * r - 1);
    MaskIsIntegerify(Blocks(x[..]), n, log);
    var o := (2 * r - 1) * 8;
    assert x[o] == x[o..o + 8][0];
    m := BitAnd(x[o], n - 1);
  }

  /** `x[k] ^= v[m*(16*r) + k]`: m has 64 bits, `16*r` only 32. */
  method XorRowOf(salsa: Core, x: array<uint64>, v: array<uint64>, r: uint32, m: nat, ghost b: seq<Block>)
    requires |b| == 2 * r && r > 0 && x.Length == 16 * r < 0x1_0000_0000 && x != v && RowOf(salsa, v[..], b, r, m)
    modifies x
    ensures Blocks(x[..]) == XorAll(old(Blocks(x[..])), V(salsa, b, r, m))
  {
    hide V, XorAll, XorWords, Blocks, Times;
    Mul32Small(16, r);
    var w := Mul32(16, r);
    TimesIsMul(m, w);
    var lo := m * w;
    ghost var row := v[lo..lo + w];
    assert row == v[..][lo..lo + w];
    assert Blocks(row) == V(salsa, b, r, m);
    XorBlocks(x[..], row);
    XorRow(x, v, lo);
  }

  // The second loop only needs to know that it applies the same function over and over, so it gets that function as
  // a parameter and does not look inside.

  ghost predicate IsTurn(turn: Mixer, salsa: Core, b: seq<Block>, r: nat, n: nat)
    requires |b| == 2 * r && r > 0 && n > 0
  {
    forall x: seq<Block> {:trigger Turn(salsa, b, r, n, x)} | |x| == 2 * r :: turn(x) == Turn(salsa, b, r, n, x)
  }

  lemma TurnerTurns(salsa: Core, b: seq<Block>, r: nat, n: nat)
    requires |b| == 2 * r && r > 0 && n > 0
    ensures IsTurn(Turner(salsa, b, r, n), salsa, b, r, n)
  {
  }

  /** The buffers and the table have their sizes and are all different. */
  predicate Shapes(x: array<uint64>, y: array<uint64>, z: array<uint64>, v: array<uint64>, r: nat) {
    && r > 0 && x.Length == y.Length == 16 * r < 0x1_0000_0000 && z.Length == 8
    && x != y && x != z && y != z && v != x && v != y && v != z
  }

  ghost predicate Ready(salsa: Core, x: array<uint64>, y: array<uint64>, z: array<uint64>, v: array<uint64>,
                        r: nat, n: nat, b: seq<Block>)
    reads v
  {
    Shapes(x, y, z, v, r) && |b| == 2 * r && Rows(salsa, v, b, r, n)
  }

  /** Half of the body of the second loop: from x to y. The table t stays as it is. */
  method MixOnce(salsa: Core, y: array<uint64>, x: array<uint64>, z: array<uint64>, v: array<uint64>, r: uint32,
                 n: uint32, ghost b: seq<Block>, ghost log: nat, ghost t: seq<uint64>, ghost turn: Mixer)
    requires Shapes(x, y, z, v, r) && |b| == 2 * r && v[..] == t && RowsOf(salsa, t, b, r, n) && n == Pow2(log) &&
             log <= 64
    requires IsTurn(turn, salsa, b, r, n)
    modifies x, y, z
    ensures v[..] == t && Blocks(y[..]) == turn(old(Blocks(x[..])))
  {
    var m := PickRow(x, r, n, log);
    ghost var c := Turn(salsa, b, r, n, Blocks(x[..]));
    RowsAt(salsa, t, b, r, n, m);
    XorRowOf(salsa, x, v, r, m, b);
    BlockMixSalsa8(salsa, y, x, z, r);
  }

  /** Half of the body of the first loop: x into row j, the next x into y. */
  method FillOnce(salsa: Core, y: array<uint64>, x: array<uint64>, z: array<uint64>, v: array<uint64>, r: uint32,
                  n: uint32, j: uint32, ghost b: seq<Block>)
    requires Ready(salsa, x, y, z, v, r, j, b) && j < n && v.Length == n * (16 * r) && TableFits(r, n)
    requires Blocks(x[..]) == V(salsa, b, r, j)
    modifies y, z, v
    ensures Ready(salsa, y, x, z, v, r, j + 1, b) && Blocks(y[..]) == V(salsa, b, r, j + 1)
  {
    StoreRow(salsa, v, x, r, j, n, b);
    BlockMixSalsa8(salsa, y, x, z, r);
  }

  /** A power of two from 2 up is twice another one. */
  lemma Half(log: nat) returns (h: nat)
    requires log >= 1
    ensures Pow2(log) == 2 * h
  {
    h := Pow2(log - 1);
  }

  /** The first loop, two steps per iteration. */
  method Fill(salsa: Core, x: array<uint64>, y: array<uint64>, z: array<uint64>, v: array<uint64>, r: uint32, n: uint32,
              ghost b: seq<Block>, ghost h: nat)
    requires Ready(salsa, x, y, z, v, r, 0, b) && n == 2 * h && v.Length == n * (16 * r) && TableFits(r, n)
    requires Blocks(x[..]) == b
    modifies x, y, z, v
    ensures Ready(salsa, x, y, z, v, r, n, b) && Blocks(x[..]) == V(salsa, b, r, n)
  {
    hide Rows;
    var j := 0;
    ghost var t := 0;
    while j < n
      invariant j == 2 * t && t <= h
      invariant Ready(salsa, x, y, z, v, r, j, b) && Blocks(x[..]) == V(salsa, b, r, j)
    {
      FillOnce(salsa, y, x, z, v, r, n, j, b);
      FillOnce(salsa, x, y, z, v, r, n, j + 1, b);
      j, t := j + 2, t + 1;
    }
  }

  /** The second loop, two steps per iteration. */
  method Mix(salsa: Core, x: array<uint64>, y: array<uint64>, z: array<uint64>, v: array<uint64>, r: uint32, n: uint32,
             ghost b: seq<Block>, ghost log: nat, ghost h: nat, ghost t: seq<uint64>, ghost turn: Mixer)
    requires Shapes(x, y, z, v, r) && |b| == 2 * r && v[..] == t && RowsOf(salsa, t, b, r, n)
    requires n == 2 * h && n == Pow2(log) && log <= 64 && IsTurn(turn, salsa, b, r, n) && TableFits(r, n)
    modifies x, y, z
    ensures Blocks(x[..]) == Iterate(turn, old(Blocks(x[..])), n)
  {
    hide IsTurn, RowsOf;
    var j := 0;
    ghost var q, start := 0, Blocks(x[..]);
    while j < n
      invariant j == 2 * q && q <= h
      invariant v[..] == t && Blocks(x[..]) == Iterate(turn, start, j)
    {
      MixOnce(salsa, y, x, z, v, r, n, b, log, t, turn);
      assert Blocks(y[..]) == Iterate(turn, start, j + 1);
      MixOnce(salsa, x, y, z, v, r, n, b, log, t, turn);
      j, q := j + 2, q + 1;
    }
  }

  lemma TableLength(r: uint32, n: uint32)
    requires n > 0 && TableFits(r, n)
    ensures TableBytes(r, n) / 8 == n * (16 * r)
  {
    NoWrap(r, n);
    assert n * (16 * r) == 16 * (r * n);
  }

  /** Both loops, with the table v between them. */
  method FillAndMix(salsa: Core, x: array<uint64>, y: array<uint64>, z: array<uint64>, v: array<uint64>, r: uint32,
                    n: uint32, ghost log: nat)
    requires Shapes(x, y, z, v, r) && n == Pow2(log) && 1 <= log <= 31 && TableFits(r, n) && v.Length == n * (16 * r)
    modifies x, y, z, v
    ensures Blocks(x[..]) == ROMix(salsa, old(Blocks(x[..])), r, n)
  {
    ghost var b := Blocks(x[..]);
    ghost var h := Half(log);
    ghost var turn := Turner(salsa, b, r, n);
    TurnerTurns(salsa, b, r, n);
    Fill(salsa, x, y, z, v, r, n, b, h);
    Mix(salsa, x, y, z, v, r, n, b, log, h, v[..], turn);
  }

  /** The work of BRScrypt on one of its p lanes: scryptROMix, between the buffers x and y. */
  method ROMixInPlace(salsa: Core, x: array<uint64>, r: uint32, n: uint32, ghost log: nat)
    requires r > 0 && x.Length == 16 * r && n == Pow2(log) && 1 <= log <= 31 && TableFits(r, n)
    modifies x
    ensures Blocks(x[..]) == ROMix(salsa, old(Blocks(x[..])), r, n)
  {
    NoWrap(r, n);
    TableLength(r, n);
    var size := TableBytes(r, n) / 8;
    var y, z, v := new uint64[x.Length](_ => 0), new uint64[8](_ => 0), new uint64[size](_ => 0);
    FillAndMix(salsa, x, y, z, v, r, n, log);
  }

  // ---------------------------------------------------------------- spelled out for the smallest sizes

  /** scryptBlockMix for r = 2: Y0, Y2, Y1, Y3, each the hash of the one before and the next block. */
  lemma BlockMixOfTwo(salsa: Core, b0: Block, b1: Block, b2: Block, b3: Block)
    ensures var y0 := salsa(XorBlock(b3, b0));
            var y1 := salsa(XorBlock(y0, b1));
            var y2 := salsa(XorBlock(y1, b2));
            var y3 := salsa(XorBlock(y2, b3));
            BlockMix(salsa, [b0, b1, b2, b3], 2) == [y0, y2, y1, y3]
  {
    hide XorBlock;
    var b := [b0, b1, b2, b3];
    assert X(salsa, b, 0) == b3;
    assert X(salsa, b, 1) == salsa(XorBlock(b3, b0));
    assert X(salsa, b, 2) == salsa(XorBlock(X(salsa, b, 1), b1));
    assert X(salsa, b, 3) == salsa(XorBlock(X(salsa, b, 2), b2));
    assert X(salsa, b, 4) == salsa(XorBlock(X(salsa, b, 3), b3));
  }

  /** Four words as one number, the first one lowest. */
  function Four(a: nat, b: nat, c: nat, d: nat): nat {
    a + 0x1_0000_0000_0000_0000 * (b + 0x1_0000_0000_0000_0000 * (c + 0x1_0000_0000_0000_0000 * d))
  }

  /** Integerify of RFC 7914, section 5: all eight words of the last block, the first one lowest. */
  lemma IntegerifyIs(b: seq<Block>, x: Block)
    requires b != [] && b[|b| - 1] == x
    ensures Integerify(b) == Four(x[0], x[1], x[2], x[3] + 0x1_0000_0000_0000_0000 * Four(x[4], x[5], x[6], x[7]))
  {
    FourWords(x);
    var high := x[4..];
    FourWords(high);
    assert high[4..] == [];
  }

  lemma FourWords(s: seq<uint64>)
    requires |s| >= 4
    ensures Integer(s) == Four(s[0], s[1], s[2], s[3] + 0x1_0000_0000_0000_0000 * Integer(s[4..]))
  {
    assert s[1..][1..] == s[2..] && s[2..][1..] == s[3..] && s[3..][1..] == s[4..];
    assert Integer(s) == s[0] + 0x1_0000_0000_0000_0000 * Integer(s[1..]);
    assert Integer(s[1..]) == s[1] + 0x1_0000_0000_0000_0000 * Integer(s[2..]);
    assert Integer(s[2..]) == s[2] + 0x1_0000_0000_0000_0000 * Integer(s[3..]);
    assert Integer(s[3..]) == s[3] + 0x1_0000_0000_0000_0000 * Integer(s[4..]);
  }

  /** scryptROMix for n = 2: the table is B and the mix of B; the choice is the lowest bit of the last block's first
      word. */
  lemma ROMixOfTwo(salsa: Core, b: seq<Block>, r: nat)
    requires |b| == 2 * r && r > 0
    ensures var v1 := BlockMix(salsa, b, r);
            var x := BlockMix(salsa, v1, r);
            var y := BlockMix(salsa, XorAll(x, if x[2 * r - 1][0] % 2 == 0 then b else v1), r);
            ROMix(salsa, b, r, 2) ==
            BlockMix(salsa, XorAll(y, if y[2 * r - 1][0] % 2 == 0 then b else v1), r)
  {
    hide BlockMix, XorAll;
    var v1 := BlockMix(salsa, b, r);
    var x := BlockMix(salsa, v1, r);
    Rows2(salsa, b, r);
    TurnOfTwo(salsa, b, r, x);
    var y := Turn(salsa, b, r, 2, x);
    TurnOfTwo(salsa, b, r, y);
    var f := Turner(salsa, b, r, 2);
    IterateTwice(f, x, 2);
  }

  lemma IterateTwice(f: Mixer, x: seq<Block>, n: nat)
    requires n == 2
    ensures Iterate(f, x, n) == f(f(x))
  {
    assert Iterate(f, x, 0) == x;
    assert Iterate(f, x, 1) == f(x);
  }

  lemma Rows2(salsa: Core, b: seq<Block>, r: nat)
    requires |b| == 2 * r && r > 0
    ensures V(salsa, b, r, 0) == b && V(salsa, b, r, 1) == BlockMix(salsa, b, r)
    ensures V(salsa, b, r, 2) == BlockMix(salsa, BlockMix(salsa, b, r), r)
  {
    hide BlockMix;
    assert V(salsa, b, r, 1) == BlockMix(salsa, V(salsa, b, r, 0), r);
  }

  lemma TurnOfTwo(salsa: Core, b: seq<Block>, r: nat, x: seq<Block>)
    requires |b| == |x| == 2 * r && r > 0
    ensures Turn(salsa, b, r, 2, x) ==
            BlockMix(salsa, XorAll(x, if x[2 * r - 1][0] % 2 == 0 then b else BlockMix(salsa, b, r)), r)
  {
    hide BlockMix, XorAll, V;
    Rows2(salsa, b, r);
    assert Integerify(x) % 2 == x[2 * r - 1][0] % 2;
  }
}
