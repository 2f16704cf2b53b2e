/**
 The two walks over a BIP 37 partial Merkle tree (BRMerkleBlock.c), the tree they walk, and the encoder whose
 output they read. The double SHA-256 of two concatenated hashes is the parameter `h` throughout. It is never
 assumed to be injective everywhere: each theorem names the finite set of pairs that must not collide.
 */
module Merkle {
  import opened Common

  // A UInt256 as the number its bytes spell; nothing depends on its width.
  type Hash = nat

  const ZERO: Hash := 0

  type PairHash = (Hash, Hash) -> Hash

  // A block whose arrays are what its counts say: what the theorems about the walks are stated for.
  datatype Block = Block(totalTx: uint32, hashes: seq<Hash>, flags: seq<byte>)

  // ---------------------------------------------------------------- tree height

  /** Number of rows above the leaves of a Merkle tree: each row halves the one below, rounding up. */
  function TreeHeight(n: nat): nat {
    if n <= 1 then 0 else 1 + TreeHeight((n + 1) / 2)
  }

  /** The height is the least power of two that covers the leaves. */
  lemma {:induction false} TreeHeightBounds(n: nat)
    requires n >= 1
    ensures n <= Pow2(TreeHeight(n))
    ensures n >= 2 ==> TreeHeight(n) >= 1 && Pow2(TreeHeight(n) - 1) < n
  {
    if n < 2 {
    } else {
      TreeHeightBounds((n + 1) / 2);
    }
  }

  /** How often `x` can be halved before it reaches zero. */
  function BitLength(x: nat): nat {
    if x == 0 then 0 else 1 + BitLength(x / 2)
  }

  lemma {:induction false} HeightOfSuccessor(x: nat)
    ensures TreeHeight(x + 1) == BitLength(x)
  {
    hide Pow2;
    if x == 0 {
    } else {
      HeightOfSuccessor(x / 2);
      assert (x + 2) / 2 == x / 2 + 1;
    }
  }

  lemma {:induction false} BitAndSelf(x: nat)
    ensures BitAnd(x, x) == x
  {
    if x == 0 {
    } else {
      BitAndSelf(x / 2);
    }
  }

  /** `x & (x - 1)` drops the lowest set bit, so one more row is needed exactly when something is left. */
  lemma {:induction false} CeilLog2Formula(x: nat)
    requires x >= 1
    ensures TreeHeight(x) == BitLength(x / 2) + (if BitAnd(x, x - 1) != 0 then 1 else 0)
  {
    if x < 2 {
    } else {
      if x % 2 == 0 {
        CeilLog2Formula(x / 2);
        assert (x - 1) / 2 == x / 2 - 1 && (x + 1) / 2 == x / 2;
      } else {
        BitAndSelf(x / 2);
        HeightOfSuccessor(x / 2);
        assert (x - 1) / 2 == x / 2 && (x + 1) / 2 == x / 2 + 1;
      }
    }
  }

  // _ceil_log2 takes an int, so it gets the 32 bits of totalTx with a sign.

  type int32 = x: int | -0x8000_0000 <= x < 0x8000_0000

  function ToInt(x: uint32): int32 {
    if x < 0x8000_0000 then x else x - 0x1_0000_0000
  }

  /** `x >>= 1`, k times over: the shift keeps the sign and rounds down. */
  function Halved(x: int32, k: nat): int32 {
    if k == 0 then x else Halved(x, k - 1) / 2
  }

  /** `while ((x >>= 1) != 0)` ends. */
  ghost predicate LoopEnds(totalTx: uint32) {
    exists k :: k >= 1 && Halved(ToInt(totalTx), k) == 0
  }

  lemma {:induction false} HalvedBelow(x: int32, k: nat)
    requires k <= 31
    ensures 0 <= Halved(x, k) + Pow2(31 - k) && Halved(x, k) < Pow2(31 - k)
    ensures x < 0 <==> Halved(x, k) < 0
  {
    if k == 0 {
      Pow2Of31();
    } else {
      HalvedBelow(x, k - 1);
    }
  }

  lemma Pow2Of31()
    ensures Pow2(31) == 0x8000_0000
  {
    assert Pow2(7) == 0x80 && Pow2(8) == 0x100;
    Pow2Add(8, 8);
    Pow2Add(16, 8);
    Pow2Add(24, 7);
  }

  /** A negative number settles at -1, where the shift leaves it. */
  lemma {:induction false} Settles(x: int32, k: nat)
    requires x < 0 && k >= 31
    ensures Halved(x, k) == -1
  {
    if k == 31 {
      HalvedBelow(x, 31);
    } else {
      Settles(x, k - 1);
    }
  }

  /** The loop of _ceil_log2 ends exactly for fewer than 2^31 transactions. */
  lemma LoopEndsIff(totalTx: uint32)
    ensures LoopEnds(totalTx) <==> totalTx < 0x8000_0000
  {
    var x := ToInt(totalTx);
    if x >= 0 {
      HalvedBelow(x, 31);
    } else {
      forall k | k >= 1 ensures Halved(x, k) != 0 {
        if k <= 31 {
          HalvedBelow(x, k);
        } else {
          Settles(x, k);
        }
      }
    }
  }

  /** With 2^31 transactions it never does. */
  lemma LoopNeverEnds()
    ensures !LoopEnds(0x8000_0000)
    ensures forall k :: k >= 31 ==> Halved(ToInt(0x8000_0000), k) == -1
  {
    LoopEndsIff(0x8000_0000);
    forall k | k >= 31 ensures Halved(ToInt(0x8000_0000), k) == -1 {
      Settles(ToInt(0x8000_0000), k);
    }
  }

  /** Where its loop ends, _ceil_log2 is the height of the Merkle tree over totalTx leaves. */
  method CeilLog2(totalTx: uint32) returns (r: nat)
    requires totalTx < 0x8000_0000
    ensures r == TreeHeight(totalTx)
  {
    var x: int32 := ToInt(totalTx);
    r := if x != 0 && BitAnd(x, x - 1) != 0 then 1 else 0;
    ghost var total := r + BitLength(totalTx / 2);
    x := x / 2;
    while x != 0
      invariant x >= 0 && r + BitLength(x) == total
      decreases x
    {
      r := r + 1;
      x := x / 2;
    }
    if totalTx > 0 {
      CeilLog2Formula(totalTx);
    }
  }

  // ---------------------------------------------------------------- Merkle tree

  function RowAbove(h: PairHash, row: seq<Hash>): (r: seq<Hash>)
    ensures |r| == (|row| + 1) / 2
  {
    seq((|row| + 1) / 2, i requires 0 <= i < (|row| + 1) / 2 =>
      h(row[2 * i], if 2 * i + 1 < |row| then row[2 * i + 1] else row[2 * i]))
  }

  /** The Merkle root as the file's comment defines it: halve the row, doubling an odd last entry, until one is left. */
  function MerkleRoot(h: PairHash, row: seq<Hash>): Hash
    requires row != []
    decreases |row|
  {
    if |row| == 1 then row[0] else MerkleRoot(h, RowAbove(h, row))
  }

  /** The leaves below the left child of a node `d + 1` rows up, and below its right child or its duplicate. */
  function Left<T>(d: nat, ids: seq<T>): (l: seq<T>)
    requires 1 <= |ids| <= Pow2(d + 1)
    ensures 1 <= |l| <= Pow2(d)
  {
    if |ids| <= Pow2(d) then ids else ids[..Pow2(d)]
  }

  function Right<T>(d: nat, ids: seq<T>): (r: seq<T>)
    requires 1 <= |ids| <= Pow2(d + 1)
    ensures 1 <= |r| <= Pow2(d)
  {
    if |ids| <= Pow2(d) then ids else ids[Pow2(d)..]
  }

  /** The same tree top-down: the node `d` rows above the leaves `ids`. */
  function Node(h: PairHash, d: nat, ids: seq<Hash>): Hash
    requires 1 <= |ids| <= Pow2(d)
  {
    if d == 0 then ids[0]
    else h(Node(h, d - 1, Left(d - 1, ids)), Node(h, d - 1, Right(d - 1, ids)))
  }

  lemma RowAboveSplit(h: PairHash, ids: seq<Hash>, k: nat)
    requires 2 * k <= |ids|
    ensures RowAbove(h, ids)[..k] == RowAbove(h, ids[..2 * k])
    ensures RowAbove(h, ids)[k..] == RowAbove(h, ids[2 * k..])
  {
    var top, rest := ids[..2 * k], ids[2 * k..];
    forall i | 0 <= i < k ensures RowAbove(h, ids)[..k][i] == RowAbove(h, top)[i] {
      assert top[2 * i] == ids[2 * i] && top[2 * i + 1] == ids[2 * i + 1];
    }
    forall i | 0 <= i < |RowAbove(h, rest)| ensures RowAbove(h, ids)[k..][i] == RowAbove(h, rest)[i] {
      assert RowAbove(h, ids)[k..][i] == RowAbove(h, ids)[k + i];
      assert rest[2 * i] == ids[2 * (k + i)];
      assert 2 * i + 1 < |rest| <==> 2 * (k + i) + 1 < |ids|;
    }
  }

  lemma ChildrenOfRowAbove(h: PairHash, d: nat, ids: seq<Hash>)
    requires 1 <= |ids| <= Pow2(d + 2)
    ensures |RowAbove(h, ids)| <= Pow2(d + 1)
    ensures Left(d, RowAbove(h, ids)) == RowAbove(h, Left(d + 1, ids))
    ensures Right(d, RowAbove(h, ids)) == RowAbove(h, Right(d + 1, ids))
  {
    if |ids| > Pow2(d + 1) {
      RowAboveSplit(h, ids, Pow2(d));
    }
  }

  lemma NodeOverLeaves(h: PairHash, ids: seq<Hash>)
    requires 1 <= |ids| <= 2
    ensures Node(h, 1, ids) == Node(h, 0, RowAbove(h, ids))
  {
    assert Pow2(0) == 1 && Pow2(1) == 2;
    assert RowAbove(h, ids)[0] == h(ids[0], if |ids| == 2 then ids[1] else ids[0]);
    assert Node(h, 0, Left(0, ids)) == ids[0];
    assert Node(h, 0, Right(0, ids)) == if |ids| == 2 then ids[1] else ids[0];
  }

  lemma {:induction false} NodeOverRowAbove(h: PairHash, d: nat, ids: seq<Hash>)
    requires 1 <= |ids| <= Pow2(d + 1)
    ensures |RowAbove(h, ids)| <= Pow2(d)
    ensures Node(h, d + 1, ids) == Node(h, d, RowAbove(h, ids))
  {
    hide RowAbove;
    if d == 0 {
      NodeOverLeaves(h, ids);
    } else {
      ChildrenOfRowAbove(h, d - 1, ids);
      assert Pow2(d + 1) == 2 * Pow2(d) && |RowAbove(h, ids)| <= Pow2(d);
      NodeOverRowAbove(h, d - 1, Left(d, ids));
      NodeOverRowAbove(h, d - 1, Right(d, ids));
    }
  }

  lemma {:induction false} NodeIsMerkleRoot(h: PairHash, ids: seq<Hash>)
    requires ids != []
    ensures 1 <= |ids| <= Pow2(TreeHeight(|ids|))
    ensures Node(h, TreeHeight(|ids|), ids) == MerkleRoot(h, ids)
    decreases |ids|
  {
    hide RowAbove, Pow2;
    TreeHeightBounds(|ids|);
    if |ids| <= 1 {
    } else {
      NodeOverRowAbove(h, TreeHeight(|ids|) - 1, ids);
      NodeIsMerkleRoot(h, RowAbove(h, ids));
    }
  }

  // ---------------------------------------------------------------- the two walks

  /** Bit `i` of the flag bytes, least significant bit of each byte first. */
  predicate Flag(flags: seq<byte>, i: nat)
    requires i < 8 * |flags|
  {
    if i < 8 then TestBit(flags[0], i) else Flag(flags[1..], i - 8)
  }

  lemma {:induction false} FlagIsByteBit(flags: seq<byte>, i: nat)
    requires i < 8 * |flags|
    ensures Flag(flags, i) == TestBit(flags[i / 8], i % 8)
  {
    if i < 8 {
    } else {
      FlagIsByteBit(flags[1..], i - 8);
    }
  }

  predicate More(b: Block, hashIdx: nat, flagIdx: nat) {
    flagIdx < 8 * |b.flags| && hashIdx < |b.hashes|
  }

  /** The walks call _ceil_log2 behind every set flag; with 2^31 transactions or more the first of these calls does not
      return. */
  predicate Returns(b: Block, hashIdx: nat, flagIdx: nat) {
    b.totalTx < 0x8000_0000 || !More(b, hashIdx, flagIdx) || !Flag(b.flags, flagIdx)
  }

  datatype Root = Root(md: Hash, hashIdx: nat, flagIdx: nat)

  /** What _BRMerkleBlockRootR returns and leaves in its two cursors, `d` rows above the leaves. */
  function RootWalk(h: PairHash, b: Block, hashIdx: nat, flagIdx: nat, d: nat): Root
    decreases d
  {
    if !More(b, hashIdx, flagIdx) then Root(ZERO, hashIdx, flagIdx)
    else if !Flag(b.flags, flagIdx) || d == 0 then Root(b.hashes[hashIdx], hashIdx + 1, flagIdx + 1)
    else
      var l := RootWalk(h, b, hashIdx, flagIdx + 1, d - 1);
      var r := RootWalk(h, b, l.hashIdx, l.flagIdx, d - 1);
      Join(h, l.md, r)
  }

  /** A node from its two children; a zero right child counts as missing, equal children poison the cursor. */
  function Join(h: PairHash, left: Hash, r: Root): Root {
    if left != ZERO && left != r.md then
      Root(h(left, if r.md == ZERO then left else r.md), r.hashIdx, r.flagIdx)
    else Root(ZERO, SIZE_MAX, r.flagIdx)
  }

  datatype Matched = Matched(ids: seq<Hash>, hashIdx: nat, flagIdx: nat)

  /** What _BRMerkleBlockTxHashesR appends to `ids` (at most `limit` in all) and leaves in its cursors. */
  function TxWalk(b: Block, limit: nat, ids: seq<Hash>, hashIdx: nat, flagIdx: nat, d: nat): Matched
    decreases d
  {
    if !More(b, hashIdx, flagIdx) then Matched(ids, hashIdx, flagIdx)
    else if !Flag(b.flags, flagIdx) || d == 0 then
      Matched(if Flag(b.flags, flagIdx) && |ids| < limit then ids + [b.hashes[hashIdx]] else ids, hashIdx + 1,
        flagIdx + 1)
    else
      var l := TxWalk(b, limit, ids, hashIdx, flagIdx + 1, d - 1);
      TxWalk(b, limit, l.ids, l.hashIdx, l.flagIdx, d - 1)
  }

  // ---------------------------------------------------------------- blocks as they are stored

  // The fields of BRMerkleBlock that the walks read. The counts bound the walks, the arrays are what they read: either
  // may be a null pointer or shorter than its count.
  datatype Stored = Stored(
    totalTx: uint32, hashesCount: uint64, hashes: Option<seq<Hash>>, flagsLen: uint64, flags: Option<seq<byte>>)

  function Elements<T>(a: Option<seq<T>>): seq<T> {
    if a.Some? then a.value else []
  }

  /** The arrays are as long as the counts say; a count of 0 needs none. */
  predicate Backed(s: Stored) {
    s.hashesCount <= |Elements(s.hashes)| && s.flagsLen <= |Elements(s.flags)|
  }

  function BlockOf(s: Stored): Block
    requires Backed(s)
  {
    Block(s.totalTx, Elements(s.hashes)[..s.hashesCount], Elements(s.flags)[..s.flagsLen])
  }

  // How a walk ends: it returns, it reads outside an array, or it is caught in the loop of _ceil_log2 and does not end.
  datatype Run<+T> = Returned(value: T) | Outside | Stuck

  /** The test that both walks begin with. */
  predicate Within(s: Stored, hashIdx: nat, flagIdx: nat) {
    flagIdx / 8 < s.flagsLen && hashIdx < s.hashesCount
  }

  /** Reading a flag, and calling _ceil_log2 when it is set. */
  ghost function ReadFlag(s: Stored, flagIdx: nat): Run<bool> {
    if flagIdx / 8 >= |Elements(s.flags)| then Outside
    else if Flag(Elements(s.flags), flagIdx) && !LoopEnds(s.totalTx) then Stuck
    else Returned(Flag(Elements(s.flags), flagIdx))
  }

  /** The root walk on any stored block, `d` rows above the leaves. */
  ghost function RunRoot(h: PairHash, s: Stored, hashIdx: nat, flagIdx: nat, d: nat): Run<Root>
    decreases d
  {
    if !Within(s, hashIdx, flagIdx) then Returned(Root(ZERO, hashIdx, flagIdx))
    else
      match ReadFlag(s, flagIdx)
      case Outside => Outside
      case Stuck => Stuck
      case Returned(flag) =>
        if flag && d > 0 then
          match RunRoot(h, s, hashIdx, flagIdx + 1, d - 1)
          case Outside => Outside
          case Stuck => Stuck
          case Returned(l) => JoinRun(h, l.md, RunRoot(h, s, l.hashIdx, l.flagIdx, d - 1))
        else if hashIdx >= |Elements(s.hashes)| then Outside
        else Returned(Root(Elements(s.hashes)[hashIdx], hashIdx + 1, flagIdx + 1))
  }

  function JoinRun(h: PairHash, left: Hash, r: Run<Root>): Run<Root> {
    match r
    case Outside => Outside
    case Stuck => Stuck
    case Returned(w) => Returned(Join(h, left, w))
  }

  /** The id walk; `write` says whether there is a buffer, without which no hash is read. */
  ghost function RunTx(s: Stored, write: bool, limit: nat, ids: seq<Hash>, hashIdx: nat, flagIdx: nat,
                       d: nat): Run<Matched>
    decreases d
  {
    if !Within(s, hashIdx, flagIdx) then Returned(Matched(ids, hashIdx, flagIdx))
    else
      match ReadFlag(s, flagIdx)
      case Outside => Outside
      case Stuck => Stuck
      case Returned(flag) =>
        if flag && d > 0 then
          match RunTx(s, write, limit, ids, hashIdx, flagIdx + 1, d - 1)
          case Outside => Outside
          case Stuck => Stuck
          case Returned(l) => RunTx(s, write, limit, l.ids, l.hashIdx, l.flagIdx, d - 1)
        else if !flag || |ids| >= limit then Returned(Matched(ids, hashIdx + 1, flagIdx + 1))
        else if hashIdx < |Elements(s.hashes)| then
          Returned(Matched(ids + [Elements(s.hashes)[hashIdx]], hashIdx + 1, flagIdx + 1))
        else if write then Outside
        else Returned(Matched(ids + [ZERO], hashIdx + 1, flagIdx + 1))
  }

  lemma {:induction false} FlagOfPrefix(flags: seq<byte>, n: nat, i: nat)
    requires n <= |flags| && i < 8 * n
    ensures Flag(flags[..n], i) == Flag(flags, i)
  {
    if i < 8 {
    } else {
      assert flags[..n][1..] == flags[1..][..n - 1];
      FlagOfPrefix(flags[1..], n - 1, i - 8);
    }
  }

  /** On a block with its arrays the test and the reads are the ones of the theorems; a set flag stops it exactly from
      2^31 transactions on. */
  lemma StepBacked(s: Stored, hashIdx: nat, flagIdx: nat)
    requires Backed(s)
    ensures var b := BlockOf(s);
            && (Within(s, hashIdx, flagIdx) <==> More(b, hashIdx, flagIdx))
            && (More(b, hashIdx, flagIdx) ==>
                  && b.hashes[hashIdx] == Elements(s.hashes)[hashIdx]
                  && ReadFlag(s, flagIdx) == if Flag(b.flags, flagIdx) && s.totalTx >= 0x8000_0000 then Stuck
                                             else Returned(Flag(b.flags, flagIdx)))
  {
    LoopEndsIff(s.totalTx);
    if Within(s, hashIdx, flagIdx) {
      FlagOfPrefix(Elements(s.flags), s.flagsLen, flagIdx);
    }
  }

  /** Whatever its flags and hashes: on a block whose arrays are as long as its counts say the root walk reads inside
      them, and it returns exactly when no set flag is met with 2^31 transactions or more. */
  lemma {:induction false} RunRootIs(h: PairHash, s: Stored, hashIdx: nat, flagIdx: nat, d: nat)
    requires Backed(s)
    ensures RunRoot(h, s, hashIdx, flagIdx, d) ==
            if Returns(BlockOf(s), hashIdx, flagIdx) then Returned(RootWalk(h, BlockOf(s), hashIdx, flagIdx, d))
              else Stuck
    decreases d
  {
    hide ReadFlag, Within;
    var b := BlockOf(s);
    StepBacked(s, hashIdx, flagIdx);
    if d == 0 {
    } else if Returns(b, hashIdx, flagIdx) && More(b, hashIdx, flagIdx) && Flag(b.flags, flagIdx) {
      RunRootIs(h, s, hashIdx, flagIdx + 1, d - 1);
      var l := RootWalk(h, b, hashIdx, flagIdx + 1, d - 1);
      RunRootIs(h, s, l.hashIdx, l.flagIdx, d - 1);
    } else {
    }
  }

  /** The same for the id walk, with or without a buffer. */
  lemma {:induction false} RunTxIs(s: Stored, write: bool, limit: nat, ids: seq<Hash>, hashIdx: nat, flagIdx: nat,
                                   d: nat)
    requires Backed(s)
    ensures RunTx(s, write, limit, ids, hashIdx, flagIdx, d) ==
            if Returns(BlockOf(s), hashIdx, flagIdx) then Returned(TxWalk(BlockOf(s), limit, ids, hashIdx, flagIdx, d))
              else Stuck
    decreases d
  {
    hide ReadFlag, Within;
    var b := BlockOf(s);
    StepBacked(s, hashIdx, flagIdx);
    if d == 0 {
    } else if Returns(b, hashIdx, flagIdx) && More(b, hashIdx, flagIdx) && Flag(b.flags, flagIdx) {
      RunTxIs(s, write, limit, ids, hashIdx, flagIdx + 1, d - 1);
      var l := TxWalk(b, limit, ids, hashIdx, flagIdx + 1, d - 1);
      RunTxIs(s, write, limit, l.ids, l.hashIdx, l.flagIdx, d - 1);
    } else {
    }
  }

  // ---------------------------------------------------------------- in place

  /** The cursors that the C functions share through pointers. The source does not compare an index with the length of
      an array; the model reports the read, and the call that does not end, and stops there. */
  class Walker {
    const h: PairHash
    const block: Stored
    var idx: nat
    var hashIdx: nat
    var flagIdx: nat

    constructor (h: PairHash, block: Stored)
      ensures this.h == h && this.block == block
      ensures idx == 0 && hashIdx == 0 && flagIdx == 0
    {
      this.h := h;
      this.block := block;
      idx, hashIdx, flagIdx := 0, 0, 0;
    }

    /** `block->flags[*flagIdx/8] & (1 << (*flagIdx % 8))`, the increment, and `depth == _ceil_log2(block->totalTx)`
        where the source asks for it. */
    method NextFlag(depth: nat, ghost d: nat) returns (r: Run<bool>, leaf: bool)
      requires depth + d == TreeHeight(block.totalTx)
      modifies this`flagIdx
      ensures r == ReadFlag(block, old(flagIdx))
      ensures r.Returned? ==> flagIdx == old(flagIdx) + 1 && (leaf <==> !r.value || d == 0)
    {
      leaf := true;
      var flags := Elements(block.flags);
      if flagIdx / 8 >= |flags| { return Outside, leaf; }
      FlagIsByteBit(flags, flagIdx);
      var flag := TestBit(flags[flagIdx / 8], flagIdx % 8);
      flagIdx := flagIdx + 1;
      if flag {
        LoopEndsIff(block.totalTx);
        if block.totalTx >= 0x8000_0000 { return Stuck, leaf; }
        var height := CeilLog2(block.totalTx);
        leaf := depth == height;
      }
      r := Returned(flag);
    }

    method RootR(depth: nat, ghost d: nat) returns (r: Run<Hash>)
      requires depth + d == TreeHeight(block.totalTx)
      modifies this`hashIdx, this`flagIdx
      ensures match RunRoot(h, block, old(hashIdx), old(flagIdx), d)
              case Returned(w) => r == Returned(w.md) && hashIdx == w.hashIdx && flagIdx == w.flagIdx
              case Outside => r == Outside
              case Stuck => r == Stuck
      decreases d
    {
      hide ReadFlag;
      r := Returned(ZERO);
      if flagIdx / 8 < block.flagsLen && hashIdx < block.hashesCount {
        var flag, leaf := NextFlag(depth, d);
        if flag.Outside? { return Outside; }
        if flag.Stuck? { return Stuck; }
        if !leaf {
          var left := RootR(depth + 1, d - 1);
          if !left.Returned? { return left; }
          ghost var l := Root(left.value, hashIdx, flagIdx);
          var right := RootR(depth + 1, d - 1);
          if !right.Returned? { return right; }
          ghost var w := Root(right.value, hashIdx, flagIdx);
          assert RunRoot(h, block, old(hashIdx), old(flagIdx), d) == JoinRun(h, l.md, Returned(w));
          if left.value != ZERO && left.value != right.value {
            r := Returned(h(left.value, if right.value == ZERO then left.value else right.value));
          } else {
            hashIdx := SIZE_MAX;
          }
        } else {
          var hashes := Elements(block.hashes);
          if hashIdx >= |hashes| { return Outside; }
          r := Returned(hashes[hashIdx]);
          hashIdx := hashIdx + 1;
        }
      }
    }

    /** `if (flag && *idx < hashesCount)`: one id into the buffer, if there is one. */
    method Take(txHashes: array?<Hash>, hashesCount: nat, ghost ids: seq<Hash>)
      returns (ok: bool, ghost more: seq<Hash>)
      requires |ids| == idx < hashesCount
      requires txHashes != null ==> hashesCount <= txHashes.Length && txHashes[..idx] == ids
      modifies this`idx, txHashes
      ensures ok <==> txHashes == null || hashIdx < |Elements(block.hashes)|
      ensures ok ==> idx == old(idx) + 1
      ensures ok ==>
                more == ids + [if hashIdx < |Elements(block.hashes)| then Elements(block.hashes)[hashIdx] else ZERO]
      ensures ok && txHashes != null ==> txHashes[..idx] == more
    {
      var hashes := Elements(block.hashes);
      more := ids + [if hashIdx < |hashes| then hashes[hashIdx] else ZERO];
      if txHashes != null {
        if hashIdx >= |hashes| { return false, more; }
        txHashes[idx] := hashes[hashIdx];
      }
      idx := idx + 1;
      ok := true;
    }

    method TxHashesR(txHashes: array?<Hash>, hashesCount: nat, depth: nat, ghost d: nat, ghost ids: seq<Hash>)
      returns (r: Run<nat>, ghost found: seq<Hash>)
      requires depth + d == TreeHeight(block.totalTx)
      requires |ids| == idx
      requires txHashes != null ==> idx <= hashesCount <= txHashes.Length && txHashes[..idx] == ids
      modifies this`idx, this`hashIdx, this`flagIdx, txHashes
      ensures match RunTx(block, txHashes != null, hashesCount, ids, old(hashIdx), old(flagIdx), d)
              case Returned(w) =>
                && r == Returned(idx) && found == w.ids && idx == |w.ids| && hashIdx == w.hashIdx &&
                   flagIdx == w.flagIdx
                && (txHashes != null ==> idx <= hashesCount && txHashes[..idx] == w.ids)
              case Outside => r == Outside
              case Stuck => r == Stuck
      decreases d
    {
      hide ReadFlag;
      found := ids;
      if flagIdx / 8 < block.flagsLen && hashIdx < block.hashesCount {
        var flag, leaf := NextFlag(depth, d);
        if flag.Outside? { return Outside, found; }
        if flag.Stuck? { return Stuck, found; }
        if leaf {
          if flag.value && idx < hashesCount {
            var ok;
            ok, found := Take(txHashes, hashesCount, ids);
            if !ok { return Outside, found; }
          }
          hashIdx := hashIdx + 1;
        } else {
          r, found := TxHashesR(txHashes, hashesCount, depth + 1, d - 1, ids);
          if !r.Returned? { return r, found; }
          r, found := TxHashesR(txHashes, hashesCount, depth + 1, d - 1, found);
          if !r.Returned? { return r, found; }
        }
      }
      r := Returned(idx);
    }
  }

  /** The whole root walk, as BRMerkleBlockIsValid starts it. */
  method MerkleRootOf(h: PairHash, block: Stored) returns (r: Run<Hash>)
    ensures match RunRoot(h, block, 0, 0, TreeHeight(block.totalTx))
            case Returned(w) => r == Returned(w.md)
            case Outside => r == Outside
            case Stuck => r == Stuck
  {
    var w := new Walker(h, block);
    r := w.RootR(0, TreeHeight(block.totalTx));
  }

  /** BRMerkleBlockTxHashes: fills `txHashes`, or only counts when it is null. */
  method TxHashes(h: PairHash, block: Stored, txHashes: array?<Hash>, hashesCount: nat) returns (r: Run<nat>)
    requires txHashes != null ==> hashesCount <= txHashes.Length
    modifies txHashes
    ensures var limit := if txHashes == null then SIZE_MAX else hashesCount;
            match RunTx(block, txHashes != null, limit, [], 0, 0, TreeHeight(block.totalTx))
            case Returned(w) => r == Returned(|w.ids|) &&
              (txHashes != null ==> |w.ids| <= hashesCount && txHashes[..|w.ids|] == w.ids)
            case Outside => r == Outside
            case Stuck => r == Stuck
  {
    var w := new Walker(h, block);
    var limit := if txHashes == null then SIZE_MAX else hashesCount;
    ghost var ids;
    r, ids := w.TxHashesR(txHashes, limit, 0, TreeHeight(block.totalTx), []);
  }
}
