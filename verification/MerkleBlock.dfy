/**
 From the bytes of a merkleblock message to the walks over the block: which messages BRMerkleBlockParse turns into a
 block whose arrays are as long as its counts say, and what the walks do on one that is not.
 */
module MerkleBlock {
  import opened Common
  import opened Words
  import opened VarInts
  import AuxPow
  import BlockCodec
  import opened Merkle

  /** The array of UInt256 in a string of bytes. */
  function HashesIn(s: seq<byte>): (hashes: seq<Hash>)
    ensures |hashes| == |s| / 32
  {
    seq(|s| / 32, i requires 0 <= i < |s| / 32 => LE(s[32 * i..32 * i + 32]))
  }

  /** The block that the walks get. */
  function StoredOf(b: BlockCodec.Block): Stored {
    Stored(b.totalTx, b.hashesCount, if b.hashes.Some? then Some(HashesIn(b.hashes.value)) else None, b.flagsLen,
      b.flags)
  }

  /** What can be checked on the buffer before the walk, for a tail at off: the size of the hashes does not wrap, and
      hashes and flags lie within the declared length. */
  predicate TailWhole(buf: seq<byte>, off: nat, bufLen: nat)
    requires bufLen <= |buf|
  {
    off + 4 <= bufLen ==>
      var c := BlockCodec.Left(buf, off + 4, bufLen);
      var at := Wrap(off + 4 + c.len);
      BlockCodec.LeftIs64(buf, off + 4, bufLen);
      var next := Wrap(at + BlockCodec.HashesSize(c.value));
      var f := BlockCodec.Left(buf, next, bufLen);
      && 32 * c.value <= SIZE_MAX
      && (c.value == 0 || at + 32 * c.value <= bufLen)
      && (f.value == 0 || Wrap(next + f.len) + f.value <= bufLen)
  }

  /** The same for a whole message. */
  predicate Whole(peek: AuxPow.Peeker, buf: seq<byte>, bufLen: nat)
    requires 80 <= bufLen <= |buf|
  {
    if !BlockCodec.IsAuxpow(BlockCodec.ParseHeader(buf).version) then TailWhole(buf, 80, bufLen)
    else
      match AuxPow.SkipRecord(peek, buf, 80)
      case None => false
      case Some(end) =>
        var declared := if bufLen == 81 then end + 1 else bufLen;
        declared <= |buf| && TailWhole(buf, end, declared)
  }

  /** The hash that both walks treat as missing is 32 zero bytes, and no other. */
  lemma ZeroHash(s: seq<byte>)
    requires |s| == 32
    ensures HashesIn(s) == [ZERO] <==> s == Zeros(32)
  {
    hide LE, HashesIn;
    OneHash(s);
    LEZeros(32);
    assert seq(32, _ => 0 as byte) == Zeros(32);
    if LE(s) == 0 {
      LEInjective(s, Zeros(32));
    }
  }

  lemma OneHash(s: seq<byte>)
    requires |s| == 32
    ensures HashesIn(s) == [LE(s)]
  {
    hide LE;
    assert s[32 * 0..32 * 0 + 32] == s;
  }

  lemma LEInjective(s: seq<byte>, t: seq<byte>)
    requires |s| == |t| && LE(s) == LE(t)
    ensures s == t
  {
    ToLELE(s);
    ToLELE(t);
  }

  lemma HashesBacked(count: uint64, bytes: Option<seq<byte>>, buf: seq<byte>, at: nat, bufLen: nat)
    requires bufLen <= |buf| && bytes == BlockCodec.Copy(buf, at, BlockCodec.HashesSize(count), bufLen)
    ensures count <= |Elements(if bytes.Some? then Some(HashesIn(bytes.value)) else None)|
            <==> 32 * count <= SIZE_MAX && (count == 0 || at + 32 * count <= bufLen)
  {
    hide HashesIn;
    if 32 * count > SIZE_MAX {
      assert BlockCodec.HashesSize(count) <= 32 * count - BlockCodec.SIZE;
    }
  }

  /** Parsing a tail gives a block with its arrays exactly when the tail is whole. */
  lemma TailBacked(buf: seq<byte>, off: nat, bufLen: nat, h: BlockCodec.Block)
    requires bufLen <= |buf| && h.hashesCount == 0 && h.flagsLen == 0
    ensures Backed(StoredOf(BlockCodec.WithTail(buf, off, bufLen, h))) <==> TailWhole(buf, off, bufLen)
  {
    hide HashesIn, BlockCodec.HashesSize, BlockCodec.Left;
    if off + 4 <= bufLen {
      var b := BlockCodec.ParseTail(buf, off, bufLen, h);
      var at := Wrap(off + 4 + BlockCodec.Left(buf, off + 4, bufLen).len);
      HashesBacked(b.hashesCount, b.hashes, buf, at, bufLen);
    }
  }

  /** For every message that is parsed: its arrays are as long as its counts say exactly when the message is whole. */
  lemma ParsedBacked(w: BlockCodec.Hashers, peek: AuxPow.Peeker, buf: seq<byte>, bufLen: nat)
    requires bufLen <= |buf| && BlockCodec.Parse(w, peek, buf, bufLen).Parsed?
    ensures Backed(StoredOf(BlockCodec.Parse(w, peek, buf, bufLen).block)) <==> Whole(peek, buf, bufLen)
  {
    hide BlockCodec.WithTail, TailWhole, AuxPow.SkipRecord, StoredOf, Backed;
    var h := BlockCodec.ParseHeader(buf);
    if !BlockCodec.IsAuxpow(h.version) {
      TailBacked(buf, 80, bufLen, h);
    } else {
      var end := AuxPow.SkipRecord(peek, buf, 80).value;
      TailBacked(buf, end, if bufLen == 81 then end + 1 else bufLen, h.(auxpow := Some(buf[80..end])));
    }
  }

  /** On every message that is whole, both walks read inside the arrays, and return exactly when no set flag is met with
      2^31 transactions or more. */
  lemma WholeIsWalked(w: BlockCodec.Hashers, peek: AuxPow.Peeker, buf: seq<byte>, bufLen: nat, h: PairHash, write: bool,
                      limit: nat)
    requires bufLen <= |buf| && BlockCodec.Parse(w, peek, buf, bufLen).Parsed? && Whole(peek, buf, bufLen)
    ensures var s := StoredOf(BlockCodec.Parse(w, peek, buf, bufLen).block);
            var d := TreeHeight(s.totalTx);
            && Backed(s)
            && RunRoot(h, s, 0, 0, d) ==
               (if Returns(BlockOf(s), 0, 0) then Returned(RootWalk(h, BlockOf(s), 0, 0, d)) else Stuck)
            && RunTx(s, write, limit, [], 0, 0, d) ==
               (if Returns(BlockOf(s), 0, 0) then Returned(TxWalk(BlockOf(s), limit, [], 0, 0, d)) else Stuck)
  {
    hide Whole, BlockCodec.Parse;
    ParsedBacked(w, peek, buf, bufLen);
    var s := StoredOf(BlockCodec.Parse(w, peek, buf, bufLen).block);
    RunRootIs(h, s, 0, 0, TreeHeight(s.totalTx));
    RunTxIs(s, write, limit, [], 0, 0, TreeHeight(s.totalTx));
  }

  // ---------------------------------------------------------------- two messages that are not whole

  /** A header of zeros, one transaction, one hash, and a count of five flag bytes that are not there. */
  function FlagsMissing(): seq<byte> {
    Zeros(80) + ([1, 0, 0, 0] + ([1] + (Zeros(32) + [5])))
  }

  lemma ZerosRead()
    ensures LE32([0, 0, 0, 0]) == 0 && !BlockCodec.IsAuxpow(0)
  {
    assert [0, 0, 0, 0] == seq(4, _ => 0 as byte);
    LEZeros(4);
  }

  lemma PlainHeader(buf: seq<byte>)
    requires |buf| >= 80 && buf[..80] == Zeros(80)
    ensures !BlockCodec.IsAuxpow(BlockCodec.ParseHeader(buf).version)
  {
    ZerosRead();
    assert buf[0..4] == buf[..80][0..4] == [0, 0, 0, 0];
  }

  lemma SmallNumber(n: byte)
    ensures LE32([n, 0, 0, 0]) == n
  {
    assert [n, 0, 0, 0][1..] == [0, 0, 0];
    assert [0, 0, 0] == seq(3, _ => 0 as byte);
    LEZeros(3);
  }

  lemma FlagsMissingBytes()
    ensures var buf := FlagsMissing();
            |buf| == 118 && buf[..80] == Zeros(80) && buf[80..84] == [1, 0, 0, 0] && buf[84] == 1 && buf[117] == 5
  {
    BehindHeader(FlagsMissing(), [1, 0, 0, 0] + ([1] + (Zeros(32) + [5])));
  }

  lemma BehindHeader(buf: seq<byte>, tail: seq<byte>)
    requires buf == Zeros(80) + tail
    ensures |buf| == 80 + |tail| && buf[..80] == Zeros(80) && buf[80..] == tail
    ensures forall k :: 0 <= k < |tail| ==> buf[80 + k] == tail[k]
    ensures forall i, j :: 0 <= i <= j <= |tail| ==> buf[80 + i..80 + j] == tail[i..j]
  {
  }

  lemma FlagsMissingTail(h: BlockCodec.Block, buf: seq<byte>)
    requires |buf| == 118 && buf[80..84] == [1, 0, 0, 0] && buf[84] == 1 && buf[117] == 5
    ensures BlockCodec.WithTail(buf, 80, 118, h) ==
            h.(totalTx := 1, hashesCount := 1, hashes := Some(buf[85..117]), flagsLen := 5, flags := None)
  {
    hide LE32;
    SmallNumber(1);
    assert BlockCodec.Left(buf, 84, 118) == Reading(1, 1);
    assert BlockCodec.Left(buf, 117, 118) == Reading(5, 1);
  }

  /** Without flags the first read of either walk is outside, if the counts let it read at all. */
  lemma NoFlagsRead(h: PairHash, s: Stored, d: nat, write: bool, limit: nat)
    requires s.hashesCount > 0 && s.flagsLen > 0 && Elements(s.flags) == []
    ensures RunRoot(h, s, 0, 0, d) == Outside && RunTx(s, write, limit, [], 0, 0, d) == Outside
  {
  }

  /** It is parsed into a block with a null pointer for its flags, and both walks read through it. */
  lemma FlagsMissingRead(w: BlockCodec.Hashers, peek: AuxPow.Peeker, h: PairHash, write: bool, limit: nat)
    ensures var buf := FlagsMissing();
            var o := BlockCodec.Parse(w, peek, buf, |buf|);
            && |buf| == 118 && o.Parsed? && !Whole(peek, buf, |buf|)
            && o.block.totalTx == 1 && o.block.hashesCount == 1 && o.block.flagsLen == 5 && o.block.flags == None
            && RunRoot(h, StoredOf(o.block), 0, 0, TreeHeight(1)) == Outside
            && RunTx(StoredOf(o.block), write, limit, [], 0, 0, TreeHeight(1)) == Outside
  {
    hide FlagsMissing, HashesIn, RunRoot, RunTx, BlockCodec.WithTail, BlockCodec.ParseHeader, Whole,
      BlockCodec.IsAuxpow;
    var buf := FlagsMissing();
    FlagsMissingBytes();
    PlainHeader(buf);
    FlagsMissingTail(BlockCodec.ParseHeader(buf), buf);
    var b := BlockCodec.WithTail(buf, 80, 118, BlockCodec.ParseHeader(buf));
    assert BlockCodec.Parse(w, peek, buf, 118) == BlockCodec.Hashed(w, buf[..80], b);
    NoFlagsRead(h, StoredOf(b), TreeHeight(1), write, limit);
    ParsedBacked(w, peek, buf, 118);
  }

  /** A header of zeros, two transactions and 2^59 + 1 hashes, of which 2^64 + 32 bytes wrap to one; all flags set. */
  function CountWraps(): seq<byte> {
    Zeros(80) + ([2, 0, 0, 0] + ([0xff, 1, 0, 0, 0, 0, 0, 0, 8] + ([1] + (Zeros(31) + [1, 7]))))
  }

  lemma CountWrapsBytes()
    ensures var buf := CountWraps();
            && |buf| == 127 && buf[..80] == Zeros(80) && buf[80..84] == [2, 0, 0, 0] && buf[84] == 0xff
            && buf[85..93] == [1, 0, 0, 0, 0, 0, 0, 8] && buf[125] == 1 && buf[126] == 7
  {
    var tail: seq<byte> := [2, 0, 0, 0] + ([0xff, 1, 0, 0, 0, 0, 0, 0, 8] + ([1] + (Zeros(31) + [1, 7])));
    var buf := CountWraps();
    BehindHeader(buf, tail);
    assert tail[0..4] == [2, 0, 0, 0] && tail[4] == 0xff && tail[5..13] == [1, 0, 0, 0, 0, 0, 0, 8];
    assert |tail| == 47 && tail[45] == 1 && tail[46] == 7;
    assert buf[80..84] == tail[0..4] && buf[85..93] == tail[5..13];
  }

  lemma WideNumber(s: seq<byte>)
    requires s == [1, 0, 0, 0, 0, 0, 0, 8]
    ensures LE(s) == 0x0800_0000_0000_0001
  {
    var t: seq<byte> := [0, 0, 0, 0, 0, 0, 8];
    assert s[1..] == t && t[1..] == [0, 0, 0, 0, 0, 8] && t[2..] == [0, 0, 0, 0, 8];
    assert t[1..][1..] == t[2..] && t[2..][1..] == [0, 0, 0, 8] && [0, 0, 0, 8][1..] == [0, 0, 8];
    assert [0, 0, 8][1..] == [0, 8] && [0, 8][1..] == [8] && [8][1..] == [];
    assert LE([8]) == 8 && LE([0, 8]) == 0x800 && LE([0, 0, 8]) == 0x8_0000 && LE([0, 0, 0, 8]) == 0x800_0000;
    assert LE(t[2..]) == 0x8_0000_0000 && LE(t[1..]) == 0x800_0000_0000 && LE(t) == 0x8_0000_0000_0000;
  }

  lemma CountWrapsTail(h: BlockCodec.Block, buf: seq<byte>)
    requires |buf| == 127 && buf[80..84] == [2, 0, 0, 0] && buf[84] == 0xff
    requires buf[85..93] == [1, 0, 0, 0, 0, 0, 0, 8] && buf[125] == 1 && buf[126] == 7
    ensures BlockCodec.WithTail(buf, 80, 127, h) ==
            h.(totalTx := 2, hashesCount := 0x0800_0000_0000_0001, hashes := Some(buf[93..125]), flagsLen := 1,
              flags := Some([7]))
  {
    hide LE32, LE;
    SmallNumber(2);
    WideNumber(buf[85..93]);
    assert BlockCodec.Left(buf, 84, 127) == Reading(0x0800_0000_0000_0001, 9);
    assert BlockCodec.HashesSize(0x0800_0000_0000_0001) == 32;
    assert BlockCodec.Left(buf, 125, 127) == Reading(1, 1);
    assert buf[126..127] == [7];
  }

  lemma FlagsOfSeven(flags: seq<byte>)
    requires flags == [7]
    ensures Flag(flags, 0) && Flag(flags, 1) && Flag(flags, 2)
  {
    BitsOfSeven(flags[0]);
  }

  lemma BitsOfSeven(x: nat)
    requires x == 7
    ensures TestBit(x, 0) && TestBit(x, 1) && TestBit(x, 2)
  {
    assert x / 2 == 3 && x / 2 / 2 == 1;
    assert TestBit(x / 2, 0) && TestBit(x / 2 / 2, 0);
    assert TestBit(x / 2, 1);
  }

  /** Two leaves are announced and one is there. */
  lemma SecondLeafRead(h: PairHash, s: Stored, d: nat, limit: nat)
    requires s.totalTx == 2 && s.hashesCount >= 2 && |Elements(s.hashes)| == 1 && s.flagsLen == 1 &&
             s.flags == Some([7])
    requires d == 1 && limit >= 2
    ensures RunRoot(h, s, 0, 0, d) == Outside && RunTx(s, true, limit, [], 0, 0, d) == Outside
  {
    FlagsOfSeven(s.flags.value);
    LoopEndsIff(2);
    var x := Elements(s.hashes)[0];
    assert RunRoot(h, s, 0, 1, 0) == Returned(Root(x, 1, 2)) && RunRoot(h, s, 1, 2, 0) == Outside;
    assert RunTx(s, true, limit, [], 0, 1, 0) == Returned(Matched([] + [x], 1, 2));
    assert RunTx(s, true, limit, [] + [x], 1, 2, 0) == Outside;
  }

  /** It is parsed into a block with one hash, and both walks read the second one. */
  lemma CountWrapsRead(w: BlockCodec.Hashers, peek: AuxPow.Peeker, h: PairHash, limit: nat)
    requires limit >= 2
    ensures var buf := CountWraps();
            var o := BlockCodec.Parse(w, peek, buf, |buf|);
            && |buf| == 127 && o.Parsed? && !Whole(peek, buf, |buf|)
            && o.block.totalTx == 2 && o.block.hashesCount == 0x0800_0000_0000_0001
            && RunRoot(h, StoredOf(o.block), 0, 0, TreeHeight(2)) == Outside
            && RunTx(StoredOf(o.block), true, limit, [], 0, 0, TreeHeight(2)) == Outside
  {
    hide CountWraps, RunRoot, RunTx, BlockCodec.WithTail, BlockCodec.ParseHeader, Whole, BlockCodec.IsAuxpow;
    var buf := CountWraps();
    CountWrapsBytes();
    PlainHeader(buf);
    CountWrapsTail(BlockCodec.ParseHeader(buf), buf);
    var b := BlockCodec.WithTail(buf, 80, 127, BlockCodec.ParseHeader(buf));
    assert BlockCodec.Parse(w, peek, buf, 127) == BlockCodec.Hashed(w, buf[..80], b);
    SecondLeafRead(h, StoredOf(b), TreeHeight(2), limit);
    ParsedBacked(w, peek, buf, 127);
  }
}
