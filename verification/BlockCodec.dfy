/** Serializing and parsing a Merkle block with its aux-PoW data (BRMerkleBlock.c). */
module BlockCodec {
  import opened Common
  import opened Words
  import opened VarInts
  import AuxPow

  const SIZE: nat := 0x1_0000_0000_0000_0000

  // The serialized fields of BRMerkleBlock; `hashes`, `flags` and `auxpow` are None for a null pointer.
  datatype Block = Block(
    version: uint32,
    prevBlock: seq<byte>,
    merkleRoot: seq<byte>,
    timestamp: uint32,
    target: uint32,
    nonce: uint32,
    totalTx: uint32,
    hashesCount: uint64,
    hashes: Option<seq<byte>>,
    flagsLen: uint64,
    flags: Option<seq<byte>>,
    auxpow: Option<seq<byte>>)

  /** `version & VERSION_AUXPOW`. */
  predicate IsAuxpow(version: uint32) {
    BitAnd(version, 0x100) != 0
  }

  // ---------------------------------------------------------------- the format

  /** The first 80 bytes. */
  function Header(b: Block): seq<byte> {
    ToLE(b.version, 4) + (b.prevBlock +
      (b.merkleRoot + (ToLE(b.timestamp, 4) + (ToLE(b.target, 4) + ToLE(b.nonce, 4)))))
  }

  /** Aux-PoW data is written only when the version has its bit set. */
  function Aux(b: Block): seq<byte> {
    if b.auxpow.Some? && IsAuxpow(b.version) then b.auxpow.value else []
  }

  /** A null pointer stands for no bytes. */
  function Content(p: Option<seq<byte>>): seq<byte> {
    if p.Some? then p.value else []
  }

  /** Bit 8 of the version says that there is aux-PoW data. */
  lemma AuxpowBit(version: uint32)
    ensures IsAuxpow(version) <==> version / 256 % 2 == 1
  {
    hide Pow2, TestBit;
    TestBitIsBitAnd(version, 8);
    Powers();
    FourDown(version, 8);
    FourDown(version / 16, 4);
    LowestBit(version / 256);
  }

  lemma FourDown(v: nat, k: nat)
    requires k >= 4
    ensures TestBit(v, k) == TestBit(v / 16, k - 4)
  {
    assert TestBit(v, k) == TestBit(v / 2, k - 1);
    assert TestBit(v / 2, k - 1) == TestBit(v / 4, k - 2);
    assert TestBit(v / 4, k - 2) == TestBit(v / 8, k - 3);
  }

  lemma LowestBit(v: nat)
    ensures TestBit(v, 0) <==> v % 2 == 1
  {
  }

  /** The part of a block with transactions: their number, the hashes and the flags. */
  function Tail(b: Block): seq<byte> {
    ToLE(b.totalTx, 4) + (VarInt(b.hashesCount) + (Content(b.hashes) + (VarInt(b.flagsLen) + Content(b.flags))))
  }

  function Image(b: Block): seq<byte> {
    Header(b) + (Aux(b) + TailPart(b))
  }

  /** An image from front to back. */
  lemma ImageLayout(b: Block)
    ensures Image(b) ==
            (ToLE(b.version, 4) + b.prevBlock + b.merkleRoot + ToLE(b.timestamp, 4) + ToLE(b.target, 4) +
             ToLE(b.nonce, 4)) +
            (if b.auxpow.Some? && b.version / 256 % 2 == 1 then b.auxpow.value else []) +
            (if b.totalTx == 0 then []
             else ToLE(b.totalTx, 4) + VarInt(b.hashesCount) + Content(b.hashes) + VarInt(b.flagsLen) +
                  Content(b.flags))
  {
    hide ToLE, VarInt, Content;
    AuxpowBit(b.version);
    FromTheRight(ToLE(b.version, 4), b.prevBlock, b.merkleRoot, ToLE(b.timestamp, 4), ToLE(b.target, 4),
                 ToLE(b.nonce, 4));
    FromTheRight(ToLE(b.totalTx, 4), VarInt(b.hashesCount), Content(b.hashes), VarInt(b.flagsLen), Content(b.flags),
                 []);
    FromTheRight(Header(b), Aux(b), TailPart(b), [], [], []);
  }

  lemma FromTheRight(a: seq<byte>, b: seq<byte>, c: seq<byte>, d: seq<byte>, e: seq<byte>, f: seq<byte>)
    ensures a + b + c + d + e + f == a + (b + (c + (d + (e + f))))
  {
  }

  predicate GoodHeader(b: Block) {
    |b.prevBlock| == 32 && |b.merkleRoot| == 32
  }

  /** The arrays have the sizes that the counts say; without transactions there are none. */
  predicate GoodTail(b: Block) {
    if b.totalTx > 0 then Sized(b)
    else b.hashes == None && b.hashesCount == 0 && b.flags == None && b.flagsLen == 0
  }

  /** The hashes and flags of a block with transactions have the sizes that its counts say; a null pointer will do for a
      count of 0. */
  predicate Sized(b: Block) {
    b.totalTx > 0 ==> |Content(b.hashes)| == 32 * b.hashesCount && |Content(b.flags)| == b.flagsLen
  }

  /** What parsing allocates: an empty array where there was a null pointer. */
  function Allocated(b: Block): Block {
    if b.totalTx > 0 then b.(hashes := Some(Content(b.hashes)), flags := Some(Content(b.flags))) else b
  }

  /** Aux-PoW data is there exactly when the version says so, and is one well-formed record. */
  ghost predicate GoodAux(b: Block, r: AuxPow.Record) {
    if IsAuxpow(b.version) then AuxPow.WellFormed(r) && b.auxpow == Some(AuxPow.RecordBytes(r)) else b.auxpow == None
  }

  // ---------------------------------------------------------------- parsing

  /** What the 80 bytes of a header say; everything else as BRMerkleBlockNew leaves it. */
  function ParseHeader(buf: seq<byte>): Block
    requires |buf| >= 80
  {
    Block(LE32(buf[0..4]), buf[4..36], buf[36..68], LE32(buf[68..72]), LE32(buf[72..76]), LE32(buf[76..80]),
          0, 0, None, 0, None, None)
  }

  // BRSHA256_2, and the scrypt of BRMerkleBlockParse with the header as password and salt.
  datatype Hashers = Hashers(double: Sha, scrypt: Sha)

  // A null block, a read past the buffer, or a block with its block hash and its proof-of-work hash.
  datatype Outcome = Null | OutOfRange | Parsed(block: Block, blockHash: Digest, powHash: Digest)

  /** A parsed block with the two hashes of its first 80 bytes. */
  function Hashed(w: Hashers, header: seq<byte>, b: Block): Outcome {
    Parsed(b, w.double(header), w.scrypt(header))
  }

  /** The bytes from off on, if the buffer claims to have them. Where `off + len` wraps, len is more than half the
      address space and there is no memory for a copy. */
  function Copy(buf: seq<byte>, off: nat, len: nat, bufLen: nat): Option<seq<byte>>
    requires bufLen <= |buf|
  {
    if off + len <= bufLen then Some(buf[off..off + len]) else None
  }

  /** BRVarInt on what is left of the buffer. */
  function Left(buf: seq<byte>, off: nat, bufLen: nat): Reading
    requires bufLen <= |buf|
  {
    if off <= bufLen then Read(buf, off, bufLen - off) else Reading(0, 1)
  }

  /** At the end of the buffer and behind it a number reads as 0 and takes one byte. */
  lemma NothingLeft(buf: seq<byte>, off: nat, bufLen: nat)
    requires bufLen <= |buf| && off >= bufLen
    ensures Left(buf, off, bufLen).value == 0 && Left(buf, off, bufLen).len == 1
  {
  }

  lemma LEBelow64(s: seq<byte>)
    requires |s| <= 8
    ensures LE(s) < SIZE
  {
    LEBound(s);
    Pow2Mono(8 * |s|, 64);
    Powers();
  }

  lemma ReadIs64(buf: seq<byte>, off: nat, bufLen: nat)
    requires off + bufLen <= |buf|
    ensures Read(buf, off, bufLen).value < SIZE
  {
    if bufLen > 0 && Following(buf[off]) > 0 && 1 + Following(buf[off]) <= bufLen {
      LEBelow64(buf[off + 1..off + 1 + Following(buf[off])]);
    }
  }

  /** `count*sizeof(UInt256)` as a size_t. */
  function HashesSize(count: uint64): nat {
    count * 32 % SIZE
  }

  function ParseTail(buf: seq<byte>, off: nat, bufLen: nat, b: Block): Block
    requires bufLen <= |buf| && off + 4 <= bufLen
  {
    var c := Left(buf, off + 4, bufLen);
    LeftIs64(buf, off + 4, bufLen);
    var at := Wrap(off + 4 + c.len);
    var size := HashesSize(c.value);
    var next := Wrap(at + size);
    var f := Left(buf, next, bufLen);
    LeftIs64(buf, next, bufLen);
    b.(totalTx := LE32(buf[off..off + 4]), hashesCount := c.value, hashes := Copy(buf, at, size, bufLen),
       flagsLen := f.value, flags := Copy(buf, Wrap(next + f.len), f.value, bufLen))
  }

  lemma LeftIs64(buf: seq<byte>, off: nat, bufLen: nat)
    requires bufLen <= |buf|
    ensures Left(buf, off, bufLen).value < SIZE
  {
    if off <= bufLen {
      ReadIs64(buf, off, bufLen - off);
    }
  }

  /** BRMerkleBlockParse on a readable memory `buf` of which the caller declares bufLen bytes. A declared length of 81
      with aux-PoW data is taken to leave that data out of account. */
  function Parse(w: Hashers, peek: AuxPow.Peeker, buf: seq<byte>, bufLen: nat): Outcome
    requires bufLen <= |buf|
  {
    if bufLen < 80 then Null
    else
      var h := ParseHeader(buf);
      if !IsAuxpow(h.version) then Hashed(w, buf[..80], WithTail(buf, 80, bufLen, h))
      else
        match AuxPow.SkipRecord(peek, buf, 80)
        case None => OutOfRange
        case Some(end) =>
          if end < 80 || end > |buf| || (bufLen == 81 && end + 1 > |buf|) then OutOfRange
          else
            var declared := if bufLen == 81 then end + 1 else bufLen;
            Hashed(w, buf[..80], WithTail(buf, end, declared, h.(auxpow := Some(buf[80..end]))))
  }

  /** The two hashes of every parsed block are those of its first 80 bytes. */
  lemma ParsedHashes(w: Hashers, peek: AuxPow.Peeker, buf: seq<byte>, bufLen: nat)
    requires bufLen <= |buf|
    ensures var o := Parse(w, peek, buf, bufLen);
            o.Parsed? ==> |buf| >= 80 && o.blockHash == w.double(buf[..80]) && o.powHash == w.scrypt(buf[..80])
  {
    hide AuxPow.SkipRecord, ParseHeader, WithTail, IsAuxpow;
  }

  function WithTail(buf: seq<byte>, off: nat, bufLen: nat, b: Block): Block
    requires bufLen <= |buf|
  {
    if off + 4 <= bufLen then ParseTail(buf, off, bufLen, b) else b
  }

  // ---------------------------------------------------------------- round trip

  lemma LEAt(buf: seq<byte>, off: nat, v: uint32)
    requires At(buf, off, ToLE(v, 4))
    ensures LE32(buf[off..off + 4]) == v
  {
    Powers();
    LEToLE(v, 4);
  }

  /** Where the six header fields lie. */
  lemma HeaderAt(buf: seq<byte>, b: Block)
    requires GoodHeader(b) && At(buf, 0, Header(b))
    ensures At(buf, 0, ToLE(b.version, 4)) && At(buf, 4, b.prevBlock) && At(buf, 36, b.merkleRoot)
    ensures At(buf, 68, ToLE(b.timestamp, 4)) && At(buf, 72, ToLE(b.target, 4)) && At(buf, 76, ToLE(b.nonce, 4))
  {
    var rest := ToLE(b.timestamp, 4) + (ToLE(b.target, 4) + ToLE(b.nonce, 4));
    AtConcat(buf, 0, ToLE(b.version, 4), b.prevBlock + (b.merkleRoot + rest));
    AtConcat(buf, 4, b.prevBlock, b.merkleRoot + rest);
    AtConcat(buf, 36, b.merkleRoot, rest);
    AtConcat(buf, 68, ToLE(b.timestamp, 4), ToLE(b.target, 4) + ToLE(b.nonce, 4));
    AtConcat(buf, 72, ToLE(b.target, 4), ToLE(b.nonce, 4));
  }

  /** The fields of a header alone. */
  function Bare(b: Block): Block {
    b.(totalTx := 0, hashesCount := 0, hashes := None, flagsLen := 0, flags := None, auxpow := None)
  }

  lemma ParseHeaderBack(buf: seq<byte>, b: Block)
    requires GoodHeader(b) && At(buf, 0, Header(b))
    ensures |Header(b)| == 80 <= |buf| && ParseHeader(buf) == Bare(b)
  {
    HeaderAt(buf, b);
    LEAt(buf, 0, b.version);
    LEAt(buf, 68, b.timestamp);
    LEAt(buf, 72, b.target);
    LEAt(buf, 76, b.nonce);
  }

  /** Where the parts of the tail lie: the hash count at p, the hashes at q, the flag count at x, the flags at y. */
  lemma TailAt(buf: seq<byte>, off: nat, b: Block, p: nat, q: nat, x: nat, y: nat)
    requires At(buf, off, Tail(b))
    requires p == off + 4 && q == p + |VarInt(b.hashesCount)| && x == q + |Content(b.hashes)| &&
             y == x + |VarInt(b.flagsLen)|
    ensures At(buf, off, ToLE(b.totalTx, 4)) && At(buf, p, VarInt(b.hashesCount)) && At(buf, q, Content(b.hashes))
    ensures At(buf, x, VarInt(b.flagsLen)) && At(buf, y, Content(b.flags)) && off + |Tail(b)| == y + |Content(b.flags)|
  {
    var h, f := Content(b.hashes), Content(b.flags);
    AtConcat(buf, off, ToLE(b.totalTx, 4), VarInt(b.hashesCount) + (h + (VarInt(b.flagsLen) + f)));
    AtFour(buf, p, VarInt(b.hashesCount), h, VarInt(b.flagsLen), f, q, x, y);
  }

  lemma LeftIs(buf: seq<byte>, off: nat, bufLen: nat, v: uint64)
    requires bufLen <= |buf| && At(buf, off, VarInt(v)) && off + |VarInt(v)| <= bufLen
    ensures Left(buf, off, bufLen) == Reading(v, |VarInt(v)|)
  {
    ReadVarInt(buf, off, bufLen - off, v);
  }

  lemma ParseTailIs(buf: seq<byte>, off: nat, bufLen: nat, h: Block, b: Block, m: nat, n: nat, q: nat, x: nat, y: nat)
    requires bufLen <= |buf| && off + 4 <= bufLen && y <= SIZE_MAX
    requires LE32(buf[off..off + 4]) == b.totalTx && Left(buf, off + 4, bufLen) == Reading(b.hashesCount, m)
    requires q == off + 4 + m && x == q + HashesSize(b.hashesCount) && Left(buf, x, bufLen) == Reading(b.flagsLen, n) &&
             y == x + n
    requires Copy(buf, q, HashesSize(b.hashesCount), bufLen) == Some(Content(b.hashes))
    requires Copy(buf, y, b.flagsLen, bufLen) == Some(Content(b.flags))
    ensures ParseTail(buf, off, bufLen, h) ==
            h.(totalTx := b.totalTx, hashesCount := b.hashesCount, hashes := Some(Content(b.hashes)),
                                                flagsLen := b.flagsLen, flags := Some(Content(b.flags)))
  {
  }

  lemma ParseTailBack(buf: seq<byte>, off: nat, bufLen: nat, h: Block, b: Block)
    requires b.totalTx > 0 && GoodTail(b) && At(buf, off, Tail(b)) && bufLen == off + |Tail(b)| < SIZE
    ensures bufLen <= |buf| && off + 4 <= bufLen
    ensures ParseTail(buf, off, bufLen, h) ==
            h.(totalTx := b.totalTx, hashesCount := b.hashesCount, hashes := Some(Content(b.hashes)),
                                                flagsLen := b.flagsLen, flags := Some(Content(b.flags)))
  {
    hide ParseTail, Left, LE32, VarInt, ToLE, Read, Tail;
    var p := off + 4;
    var q := p + |VarInt(b.hashesCount)|;
    var x := q + |Content(b.hashes)|;
    var y := x + |VarInt(b.flagsLen)|;
    TailAt(buf, off, b, p, q, x, y);
    LEAt(buf, off, b.totalTx);
    LeftIs(buf, p, bufLen, b.hashesCount);
    LeftIs(buf, x, bufLen, b.flagsLen);
    ParseTailIs(buf, off, bufLen, h, b, |VarInt(b.hashesCount)|, |VarInt(b.flagsLen)|, q, x, y);
  }

  lemma WithTailBack(buf: seq<byte>, off: nat, bufLen: nat, h: Block, b: Block)
    requires GoodTail(b) && h == b.(totalTx := 0, hashesCount := 0, hashes := None, flagsLen := 0, flags := None)
    requires bufLen <= |buf| && bufLen < SIZE
    requires At(buf, off, TailPart(b)) && bufLen == off + |TailPart(b)|
    ensures WithTail(buf, off, bufLen, h) == Allocated(b)
  {
    if b.totalTx > 0 {
      ParseTailBack(buf, off, bufLen, h, b);
    }
  }

  lemma RecordLength(r: AuxPow.Record)
    requires AuxPow.WellFormed(r)
    ensures |AuxPow.RecordBytes(r)| >= 80
  {
  }

  lemma HeaderLength(b: Block)
    requires GoodHeader(b)
    ensures |Header(b)| == 80
  {
  }

  function TailPart(b: Block): seq<byte> {
    if b.totalTx > 0 then Tail(b) else []
  }

  /** Where the three parts of an image lie. */
  lemma ImageAt(buf: seq<byte>, b: Block, end: nat)
    requires GoodHeader(b) && GoodTail(b) && At(buf, 0, Image(b)) && end == 80 + |Aux(b)|
    ensures At(buf, 0, Header(b)) && At(buf, 80, Aux(b)) && At(buf, end, TailPart(b)) &&
            |Image(b)| == end + |TailPart(b)|
  {
    HeaderLength(b);
    ThreeAt(buf, Header(b), Aux(b), TailPart(b), 80, end);
  }

  lemma ThreeAt(buf: seq<byte>, h: seq<byte>, a: seq<byte>, t: seq<byte>, p: nat, q: nat)
    requires At(buf, 0, h + (a + t)) && p == |h| && q == p + |a|
    ensures At(buf, 0, h) && At(buf, p, a) && At(buf, q, t) && |h + (a + t)| == q + |t|
  {
    AtConcat(buf, 0, h, a + t);
    AtConcat(buf, p, a, t);
  }

  lemma ParsePlain(w: Hashers, peek: AuxPow.Peeker, buf: seq<byte>, bufLen: nat, h: Block, b: Block)
    requires 80 <= bufLen <= |buf| && h == ParseHeader(buf) && !IsAuxpow(h.version) && WithTail(buf, 80, bufLen, h) == b
    ensures Parse(w, peek, buf, bufLen) == Hashed(w, buf[..80], b)
  {
  }

  lemma ParseAux(w: Hashers, peek: AuxPow.Peeker, buf: seq<byte>, bufLen: nat, h: Block, end: nat, aux: seq<byte>,
                 b: Block)
    requires 81 < bufLen <= |buf| && h == ParseHeader(buf) && IsAuxpow(h.version)
    requires AuxPow.SkipRecord(peek, buf, 80) == Some(end) && 80 <= end <= |buf| && aux == buf[80..end]
    requires WithTail(buf, end, bufLen, h.(auxpow := Some(aux))) == b
    ensures Parse(w, peek, buf, bufLen) == Hashed(w, buf[..80], b)
  {
  }

  lemma AuxAt(peek: AuxPow.Peeker, buf: seq<byte>, b: Block, r: AuxPow.Record, end: nat)
    requires AuxPow.Peeks(peek, buf) && IsAuxpow(b.version) && GoodAux(b, r) && At(buf, 80, Aux(b)) &&
             end == 80 + |Aux(b)|
    ensures AuxPow.SkipRecord(peek, buf, 80) == Some(end) && 160 <= end <= |buf| && b.auxpow == Some(buf[80..end])
  {
    hide AuxPow.WellFormed, AuxPow.RecordBytes, AuxPow.SkipRecord, AuxPow.Peek;
    RecordLength(r);
    AuxPow.SkipRecordBytes(peek, buf, 80, r);
  }

  /** Parsing the image of a block, with or without aux-PoW data, restores every field, whatever memory lies behind;
      null pointers with a count of 0 come back as empty arrays. */
  lemma ParseImage(w: Hashers, peek: AuxPow.Peeker, buf: seq<byte>, b: Block, r: AuxPow.Record)
    requires AuxPow.Peeks(peek, buf) && GoodHeader(b) && GoodTail(b) && GoodAux(b, r)
    requires At(buf, 0, Image(b)) && |Image(b)| < SIZE
    ensures var o := Parse(w, peek, buf, |Image(b)|);
            o.Parsed? && o.block == Allocated(b) && o.blockHash == w.double(Header(b)) &&
            o.powHash == w.scrypt(Header(b))
  {
    var end, n := 80 + |Aux(b)|, |Image(b)|;
    ImageAt(buf, b, end);
    ParseHeaderBack(buf, b);
    if IsAuxpow(b.version) {
      AuxAt(peek, buf, b, r, end);
      WithTailBack(buf, end, n, Bare(b).(auxpow := b.auxpow), b);
      ParseAux(w, peek, buf, n, Bare(b), end, buf[80..end], Allocated(b));
    } else {
      WithTailBack(buf, 80, n, Bare(b), b);
      ParsePlain(w, peek, buf, n, Bare(b), Allocated(b));
    }
  }

  // ---------------------------------------------------------------- BRMerkleBlockSerialize

  function SerializedLength(b: Block): nat {
    80
    + (if b.totalTx > 0 then
         4 + |VarInt(b.hashesCount)| + b.hashesCount * 32 + |VarInt(b.flagsLen)| + b.flagsLen
       else 0)
    + (if b.auxpow.Some? then |b.auxpow.value| else 0)
  }

  /** The arrays that are there have the sizes that the counts say. */
  predicate Present(b: Block) {
    b.totalTx > 0 ==>
      && (b.hashes.Some? ==> |b.hashes.value| == 32 * b.hashesCount)
      && (b.flags.Some? ==> |b.flags.value| == b.flagsLen)
  }

  /** An array in the image at off; where a null pointer has a count, n bytes of what lay under the image stay. */
  function Part(p: Option<seq<byte>>, n: nat, under: seq<byte>, off: nat): seq<byte> {
    if p.Some? then p.value else if off + n <= |under| then under[off..off + n] else []
  }

  function TailOver(b: Block, under: seq<byte>, off: nat): seq<byte> {
    var at := off + 4 + |VarInt(b.hashesCount)|;
    var hashes := Part(b.hashes, b.hashesCount * 32, under, at);
    var flags := Part(b.flags, b.flagsLen, under, at + |hashes| + |VarInt(b.flagsLen)|);
    ToLE(b.totalTx, 4) + (VarInt(b.hashesCount) + (hashes + (VarInt(b.flagsLen) + flags)))
  }

  /** What serializing leaves at the start of a buffer that held `under`. */
  function ImageOver(b: Block, under: seq<byte>): seq<byte> {
    Header(b) + (Aux(b) + (if b.totalTx > 0 then TailOver(b, under, 80 + |Aux(b)|) else []))
  }

  lemma PartLength(p: Option<seq<byte>>, n: nat, under: seq<byte>, off: nat)
    requires (p.Some? ==> |p.value| == n) && (off + n <= |under| || |Content(p)| == n)
    ensures |Part(p, n, under, off)| == n
    ensures |Content(p)| == n ==> Part(p, n, under, off) == Content(p)
  {
  }

  /** Where all the arrays are there, nothing of the old buffer is left in the image. */
  lemma TailOverIs(b: Block, under: seq<byte>, off: nat)
    requires b.totalTx > 0 && Present(b)
    requires Sized(b) || off + 4 + |VarInt(b.hashesCount)| + b.hashesCount * 32 + |VarInt(b.flagsLen)| +
             b.flagsLen <= |under|
    ensures |TailOver(b, under, off)| == 4 + |VarInt(b.hashesCount)| + b.hashesCount * 32 + |VarInt(b.flagsLen)| +
            b.flagsLen
    ensures Sized(b) ==> TailOver(b, under, off) == Tail(b)
  {
    hide Part, VarInt, ToLE;
    var at := off + 4 + |VarInt(b.hashesCount)|;
    PartLength(b.hashes, b.hashesCount * 32, under, at);
    PartLength(b.flags, b.flagsLen, under, at + b.hashesCount * 32 + |VarInt(b.flagsLen)|);
  }

  /** The length that BRMerkleBlockSerialize reports counts aux-PoW data even where it is not written. */
  lemma ImageLength(b: Block, under: seq<byte>)
    requires GoodHeader(b) && Present(b) && (Sized(b) || SerializedLength(b) <= |under|)
    ensures |ImageOver(b, under)| <= SerializedLength(b)
    ensures |ImageOver(b, under)| == SerializedLength(b) <==>
              b.auxpow == None || b.auxpow == Some([]) || IsAuxpow(b.version)
    ensures Sized(b) ==> ImageOver(b, under) == Image(b)
  {
    hide Header, TailOver, Tail, VarInt, Part;
    HeaderLength(b);
    if b.totalTx > 0 {
      TailOverIs(b, under, 80 + |Aux(b)|);
    }
  }

  /** A header of version 0 with one byte of aux-PoW data: 81 bytes are reported and 80 written. */
  lemma ReportsTooMuch()
    ensures var b := Block(0, Zeros(32), Zeros(32), 0, 0, 0, 0, 0, None, 0, None, Some([0]));
            GoodHeader(b) && Sized(b) && SerializedLength(b) == 81 && |Image(b)| == 80
  {
    var b := Block(0, Zeros(32), Zeros(32), 0, 0, 0, 0, 0, None, 0, None, Some([0]));
    HeaderLength(b);
    assert BitAnd(0, 0x100) == 0;
  }

  /** `buf` starts with what has been written, and behind it nothing has changed. */
  ghost predicate Written(buf: array<byte>, off: nat, done: seq<byte>, under: seq<byte>)
    reads buf
  {
    off == |done| <= buf.Length == |under| && buf[..off] == done && buf[off..] == under[off..]
  }

  method Append(buf: array<byte>, off: nat, s: seq<byte>, ghost done: seq<byte>, ghost under: seq<byte>)
    returns (next: nat)
    requires Written(buf, off, done, under) && off + |s| <= buf.Length
    modifies buf
    ensures Written(buf, next, done + s, under) && next == off + |s|
  {
    label before:
    Put(buf, off, s);
    next := off + |s|;
    assert buf[..next] == buf[..off] + buf[off..next];
    assert old@before(buf[next..]) == old@before(buf[off..])[|s|..] == under[off..][|s|..] == under[next..];
  }

  /** `if (p) memcpy(&buf[off], p, n); off += n`. */
  method AppendPart(buf: array<byte>, off: nat, p: Option<seq<byte>>, n: nat, ghost done: seq<byte>,
                    ghost under: seq<byte>)
    returns (next: nat)
    requires Written(buf, off, done, under) && (p.Some? ==> |p.value| == n) && off + n <= buf.Length
    modifies buf
    ensures Written(buf, next, done + Part(p, n, under, off), under) && next == off + n
  {
    if p.Some? {
      next := Append(buf, off, p.value, done, under);
    } else {
      next := off + n;
      assert buf[..next] == buf[..off] + buf[off..][..n];
      assert buf[next..] == buf[off..][n..] == under[off..][n..] == under[next..];
      assert under[off..][..n] == under[off..next];
    }
  }

  method WriteHeader(buf: array<byte>, b: Block, ghost under: seq<byte>) returns (off: nat)
    requires GoodHeader(b) && 80 <= buf.Length && buf[..] == under
    modifies buf
    ensures Written(buf, off, Header(b), under)
  {
    hide ToLE;
    off := 0;
    off := Append(buf, off, ToLE(b.version, 4), [], under);
    ghost var d := [] + ToLE(b.version, 4);
    off := Append(buf, off, b.prevBlock, d, under);
    d := d + b.prevBlock;
    off := Append(buf, off, b.merkleRoot, d, under);
    d := d + b.merkleRoot;
    off := Append(buf, off, ToLE(b.timestamp, 4), d, under);
    d := d + ToLE(b.timestamp, 4);
    off := Append(buf, off, ToLE(b.target, 4), d, under);
    d := d + ToLE(b.target, 4);
    off := Append(buf, off, ToLE(b.nonce, 4), d, under);
    assert d + ToLE(b.nonce, 4) == Header(b);
  }

  lemma FiveParts(s: seq<byte>, a: seq<byte>, b: seq<byte>, c: seq<byte>, d: seq<byte>, e: seq<byte>)
    ensures s + a + b + c + d + e == s + (a + (b + (c + (d + e))))
  {
  }

  method WriteTail(buf: array<byte>, start: nat, b: Block, ghost done: seq<byte>, ghost under: seq<byte>)
    returns (off: nat)
    requires Written(buf, start, done, under) && b.totalTx > 0 && Present(b)
    requires start + 4 + |VarInt(b.hashesCount)| + b.hashesCount * 32 + |VarInt(b.flagsLen)| + b.flagsLen <= buf.Length
    modifies buf
    ensures Written(buf, off, done + TailOver(b, under, start), under)
  {
    hide VarInt, ToLE, Part;
    off := Append(buf, start, ToLE(b.totalTx, 4), done, under);
    ghost var d := done + ToLE(b.totalTx, 4);
    off := Append(buf, off, VarInt(b.hashesCount), d, under);
    d := d + VarInt(b.hashesCount);
    ghost var hashes := Part(b.hashes, b.hashesCount * 32, under, off);
    off := AppendPart(buf, off, b.hashes, b.hashesCount * 32, d, under);
    d := d + hashes;
    off := Append(buf, off, VarInt(b.flagsLen), d, under);
    d := d + VarInt(b.flagsLen);
    ghost var flags := Part(b.flags, b.flagsLen, under, off);
    off := AppendPart(buf, off, b.flags, b.flagsLen, d, under);
    FiveParts(done, ToLE(b.totalTx, 4), VarInt(b.hashesCount), hashes, VarInt(b.flagsLen), flags);
    assert d + flags == done + TailOver(b, under, start);
  }

  method WriteImage(buf: array<byte>, b: Block, ghost under: seq<byte>) returns (off: nat)
    requires GoodHeader(b) && Present(b) && SerializedLength(b) <= buf.Length && buf[..] == under
    modifies buf
    ensures Written(buf, off, ImageOver(b, under), under)
  {
    hide Header, TailOver, VarInt, ToLE;
    HeaderLength(b);
    off := WriteHeader(buf, b, under);
    ghost var done := Header(b);
    ghost var tail := if b.totalTx > 0 then TailOver(b, under, 80 + |Aux(b)|) else [];
    if b.auxpow.Some? && IsAuxpow(b.version) {
      off := Append(buf, off, b.auxpow.value, done, under);
    }
    done := done + Aux(b);
    if b.totalTx > 0 {
      off := WriteTail(buf, off, b, done, under);
    }
    assert done + tail == ImageOver(b, under);
  }

  /** BRMerkleBlockSerialize; a block whose hashes or flags are missing leaves gaps for them. */
  method Serialize(b: Block, buf: array?<byte>, bufLen: nat) returns (r: nat)
    requires GoodHeader(b) && Present(b) && (Sized(b) || SerializedLength(b) < SIZE) &&
             (buf != null ==> bufLen <= buf.Length)
    modifies buf
    ensures r == if buf == null || SerializedLength(b) <= bufLen then SerializedLength(b) else 0
    ensures buf != null && r > 0 ==>
              var image := ImageOver(b, old(buf[..]));
              && |image| <= r && buf[..|image|] == image && buf[|image|..] == old(buf[|image|..])
              && (Sized(b) ==> image == Image(b))
    ensures buf != null && r == 0 ==> buf[..] == old(buf[..])
  {
    hide Header, TailOver, ImageOver, Image;
    var len := SerializedLength(b);
    if buf != null && len <= bufLen {
      ghost var under := buf[..];
      ImageLength(b, under);
      var off := WriteImage(buf, b, under);
    }
    r := if buf == null || len <= bufLen then len else 0;
  }

  // ---------------------------------------------------------------- BRMerkleBlockParse

  method ReadLeft(buf: seq<byte>, off: nat, bufLen: nat) returns (r: Reading)
    requires bufLen <= |buf|
    ensures r == Left(buf, off, bufLen) && r.value < SIZE
  {
    LeftIs64(buf, off, bufLen);
    if off <= bufLen {
      var v, len := BRVarInt(buf, off, bufLen - off);
      r := Reading(v, len);
    } else {
      r := Reading(0, 1);
    }
  }

  method ReadTail(buf: seq<byte>, start: nat, bufLen: nat, b: Block) returns (block: Block)
    requires bufLen <= |buf| && start + 4 <= bufLen
    ensures block == ParseTail(buf, start, bufLen, b)
  {
    hide Left, Copy, LE32, Read;
    block := b;
    var off := start;
    block := block.(totalTx := LE32(buf[off..off + 4]));
    off := off + 4;
    var c := ReadLeft(buf, off, bufLen);
    off := Wrap(off + c.len);
    var len := HashesSize(c.value);
    block := block.(hashesCount := c.value, hashes := Copy(buf, off, len, bufLen));
    off := Wrap(off + len);
    var f := ReadLeft(buf, off, bufLen);
    off := Wrap(off + f.len);
    block := block.(flagsLen := f.value, flags := Copy(buf, off, f.value, bufLen));
  }

  /** BRMerkleBlockParse. */
  method ParseBlock(w: Hashers, buf: seq<byte>, declared: nat, ghost peek: AuxPow.Peeker) returns (r: Outcome)
    requires declared <= |buf| && AuxPow.Peeks(peek, buf)
    ensures r == Parse(w, peek, buf, declared)
    ensures r.Parsed? ==> |buf| >= 80 && r.blockHash == w.double(buf[..80]) && r.powHash == w.scrypt(buf[..80])
  {
    hide AuxPow.SkipRecord, ParseTail, ParseHeader;
    if declared < 80 { return Null; }
    var block := ParseHeader(buf);
    var off, bufLen := 80, declared;
    if IsAuxpow(block.version) {
      var size := AuxPow.CalcAuxpowSize(buf, off, peek);
      if size == None || off + size.value > |buf| { return OutOfRange; }
      block := block.(auxpow := Some(buf[off..off + size.value]));
      off := off + size.value;
      if bufLen == 81 { bufLen := bufLen + size.value; }
      if bufLen > |buf| { return OutOfRange; }
    }
    if off + 4 <= bufLen {
      block := ReadTail(buf, off, bufLen, block);
    }
    return Parsed(block, w.double(buf[..80]), w.scrypt(buf[..80]));
  }

  // ---------------------------------------------------------------- a message of headers

  // A header as a headers message carries it: with its aux-PoW data and the byte of its transaction count.
  datatype Entry = Entry(block: Block, record: AuxPow.Record, count: byte)

  ghost predicate GoodEntry(e: Entry) {
    GoodHeader(e.block) && e.block == Bare(e.block).(auxpow := e.block.auxpow) && GoodAux(e.block, e.record)
  }

  function EntryBytes(e: Entry): seq<byte> {
    Header(e.block) + (Aux(e.block) + [e.count])
  }

  function EntriesBytes(es: seq<Entry>): seq<byte> {
    if es == [] then [] else EntryBytes(es[0]) + EntriesBytes(es[1..])
  }

  function PeekerOf(buf: seq<byte>): AuxPow.Peeker {
    (off: nat) => AuxPow.Peek(buf, off)
  }

  /** The loop over n headers: parse at declared length 81, go on 81 bytes and the aux-PoW data further. None stands for
      a read past the message. */
  function Headers(w: Hashers, msg: seq<byte>, n: nat): Option<seq<Outcome>>
    decreases n
  {
    if n == 0 then Some([])
    else if |msg| < 81 then None
    else
      var o := Parse(w, PeekerOf(msg), msg, 81);
      if !o.Parsed? then None
      else
        var next := 81 + |Content(o.block.auxpow)|;
        if next > |msg| then None
        else
          match Headers(w, msg[next..], n - 1)
          case None => None
          case Some(more) => Some([o] + more)
  }

  function Outcomes(w: Hashers, es: seq<Entry>): (os: seq<Outcome>)
    ensures |os| == |es|
  {
    seq(|es|, i requires 0 <= i < |es| => Hashed(w, Header(es[i].block), es[i].block))
  }

  lemma EntryAt(buf: seq<byte>, e: Entry, end: nat)
    requires GoodEntry(e) && At(buf, 0, EntryBytes(e)) && end == 80 + |Aux(e.block)|
    ensures At(buf, 0, Header(e.block)) && At(buf, 80, Aux(e.block)) && end + 1 <= |buf| && |EntryBytes(e)| == end + 1
  {
    HeaderLength(e.block);
    ThreeAt(buf, Header(e.block), Aux(e.block), [e.count], 80, end);
  }

  /** At declared length 81 a header comes back with its aux-PoW data and no transactions. */
  lemma EntryBack(w: Hashers, peek: AuxPow.Peeker, buf: seq<byte>, e: Entry)
    requires AuxPow.Peeks(peek, buf) && GoodEntry(e) && At(buf, 0, EntryBytes(e))
    ensures |buf| >= |EntryBytes(e)| == 81 + |Content(e.block.auxpow)|
    ensures Parse(w, peek, buf, 81) == Hashed(w, Header(e.block), e.block)
  {
    hide AuxPow.WellFormed, AuxPow.RecordBytes, AuxPow.SkipRecord, AuxPow.Peek, AuxPow.Peeks, Header, ParseHeader;
    var end := 80 + |Aux(e.block)|;
    EntryAt(buf, e, end);
    ParseHeaderBack(buf, e.block);
    assert buf[..80] == Header(e.block);
    if IsAuxpow(e.block.version) {
      AuxAt(peek, buf, e.block, e.record, end);
    }
  }

  lemma FirstEntry(es: seq<Entry>, rest: seq<byte>, msg: seq<byte>, n: nat)
    requires es != [] && msg == EntriesBytes(es) + rest && n == |EntryBytes(es[0])|
    ensures At(msg, 0, EntryBytes(es[0])) && msg[n..] == EntriesBytes(es[1..]) + rest
  {
    hide EntryBytes;
    var first, more := EntryBytes(es[0]), EntriesBytes(es[1..]);
    assert first + more + rest == first + (more + rest);
  }

  lemma HeadersNext(w: Hashers, msg: seq<byte>, n: nat, o: Outcome, next: nat, more: seq<Outcome>)
    requires n > 0 && 81 <= next <= |msg| && o.Parsed? && Parse(w, PeekerOf(msg), msg, 81) == o
    requires next == 81 + |Content(o.block.auxpow)| && Headers(w, msg[next..], n - 1) == Some(more)
    ensures Headers(w, msg, n) == Some([o] + more)
  {
  }

  /** Every list of headers, with or without aux-PoW data and whatever their count bytes, comes back from the message
      that carries them. */
  lemma HeadersBack(w: Hashers, es: seq<Entry>, rest: seq<byte>)
    requires (forall i :: 0 <= i < |es| ==> GoodEntry(es[i])) && |EntriesBytes(es) + rest| <= SIZE_MAX
    ensures var os := Headers(w, EntriesBytes(es) + rest, |es|);
            && os.Some? && |os.value| == |es|
            && forall i :: 0 <= i < |es| ==>
                 os.value[i] == Parsed(es[i].block, w.double(Header(es[i].block)), w.scrypt(Header(es[i].block)))
  {
    HeadersAre(w, es, rest);
  }

  lemma {:induction false} HeadersAre(w: Hashers, es: seq<Entry>, rest: seq<byte>)
    requires (forall i :: 0 <= i < |es| ==> GoodEntry(es[i])) && |EntriesBytes(es) + rest| <= SIZE_MAX
    ensures Headers(w, EntriesBytes(es) + rest, |es|) == Some(Outcomes(w, es))
    decreases |es|
  {
    hide Parse, EntryBytes, Hashed, Header, GoodEntry, AuxPow.Peek;
    var msg := EntriesBytes(es) + rest;
    if es == [] {
    } else {
      var o := Hashed(w, Header(es[0].block), es[0].block);
      var next := |EntryBytes(es[0])|;
      FirstEntry(es, rest, msg, next);
      EntryBack(w, PeekerOf(msg), msg, es[0]);
      HeadersAre(w, es[1..], rest);
      HashedBlock(w, Header(es[0].block), es[0].block);
      HeadersNext(w, msg, |es|, o, next, Outcomes(w, es[1..]));
      assert [o] + Outcomes(w, es[1..]) == Outcomes(w, es);
    }
  }

  lemma HashedBlock(w: Hashers, header: seq<byte>, b: Block)
    ensures Hashed(w, header, b).Parsed? && Hashed(w, header, b).block == b
  {
  }

  /** What is left of the message when the outcomes `done` have been read from it. */
  ghost predicate Remains(w: Hashers, all: Option<seq<Outcome>>, done: seq<Outcome>, msg: seq<byte>, n: nat) {
    match Headers(w, msg, n)
    case None => all == None
    case Some(more) => all == Some(done + more)
  }

  lemma RemainsNext(w: Hashers, all: Option<seq<Outcome>>, done: seq<Outcome>, msg: seq<byte>, n: nat, o: Outcome,
                    next: nat)
    requires n > 0 && |msg| >= 81 && o.Parsed? && Parse(w, PeekerOf(msg), msg, 81) == o && Remains(w, all, done, msg, n)
    requires next == 81 + |Content(o.block.auxpow)| <= |msg|
    ensures Remains(w, all, done + [o], msg[next..], n - 1)
  {
    hide Parse;
    if Headers(w, msg[next..], n - 1).Some? {
      var more := Headers(w, msg[next..], n - 1).value;
      assert done + ([o] + more) == done + [o] + more;
    }
  }

  /** The loop of _BRPeerAcceptHeadersMessage, as far as it parses. */
  method ReadHeaders(w: Hashers, msg: seq<byte>, count: nat) returns (os: Option<seq<Outcome>>)
    requires |msg| <= SIZE_MAX
    ensures os == Headers(w, msg, count)
  {
    hide Parse, AuxPow.Peek;
    ghost var all := Headers(w, msg, count);
    var off, done := 0, [];
    assert msg[0..] == msg && forall more: seq<Outcome> :: [] + more == more;
    for i := 0 to count
      invariant off <= |msg| && Remains(w, all, done, msg[off..], count - i)
    {
      var rest := msg[off..];
      if |rest| < 81 { return None; }
      var o := ParseBlock(w, rest, 81, PeekerOf(rest));
      if !o.Parsed? { return None; }
      var next := 81 + |Content(o.block.auxpow)|;
      if next > |rest| { return None; }
      RemainsNext(w, all, done, rest, count - i, o, next);
      assert rest[next..] == msg[off + next..];
      off, done := off + next, done + [o];
    }
    assert done + [] == done;
    return Some(done);
  }
}
