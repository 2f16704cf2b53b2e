/**
 The length of an aux-PoW record (calcAuxpowSize in BRMerkleBlock.c): a coinbase transaction in either of its two
 serializations, two hash branches and the parent block's header.
 */
module AuxPow {
  import opened Common
  import opened Words
  import opened VarInts

  // ---------------------------------------------------------------- the format

  // A counted list of `count` units between two fixed-size parts.
  datatype Item = Item(pre: seq<byte>, count: uint64, body: seq<byte>, post: seq<byte>)

  datatype Shape = Shape(pre: nat, unit: nat, post: nat)

  const INPUT: Shape := Shape(36, 1, 4)
  const OUTPUT: Shape := Shape(8, 1, 0)
  const WITNESS: Shape := Shape(0, 1, 0)
  const MESSAGE: Shape := Shape(0, 1, 0)
  const COINBASE_BRANCH: Shape := Shape(32, 32, 4)
  const BLOCKCHAIN_BRANCH: Shape := Shape(0, 32, 4)

  predicate Good(i: Item, sh: Shape) {
    |i.pre| == sh.pre && |i.body| == sh.unit * i.count && |i.post| == sh.post
  }

  predicate AllGood(s: seq<Item>, sh: Shape) {
    |s| <= 0xffff_ffff_ffff_ffff && forall k :: 0 <= k < |s| ==> Good(s[k], sh)
  }

  function ItemBytes(i: Item): seq<byte> {
    i.pre + (VarInt(i.count) + (i.body + i.post))
  }

  function ItemsBytes(s: seq<Item>): seq<byte> {
    if s == [] then [] else ItemBytes(s[0]) + ItemsBytes(s[1..])
  }

  /** A list with its length in front. */
  function Counted(s: seq<Item>): seq<byte>
    requires |s| <= 0xffff_ffff_ffff_ffff
  {
    VarInt(|s|) + ItemsBytes(s)
  }

  function StacksBytes(w: seq<seq<Item>>): seq<byte>
    requires forall k :: 0 <= k < |w| ==> |w[k]| <= 0xffff_ffff_ffff_ffff
  {
    if w == [] then [] else Counted(w[0]) + StacksBytes(w[1..])
  }

  // ---------------------------------------------------------------- skipping

  /** BRVarInt(&buf[off], 9, &len), or None where it would read past the buffer. */
  function Peek(buf: seq<byte>, off: nat): Option<Reading> {
    if off < |buf| && off + 1 + Following(buf[off]) <= |buf| then Some(Read(buf, off, 1 + Following(buf[off])))
      else None
  }

  // Reading a varint at an offset of a fixed buffer. The skipping functions get it as a parameter, so that proofs about
  // them need not look inside a varint.
  type Peeker = nat -> Option<Reading>

  ghost predicate Peeks(peek: Peeker, buf: seq<byte>) {
    |buf| <= SIZE_MAX && forall off {:trigger Peek(buf, off)} :: peek(off) == Peek(buf, off)
  }

  lemma PeekVarInt(peek: Peeker, buf: seq<byte>, off: nat, v: uint64)
    requires Peeks(peek, buf) && At(buf, off, VarInt(v))
    ensures peek(off) == Some(Reading(v, |VarInt(v)|))
  {
    assert peek(off) == Peek(buf, off);
    VarIntParts(v);
    assert buf[off] == buf[off..off + |VarInt(v)|][0];
    ReadVarInt(buf, off, |VarInt(v)|, v);
  }

  function SkipItem(peek: Peeker, off: nat, sh: Shape): Option<nat> {
    match peek(Wrap(off + sh.pre))
    case None => None
    case Some(r) => Some(Wrap(off + sh.pre + r.len + sh.unit * r.value + sh.post))
  }

  function SkipItems(peek: Peeker, off: nat, sh: Shape, n: nat): Option<nat>
    decreases n
  {
    if n == 0 then Some(off)
    else
      match SkipItem(peek, off, sh)
      case None => None
      case Some(next) => SkipItems(peek, next, sh, n - 1)
  }

  /** A count and that many items. */
  function SkipCounted(peek: Peeker, off: nat, sh: Shape): Option<nat> {
    match peek(off)
    case None => None
    case Some(r) => SkipItems(peek, Wrap(off + r.len), sh, r.value)
  }

  function SkipStacks(peek: Peeker, off: nat, n: nat): Option<nat>
    decreases n
  {
    if n == 0 then Some(off)
    else
      match SkipCounted(peek, off, WITNESS)
      case None => None
      case Some(next) => SkipStacks(peek, next, n - 1)
  }

  lemma SkipItemBytes(peek: Peeker, buf: seq<byte>, off: nat, sh: Shape, i: Item)
    requires Peeks(peek, buf)
    requires Good(i, sh) && At(buf, off, ItemBytes(i))
    ensures SkipItem(peek, off, sh) == Some(off + |ItemBytes(i)|)
  {
    var v := VarInt(i.count);
    var p := off + |i.pre|;
    AtFour(buf, off, i.pre, v, i.body, i.post, p, p + |v|, p + |v| + |i.body|);
    PeekVarInt(peek, buf, p, i.count);
    ItemIs(peek, off, sh, i.count, |v|, |i.body|);
  }

  lemma ItemIs(peek: Peeker, off: nat, sh: Shape, count: nat, len: nat, size: nat)
    requires peek(off + sh.pre) == Some(Reading(count, len)) && size == sh.unit * count
    requires off + sh.pre + len + size + sh.post <= SIZE_MAX
    ensures SkipItem(peek, off, sh) == Some(off + sh.pre + len + size + sh.post)
  {
  }

  lemma {:induction false} SkipItemsBytes(peek: Peeker, buf: seq<byte>, off: nat, sh: Shape, s: seq<Item>)
    requires Peeks(peek, buf)
    requires AllGood(s, sh) && At(buf, off, ItemsBytes(s))
    ensures SkipItems(peek, off, sh, |s|) == Some(off + |ItemsBytes(s)|)
    decreases |s|
  {
    hide Good, ItemBytes, SkipItem;
    if s == [] {
    } else {
      var first, rest := ItemBytes(s[0]), ItemsBytes(s[1..]);
      var next := off + |first|;
      AtConcat(buf, off, first, rest);
      SkipItemBytes(peek, buf, off, sh, s[0]);
      SkipItemsBytes(peek, buf, next, sh, s[1..]);
      ItemsStep(peek, off, sh, |s|, next, next + |rest|);
    }
  }

  lemma ItemsStep(peek: Peeker, off: nat, sh: Shape, n: nat, next: nat, end: nat)
    requires n > 0 && SkipItem(peek, off, sh) == Some(next) && SkipItems(peek, next, sh, n - 1) == Some(end)
    ensures SkipItems(peek, off, sh, n) == Some(end)
  {
  }

  lemma SkipCountedBytes(peek: Peeker, buf: seq<byte>, off: nat, sh: Shape, s: seq<Item>)
    requires Peeks(peek, buf)
    requires AllGood(s, sh) && At(buf, off, Counted(s))
    ensures SkipCounted(peek, off, sh) == Some(off + |Counted(s)|)
  {
    hide Good, SkipItems, ItemsBytes, VarInt;
    var v := VarInt(|s|);
    var body := ItemsBytes(s);
    AtConcat(buf, off, v, body);
    PeekVarInt(peek, buf, off, |s|);
    SkipItemsBytes(peek, buf, off + |v|, sh, s);
    CountedIs(peek, off, sh, |s|, v, off + |v| + |body|);
  }

  lemma CountedIs(peek: Peeker, off: nat, sh: Shape, n: nat, v: seq<byte>, end: nat)
    requires off + |v| <= SIZE_MAX
    requires peek(off) == Some(Reading(n, |v|)) && SkipItems(peek, off + |v|, sh, n) == Some(end)
    ensures SkipCounted(peek, off, sh) == Some(end)
  {
  }

  lemma {:induction false} SkipStacksBytes(peek: Peeker, buf: seq<byte>, off: nat, w: seq<seq<Item>>)
    requires Peeks(peek, buf)
    requires GoodStacks(w)
    requires At(buf, off, StacksBytes(w))
    ensures SkipStacks(peek, off, |w|) == Some(off + |StacksBytes(w)|)
    decreases |w|
  {
    hide Counted, SkipCounted, AllGood, At;
    if w == [] {
    } else {
      var first, rest := Counted(w[0]), StacksBytes(w[1..]);
      var next := off + |first|;
      AtConcat(buf, off, first, rest);
      SkipCountedBytes(peek, buf, off, WITNESS, w[0]);
      SkipStacksBytes(peek, buf, next, w[1..]);
      StacksStep(peek, off, |w|, next, next + |rest|);
    }
  }

  lemma StacksStep(peek: Peeker, off: nat, n: nat, next: nat, end: nat)
    requires n > 0 && SkipCounted(peek, off, WITNESS) == Some(next) && SkipStacks(peek, next, n - 1) == Some(end)
    ensures SkipStacks(peek, off, n) == Some(end)
  {
  }

  // ---------------------------------------------------------------- whole records

  datatype Record = Record(
    version: uint32,
    inputs: seq<Item>,
    outputs: seq<Item>,
    stacks: Option<seq<seq<Item>>>,
    lockTime: seq<byte>,
    message: Item,
    coinbaseBranch: Item,
    blockchainBranch: Item,
    parent: seq<byte>)

  predicate GoodStacks(w: seq<seq<Item>>) {
    forall k :: 0 <= k < |w| ==> |w[k]| <= 0xffff_ffff_ffff_ffff && AllGood(w[k], WITNESS)
  }

  /** A record as the network writes it: at least one input, a witness stack for each input or none at all. */
  predicate WellFormed(r: Record) {
    && r.inputs != [] && AllGood(r.inputs, INPUT) && AllGood(r.outputs, OUTPUT)
    && (r.stacks.Some? ==> |r.stacks.value| == |r.inputs| && GoodStacks(r.stacks.value))
    && |r.lockTime| == 4 && Good(r.message, MESSAGE)
    && Good(r.coinbaseBranch, COINBASE_BRANCH) && Good(r.blockchainBranch, BLOCKCHAIN_BRANCH)
    && |r.parent| == 80
  }

  function Marker(r: Record): seq<byte> {
    if r.stacks.Some? then [0, 1] else []
  }

  function Stacks(r: Record): seq<byte>
    requires WellFormed(r)
  {
    if r.stacks.Some? then StacksBytes(r.stacks.value) else []
  }

  /** Only transactions of version 2 and up carry a message. */
  function Message(r: Record): seq<byte> {
    if r.version > 1 then ItemBytes(r.message) else []
  }

  /** Version, marker, inputs and outputs. */
  function Front(r: Record): seq<byte>
    requires WellFormed(r)
  {
    ToLE(r.version, 4) + (Marker(r) + (Counted(r.inputs) + Counted(r.outputs)))
  }

  function Back(r: Record): seq<byte> {
    Message(r) + (ItemBytes(r.coinbaseBranch) + (ItemBytes(r.blockchainBranch) + r.parent))
  }

  function RecordBytes(r: Record): seq<byte>
    requires WellFormed(r)
  {
    Front(r) + (Stacks(r) + (r.lockTime + Back(r)))
  }

  /** The sizes of the fields of a well-formed record. */
  lemma FieldSizes(r: Record)
    requires WellFormed(r)
    ensures forall k :: 0 <= k < |r.inputs| ==>
              |r.inputs[k].pre| == 36 && |r.inputs[k].body| == r.inputs[k].count && |r.inputs[k].post| == 4
    ensures forall k :: 0 <= k < |r.outputs| ==>
              |r.outputs[k].pre| == 8 && |r.outputs[k].body| == r.outputs[k].count && r.outputs[k].post == []
    ensures r.stacks.Some? ==>
              forall i, k :: 0 <= i < |r.stacks.value| && 0 <= k < |r.stacks.value[i]| ==>
                var w := r.stacks.value[i][k]; w.pre == w.post == [] && |w.body| == w.count
    ensures r.message.pre == r.message.post == [] && |r.message.body| == r.message.count
    ensures |r.coinbaseBranch.pre| == 32 && |r.coinbaseBranch.body| == 32 * r.coinbaseBranch.count &&
            |r.coinbaseBranch.post| == 4
    ensures r.blockchainBranch.pre == [] && |r.blockchainBranch.body| == 32 * r.blockchainBranch.count &&
            |r.blockchainBranch.post| == 4
    ensures |r.lockTime| == 4 && |r.parent| == 80
  {
  }

  lemma FrontLayout(r: Record)
    requires WellFormed(r)
    ensures Front(r) ==
            ToLE(r.version, 4) + (if r.stacks.Some? then [0, 1] else []) +
            VarInt(|r.inputs|) + ItemsBytes(r.inputs) + VarInt(|r.outputs|) + ItemsBytes(r.outputs)
  {
    hide Good, VarInt, ItemsBytes, ToLE, GoodStacks;
    LeftToRight(ToLE(r.version, 4), Marker(r), VarInt(|r.inputs|), ItemsBytes(r.inputs), VarInt(|r.outputs|),
                ItemsBytes(r.outputs));
  }

  lemma BackLayout(r: Record)
    requires WellFormed(r)
    ensures var coinbase, chain := r.coinbaseBranch, r.blockchainBranch;
            Back(r) ==
            (if r.version >= 2 then VarInt(r.message.count) + r.message.body else []) +
            (coinbase.pre + VarInt(coinbase.count) + coinbase.body + coinbase.post) +
            (VarInt(chain.count) + chain.body + chain.post) + r.parent
  {
    hide VarInt, AllGood, GoodStacks;
    var c, b := r.coinbaseBranch, r.blockchainBranch;
    LeftToRight(c.pre, VarInt(c.count), c.body, c.post, [], []);
    LeftToRight(b.pre, VarInt(b.count), b.body, b.post, [], []);
    LeftToRight(Message(r), ItemBytes(c), ItemBytes(b), r.parent, [], []);
  }

  /** A record from front to back. */
  lemma RecordLayout(r: Record)
    requires WellFormed(r)
    ensures var coinbase, chain := r.coinbaseBranch, r.blockchainBranch;
            RecordBytes(r) ==
            ToLE(r.version, 4) + (if r.stacks.Some? then [0, 1] else []) +
            VarInt(|r.inputs|) + ItemsBytes(r.inputs) + VarInt(|r.outputs|) + ItemsBytes(r.outputs) +
            Stacks(r) + r.lockTime +
            ((if r.version >= 2 then VarInt(r.message.count) + r.message.body else []) +
             (coinbase.pre + VarInt(coinbase.count) + coinbase.body + coinbase.post) +
             (VarInt(chain.count) + chain.body + chain.post) + r.parent)
  {
    hide Front, Back, Stacks, VarInt, ItemsBytes, ToLE;
    FrontLayout(r);
    BackLayout(r);
    LeftToRight(Front(r), Stacks(r), r.lockTime, Back(r), [], []);
  }

  lemma LeftToRight(a: seq<byte>, b: seq<byte>, c: seq<byte>, d: seq<byte>, e: seq<byte>, f: seq<byte>)
    ensures a + b + c + d + e + f == a + (b + (c + (d + (e + f))))
  {
  }

  // What calcAuxpowSize keeps from the front: where it is, the version, the number of inputs and the witness flag.
  datatype Seen = Seen(off: nat, version: nat, inputs: nat, isWitness: bool)

  predicate Marked(buf: seq<byte>, off: nat) {
    off + 1 < |buf| && buf[off] == 0 && buf[off + 1] == 1
  }

  function SkipFront(peek: Peeker, buf: seq<byte>, off: nat): Option<Seen> {
    if off + 4 >= |buf| || (buf[off + 4] == 0 && off + 5 >= |buf|) then None
    else
      var marked := Marked(buf, off + 4);
      var at := if marked then off + 6 else off + 4;
      match peek(at)
      case None => None
      case Some(r) =>
        match SkipCounted(peek, at, INPUT)
        case None => None
        case Some(mid) =>
          match SkipCounted(peek, mid, OUTPUT)
          case None => None
          case Some(end) => Some(Seen(end, LE(buf[off..off + 4]), r.value, marked))
  }

  function SkipBack(peek: Peeker, off: nat, version: nat): Option<nat> {
    match (if version > 1 then SkipItem(peek, off, MESSAGE) else Some(off))
    case None => None
    case Some(a) =>
      match SkipItem(peek, a, COINBASE_BRANCH)
      case None => None
      case Some(b) =>
        match SkipItem(peek, b, BLOCKCHAIN_BRANCH)
        case None => None
        case Some(c) => Some(Wrap(c + 80))
  }

  // Where the second half of a record starts, and the version that decides whether it has a message.
  datatype Middle = Middle(off: nat, version: nat)

  function SkipFirstHalf(peek: Peeker, buf: seq<byte>, off: nat): Option<Middle> {
    match SkipFront(peek, buf, off)
    case None => None
    case Some(s) =>
      match (if s.isWitness then SkipStacks(peek, s.off, s.inputs) else Some(s.off))
      case None => None
      case Some(a) => Some(Middle(Wrap(a + 4), s.version))
  }

  /** Where the record at off ends, or None where calcAuxpowSize would read past the buffer. */
  function SkipRecord(peek: Peeker, buf: seq<byte>, off: nat): Option<nat> {
    match SkipFirstHalf(peek, buf, off)
    case None => None
    case Some(m) => SkipBack(peek, m.off, m.version)
  }

  lemma FirstByte(n: uint64)
    requires n >= 1
    ensures VarInt(n)[0] != 0
  {
  }

  lemma FrontParts(buf: seq<byte>, off: nat, r: Record, at: nat, mid: nat)
    requires WellFormed(r) && At(buf, off, Front(r)) && at == off + 4 + |Marker(r)| && mid == at + |Counted(r.inputs)|
    ensures At(buf, off, ToLE(r.version, 4)) && At(buf, off + 4, Marker(r))
    ensures At(buf, at, Counted(r.inputs)) && At(buf, mid, Counted(r.outputs))
    ensures off + |Front(r)| == mid + |Counted(r.outputs)|
  {
    AtFour(buf, off, ToLE(r.version, 4), Marker(r), Counted(r.inputs), Counted(r.outputs), off + 4, at, mid);
  }

  lemma StartAt(peek: Peeker, buf: seq<byte>, off: nat, r: Record, at: nat)
    requires Peeks(peek, buf) && r.inputs != [] && |r.inputs| <= 0xffff_ffff_ffff_ffff && at == off + 4 + |Marker(r)|
    requires At(buf, off, ToLE(r.version, 4)) && At(buf, off + 4, Marker(r)) && At(buf, at, Counted(r.inputs))
    ensures off + 4 < |buf| && (buf[off + 4] == 0 ==> off + 5 < |buf|) && LE(buf[off..off + 4]) == r.version
    ensures Marked(buf, off + 4) == r.stacks.Some? && at == (if r.stacks.Some? then off + 6 else off + 4)
    ensures peek(at) == Some(Reading(|r.inputs|, |VarInt(|r.inputs|)|))
  {
    VersionAt(buf, off, r.version);
    CountAt(peek, buf, at, r.inputs);
    MarkerAt(buf, off + 4, Marker(r));
  }

  lemma SkipFrontBytes(peek: Peeker, buf: seq<byte>, off: nat, r: Record)
    requires Peeks(peek, buf) && WellFormed(r) && At(buf, off, Front(r))
    ensures SkipFront(peek, buf, off) == Some(Seen(off + |Front(r)|, r.version, |r.inputs|, r.stacks.Some?))
  {
    hide Front, SkipCounted, Marked, VarInt, Good;
    var at := off + 4 + |Marker(r)|;
    var mid := at + |Counted(r.inputs)|;
    FrontParts(buf, off, r, at, mid);
    StartAt(peek, buf, off, r, at);
    SkipCountedBytes(peek, buf, at, INPUT, r.inputs);
    SkipCountedBytes(peek, buf, mid, OUTPUT, r.outputs);
    FrontIs(peek, buf, off, r.version, r.stacks.Some?, at, |r.inputs|, |VarInt(|r.inputs|)|, mid, off + |Front(r)|);
  }

  lemma FrontIs(peek: Peeker, buf: seq<byte>, off: nat, version: nat, marked: bool, at: nat, n: nat, len: nat, mid: nat,
                end: nat)
    requires off + 4 < |buf| && (buf[off + 4] == 0 ==> off + 5 < |buf|) && LE(buf[off..off + 4]) == version
    requires Marked(buf, off + 4) == marked && at == (if marked then off + 6 else off + 4)
    requires peek(at) == Some(Reading(n, len)) && SkipCounted(peek, at, INPUT) == Some(mid) &&
             SkipCounted(peek, mid, OUTPUT) == Some(end)
    ensures SkipFront(peek, buf, off) == Some(Seen(end, version, n, marked))
  {
  }

  lemma VersionAt(buf: seq<byte>, off: nat, version: uint32)
    requires At(buf, off, ToLE(version, 4))
    ensures LE(buf[off..off + 4]) == version
  {
    Powers();
    LEToLE(version, 4);
  }

  lemma CountAt(peek: Peeker, buf: seq<byte>, at: nat, s: seq<Item>)
    requires Peeks(peek, buf)
    requires |s| <= 0xffff_ffff_ffff_ffff && s != [] && At(buf, at, Counted(s))
    ensures peek(at) == Some(Reading(|s|, |VarInt(|s|)|)) && at < |buf| && buf[at] != 0
  {
    var v := VarInt(|s|);
    AtConcat(buf, at, v, ItemsBytes(s));
    PeekVarInt(peek, buf, at, |s|);
    FirstByte(|s|);
    assert buf[at] == buf[at..at + |v|][0];
  }

  lemma MarkerAt(buf: seq<byte>, off: nat, m: seq<byte>)
    requires (m == [] || m == [0, 1]) && At(buf, off, m) && off + |m| < |buf| && buf[off + |m|] != 0
    ensures Marked(buf, off) <==> m == [0, 1]
    ensures off < |buf| && (buf[off] == 0 ==> off + 1 < |buf|)
  {
    if m == [0, 1] {
      assert buf[off] == buf[off..off + 2][0] && buf[off + 1] == buf[off..off + 2][1];
    }
  }

  lemma SkipBackBytes(peek: Peeker, buf: seq<byte>, off: nat, r: Record)
    requires Peeks(peek, buf)
    requires WellFormed(r) && At(buf, off, Back(r))
    ensures SkipBack(peek, off, r.version) == Some(off + |Back(r)|)
  {
    hide Good, SkipItem, VarInt, AllGood, GoodStacks;
    var m, b, c := Message(r), ItemBytes(r.coinbaseBranch), ItemBytes(r.blockchainBranch);
    var p := off + |m|;
    var q := p + |b|;
    AtFour(buf, off, m, b, c, r.parent, p, q, q + |c|);
    if r.version > 1 {
      SkipItemBytes(peek, buf, off, MESSAGE, r.message);
    }
    SkipItemBytes(peek, buf, p, COINBASE_BRANCH, r.coinbaseBranch);
    SkipItemBytes(peek, buf, q, BLOCKCHAIN_BRANCH, r.blockchainBranch);
    BackIs(peek, off, r.version, p, q, q + |c|);
  }

  lemma BackIs(peek: Peeker, off: nat, version: nat, a: nat, b: nat, c: nat)
    requires (if version > 1 then SkipItem(peek, off, MESSAGE) else Some(off)) == Some(a)
    requires SkipItem(peek, a, COINBASE_BRANCH) == Some(b) && SkipItem(peek, b, BLOCKCHAIN_BRANCH) == Some(c) &&
             c + 80 <= SIZE_MAX
    ensures SkipBack(peek, off, version) == Some(c + 80)
  {
  }

  lemma SkipStacksPart(peek: Peeker, buf: seq<byte>, off: nat, r: Record)
    requires Peeks(peek, buf) && WellFormed(r) && At(buf, off, Stacks(r))
    ensures (if r.stacks.Some? then SkipStacks(peek, off, |r.inputs|) else Some(off)) == Some(off + |Stacks(r)|)
  {
    if r.stacks.Some? {
      SkipStacksBytes(peek, buf, off, r.stacks.value);
    }
  }

  lemma RecordParts(buf: seq<byte>, off: nat, r: Record, p: nat, q: nat, end: nat)
    requires WellFormed(r) && At(buf, off, RecordBytes(r))
    requires p == off + |Front(r)| && q == p + |Stacks(r)| && end == q + 4 + |Back(r)|
    ensures At(buf, off, Front(r)) && At(buf, p, Stacks(r)) && At(buf, q + 4, Back(r)) && end == off + |RecordBytes(r)|
  {
    AtFour(buf, off, Front(r), Stacks(r), r.lockTime, Back(r), p, q, q + 4);
  }

  lemma FirstHalfIs(peek: Peeker, buf: seq<byte>, off: nat, p: nat, version: nat, n: nat, marked: bool, q: nat)
    requires SkipFront(peek, buf, off) == Some(Seen(p, version, n, marked)) && q + 4 <= SIZE_MAX
    requires (if marked then SkipStacks(peek, p, n) else Some(p)) == Some(q)
    ensures SkipFirstHalf(peek, buf, off) == Some(Middle(q + 4, version))
  {
  }

  /** The first half of a record, and where the second half lies. */
  lemma FrontSkips(peek: Peeker, buf: seq<byte>, off: nat, r: Record, end: nat) returns (mid: nat)
    requires Peeks(peek, buf) && WellFormed(r) && At(buf, off, RecordBytes(r)) && end == off + |RecordBytes(r)|
    ensures SkipFirstHalf(peek, buf, off) == Some(Middle(mid, r.version))
    ensures At(buf, mid, Back(r)) && mid + |Back(r)| == end
  {
    hide Front, Stacks, Back, SkipFront, WellFormed, SkipStacks;
    var p := off + |Front(r)|;
    var q := p + |Stacks(r)|;
    mid := q + 4;
    RecordParts(buf, off, r, p, q, mid + |Back(r)|);
    SkipFrontBytes(peek, buf, off, r);
    SkipStacksPart(peek, buf, p, r);
    FirstHalfIs(peek, buf, off, p, r.version, |r.inputs|, r.stacks.Some?, q);
  }

  /** The skipper finds the end of every well-formed record, whatever follows it. */
  lemma SkipRecordBytes(peek: Peeker, buf: seq<byte>, off: nat, r: Record)
    requires Peeks(peek, buf) && WellFormed(r) && At(buf, off, RecordBytes(r))
    ensures SkipRecord(peek, buf, off) == Some(off + |RecordBytes(r)|)
  {
    hide *;
    var end := off + |RecordBytes(r)|;
    var mid := FrontSkips(peek, buf, off, r, end);
    SkipBackBytes(peek, buf, mid, r);
    RecordIs(peek, buf, off, mid, r.version, end);
  }

  lemma RecordIs(peek: Peeker, buf: seq<byte>, off: nat, mid: nat, version: nat, end: nat)
    requires SkipFirstHalf(peek, buf, off) == Some(Middle(mid, version)) && SkipBack(peek, mid, version) == Some(end)
    ensures SkipRecord(peek, buf, off) == Some(end)
  {
  }

  // ---------------------------------------------------------------- calcAuxpowSize

  method PeekAt(buf: seq<byte>, off: nat, ghost peek: Peeker) returns (r: Option<Reading>)
    requires Peeks(peek, buf)
    ensures r == peek(off)
  {
    r := Peek(buf, off);
  }

  method SkipOne(buf: seq<byte>, off: nat, sh: Shape, ghost peek: Peeker) returns (next: Option<nat>)
    requires Peeks(peek, buf)
    ensures next == SkipItem(peek, off, sh)
  {
    var r := PeekAt(buf, Wrap(off + sh.pre), peek);
    next := match r
      case None => None
      case Some(c) => Some(Wrap(off + sh.pre + c.len + sh.unit * c.value + sh.post));
  }

  /** `for (i = 0; i < cnt; i++)` over inputs, outputs or witness items. */
  method SkipMany(buf: seq<byte>, off: nat, sh: Shape, cnt: nat, ghost peek: Peeker) returns (end: Option<nat>)
    requires Peeks(peek, buf)
    ensures end == SkipItems(peek, off, sh, cnt)
  {
    var at, left := off, cnt;
    while left > 0
      invariant SkipItems(peek, at, sh, left) == SkipItems(peek, off, sh, cnt)
    {
      var next := SkipOne(buf, at, sh, peek);
      if next == None { return None; }
      at, left := next.value, left - 1;
    }
    return Some(at);
  }

  method SkipList(buf: seq<byte>, off: nat, sh: Shape, ghost peek: Peeker) returns (end: Option<nat>)
    requires Peeks(peek, buf)
    ensures end == SkipCounted(peek, off, sh)
  {
    var r := PeekAt(buf, off, peek);
    if r == None { return None; }
    end := SkipMany(buf, Wrap(off + r.value.len), sh, r.value.value, peek);
  }

  /** The loop over the witness stacks of all inputs. */
  method SkipAllStacks(buf: seq<byte>, off: nat, cnt: nat, ghost peek: Peeker) returns (end: Option<nat>)
    requires Peeks(peek, buf)
    ensures end == SkipStacks(peek, off, cnt)
  {
    var at, left := off, cnt;
    while left > 0
      invariant SkipStacks(peek, at, left) == SkipStacks(peek, off, cnt)
    {
      var next := SkipList(buf, at, WITNESS, peek);
      if next == None { return None; }
      at, left := next.value, left - 1;
    }
    return Some(at);
  }

  method FrontPart(buf: seq<byte>, off: nat, ghost peek: Peeker) returns (s: Option<Seen>)
    requires Peeks(peek, buf)
    ensures s == SkipFront(peek, buf, off)
  {
    if off + 4 >= |buf| || (buf[off + 4] == 0 && off + 5 >= |buf|) { return None; }
    var version := LE(buf[off..off + 4]);
    var at, marked := off + 4, Marked(buf, off + 4);
    if marked { at := at + 2; }
    var n := PeekAt(buf, at, peek);
    if n == None { return None; }
    var mid := SkipList(buf, at, INPUT, peek);
    if mid == None { return None; }
    var end := SkipList(buf, mid.value, OUTPUT, peek);
    if end == None { return None; }
    return Some(Seen(end.value, version, n.value.value, marked));
  }

  method BackPart(buf: seq<byte>, off: nat, version: nat, ghost peek: Peeker) returns (end: Option<nat>)
    requires Peeks(peek, buf)
    ensures end == SkipBack(peek, off, version)
  {
    var a := Some(off);
    if version > 1 {
      a := SkipOne(buf, off, MESSAGE, peek);
      if a == None { return None; }
    }
    var b := SkipOne(buf, a.value, COINBASE_BRANCH, peek);
    if b == None { return None; }
    var c := SkipOne(buf, b.value, BLOCKCHAIN_BRANCH, peek);
    if c == None { return None; }
    return Some(Wrap(c.value + 80));
  }

  /** `off - initialOffset`, which wraps too. */
  function Distance(off: nat, end: nat): nat
    requires off <= SIZE_MAX
  {
    if off <= end then end - off else end + (SIZE_MAX + 1 - off)
  }

  /** Adding it to the start leads to the end again, modulo 2^64. */
  lemma DistanceBack(off: nat, end: nat)
    requires off <= SIZE_MAX && end <= SIZE_MAX
    ensures (off + Distance(off, end)) % 0x1_0000_0000_0000_0000 == end && Distance(off, end) <= SIZE_MAX
  {
  }

  /** calcAuxpowSize; None stands for a read past the buffer, which the source does not check. */
  method CalcAuxpowSize(buf: seq<byte>, off: nat, ghost peek: Peeker) returns (size: Option<nat>)
    requires Peeks(peek, buf) && off <= SIZE_MAX
    ensures size == match SkipRecord(peek, buf, off)
                    case None => None
                    case Some(end) => Some(Distance(off, end))
  {
    var m := FirstHalfPart(buf, off, peek);
    if m == None { return None; }
    var end := BackPart(buf, m.value.off, m.value.version, peek);
    if end == None { return None; }
    return Some(Distance(off, end.value));
  }

  method FirstHalfPart(buf: seq<byte>, off: nat, ghost peek: Peeker) returns (m: Option<Middle>)
    requires Peeks(peek, buf)
    ensures m == SkipFirstHalf(peek, buf, off)
  {
    var s := FrontPart(buf, off, peek);
    if s == None { return None; }
    var a := Some(s.value.off);
    if s.value.isWitness {
      a := SkipAllStacks(buf, s.value.off, s.value.inputs, peek);
      if a == None { return None; }
    }
    return Some(Middle(Wrap(a.value + 4), s.value.version));
  }
}
