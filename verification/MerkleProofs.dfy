/** What the two Merkle walks are for: reading back BIP 37's encoding, and refusing to report foreign ids. */
module MerkleProofs {
  import opened Common
  import opened Merkle

  // ---------------------------------------------------------------- trees

  datatype Tx = Tx(id: Hash, matched: bool)

  // A Merkle tree; `Single` is a node at the right edge whose only child is doubled.
  datatype Tree = Leaf(tx: Tx) | Single(child: Tree) | Pair(left: Tree, right: Tree)

  /** The tree `d` rows high over a block's transactions. */
  function Build(d: nat, txs: seq<Tx>): Tree
    requires 1 <= |txs| <= Pow2(d)
  {
    if d == 0 then Leaf(txs[0])
    else if |txs| <= Pow2(d - 1) then Single(Build(d - 1, txs))
    else Pair(Build(d - 1, txs[..Pow2(d - 1)]), Build(d - 1, txs[Pow2(d - 1)..]))
  }

  function Digest(h: PairHash, t: Tree): Hash {
    match t
    case Leaf(tx) => tx.id
    case Single(c) => h(Digest(h, c), Digest(h, c))
    case Pair(l, r) => h(Digest(h, l), Digest(h, r))
  }

  function Txs(t: Tree): seq<Tx> {
    match t
    case Leaf(tx) => [tx]
    case Single(c) => Txs(c)
    case Pair(l, r) => Txs(l) + Txs(r)
  }

  predicate High(t: Tree, d: nat) {
    match t
    case Leaf(_) => d == 0
    case Single(c) => d > 0 && High(c, d - 1)
    case Pair(l, r) => d > 0 && High(l, d - 1) && High(r, d - 1)
  }

  predicate Full(t: Tree) {
    match t
    case Leaf(_) => true
    case Single(_) => false
    case Pair(l, r) => Full(l) && Full(r)
  }

  /** Only the right edge may have doubled nodes. */
  predicate LeftPacked(t: Tree) {
    match t
    case Leaf(_) => true
    case Single(c) => LeftPacked(c)
    case Pair(l, r) => Full(l) && LeftPacked(l) && LeftPacked(r)
  }

  function Ids(txs: seq<Tx>): (ids: seq<Hash>)
    ensures |ids| == |txs|
    ensures forall i | 0 <= i < |txs| :: ids[i] == txs[i].id
  {
    seq(|txs|, i requires 0 <= i < |txs| => txs[i].id)
  }

  lemma {:induction false} BuildShape(d: nat, txs: seq<Tx>)
    requires 1 <= |txs| <= Pow2(d)
    ensures var t := Build(d, txs);
            High(t, d) && LeftPacked(t) && Txs(t) == txs && (|txs| == Pow2(d) ==> Full(t))
  {
    if d == 0 {
    } else {
      var k := Pow2(d - 1);
      if |txs| <= k {
        BuildShape(d - 1, txs);
      } else {
        BuildShape(d - 1, txs[..k]);
        BuildShape(d - 1, txs[k..]);
        assert txs[..k] + txs[k..] == txs;
      }
    }
  }

  lemma IdsConcat(a: seq<Tx>, b: seq<Tx>)
    ensures Ids(a + b) == Ids(a) + Ids(b)
  {
  }

  lemma NodeOfHalves(h: PairHash, d: nat, a: seq<Hash>, b: seq<Hash>)
    requires |a| == Pow2(d) && 1 <= |b| <= Pow2(d)
    ensures Node(h, d + 1, a + b) == h(Node(h, d, a), Node(h, d, b))
  {
    assert Left(d, a + b) == a && Right(d, a + b) == b;
  }

  lemma BuildOfHalves(d: nat, a: seq<Tx>, b: seq<Tx>)
    requires |a| == Pow2(d) && 1 <= |b| <= Pow2(d)
    ensures Build(d + 1, a + b) == Pair(Build(d, a), Build(d, b))
  {
    assert (a + b)[..Pow2(d)] == a && (a + b)[Pow2(d)..] == b;
  }

  lemma {:induction false} BuildDigest(h: PairHash, d: nat, txs: seq<Tx>)
    requires 1 <= |txs| <= Pow2(d)
    ensures Digest(h, Build(d, txs)) == Node(h, d, Ids(txs))
    decreases d, 1
  {
    if d > 0 && |txs| <= Pow2(d - 1) {
      BuildDigest(h, d - 1, txs);
    } else if d > 0 {
      var k := Pow2(d - 1);
      BuildDigestOfHalves(h, d - 1, txs[..k], txs[k..]);
      assert txs[..k] + txs[k..] == txs;
    } else {
    }
  }

  lemma {:induction false} BuildDigestOfHalves(h: PairHash, d: nat, a: seq<Tx>, b: seq<Tx>)
    requires |a| == Pow2(d) && 1 <= |b| <= Pow2(d)
    ensures Digest(h, Build(d + 1, a + b)) == Node(h, d + 1, Ids(a + b))
    decreases d + 1, 0
  {
    var x, y := Ids(a), Ids(b);
    IdsConcat(a, b);
    NodeOfHalves(h, d, x, y);
    BuildOfHalves(d, a, b);
    BuildDigest(h, d, a);
    BuildDigest(h, d, b);
  }

  /** The tree of a whole block. */
  function BlockTree(txs: seq<Tx>): (t: Tree)
    requires txs != []
    ensures High(t, TreeHeight(|txs|)) && LeftPacked(t) && Txs(t) == txs
  {
    TreeHeightBounds(|txs|);
    BuildShape(TreeHeight(|txs|), txs);
    Build(TreeHeight(|txs|), txs)
  }

  lemma BlockTreeDigest(h: PairHash, txs: seq<Tx>)
    requires txs != []
    ensures Digest(h, BlockTree(txs)) == MerkleRoot(h, Ids(txs))
  {
    NodeIsMerkleRoot(h, Ids(txs));
    BuildDigest(h, TreeHeight(|txs|), txs);
  }

  // ---------------------------------------------------------------- what is assumed of the hash

  // The hashes computed in a run, as a table from each digest to the pair it came from. Such a table exists exactly
  // when no two of the hashed pairs collide; it has no key ZERO exactly when none of them hashes to zero.
  type HashLog = m: map<Hash, (Hash, Hash)> | ZERO !in m

  predicate Logged(h: PairHash, log: HashLog, l: Hash, r: Hash) {
    h(l, r) in log && log[h(l, r)] == (l, r)
  }

  /** Every pair hashed to build the tree is in the log. */
  predicate TreeLogged(h: PairHash, log: HashLog, t: Tree) {
    match t
    case Leaf(_) => true
    case Single(c) => Logged(h, log, Digest(h, c), Digest(h, c)) && TreeLogged(h, log, c)
    case Pair(l, r) => Logged(h, log, Digest(h, l), Digest(h, r)) && TreeLogged(h, log, l) && TreeLogged(h, log, r)
  }

  /** No node is zero and no two siblings are equal. */
  predicate Plain(h: PairHash, t: Tree) {
    && Digest(h, t) != ZERO
    && match t
       case Leaf(_) => true
       case Single(c) => Plain(h, c)
       case Pair(l, r) => Plain(h, l) && Plain(h, r) && Digest(h, l) != Digest(h, r)
  }

  function FirstTx(t: Tree): Tx {
    match t
    case Leaf(tx) => tx
    case Single(c) => FirstTx(c)
    case Pair(l, _) => FirstTx(l)
  }

  lemma {:induction false} FirstTxIsFirst(t: Tree)
    ensures Txs(t) != [] && Txs(t)[0] == FirstTx(t)
  {
    match t
    case Leaf(_) =>
    case Single(c) => FirstTxIsFirst(c);
    case Pair(l, _) => FirstTxIsFirst(l);
  }

  /** Equal digests at equal height come from the same first leaf. */
  lemma {:induction false} EqualDigests(h: PairHash, log: HashLog, a: Tree, b: Tree, d: nat)
    requires High(a, d) && High(b, d) && TreeLogged(h, log, a) && TreeLogged(h, log, b)
    requires Digest(h, a) == Digest(h, b)
    ensures FirstTx(a).id == FirstTx(b).id
  {
    if d == 0 {
    } else {
      var a' := if a.Single? then a.child else a.left;
      var b' := if b.Single? then b.child else b.left;
      EqualDigests(h, log, a', b', d - 1);
    }
  }

  predicate Distinct(ids: seq<Hash>) {
    forall i, j | 0 <= i < j < |ids| :: ids[i] != ids[j]
  }

  lemma SiblingsDiffer(h: PairHash, log: HashLog, l: Tree, r: Tree, d: nat)
    requires High(l, d) && High(r, d) && TreeLogged(h, log, l) && TreeLogged(h, log, r)
    requires Distinct(Ids(Txs(l) + Txs(r)))
    ensures Digest(h, l) != Digest(h, r)
  {
    FirstTxIsFirst(l);
    FirstTxIsFirst(r);
    var ids := Ids(Txs(l) + Txs(r));
    assert ids[0] != ids[|Txs(l)|];
    if Digest(h, l) == Digest(h, r) {
      EqualDigests(h, log, l, r, d);
    }
  }

  lemma DistinctParts(a: seq<Tx>, b: seq<Tx>)
    requires Distinct(Ids(a + b)) && ZERO !in Ids(a + b)
    ensures Distinct(Ids(a)) && Distinct(Ids(b)) && ZERO !in Ids(a) && ZERO !in Ids(b)
  {
    var ids := Ids(a + b);
    assert forall i | 0 <= i < |a| :: Ids(a)[i] == ids[i];
    assert forall i | 0 <= i < |b| :: Ids(b)[i] == ids[|a| + i];
  }

  /** Distinct non-zero ids give a tree that never trips the duplicate check. */
  lemma {:induction false} DistinctIsPlain(h: PairHash, log: HashLog, t: Tree, d: nat)
    requires High(t, d) && TreeLogged(h, log, t) && Distinct(Ids(Txs(t))) && ZERO !in Ids(Txs(t))
    ensures Plain(h, t)
  {
    match t
    case Leaf(tx) => assert Ids(Txs(t))[0] == tx.id;
    case Single(c) => DistinctIsPlain(h, log, c, d - 1);
    case Pair(l, r) =>
      DistinctParts(Txs(l), Txs(r));
      DistinctIsPlain(h, log, l, d - 1);
      DistinctIsPlain(h, log, r, d - 1);
      SiblingsDiffer(h, log, l, r, d - 1);
  }

  // ---------------------------------------------------------------- the encoder

  datatype Encoded = Encoded(bits: seq<bool>, hashes: seq<Hash>)

  predicate AnyMatch(t: Tree) {
    match t
    case Leaf(tx) => tx.matched
    case Single(c) => AnyMatch(c)
    case Pair(l, r) => AnyMatch(l) || AnyMatch(r)
  }

  /** The depth-first encoding of BIP 37, "Partial Merkle branch format". */
  function Encode(h: PairHash, t: Tree): (e: Encoded)
    ensures |e.hashes| >= 1
  {
    if t.Leaf? || !AnyMatch(t) then Encoded([AnyMatch(t)], [Digest(h, t)])
    else if t.Single? then var c := Encode(h, t.child); Encoded([true] + c.bits, c.hashes)
    else
      var l, r := Encode(h, t.left), Encode(h, t.right);
      Encoded([true] + l.bits + r.bits, l.hashes + r.hashes)
  }

  function PackByte(bits: seq<bool>): (b: nat)
    ensures b < Pow2(|bits|)
  {
    if bits == [] then 0 else (if bits[0] then 1 else 0) + 2 * PackByte(bits[1..])
  }

  /** Flag bits fill each byte from the least significant end. */
  function Pack(bits: seq<bool>): seq<byte> {
    assert Pow2(8) == 256;
    if bits == [] then []
    else if |bits| <= 8 then Pow2Mono(|bits|, 8); [PackByte(bits)]
    else [PackByte(bits[..8])] + Pack(bits[8..])
  }

  lemma TestBitUp(x: nat, low: bool, k: nat)
    requires k > 0
    ensures TestBit((if low then 1 else 0) + 2 * x, k) == TestBit(x, k - 1)
  {
  }

  lemma LowBit(x: nat, low: bool)
    ensures TestBit((if low then 1 else 0) + 2 * x, 0) == low
  {
  }

  lemma {:induction false} PackByteBit(bits: seq<bool>, k: nat)
    requires k < |bits|
    ensures TestBit(PackByte(bits), k) == bits[k]
  {
    hide Pow2, TestBit;
    if k == 0 {
      LowBit(PackByte(bits[1..]), bits[0]);
    } else {
      PackByteBit(bits[1..], k - 1);
      TestBitUp(PackByte(bits[1..]), bits[0], k);
    }
  }

  lemma {:induction false} PackBit(bits: seq<bool>, i: nat)
    requires i < |bits|
    ensures i < 8 * |Pack(bits)| && Flag(Pack(bits), i) == bits[i]
  {
    if |bits| <= 8 {
      PackByteBit(bits, i);
    } else if i < 8 {
      PackByteBit(bits[..8], i);
    } else {
      PackBit(bits[8..], i - 8);
      assert Pack(bits)[1..] == Pack(bits[8..]);
    }
  }

  /** The block a full node sends for `txs`. */
  function FilteredBlock(h: PairHash, txs: seq<Tx>): Block
    requires 1 <= |txs| < 0x1_0000_0000
  {
    var e := Encode(h, BlockTree(txs));
    Block(|txs|, e.hashes, Pack(e.bits))
  }

  function MatchedIds(txs: seq<Tx>): seq<Hash> {
    if txs == [] then []
    else (if txs[0].matched then [txs[0].id] else []) + MatchedIds(txs[1..])
  }

  lemma {:induction false} MatchedIdsConcat(a: seq<Tx>, b: seq<Tx>)
    ensures MatchedIds(a + b) == MatchedIds(a) + MatchedIds(b)
  {
    if a == [] {
      assert a + b == b;
    } else {
      HeadAndTail(a, b);
      MatchedIdsConcat(a[1..], b);
    }
  }

  lemma HeadAndTail(a: seq<Tx>, b: seq<Tx>)
    requires a != []
    ensures (a + b)[0] == a[0] && (a + b)[1..] == a[1..] + b
  {
  }

  lemma {:induction false} NothingMatched(t: Tree)
    requires !AnyMatch(t)
    ensures MatchedIds(Txs(t)) == []
  {
    match t
    case Leaf(_) =>
    case Single(c) => NothingMatched(c);
    case Pair(l, r) =>
      NothingMatched(l);
      NothingMatched(r);
      MatchedIdsConcat(Txs(l), Txs(r));
  }

  lemma {:induction false} SomethingMatched(t: Tree)
    requires AnyMatch(t)
    ensures MatchedIds(Txs(t)) != []
  {
    match t
    case Leaf(_) =>
    case Single(c) => SomethingMatched(c);
    case Pair(l, r) =>
      MatchedIdsConcat(Txs(l), Txs(r));
      SomethingMatched(if AnyMatch(l) then l else r);
  }

  lemma FilteredBlockFirst(h: PairHash, txs: seq<Tx>)
    requires 1 <= |txs| < 0x1_0000_0000
    ensures Returns(FilteredBlock(h, txs), 0, 0) <==> |txs| < 0x8000_0000 || MatchedIds(txs) == []
  {
    var t := BlockTree(txs);
    PackBit(Encode(h, t).bits, 0);
    if AnyMatch(t) {
      SomethingMatched(t);
    } else {
      NothingMatched(t);
    }
  }

  /** On such a block, however it is stored, the walks read inside its arrays, and return exactly when it has fewer than
      2^31 transactions or no match among them; otherwise neither of them ends. */
  lemma FilteredBlockReturns(h: PairHash, txs: seq<Tx>, s: Stored, write: bool, limit: nat)
    requires 1 <= |txs| < 0x1_0000_0000 && Backed(s) && BlockOf(s) == FilteredBlock(h, txs)
    ensures var d := TreeHeight(s.totalTx);
            var root, found := RunRoot(h, s, 0, 0, d), RunTx(s, write, limit, [], 0, 0, d);
            && (root.Returned? <==> |txs| < 0x8000_0000 || MatchedIds(txs) == [])
            && (!root.Returned? ==> root == Stuck)
            && (found.Returned? <==> root.Returned?) && (!found.Returned? ==> found == Stuck)
  {
    FilteredBlockFirst(h, txs);
    RunRootIs(h, s, 0, 0, TreeHeight(s.totalTx));
    RunTxIs(s, write, limit, [], 0, 0, TreeHeight(s.totalTx));
  }

  // ---------------------------------------------------------------- the source's example

  lemma RootOfTwo(h: PairHash, a: Hash, b: Hash)
    ensures MerkleRoot(h, [a, b]) == h(a, b)
  {
    assert RowAbove(h, [a, b]) == [h(a, b)];
  }

  lemma RootOfThree(h: PairHash, a: Hash, b: Hash, c: Hash)
    ensures MerkleRoot(h, [a, b, c]) == h(h(a, b), h(c, c))
  {
    assert RowAbove(h, [a, b, c]) == [h(a, b), h(c, c)];
    RootOfTwo(h, h(a, b), h(c, c));
  }

  lemma BuildTwo(a: Tx, b: Tx, d: nat)
    requires d == 1
    ensures |[a, b]| <= Pow2(1) && Build(1, [a, b]) == Pair(Leaf(a), Leaf(b))
    ensures Build(d, [b]) == Single(Leaf(b))
  {
    var s := [a, b];
    assert Pow2(0) == 1 && Pow2(1) == 2 && s[..1] == [a] && s[1..] == [b];
    assert Build(0, [a]) == Leaf(a) && Build(0, [b]) == Leaf(b);
  }

  lemma TreeOfThree(a: Tx, b: Tx, c: Tx)
    ensures BlockTree([a, b, c]) == Pair(Pair(Leaf(a), Leaf(b)), Single(Leaf(c)))
  {
    var s := [a, b, c];
    assert TreeHeight(2) == 1 && TreeHeight(3) == 2;
    assert Pow2(1) == 2 && Pow2(2) == 4 && s[..2] == [a, b] && s[2..] == [c];
    BuildTwo(a, b, 1);
    BuildTwo(b, c, 1);
  }

  lemma EncodeLeaf(h: PairHash, tx: Tx)
    ensures Encode(h, Leaf(tx)) == Encoded([tx.matched], [tx.id]) && AnyMatch(Leaf(tx)) == tx.matched
    ensures Digest(h, Leaf(tx)) == tx.id
  {
  }

  /** The example in the source: of three transactions only the second is matched. */
  lemma ThreeTransactions(h: PairHash, t1: Hash, t2: Hash, t3: Hash)
    ensures MerkleRoot(h, [t1, t2, t3]) == h(h(t1, t2), h(t3, t3))
    ensures FilteredBlock(h, [Tx(t1, false), Tx(t2, true), Tx(t3, false)]) == Block(3, [t1, t2, h(t3, t3)], [0x0b])
  {
    RootOfThree(h, t1, t2, t3);
    var a, b, c := Tx(t1, false), Tx(t2, true), Tx(t3, false);
    TreeOfThree(a, b, c);
    var l, r := Pair(Leaf(a), Leaf(b)), Single(Leaf(c));
    EncodeLeaf(h, a);
    EncodeLeaf(h, b);
    assert AnyMatch(l) && !AnyMatch(r);
    assert Encode(h, l) == Encoded([true, false, true], [t1, t2]);
    assert Digest(h, r) == h(t3, t3);
    assert Encode(h, r) == Encoded([false], [h(t3, t3)]);
    assert Encode(h, Pair(l, r)) == Encoded([true, true, false, true, false], [t1, t2, h(t3, t3)]);
    PackFive();
  }

  lemma PackNext(bit: bool, rest: seq<bool>, bits: seq<bool>)
    requires bits == [bit] + rest
    ensures PackByte(bits) == (if bit then 1 else 0) + 2 * PackByte(rest)
  {
    assert bits[1..] == rest;
  }

  lemma PackFive()
    ensures Pack([true, true, false, true, false]) == [0x0b]
  {
    PackNext(false, [], [false]);
    PackNext(true, [false], [true, false]);
    PackNext(false, [true, false], [false, true, false]);
    PackNext(true, [false, true, false], [true, false, true, false]);
    PackNext(true, [true, false, true, false], [true, true, false, true, false]);
  }

  // ---------------------------------------------------------------- completeness

  predicate FlagAt(b: Block, i: nat, v: bool) {
    i < 8 * |b.flags| && Flag(b.flags, i) == v
  }

  predicate FlagsAt(b: Block, bits: seq<bool>, i: nat) {
    bits == [] || (FlagAt(b, i, bits[0]) && FlagsAt(b, bits[1..], i + 1))
  }

  predicate HashesAt(b: Block, hashes: seq<Hash>, i: nat) {
    hashes == [] || (i < |b.hashes| && b.hashes[i] == hashes[0] && HashesAt(b, hashes[1..], i + 1))
  }

  /** The encoding `e` is what the walks read next in `b`. */
  predicate At(b: Block, e: Encoded, hashIdx: nat, flagIdx: nat) {
    HashesAt(b, e.hashes, hashIdx) && FlagsAt(b, e.bits, flagIdx)
  }

  lemma {:induction false} FlagsAtSplit(b: Block, x: seq<bool>, y: seq<bool>, i: nat)
    requires FlagsAt(b, x + y, i)
    ensures FlagsAt(b, x, i) && FlagsAt(b, y, i + |x|)
  {
    if x == [] {
      assert x + y == y;
    } else {
      assert (x + y)[1..] == x[1..] + y;
      FlagsAtSplit(b, x[1..], y, i + 1);
    }
  }

  lemma {:induction false} HashesAtSplit(b: Block, x: seq<Hash>, y: seq<Hash>, i: nat)
    requires HashesAt(b, x + y, i)
    ensures HashesAt(b, x, i) && HashesAt(b, y, i + |x|)
  {
    if x == [] {
      assert x + y == y;
    } else {
      assert (x + y)[1..] == x[1..] + y;
      HashesAtSplit(b, x[1..], y, i + 1);
    }
  }

  lemma AtSplit(b: Block, l: Encoded, r: Encoded, hashIdx: nat, flagIdx: nat)
    requires At(b, Encoded([true] + l.bits + r.bits, l.hashes + r.hashes), hashIdx, flagIdx)
    ensures FlagAt(b, flagIdx, true)
    ensures At(b, l, hashIdx, flagIdx + 1)
    ensures At(b, r, hashIdx + |l.hashes|, flagIdx + 1 + |l.bits|)
  {
    HashesAtSplit(b, l.hashes, r.hashes, hashIdx);
    FlagsAtSplit(b, [true] + l.bits, r.bits, flagIdx);
    assert ([true] + l.bits)[1..] == l.bits;
  }

  lemma AtLeft(b: Block, l: Encoded, hashIdx: nat, flagIdx: nat)
    requires At(b, Encoded([true] + l.bits, l.hashes), hashIdx, flagIdx)
    ensures FlagAt(b, flagIdx, true)
    ensures At(b, l, hashIdx, flagIdx + 1)
  {
    assert ([true] + l.bits)[1..] == l.bits;
  }

  /** What is read next in `b` is the encoding of `t`, and it ends the stream unless `t` is full. */
  predicate Next(h: PairHash, b: Block, t: Tree, hashIdx: nat, flagIdx: nat) {
    && At(b, Encode(h, t), hashIdx, flagIdx)
    && (Full(t) || hashIdx + |Encode(h, t).hashes| == |b.hashes|)
  }

  lemma RootStep(h: PairHash, b: Block, d: nat, hashIdx: nat, flagIdx: nat, md: Hash, hashIdx': nat, flagIdx': nat)
    requires d >= 1 && hashIdx < |b.hashes| && FlagAt(b, flagIdx, true)
    requires RootWalk(h, b, hashIdx, flagIdx + 1, d - 1) == Root(md, hashIdx', flagIdx')
    ensures RootWalk(h, b, hashIdx, flagIdx, d) == Join(h, md, RootWalk(h, b, hashIdx', flagIdx', d - 1))
  {
  }

  lemma TxStep(b: Block, d: nat, limit: nat, found: seq<Hash>, hashIdx: nat, flagIdx: nat,
               found': seq<Hash>, hashIdx': nat, flagIdx': nat)
    requires d >= 1 && hashIdx < |b.hashes| && FlagAt(b, flagIdx, true)
    requires TxWalk(b, limit, found, hashIdx, flagIdx + 1, d - 1) == Matched(found', hashIdx', flagIdx')
    ensures TxWalk(b, limit, found, hashIdx, flagIdx, d) == TxWalk(b, limit, found', hashIdx', flagIdx', d - 1)
  {
  }

  /** From any point of the stream the root walk rebuilds the node encoded there and stops right after it. */
  lemma {:induction false} RootWalkReads(h: PairHash, b: Block, t: Tree, d: nat, hashIdx: nat, flagIdx: nat)
    requires High(t, d) && LeftPacked(t) && Plain(h, t) && Next(h, b, t, hashIdx, flagIdx)
    ensures var e := Encode(h, t);
            RootWalk(h, b, hashIdx, flagIdx, d) == Root(Digest(h, t), hashIdx + |e.hashes|, flagIdx + |e.bits|)
    decreases t, 1
  {
    if t.Single? && AnyMatch(t) {
      RootWalkReadsSingle(h, b, t.child, d - 1, hashIdx, flagIdx);
    } else if t.Pair? && AnyMatch(t) {
      RootWalkReadsPair(h, b, t.left, t.right, d - 1, hashIdx, flagIdx);
    }
  }

  lemma RootWalkReadsSingle(h: PairHash, b: Block, c: Tree, d: nat, hashIdx: nat, flagIdx: nat)
    requires High(c, d) && LeftPacked(c) && Plain(h, Single(c)) && AnyMatch(c) &&
             Next(h, b, Single(c), hashIdx, flagIdx)
    ensures var e := Encode(h, Single(c));
            RootWalk(h, b, hashIdx, flagIdx, d + 1)
            == Root(Digest(h, Single(c)), hashIdx + |e.hashes|, flagIdx + |e.bits|)
    decreases Single(c), 0
  {
    var e := Encode(h, c);
    AtLeft(b, e, hashIdx, flagIdx);
    RootWalkReads(h, b, c, d, hashIdx, flagIdx + 1);
    RootStep(h, b, d + 1, hashIdx, flagIdx, Digest(h, c), hashIdx + |e.hashes|, flagIdx + 1 + |e.bits|);
  }

  lemma RootWalkReadsPair(h: PairHash, b: Block, l: Tree, r: Tree, d: nat, hashIdx: nat, flagIdx: nat)
    requires High(l, d) && High(r, d) && LeftPacked(Pair(l, r)) && Plain(h, Pair(l, r)) && AnyMatch(Pair(l, r))
    requires Next(h, b, Pair(l, r), hashIdx, flagIdx)
    ensures var e := Encode(h, Pair(l, r));
            RootWalk(h, b, hashIdx, flagIdx, d + 1)
            == Root(Digest(h, Pair(l, r)), hashIdx + |e.hashes|, flagIdx + |e.bits|)
    decreases Pair(l, r), 0
  {
    hide High, RootWalk, FlagsAt, AnyMatch;
    var el, er := Encode(h, l), Encode(h, r);
    AtSplit(b, el, er, hashIdx, flagIdx);
    RootWalkReads(h, b, l, d, hashIdx, flagIdx + 1);
    RootWalkReads(h, b, r, d, hashIdx + |el.hashes|, flagIdx + 1 + |el.bits|);
    RootStep(h, b, d + 1, hashIdx, flagIdx, Digest(h, l), hashIdx + |el.hashes|, flagIdx + 1 + |el.bits|);
  }

  lemma {:induction false} TxWalkReads(
    h: PairHash, b: Block, t: Tree, d: nat, hashIdx: nat, flagIdx: nat, limit: nat, found: seq<Hash>)
    requires High(t, d) && LeftPacked(t) && Next(h, b, t, hashIdx, flagIdx)
    requires |found| + |MatchedIds(Txs(t))| <= limit
    ensures var e := Encode(h, t);
            TxWalk(b, limit, found, hashIdx, flagIdx, d)
            == Matched(found + MatchedIds(Txs(t)), hashIdx + |e.hashes|, flagIdx + |e.bits|)
    decreases t, 1
  {
    if t.Leaf? {
      assert Txs(t)[1..] == [];
    } else if !AnyMatch(t) {
      NothingMatched(t);
    } else if t.Single? {
      TxWalkReadsSingle(h, b, t.child, d - 1, hashIdx, flagIdx, limit, found);
    } else {
      var ml, mr := MatchedIds(Txs(t.left)), MatchedIds(Txs(t.right));
      MatchedIdsConcat(Txs(t.left), Txs(t.right));
      TxWalkReadsPair(h, b, t.left, t.right, d - 1, hashIdx, flagIdx, limit, found);
      assert found + ml + mr == found + (ml + mr);
    }
  }

  lemma TxWalkReadsSingle(
    h: PairHash, b: Block, c: Tree, d: nat, hashIdx: nat, flagIdx: nat, limit: nat, found: seq<Hash>)
    requires High(c, d) && LeftPacked(c) && AnyMatch(c) && Next(h, b, Single(c), hashIdx, flagIdx)
    requires |found| + |MatchedIds(Txs(c))| <= limit
    ensures var e := Encode(h, Single(c));
            TxWalk(b, limit, found, hashIdx, flagIdx, d + 1)
            == Matched(found + MatchedIds(Txs(c)), hashIdx + |e.hashes|, flagIdx + |e.bits|)
    decreases Single(c), 0
  {
    var e := Encode(h, c);
    AtLeft(b, e, hashIdx, flagIdx);
    TxWalkReads(h, b, c, d, hashIdx, flagIdx + 1, limit, found);
    TxStep(b, d + 1, limit, found, hashIdx, flagIdx, found + MatchedIds(Txs(c)),
           hashIdx + |e.hashes|, flagIdx + 1 + |e.bits|);
  }

  lemma TxWalkReadsPair(
    h: PairHash, b: Block, l: Tree, r: Tree, d: nat, hashIdx: nat, flagIdx: nat, limit: nat, found: seq<Hash>)
    requires High(l, d) && High(r, d) && LeftPacked(Pair(l, r)) && AnyMatch(Pair(l, r))
    requires Next(h, b, Pair(l, r), hashIdx, flagIdx)
    requires |found| + |MatchedIds(Txs(l))| + |MatchedIds(Txs(r))| <= limit
    ensures var e := Encode(h, Pair(l, r));
            TxWalk(b, limit, found, hashIdx, flagIdx, d + 1)
            == Matched(found + MatchedIds(Txs(l)) + MatchedIds(Txs(r)), hashIdx + |e.hashes|, flagIdx + |e.bits|)
    decreases Pair(l, r), 0
  {
    hide High, TxWalk, FlagsAt, MatchedIds, Txs;
    var el, er := Encode(h, l), Encode(h, r);
    AtSplit(b, el, er, hashIdx, flagIdx);
    var found' := found + MatchedIds(Txs(l));
    TxWalkReads(h, b, l, d, hashIdx, flagIdx + 1, limit, found);
    TxWalkReads(h, b, r, d, hashIdx + |el.hashes|, flagIdx + 1 + |el.bits|, limit, found');
    TxStep(b, d + 1, limit, found, hashIdx, flagIdx, found', hashIdx + |el.hashes|, flagIdx + 1 + |el.bits|);
  }

  lemma {:induction false} PackedFlagsAt(b: Block, bits: seq<bool>, i: nat)
    requires i <= |bits| && b.flags == Pack(bits)
    ensures FlagsAt(b, bits[i..], i)
    decreases |bits| - i
  {
    if i >= |bits| {
    } else {
      PackBit(bits, i);
      PackedFlagsAt(b, bits, i + 1);
      assert bits[i..][1..] == bits[i + 1..];
    }
  }

  lemma {:induction false} AllHashesAt(b: Block, i: nat)
    requires i <= |b.hashes|
    ensures HashesAt(b, b.hashes[i..], i)
    decreases |b.hashes| - i
  {
    if i >= |b.hashes| {
    } else {
      AllHashesAt(b, i + 1);
      assert b.hashes[i..][1..] == b.hashes[i + 1..];
    }
  }

  lemma FilteredBlockNext(h: PairHash, txs: seq<Tx>)
    requires 1 <= |txs| < 0x1_0000_0000
    ensures Next(h, FilteredBlock(h, txs), BlockTree(txs), 0, 0)
  {
    var b := FilteredBlock(h, txs);
    var e := Encode(h, BlockTree(txs));
    PackedFlagsAt(b, e.bits, 0);
    AllHashesAt(b, 0);
    assert e.bits[0..] == e.bits && b.hashes[0..] == b.hashes;
  }

  /** Completeness: on an honest block both walks use up every hash; one yields the Merkle root of the whole list,
      the other exactly the matched ids in order. */
  lemma Completeness(h: PairHash, log: HashLog, txs: seq<Tx>, limit: nat)
    requires 1 <= |txs| < 0x1_0000_0000 && Distinct(Ids(txs)) && ZERO !in Ids(txs)
    requires TreeLogged(h, log, BlockTree(txs))
    requires |MatchedIds(txs)| <= limit
    ensures var b := FilteredBlock(h, txs);
            var root := RootWalk(h, b, 0, 0, TreeHeight(b.totalTx));
            var found := TxWalk(b, limit, [], 0, 0, TreeHeight(b.totalTx));
            && root.md == MerkleRoot(h, Ids(txs))
            && found.ids == MatchedIds(txs)
            && root.hashIdx == found.hashIdx == |b.hashes|
            && root.flagIdx == found.flagIdx
  {
    var b, t := FilteredBlock(h, txs), BlockTree(txs);
    FilteredBlockNext(h, txs);
    BlockTreeDigest(h, txs);
    DistinctIsPlain(h, log, t, TreeHeight(|txs|));
    RootWalkReads(h, b, t, TreeHeight(|txs|), 0, 0);
    TxWalkReads(h, b, t, TreeHeight(|txs|), 0, 0, limit, []);
  }

  // ---------------------------------------------------------------- lock-step and soundness

  /** While the root walk does not poison its cursor, the two separately written walks stay in step. */
  lemma {:induction false} LockStep(h: PairHash, b: Block, hashIdx: nat, flagIdx: nat, d: nat, limit: nat,
                                    ids: seq<Hash>)
    requires |b.hashes| < SIZE_MAX
    requires RootWalk(h, b, hashIdx, flagIdx, d).hashIdx != SIZE_MAX
    ensures var w, t := RootWalk(h, b, hashIdx, flagIdx, d), TxWalk(b, limit, ids, hashIdx, flagIdx, d);
            w.hashIdx == t.hashIdx && w.flagIdx == t.flagIdx
    decreases d
  {
    if !More(b, hashIdx, flagIdx) || !Flag(b.flags, flagIdx) || d == 0 {
    } else {
      var l := RootWalk(h, b, hashIdx, flagIdx + 1, d - 1);
      var tl := TxWalk(b, limit, ids, hashIdx, flagIdx + 1, d - 1);
      if l.hashIdx != SIZE_MAX {
        LockStep(h, b, hashIdx, flagIdx + 1, d - 1, limit, ids);
        LockStep(h, b, l.hashIdx, l.flagIdx, d - 1, limit, tl.ids);
      }
    }
  }

  /** A poisoned cursor stays poisoned, so the final cursor tells whether the check ever fired. */
  lemma PoisonStays(h: PairHash, b: Block, flagIdx: nat, d: nat)
    requires |b.hashes| < SIZE_MAX
    ensures RootWalk(h, b, SIZE_MAX, flagIdx, d) == Root(ZERO, SIZE_MAX, flagIdx)
  {
  }

  /** Every pair the root walk hashes is in the log. */
  predicate WalkLogged(h: PairHash, log: HashLog, b: Block, hashIdx: nat, flagIdx: nat, d: nat)
    decreases d
  {
    More(b, hashIdx, flagIdx) && Flag(b.flags, flagIdx) && d > 0 ==>
      var l := RootWalk(h, b, hashIdx, flagIdx + 1, d - 1);
      var r := RootWalk(h, b, l.hashIdx, l.flagIdx, d - 1);
      && WalkLogged(h, log, b, hashIdx, flagIdx + 1, d - 1)
      && WalkLogged(h, log, b, l.hashIdx, l.flagIdx, d - 1)
      && (l.md != ZERO && l.md != r.md ==> Logged(h, log, l.md, if r.md == ZERO then l.md else r.md))
  }

  /** `a` is what is left of `b` after crossing out some entries. */
  predicate Subsequence(a: seq<Hash>, b: seq<Hash>) {
    if a == [] then true
    else if b == [] then false
    else (a[0] == b[0] && Subsequence(a[1..], b[1..])) || Subsequence(a, b[1..])
  }

  lemma {:induction false} SubsequenceConcat(a: seq<Hash>, b: seq<Hash>, c: seq<Hash>, d: seq<Hash>)
    requires Subsequence(a, b) && Subsequence(c, d)
    ensures Subsequence(a + c, b + d)
    decreases |b|
  {
    if b == [] {
      assert a + c == c && b + d == d;
    } else {
      assert (b + d)[1..] == b[1..] + d;
      if a != [] && a[0] == b[0] && Subsequence(a[1..], b[1..]) {
        SubsequenceConcat(a[1..], b[1..], c, d);
        assert (a + c)[1..] == a[1..] + c;
      } else {
        SubsequenceConcat(a, b[1..], c, d);
      }
    }
  }

  lemma ZeroMeansExhausted(h: PairHash, log: HashLog, b: Block, hashIdx: nat, flagIdx: nat, d: nat)
    requires WalkLogged(h, log, b, hashIdx, flagIdx, d) && ZERO !in b.hashes
    requires RootWalk(h, b, hashIdx, flagIdx, d).md == ZERO
    requires RootWalk(h, b, hashIdx, flagIdx, d).hashIdx != SIZE_MAX
    ensures !More(b, hashIdx, flagIdx)
  {
  }

  function LeftChild(t: Tree): Tree
    requires !t.Leaf?
  {
    if t.Single? then t.child else t.left
  }

  function RightChild(t: Tree): Tree
    requires !t.Leaf?
  {
    if t.Single? then t.child else t.right
  }

  /** From here the root walk, unpoisoned, gives the true hash of `t`. */
  predicate Truthful(h: PairHash, log: HashLog, b: Block, t: Tree, d: nat, hashIdx: nat, flagIdx: nat) {
    var w := RootWalk(h, b, hashIdx, flagIdx, d);
    && High(t, d) && TreeLogged(h, log, t) && WalkLogged(h, log, b, hashIdx, flagIdx, d)
    && w.hashIdx != SIZE_MAX && w.md == Digest(h, t)
  }

  /** The children of a true node are true; a right child that is not there reports nothing. */
  lemma ChildrenTrue(h: PairHash, log: HashLog, b: Block, t: Tree, d: nat, hashIdx: nat, flagIdx: nat)
    requires d >= 1 && ZERO !in b.hashes && |b.hashes| < SIZE_MAX
    requires Truthful(h, log, b, t, d, hashIdx, flagIdx)
    requires hashIdx < |b.hashes| && FlagAt(b, flagIdx, true)
    ensures var l := RootWalk(h, b, hashIdx, flagIdx + 1, d - 1);
            && Truthful(h, log, b, LeftChild(t), d - 1, hashIdx, flagIdx + 1)
            && (More(b, l.hashIdx, l.flagIdx) ==> t.Pair? && Truthful(h, log, b, t.right, d - 1, l.hashIdx, l.flagIdx))
  {
    var l := RootWalk(h, b, hashIdx, flagIdx + 1, d - 1);
    var r := RootWalk(h, b, l.hashIdx, l.flagIdx, d - 1);
    RootStep(h, b, d, hashIdx, flagIdx, l.md, l.hashIdx, l.flagIdx);
    PoisonStays(h, b, l.flagIdx, d - 1);
    assert Logged(h, log, l.md, if r.md == ZERO then l.md else r.md);
    assert Logged(h, log, Digest(h, LeftChild(t)), Digest(h, RightChild(t)));
    if r.md == ZERO {
      ZeroMeansExhausted(h, log, b, l.hashIdx, l.flagIdx, d - 1);
    }
  }

  lemma SubsequenceOfChildren(lf: seq<Hash>, rf: seq<Hash>, t: Tree)
    requires !t.Leaf? && Subsequence(lf, Ids(Txs(LeftChild(t))))
    requires rf == [] || (t.Pair? && Subsequence(rf, Ids(Txs(t.right))))
    ensures Subsequence(lf + rf, Ids(Txs(t)))
  {
    if t.Single? {
      assert lf + rf == lf;
    } else {
      SubsequenceConcat(lf, Ids(Txs(t.left)), rf, Ids(Txs(t.right)));
      IdsConcat(Txs(t.left), Txs(t.right));
    }
  }

  /** If the walk below a node gives that node's true hash, the ids it reports are leaves of that node, in order. */
  lemma {:induction false} NodeSound(
    h: PairHash, log: HashLog, b: Block, t: Tree, d: nat, hashIdx: nat, flagIdx: nat, limit: nat, before: seq<Hash>)
    returns (found: seq<Hash>)
    requires ZERO !in b.hashes && |b.hashes| < SIZE_MAX
    requires Truthful(h, log, b, t, d, hashIdx, flagIdx)
    ensures TxWalk(b, limit, before, hashIdx, flagIdx, d).ids == before + found
    ensures Subsequence(found, Ids(Txs(t)))
    decreases d, 0
  {
    if !More(b, hashIdx, flagIdx) || !Flag(b.flags, flagIdx) {
      found := [];
    } else if d == 0 {
      found := if |before| < limit then [t.tx.id] else [];
    } else {
      var l := RootWalk(h, b, hashIdx, flagIdx + 1, d - 1);
      ChildrenTrue(h, log, b, t, d, hashIdx, flagIdx);
      var lf := NodeSound(h, log, b, LeftChild(t), d - 1, hashIdx, flagIdx + 1, limit, before);
      LockStep(h, b, hashIdx, flagIdx + 1, d - 1, limit, before);
      TxStep(b, d, limit, before, hashIdx, flagIdx, before + lf, l.hashIdx, l.flagIdx);
      var rf := NodeSoundRight(h, log, b, t, d - 1, l.hashIdx, l.flagIdx, limit, before + lf);
      SubsequenceOfChildren(lf, rf, t);
      found := lf + rf;
      Associate(before, lf, rf);
    }
  }

  lemma Associate(a: seq<Hash>, b: seq<Hash>, c: seq<Hash>)
    ensures a + b + c == a + (b + c)
  {
  }

  lemma {:induction false} NodeSoundRight(
    h: PairHash, log: HashLog, b: Block, t: Tree, d: nat, hashIdx: nat, flagIdx: nat, limit: nat, before: seq<Hash>)
    returns (found: seq<Hash>)
    requires ZERO !in b.hashes && |b.hashes| < SIZE_MAX
    requires More(b, hashIdx, flagIdx) ==> t.Pair? && Truthful(h, log, b, t.right, d, hashIdx, flagIdx)
    ensures TxWalk(b, limit, before, hashIdx, flagIdx, d).ids == before + found
    ensures found == [] || (t.Pair? && Subsequence(found, Ids(Txs(t.right))))
    decreases d, 1
  {
    if More(b, hashIdx, flagIdx) {
      found := NodeSound(h, log, b, t.right, d, hashIdx, flagIdx, limit, before);
    } else {
      found := [];
    }
  }

  /** Soundness: if the root walk of an arbitrary block over `totalTx` leaves gives the Merkle root of `txs` and its
      cursor was never poisoned, the ids reported are ids of that list, in the list's order, and both walks stop at
      the same place. */
  lemma Soundness(h: PairHash, log: HashLog, b: Block, txs: seq<Tx>, limit: nat)
    requires |txs| == b.totalTx >= 1
    requires TreeLogged(h, log, BlockTree(txs)) && WalkLogged(h, log, b, 0, 0, TreeHeight(b.totalTx))
    requires ZERO !in b.hashes && |b.hashes| < SIZE_MAX
    requires var w := RootWalk(h, b, 0, 0, TreeHeight(b.totalTx));
             w.md == MerkleRoot(h, Ids(txs)) && w.hashIdx != SIZE_MAX
    ensures var w := RootWalk(h, b, 0, 0, TreeHeight(b.totalTx));
            var found := TxWalk(b, limit, [], 0, 0, TreeHeight(b.totalTx));
            && Subsequence(found.ids, Ids(txs))
            && w.hashIdx == found.hashIdx && w.flagIdx == found.flagIdx
  {
    BlockTreeDigest(h, txs);
    var found := NodeSound(h, log, b, BlockTree(txs), TreeHeight(b.totalTx), 0, 0, limit, []);
    assert [] + found == found;
    LockStep(h, b, 0, 0, TreeHeight(b.totalTx), limit, []);
  }

  /** The sizing pass (no limit in practice) announces what a writing pass delivers, cut to the caller's buffer. */
  lemma {:induction false} LimitOnlyCuts(b: Block, limit: nat, big: nat, ids: seq<Hash>, hashIdx: nat, flagIdx: nat,
                                         d: nat)
    requires |ids| <= big && limit <= big && hashIdx <= |b.hashes|
    requires big - |ids| >= |b.hashes| - hashIdx
    ensures var all := TxWalk(b, big, ids, hashIdx, flagIdx, d);
            var cut := TxWalk(b, limit, if |ids| <= limit then ids else ids[..limit], hashIdx, flagIdx, d);
            && hashIdx <= all.hashIdx <= |b.hashes| && |ids| <= |all.ids| <= |ids| + all.hashIdx - hashIdx
            && cut == Matched(if |all.ids| <= limit then all.ids else all.ids[..limit], all.hashIdx, all.flagIdx)
    decreases d
  {
    if !More(b, hashIdx, flagIdx) || !Flag(b.flags, flagIdx) || d == 0 {
    } else {
      LimitOnlyCuts(b, limit, big, ids, hashIdx, flagIdx + 1, d - 1);
      var l := TxWalk(b, big, ids, hashIdx, flagIdx + 1, d - 1);
      LimitOnlyCuts(b, limit, big, l.ids, l.hashIdx, l.flagIdx, d - 1);
    }
  }
}
