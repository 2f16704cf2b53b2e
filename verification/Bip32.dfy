/**
 BIP 32 derivation (BRBIP32Sequence.c) over an abstract curve. HMAC-SHA512 and the curve operations are parameters;
 what the theorems need of them are the laws in `Lawful`.
 */
module Bip32 {
  import opened Common
  import Words

  type uint32 = Common.uint32

  // A compressed point.
  type Point = s: seq<byte> | |s| == 33 witness seq(33, _ => 0)

  type Chain = seq<byte>

  // The two halves of HMAC-SHA512: parse256(IL) and IR.
  datatype Mac = Mac(left: nat, right: Chain)

  // The order of the curve, point(k), K + point(b), the HMAC of a key and a message, what a failed addition leaves of
  // its scalar, and hash160 of a public key.
  datatype Curve = Curve(
    order: nat,
    point: nat -> Point,
    add: (Point, nat) -> Point,
    infinite: (Point, nat) -> bool,
    hmac: (seq<byte>, seq<byte>) -> Mac,
    junk: (nat, nat) -> nat,
    hash160: Point -> nat)

  const HARD: nat := 0x8000_0000

  /** `i & BIP32_HARD`. */
  predicate IsHard(i: uint32) {
    i >= HARD
  }

  /** Bit 31 of the index. */
  lemma HardBit(i: uint32)
    ensures IsHard(i) <==> i / 0x8000_0000 % 2 == 1
  {
  }

  predicate Scalar(w: Curve, k: nat) {
    1 <= k < w.order
  }

  /** Point addition is addition of scalars, and its result is infinite exactly for the sum 0. */
  ghost predicate Lawful(w: Curve) {
    && w.order > 1
    && (forall k: nat, b: nat {:trigger w.add(w.point(k), b)} ::
          Scalar(w, k) && b < w.order && (k + b) % w.order != 0 ==>
          w.add(w.point(k), b) == w.point((k + b) % w.order))
    && (forall k: nat, b: nat {:trigger w.infinite(w.point(k), b)} :: Scalar(w, k) && b < w.order ==>
          (w.infinite(w.point(k), b) <==> (k + b) % w.order == 0))
  }

  // ---------------------------------------------------------------- BIP 32, "Child key derivation (CKD) functions"

  datatype XPriv = XPriv(k: nat, c: Chain)

  datatype XPub = XPub(p: Point, c: Chain)

  /** The message that a private derivation authenticates. */
  function PrivData(w: Curve, k: nat, i: uint32): seq<byte> {
    (if IsHard(i) then [0] + Words.ToBE(k, 32) else w.point(k)) + Words.ToBE(i, 4)
  }

  /** The number that a byte string spells, most significant byte first. */
  function BigEndian(s: seq<byte>): nat
    decreases |s|
  {
    if s == [] then 0 else 256 * BigEndian(s[..|s| - 1]) + s[|s| - 1]
  }

  /** k has 256 bits. */
  ghost predicate Fits32(k: nat) {
    k < Pow2(256)
  }

  /** 0x00 || ser256(k) || ser32(i). */
  ghost predicate HardMessage(d: seq<byte>, k: nat, i: nat) {
    |d| == 37 && d[0] == 0 && BigEndian(d[1..33]) == k && BigEndian(d[33..37]) == i
  }

  /** serP(p) || ser32(i). */
  ghost predicate NormalMessage(d: seq<byte>, p: Point, i: nat) {
    |d| == 37 && d[..33] == p && BigEndian(d[33..37]) == i
  }

  lemma {:induction false} ReadBack(n: nat, k: nat)
    requires n < Pow2(8 * k)
    ensures BigEndian(Words.ToBE(n, k)) == n
  {
    if k == 0 {
    } else {
      Pow2Add(8, 8 * (k - 1));
      assert Pow2(8) == 256;
      ReadBack(n / 256, k - 1);
      assert Words.ToBE(n, k)[..k - 1] == Words.ToBE(n / 256, k - 1);
    }
  }

  lemma {:induction false} SpelledOnce(s: seq<byte>)
    ensures Words.ToBE(BigEndian(s), |s|) == s
    decreases |s|
  {
    if s == [] {
    } else {
      var n := |s| - 1;
      SpelledOnce(s[..n]);
      assert BigEndian(s) % 256 == s[n] && BigEndian(s) / 256 == BigEndian(s[..n]);
    }
  }

  lemma ReadKey(k: nat)
    requires Fits32(k)
    ensures BigEndian(Words.ToBE(k, 32)) == k
  {
    hide BigEndian, Words.ToBE, Pow2;
    ReadBack(k, 32);
  }

  lemma ReadIndex(i: uint32)
    ensures BigEndian(Words.ToBE(i, 4)) == i
  {
    hide BigEndian, Words.ToBE, Pow2;
    Words.Powers();
    ReadBack(i, 4);
  }

  lemma HardParts(a: seq<byte>, b: seq<byte>, e: seq<byte>)
    requires |a| == 32 && |b| == 4 && e == [0] + a + b
    ensures |e| == 37 && e[0] == 0 && e[1..33] == a && e[33..37] == b
  {
  }

  lemma HardWhole(d: seq<byte>)
    requires |d| == 37 && d[0] == 0
    ensures d == [0] + d[1..33] + d[33..37]
  {
  }

  /** A key of 32 bytes and an index have exactly one hardened message: what the private derivation authenticates. */
  lemma HardData(w: Curve, k: nat, i: uint32, d: seq<byte>)
    requires Fits32(k) && IsHard(i)
    ensures HardMessage(d, k, i) <==> d == PrivData(w, k, i)
  {
    hide BigEndian, Words.ToBE, Fits32;
    ReadKey(k);
    ReadIndex(i);
    HardParts(Words.ToBE(k, 32), Words.ToBE(i, 4), PrivData(w, k, i));
    if HardMessage(d, k, i) {
      SpelledOnce(d[1..33]);
      SpelledOnce(d[33..37]);
      HardWhole(d);
    }
  }

  lemma NormalParts(p: Point, b: seq<byte>, e: seq<byte>)
    requires |b| == 4 && e == p + b
    ensures |e| == 37 && e[..33] == p && e[33..37] == b
  {
  }

  lemma NormalWhole(d: seq<byte>)
    requires |d| == 37
    ensures d == d[..33] + d[33..37]
  {
  }

  lemma NormalData(w: Curve, k: nat, i: uint32, d: seq<byte>)
    requires !IsHard(i)
    ensures NormalMessage(d, w.point(k), i) <==> d == PrivData(w, k, i)
  {
    hide BigEndian, Words.ToBE;
    ReadIndex(i);
    NormalParts(w.point(k), Words.ToBE(i, 4), PrivData(w, k, i));
    if NormalMessage(d, w.point(k), i) {
      SpelledOnce(d[33..37]);
      NormalWhole(d);
    }
  }

  /** Compressed points start with 2 or 3. */
  ghost predicate Prefixed(w: Curve) {
    forall k {:trigger w.point(k)} :: w.point(k)[0] == 2 || w.point(k)[0] == 3
  }

  /** No hardened derivation authenticates what a normal one does, so the public derivation never computes its HMAC. */
  lemma HardIsNeverNormal(w: Curve, k: nat, i: uint32, k': nat, j: uint32)
    requires Prefixed(w) && IsHard(i) && !IsHard(j)
    ensures PrivData(w, k, i) != PrivData(w, k', j)
  {
    assert PrivData(w, k, i)[0] == 0 && PrivData(w, k', j)[0] == w.point(k')[0];
  }

  /** BRSecp256k1ModAdd. */
  function ModAdd(w: Curve, k: nat, b: nat): nat
    requires w.order > 0
  {
    if b < w.order && (k + b) % w.order != 0 then (k + b) % w.order else w.junk(k, b)
  }

  /** BRSecp256k1PointAdd, which leaves its point alone when it fails. */
  function PointAdd(w: Curve, p: Point, b: nat): Point {
    if b < w.order && !w.infinite(p, b) then w.add(p, b) else p
  }

  function CKDpriv(w: Curve, x: XPriv, i: uint32): XPriv
    requires w.order > 0
  {
    var m := w.hmac(x.c, PrivData(w, x.k, i));
    XPriv(ModAdd(w, x.k, m.left), m.right)
  }

  /** A hardened child is made from the HMAC of the private key's message, whatever the curve's points are. */
  lemma HardChild(w: Curve, x: XPriv, i: uint32, d: seq<byte>)
    requires w.order > 0 && Fits32(x.k) && IsHard(i) && HardMessage(d, x.k, i)
    ensures var m := w.hmac(x.c, d);
            CKDpriv(w, x, i) == XPriv(if m.left < w.order && (x.k + m.left) % w.order != 0 then (x.k + m.left) % w.order
                                      else w.junk(x.k, m.left), m.right)
  {
    HardData(w, x.k, i, d);
  }

  /** A public key has no hardened children; the source leaves everything as it is. */
  function CKDpub(w: Curve, y: XPub, i: uint32): XPub {
    if IsHard(i) then y
    else
      var m := w.hmac(y.c, y.p + Words.ToBE(i, 4));
      XPub(PointAdd(w, y.p, m.left), m.right)
  }

  /** A public child is made from the HMAC of the point and the index; when IL is too large or the sum is infinite, the
      point stays and the chain code changes all the same. A hardened index changes nothing. */
  lemma PublicChild(w: Curve, y: XPub, i: uint32, d: seq<byte>)
    requires NormalMessage(d, y.p, i)
    ensures var m := w.hmac(y.c, d);
            CKDpub(w, y, i) ==
            if i >= 0x8000_0000 then y
            else if m.left >= w.order || w.infinite(y.p, m.left) then XPub(y.p, m.right)
            else XPub(w.add(y.p, m.left), m.right)
  {
    hide BigEndian, Words.ToBE;
    SpelledOnce(d[33..37]);
    NormalWhole(d);
  }

  /** The extended public key of an extended private key. */
  function Neuter(w: Curve, x: XPriv): XPub {
    XPub(w.point(x.k), x.c)
  }

  /** "In case parse256(IL) >= n or ki = 0, the resulting key is invalid". */
  predicate Fails(w: Curve, x: XPriv, i: uint32)
    requires w.order > 0
  {
    var m := w.hmac(x.c, PrivData(w, x.k, i));
    m.left >= w.order || (x.k + m.left) % w.order == 0
  }

  lemma ChildIsScalar(w: Curve, x: XPriv, i: uint32)
    requires w.order > 1 && !Fails(w, x, i)
    ensures Scalar(w, CKDpriv(w, x, i).k)
  {
  }

  /** One normal step: deriving and taking the public key can be done in either order. */
  lemma Commute(w: Curve, x: XPriv, i: uint32)
    requires Lawful(w) && Scalar(w, x.k) && !IsHard(i) && !Fails(w, x, i)
    ensures Neuter(w, CKDpriv(w, x, i)) == CKDpub(w, Neuter(w, x), i)
  {
    var m := w.hmac(x.c, PrivData(w, x.k, i));
    assert w.infinite(w.point(x.k), m.left) <==> (x.k + m.left) % w.order == 0;
    assert w.add(w.point(x.k), m.left) == w.point((x.k + m.left) % w.order);
  }

  /** The public derivation refuses exactly the steps that the private one refuses, and the chain codes always agree. */
  lemma FailTogether(w: Curve, x: XPriv, i: uint32)
    requires Lawful(w) && Scalar(w, x.k) && !IsHard(i)
    ensures var m := w.hmac(x.c, w.point(x.k) + Words.ToBE(i, 4));
            Fails(w, x, i) <==> m.left >= w.order || w.infinite(w.point(x.k), m.left)
    ensures CKDpub(w, Neuter(w, x), i).c == CKDpriv(w, x, i).c
  {
    var m := w.hmac(x.c, PrivData(w, x.k, i));
    if m.left < w.order {
      assert w.infinite(w.point(x.k), m.left) <==> (x.k + m.left) % w.order == 0;
    }
  }

  // ---------------------------------------------------------------- paths

  function DerivePriv(w: Curve, x: XPriv, path: seq<uint32>): XPriv
    requires w.order > 0
    decreases |path|
  {
    if path == [] then x else CKDpriv(w, DerivePriv(w, x, path[..|path| - 1]), path[|path| - 1])
  }

  function DerivePub(w: Curve, y: XPub, path: seq<uint32>): XPub
    decreases |path|
  {
    if path == [] then y else CKDpub(w, DerivePub(w, y, path[..|path| - 1]), path[|path| - 1])
  }

  /** No step of the path fails. */
  predicate Succeeds(w: Curve, x: XPriv, path: seq<uint32>)
    requires w.order > 0
    decreases |path|
  {
    path == [] || (Succeeds(w, x, path[..|path| - 1]) &&
      !Fails(w, DerivePriv(w, x, path[..|path| - 1]), path[|path| - 1]))
  }

  predicate AllNormal(path: seq<uint32>) {
    forall k :: 0 <= k < |path| ==> !IsHard(path[k])
  }

  /** A path of normal steps commutes with taking the public key. */
  lemma {:induction false} CommutePath(w: Curve, x: XPriv, path: seq<uint32>)
    requires Lawful(w) && Scalar(w, x.k) && AllNormal(path) && Succeeds(w, x, path)
    ensures Scalar(w, DerivePriv(w, x, path).k)
    ensures Neuter(w, DerivePriv(w, x, path)) == DerivePub(w, Neuter(w, x), path)
    decreases |path|
  {
    if path == [] {
    } else {
      var n := |path| - 1;
      CommutePath(w, x, path[..n]);
      ChildIsScalar(w, DerivePriv(w, x, path[..n]), path[n]);
      Commute(w, DerivePriv(w, x, path[..n]), path[n]);
    }
  }

  // ---------------------------------------------------------------- seeds

  /** "Bitcoin seed". */
  function SeedKey(): seq<byte> {
    [0x42, 0x69, 0x74, 0x63, 0x6f, 0x69, 0x6e, 0x20, 0x73, 0x65, 0x65, 0x64]
  }

  function Master(w: Curve, seed: seq<byte>): XPriv {
    var m := w.hmac(SeedKey(), seed);
    XPriv(m.left, m.right)
  }

  /** The first HMAC has the ASCII codes of "Bitcoin seed" as its key and the seed as its message. */
  lemma MasterIs(w: Curve, key: seq<byte>, seed: seq<byte>)
    requires |key| == |"Bitcoin seed"| && forall i :: 0 <= i < |key| ==> key[i] == "Bitcoin seed"[i] as int
    ensures Master(w, seed) == XPriv(w.hmac(key, seed).left, w.hmac(key, seed).right)
  {
    assert key == SeedKey();
  }

  const ZERO_HARD: uint32 := 0x8000_0000

  // BRMasterPubKey.
  datatype MasterPubKey = MasterPubKey(fingerPrint: nat, chainCode: Chain, pubKey: Point)

  /** m/0H. */
  function Account(w: Curve, seed: seq<byte>): XPriv
    requires w.order > 0
  {
    CKDpriv(w, Master(w, seed), ZERO_HARD)
  }

  /** BRKeyPubKey leaves the zeros of BR_MASTER_PUBKEY_NONE where the secret is not valid. */
  function PubKeyOf(w: Curve, k: nat): Point {
    if Scalar(w, k) then w.point(k) else seq(33, _ => 0)
  }

  /** BRKeyHash160, of which the fingerprint is the first word. */
  function FingerPrint(w: Curve, k: nat): nat {
    if Scalar(w, k) then w.hash160(w.point(k)) else 0
  }

  /** 0 and numbers from the order on are no secrets: they give neither a public key nor a fingerprint. */
  lemma NoPublicKey(w: Curve, k: nat)
    requires k == 0 || k >= w.order
    ensures PubKeyOf(w, k) == Zeros(33) && FingerPrint(w, k) == 0
  {
  }

  /** What BRBIP32MasterPubKey returns. */
  function MasterKey(w: Curve, seed: seq<byte>): MasterPubKey
    requires w.order > 0
  {
    MasterPubKey(FingerPrint(w, Master(w, seed).k), Account(w, seed).c, PubKeyOf(w, Account(w, seed).k))
  }

  /** The fingerprint is that of m itself, not of m/0H. */
  lemma MasterFingerPrint(w: Curve, key: seq<byte>, seed: seq<byte>)
    requires w.order > 0
    requires |key| == |"Bitcoin seed"| && forall i :: 0 <= i < |key| ==> key[i] == "Bitcoin seed"[i] as int
    ensures var k := w.hmac(key, seed).left;
            1 <= k < w.order ==> MasterKey(w, seed).fingerPrint == w.hash160(w.point(k))
  {
    MasterIs(w, key, seed);
  }

  /** The private key for a path from the seed. */
  function PathKey(w: Curve, seed: seq<byte>, path: seq<uint32>): nat
    requires w.order > 0
  {
    DerivePriv(w, Master(w, seed), path).k
  }

  /** The public key for a chain and an index from a master public key. */
  function IndexKey(w: Curve, mpk: MasterPubKey, chain: uint32, index: uint32): Point {
    DerivePub(w, XPub(mpk.pubKey, mpk.chainCode), [chain, index]).p
  }

  lemma {:induction false} DeriveConcat(w: Curve, x: XPriv, p: seq<uint32>, q: seq<uint32>)
    requires w.order > 0
    ensures DerivePriv(w, x, p + q) == DerivePriv(w, DerivePriv(w, x, p), q)
    ensures Succeeds(w, x, p + q) <==> Succeeds(w, x, p) && Succeeds(w, DerivePriv(w, x, p), q)
    decreases |q|
  {
    if q == [] {
      assert p + q == p;
    } else {
      var n := |q| - 1;
      DeriveConcat(w, x, p, q[..n]);
      assert (p + q)[..|p + q| - 1] == p + q[..n] && (p + q)[|p + q| - 1] == q[n];
    }
  }

  lemma OneStep(w: Curve, x: XPriv, i: uint32)
    requires w.order > 0
    ensures DerivePriv(w, x, [i]) == CKDpriv(w, x, i)
    ensures Succeeds(w, x, [i]) <==> !Fails(w, x, i)
  {
    assert [i][..0] == [];
    assert DerivePriv(w, x, []) == x;
  }

  /** For every normal chain and index, the public key from the master public key is the point of the private key at
      m/0H/chain/index, when no derivation on that path fails. */
  lemma PublicMatchesPrivate(w: Curve, seed: seq<byte>, chain: uint32, index: uint32)
    requires Lawful(w) && Scalar(w, Master(w, seed).k) && !IsHard(chain) && !IsHard(index)
    requires Succeeds(w, Master(w, seed), [0x8000_0000, chain, index])
    ensures IndexKey(w, MasterKey(w, seed), chain, index) == w.point(PathKey(w, seed, [0x8000_0000, chain, index]))
  {
    var x, a := Master(w, seed), Account(w, seed);
    assert [ZERO_HARD] + [chain, index] == [ZERO_HARD, chain, index];
    DeriveConcat(w, x, [ZERO_HARD], [chain, index]);
    OneStep(w, x, ZERO_HARD);
    ChildIsScalar(w, x, ZERO_HARD);
    CommutePath(w, a, [chain, index]);
  }

  // ---------------------------------------------------------------- in place

  // The secret and the chain code that _CKDpriv overwrites through its pointers.
  class Secret {
    var k: nat
    var c: Chain

    constructor (x: XPriv)
      ensures Value() == x
    {
      k, c := x.k, x.c;
    }

    function Value(): XPriv
      reads this
    {
      XPriv(k, c)
    }

    /** _CKDpriv. */
    method Derive(w: Curve, i: uint32)
      requires w.order > 0
      modifies this
      ensures Value() == CKDpriv(w, old(Value()), i)
      ensures forall d :: Fits32(old(k)) && IsHard(i) && HardMessage(d, old(k), i) ==>
                k == ModAdd(w, old(k), w.hmac(old(c), d).left) && c == w.hmac(old(c), d).right
      ensures forall d :: !IsHard(i) && NormalMessage(d, w.point(old(k)), i) ==>
                k == ModAdd(w, old(k), w.hmac(old(c), d).left) && c == w.hmac(old(c), d).right
    {
      forall d ensures Fits32(k) && IsHard(i) ==> (HardMessage(d, k, i) <==> d == PrivData(w, k, i))
        ensures !IsHard(i) ==> (NormalMessage(d, w.point(k), i) <==> d == PrivData(w, k, i)) {
        if !IsHard(i) {
          NormalData(w, k, i, d);
        } else if Fits32(k) {
          HardData(w, k, i, d);
        }
      }
      var buf := (if IsHard(i) then [0] + Words.ToBE(k, 32) else w.point(k)) + Words.ToBE(i, 4);
      var m := w.hmac(c, buf);
      k := ModAdd(w, k, m.left);
      c := m.right;
    }
  }

  // The point and the chain code that _CKDpub overwrites.
  class Public {
    var p: Point
    var c: Chain

    constructor (y: XPub)
      ensures Value() == y
    {
      p, c := y.p, y.c;
    }

    function Value(): XPub
      reads this
    {
      XPub(p, c)
    }

    /** _CKDpub. */
    method Derive(w: Curve, i: uint32)
      modifies this
      ensures Value() == CKDpub(w, old(Value()), i)
    {
      if !IsHard(i) {
        var m := w.hmac(c, p + Words.ToBE(i, 4));
        c := m.right;
        p := PointAdd(w, p, m.left);
      }
    }
  }

  /** HMAC of the seed, split into secret and chain code. */
  method FromSeed(w: Curve, seed: seq<byte>) returns (s: Secret)
    ensures fresh(s) && s.Value() == Master(w, seed)
  {
    s := new Secret(Master(w, seed));
  }

  /** BRBIP32MasterPubKey. */
  method BRBIP32MasterPubKey(w: Curve, seed: seq<byte>) returns (mpk: MasterPubKey)
    requires w.order > 0
    ensures mpk == MasterKey(w, seed)
  {
    var s := FromSeed(w, seed);
    var mark := FingerPrint(w, s.k);
    s.Derive(w, ZERO_HARD);
    mpk := MasterPubKey(mark, s.c, PubKeyOf(w, s.k));
  }

  lemma TwoSteps(w: Curve, y: XPub, i: uint32, j: uint32)
    ensures DerivePub(w, y, [i, j]) == CKDpub(w, CKDpub(w, y, i), j)
  {
    assert [i, j][..1] == [i] && [i][..0] == [];
    assert DerivePub(w, y, []) == y;
    assert DerivePub(w, y, [i]) == CKDpub(w, y, i);
  }

  /** BRBIP32PubKey: a null buffer asks for the size, one that is too small gets nothing. */
  method BRBIP32PubKey(w: Curve, pubKey: array?<byte>, pubKeyLen: nat, mpk: MasterPubKey, chain: uint32, index: uint32)
    returns (n: nat)
    requires pubKey != null ==> pubKeyLen <= pubKey.Length
    modifies pubKey
    ensures n == if pubKey == null || pubKeyLen >= 33 then 33 else 0
    ensures pubKey != null && n > 0 ==>
              pubKey[..33] == IndexKey(w, mpk, chain, index) && pubKey[33..] == old(pubKey[33..])
    ensures pubKey != null && n == 0 ==> pubKey[..] == old(pubKey[..])
  {
    if pubKey != null && pubKeyLen >= 33 {
      TwoSteps(w, XPub(mpk.pubKey, mpk.chainCode), chain, index);
      var k := new Public(XPub(mpk.pubKey, mpk.chainCode));
      k.Derive(w, chain);
      k.Derive(w, index);
      var p := k.p;
      forall i | 0 <= i < 33 { pubKey[i] := p[i]; }
    }
    n := if pubKey == null || pubKeyLen >= 33 then 33 else 0;
  }

  /** BRBIP32vPrivKeyPath: the loop over the path. */
  method BRBIP32vPrivKeyPath(w: Curve, seed: seq<byte>, path: seq<uint32>) returns (key: nat)
    requires w.order > 0
    ensures key == PathKey(w, seed, path)
  {
    var s := FromSeed(w, seed);
    ghost var x := Master(w, seed);
    assert path[..0] == [];
    for i := 0 to |path|
      invariant fresh(s) && s.Value() == DerivePriv(w, x, path[..i])
    {
      s.Derive(w, path[i]);
      assert path[..i + 1][..i] == path[..i] && path[..i + 1][i] == path[i];
    }
    assert path[..|path|] == path;
    key := s.k;
  }

  lemma ListEntry(w: Curve, x: XPriv, chain: uint32, index: uint32)
    requires w.order > 0
    ensures CKDpriv(w, CKDpriv(w, CKDpriv(w, x, ZERO_HARD), chain), index) ==
            DerivePriv(w, x, [ZERO_HARD, chain, index])
  {
    OneStep(w, x, ZERO_HARD);
    OneStep(w, CKDpriv(w, x, ZERO_HARD), chain);
    OneStep(w, CKDpriv(w, CKDpriv(w, x, ZERO_HARD), chain), index);
    assert [ZERO_HARD] + [chain] == [ZERO_HARD, chain] && [ZERO_HARD, chain] + [index] == [ZERO_HARD, chain, index];
    DeriveConcat(w, x, [ZERO_HARD], [chain]);
    DeriveConcat(w, x, [ZERO_HARD, chain], [index]);
  }

  /** BRBIP32PrivKeyList: every entry is the key that the path derivation gives. */
  method BRBIP32PrivKeyList(w: Curve, keys: array<nat>, seed: seq<byte>, chain: uint32, indexes: seq<uint32>)
    requires w.order > 0 && |indexes| <= keys.Length
    modifies keys
    ensures forall j :: 0 <= j < |indexes| ==> keys[j] == PathKey(w, seed, [ZERO_HARD, chain, indexes[j]])
    ensures forall j :: |indexes| <= j < keys.Length ==> keys[j] == old(keys[j])
  {
    hide HardMessage, NormalMessage, CKDpriv, DerivePriv, Master, IsHard, ModAdd, Fits32;
    var s := FromSeed(w, seed);
    ghost var x := Master(w, seed);
    s.Derive(w, ZERO_HARD);
    s.Derive(w, chain);
    var shared := s.Value();
    for i := 0 to |indexes|
      invariant forall j :: 0 <= j < i ==> keys[j] == PathKey(w, seed, [ZERO_HARD, chain, indexes[j]])
      invariant forall j :: i <= j < keys.Length ==> keys[j] == old(keys[j])
    {
      var t := new Secret(shared);
      t.Derive(w, indexes[i]);
      ListEntry(w, x, chain, indexes[i]);
      keys[i] := t.k;
    }
  }
}
