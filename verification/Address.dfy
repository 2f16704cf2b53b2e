/**
 Scripts to addresses and back (BRAddressFromScriptPubKey, BRAddressScriptPubKey and BRAddressIsValid in BRAddress.c),
 on the main network. A script is a string of bv8, an address a string of ASCII codes.
 */
module Address {
  import opened Common
  import opened ByteBits
  import Script
  import Base58
  import Bech32
  import Bech32Checksum

  const PUBKEY_ADDRESS: byte := 93
  const SCRIPT_ADDRESS: byte := 33
  const MAX_SCRIPT_LENGTH: nat := 0x100

  const OP_0: bv8 := 0x00
  const OP_1: bv8 := 0x51
  const OP_16: bv8 := 0x60
  const OP_DUP: bv8 := 0x76
  const OP_EQUAL: bv8 := 0x87
  const OP_EQUALVERIFY: bv8 := 0x88
  const OP_HASH160: bv8 := 0xa9
  const OP_CHECKSIG: bv8 := 0xac

  /** "eac". */
  function Eac(): Octets {
    [0x65, 0x61, 0x63]
  }

  type Hash20 = s: Octets | |s| == 20 witness seq(20, _ => 0)

  // The hashes and the Bech32 codec. Proofs about addresses use only the law that decoding undoes encoding.
  datatype World = World(
    sha: Sha,
    hash160: Octets -> Hash20,
    encode: (bv8, Octets) -> Octets,
    decode: Octets -> Option<Bech32.Address>)

  function Encoding(op: bv8, prog: Octets): Octets {
    Bech32.AddressOf(Bech32Checksum.Polymod, Eac(), Bech32.VersionOf(op), prog)
  }

  function Decoding(s: Octets): Option<Bech32.Address> {
    Bech32.Meaning(Bech32Checksum.Polymod, s)
  }

  /** The codec is the one of BRBech32.c. */
  ghost predicate IsBech32(w: World) {
    && (forall op, prog {:trigger Encoding(op, prog)} :: w.encode(op, prog) == Encoding(op, prog))
    && (forall s {:trigger Decoding(s)} :: w.decode(s) == Decoding(s))
  }

  /** The witness programs that a pay-to-witness script may carry. */
  predicate GoodWitness(op: bv8, prog: Octets) {
    if op == OP_0 then |prog| == 20 || |prog| == 32 else OP_1 <= op <= OP_16 && 2 <= |prog| <= 40
  }

  ghost predicate RoundTrips(w: World) {
    forall op, prog :: GoodWitness(op, prog) ==>
      w.decode(w.encode(op, prog)) == Some(Bech32.Address(Eac(), Bech32.VersionOf(op), prog))
  }

  lemma WitnessVersion(op: bv8)
    requires op == OP_0 || OP_1 <= op <= OP_16
    ensures Bech32.VersionOf(op) <= 16 && Bech32.OpOf(Bech32.VersionOf(op)) == op && !(0 < op < 0x51)
  {
  }

  lemma EacIsLower()
    ensures Bech32.LowerCase(Eac())
  {
  }

  lemma Bech32RoundTrips(w: World)
    requires IsBech32(w)
    ensures RoundTrips(w)
  {
    forall op, prog | GoodWitness(op, prog)
      ensures w.decode(w.encode(op, prog)) == Some(Bech32.Address(Eac(), Bech32.VersionOf(op), prog))
    {
      WitnessVersion(op);
      EacIsLower();
      Bech32.EncodeThenDecode(Eac(), op, prog);
      var s := Encoding(op, prog);
      var a := Decoding(s);
    }
  }

  // ---------------------------------------------------------------- the scripts

  function PayToPubKeyHash(h: Octets): Octets {
    [OP_DUP, OP_HASH160, 20] + h + [OP_EQUALVERIFY, OP_CHECKSIG]
  }

  function PayToScriptHash(h: Octets): Octets {
    [OP_HASH160, 20] + h + [OP_EQUAL]
  }

  function PayToWitness(op: bv8, prog: Octets): Octets
    requires |prog| < 256
  {
    [op, Bits(|prog|)] + prog
  }

  // What BRAddressFromScriptPubKey recognizes.
  datatype Kind =
    | PubKeyHash(h: Octets)
    | ScriptHash(h: Octets)
    | PubKey(key: Octets)
    | Witness(op: bv8, prog: Octets)
    | Other

  /** The data of the element at off. */
  function DataAt(script: Octets, off: nat): Octets {
    var s := Numbers(script);
    if off < |s| && Script.Next(s, off).Some? && Script.Next(s, off).value <= |s| then
      script[Script.Next(s, off).value - Script.DataLength(s, off)..Script.Next(s, off).value]
    else []
  }

  function OpAt(script: Octets, at: seq<nat>, i: nat): bv8
    requires i < |at|
  {
    if at[i] < |script| then script[at[i]] else 0
  }

  /** The cases of BRAddressFromScriptPubKey, in its order, for the elements at `at`. */
  function Classify(script: Octets, at: seq<nat>): Kind {
    if |at| == 5 && OpAt(script, at, 0) == OP_DUP && OpAt(script, at, 1) == OP_HASH160 && OpAt(script, at, 2) == 20 &&
       OpAt(script, at, 3) == OP_EQUALVERIFY && OpAt(script, at, 4) == OP_CHECKSIG then
      PubKeyHash(DataAt(script, at[2]))
    else if |at| == 3 && OpAt(script, at, 0) == OP_HASH160 && OpAt(script, at, 1) == 20 &&
      OpAt(script, at, 2) == OP_EQUAL then
      ScriptHash(DataAt(script, at[1]))
    else if |at| == 2 && (OpAt(script, at, 0) == 65 || OpAt(script, at, 0) == 33) &&
      OpAt(script, at, 1) == OP_CHECKSIG then
      PubKey(DataAt(script, at[0]))
    else if |at| == 2 && ((OpAt(script, at, 0) == OP_0 && (OpAt(script, at, 1) == 20 || OpAt(script, at, 1) == 32)) ||
                          (OP_1 <= OpAt(script, at, 0) <= OP_16 && 2 <= OpAt(script, at, 1) <= 40)) then
      Witness(OpAt(script, at, 0), if |script| >= 2 then script[2..] else [])
    else Other
  }

  // ---------------------------------------------------------------- the forms that the cases accept

  /** Elements at `at` tile the script from off on. */
  ghost predicate Laid(script: Octets, off: nat, at: seq<nat>) {
    Script.Tiled(Numbers(script), off) && Script.Starts(Numbers(script), off) == at
  }

  /** The first of the elements, and the others. */
  lemma Peel(script: Octets, off: nat, at: seq<nat>) returns (next: nat)
    requires Laid(script, off, at) && at != []
    ensures at[0] == off < |script| && Script.Next(Numbers(script), off) == Some(next) && next > off &&
            Laid(script, next, at[1..])
  {
    next := Script.Next(Numbers(script), off).value;
  }

  lemma NoneLeft(script: Octets, off: nat, at: seq<nat>)
    requires Laid(script, off, at) && at == []
    ensures off == |script|
  {
  }

  /** An opcode without data is one byte, a short push is its length and the data. */
  lemma ElementSize(script: Octets, off: nat)
    requires off < |script|
    ensures script[off] > 0x4e || script[off] == 0 ==> Script.Next(Numbers(script), off) == Some(off + 1)
    ensures 0 < script[off] < 0x4c ==> Script.Next(Numbers(script), off) == Some(off + 1 + Number(script[off]))
    ensures 0 < script[off] < 0x4c ==> Script.DataLength(Numbers(script), off) == Number(script[off])
  {
    NumberOrder(script[off]);
  }

  lemma NumberOrder(x: bv8)
    ensures x > 0x4e <==> Number(x) > 0x4e
    ensures x == 0 <==> Number(x) == 0
    ensures x < 0x4c <==> Number(x) < 0x4c
  {
  }

  /** Three elements of sizes 1, 21 and 1 from off on: a hash between single opcodes. */
  lemma HashElements(script: Octets, off: nat, at: seq<nat>)
    requires Laid(script, off, at) && |at| == 3
    requires OpAt(script, at, 0) > 0x4e && OpAt(script, at, 1) == 20 && OpAt(script, at, 2) > 0x4e
    ensures at == [off, off + 1, off + 22] && |script| == off + 23
    ensures DataAt(script, off + 1) == script[off + 2..off + 22]
  {
    var p1 := Peel(script, off, at);
    ElementSize(script, off);
    var p2 := Peel(script, p1, at[1..]);
    ElementSize(script, off + 1);
    var p3 := Peel(script, p2, at[1..][1..]);
    ElementSize(script, off + 22);
    NoneLeft(script, p3, at[1..][1..][1..]);
  }

  lemma ScriptHashAccepted(script: Octets, at: seq<nat>, h: Octets)
    requires Laid(script, 0, at) && Classify(script, at) == ScriptHash(h)
    ensures |h| == 20 && script == PayToScriptHash(h)
  {
    HashElements(script, 0, at);
  }

  lemma PubKeyHashCase(script: Octets, at: seq<nat>, h: Octets)
    requires Classify(script, at) == PubKeyHash(h)
    ensures |at| == 5 && OpAt(script, at, 0) == OP_DUP && h == DataAt(script, at[1..][1])
    ensures OpAt(script, at[1..], 0) == OP_HASH160 && OpAt(script, at[1..], 1) == 20
    ensures OpAt(script, at[1..], 2) == OP_EQUALVERIFY && OpAt(script, at[1..], 3) == OP_CHECKSIG
  {
  }

  lemma DupFirst(script: Octets, h: Octets)
    requires script != [] && script[0] == OP_DUP && script[1..] == [OP_HASH160, 20] + h + [OP_EQUALVERIFY, OP_CHECKSIG]
    ensures script == PayToPubKeyHash(h)
  {
    assert script == [script[0]] + script[1..];
  }

  lemma PubKeyHashAccepted(script: Octets, at: seq<nat>, h: Octets)
    requires Laid(script, 0, at) && Classify(script, at) == PubKeyHash(h)
    ensures |h| == 20 && script == PayToPubKeyHash(h)
  {
    PubKeyHashCase(script, at, h);
    var p1 := Peel(script, 0, at);
    ElementSize(script, 0);
    FourElements(script, at[1..], h);
    DupFirst(script, h);
  }

  lemma FourElements(script: Octets, at: seq<nat>, h: Octets)
    requires Laid(script, 1, at) && |at| == 4 && OpAt(script, at, 0) == OP_HASH160 && OpAt(script, at, 1) == 20
    requires OpAt(script, at, 2) == OP_EQUALVERIFY && OpAt(script, at, 3) == OP_CHECKSIG && h == DataAt(script, at[1])
    ensures |h| == 20 && |script| == 25 && script[1..] == [OP_HASH160, 20] + h + [OP_EQUALVERIFY, OP_CHECKSIG]
  {
    var p1 := Peel(script, 1, at);
    ElementSize(script, 1);
    var p2 := Peel(script, p1, at[1..]);
    ElementSize(script, 2);
    LastTwo(script, at[1..][1..]);
  }

  lemma LastTwo(script: Octets, at: seq<nat>)
    requires Laid(script, 23, at) && |at| == 2 && OpAt(script, at, 0) > 0x4e && OpAt(script, at, 1) > 0x4e
    ensures at == [23, 24] && |script| == 25
  {
    var p1 := Peel(script, 23, at);
    ElementSize(script, 23);
    var p2 := Peel(script, p1, at[1..]);
    ElementSize(script, 24);
    NoneLeft(script, p2, at[1..][1..]);
  }

  lemma WitnessAccepted(script: Octets, at: seq<nat>, op: bv8, prog: Octets)
    requires Laid(script, 0, at) && Classify(script, at) == Witness(op, prog)
    ensures GoodWitness(op, prog) && script == PayToWitness(op, prog)
  {
    hide Classify, Laid;
    WitnessCase(script, at, op, prog);
    WitnessElements(script, at);
    WitnessLength(script[1]);
    BitsOfNumber(script[1]);
    TwoFirst(script);
  }

  lemma TwoFirst(script: Octets)
    requires |script| >= 2
    ensures script == [script[0], script[1]] + script[2..]
  {
  }

  lemma WitnessCase(script: Octets, at: seq<nat>, op: bv8, prog: Octets)
    requires Classify(script, at) == Witness(op, prog)
    ensures |at| == 2 && op == OpAt(script, at, 0) && prog == if |script| >= 2 then script[2..] else []
    ensures (op == OP_0 && (OpAt(script, at, 1) == 20 || OpAt(script, at, 1) == 32)) ||
            (OP_1 <= op <= OP_16 && 2 <= OpAt(script, at, 1) <= 40)
  {
  }

  /** An opcode and one short push, and nothing else. */
  lemma WitnessElements(script: Octets, at: seq<nat>)
    requires Laid(script, 0, at) && |at| == 2
    requires OpAt(script, at, 0) == OP_0 || OP_1 <= OpAt(script, at, 0) <= OP_16
    requires 2 <= OpAt(script, at, 1) <= 40
    ensures at == [0, 1] && |script| >= 2 && |script| == 2 + Number(script[1])
  {
    hide Laid;
    var p1 := Peel(script, 0, at);
    ElementSize(script, 0);
    var p2 := Peel(script, p1, at[1..]);
    ElementSize(script, 1);
    WitnessLength(script[1]);
    NoneLeft(script, p2, at[1..][1..]);
  }

  lemma WitnessLength(n: bv8)
    ensures n == 20 <==> Number(n) == 20
    ensures n == 32 <==> Number(n) == 32
    ensures 2 <= n <= 40 <==> 2 <= Number(n) <= 40
    ensures 2 <= n <= 40 ==> 0 < n < 0x4c
  {
  }

  // ---------------------------------------------------------------- scripts to addresses

  function Elements(script: Octets): seq<nat> {
    if Script.Tiled(Numbers(script), 0) then Script.Starts(Numbers(script), 0) else []
  }

  function KindOf(script: Octets): Kind {
    if script == [] || |script| > MAX_SCRIPT_LENGTH then Other else Classify(script, Elements(script))
  }

  function Base58Address(w: World, version: byte, h: Octets): seq<byte> {
    Base58.CheckEncoded(w.sha, [version] + Numbers(h))
  }

  /** The address that BRAddressFromScriptPubKey writes. */
  function AddressOf(w: World, script: Octets): Option<seq<byte>> {
    match KindOf(script)
    case PubKeyHash(h) => Some(Base58Address(w, PUBKEY_ADDRESS, h))
    case ScriptHash(h) => Some(Base58Address(w, SCRIPT_ADDRESS, h))
    case PubKey(key) => Some(Base58Address(w, PUBKEY_ADDRESS, w.hash160(key)))
    case Witness(op, prog) => Some(Numbers(w.encode(op, prog)))
    case Other => None
  }

  // ---------------------------------------------------------------- addresses to scripts

  /** The script that BRAddressScriptPubKey writes. */
  function ScriptOf(w: World, a: seq<byte>): Option<Octets> {
    var d := Base58.CheckDecoded(w.sha, a);
    if |d| == 21 then
      if d[0] == PUBKEY_ADDRESS then Some(PayToPubKeyHash(AllBits(d[1..])))
      else if d[0] == SCRIPT_ADDRESS then Some(PayToScriptHash(AllBits(d[1..])))
      else None
    else BechScript(w.decode(AllBits(a)))
  }

  function BechScript(b: Option<Bech32.Address>): Option<Octets> {
    if b.Some? && b.value.hrp == Eac() && |b.value.prog| < 256 &&
       (Bech32.OpOf(b.value.ver) != OP_0 || |b.value.prog| == 20 || |b.value.prog| == 32) then
      Some(PayToWitness(Bech32.OpOf(b.value.ver), b.value.prog))
    else None
  }

  lemma Base58Back(w: World, version: byte, h: Octets)
    requires |h| == 20
    ensures ScriptOf(w, Base58Address(w, version, h)) ==
            if version == PUBKEY_ADDRESS then Some(PayToPubKeyHash(h))
            else if version == SCRIPT_ADDRESS then Some(PayToScriptHash(h)) else None
  {
    var d := [version] + Numbers(h);
    Base58.CheckRoundTrip(w.sha, d);
    assert d[1..] == Numbers(h);
    AllBitsOfNumbers(h);
  }

  lemma Laying(script: Octets)
    requires KindOf(script) != Other
    ensures Laid(script, 0, Elements(script)) && KindOf(script) == Classify(script, Elements(script))
  {
  }

  /** Every pay-to-pubkey-hash and pay-to-script-hash script comes back from its address unchanged. */
  lemma HashScriptsBack(w: World, script: Octets)
    requires KindOf(script).PubKeyHash? || KindOf(script).ScriptHash?
    ensures AddressOf(w, script).Some? && ScriptOf(w, AddressOf(w, script).value) == Some(script)
  {
    Laying(script);
    if KindOf(script).PubKeyHash? {
      PubKeyHashAccepted(script, Elements(script), KindOf(script).h);
      Base58Back(w, PUBKEY_ADDRESS, KindOf(script).h);
    } else {
      ScriptHashAccepted(script, Elements(script), KindOf(script).h);
      Base58Back(w, SCRIPT_ADDRESS, KindOf(script).h);
    }
  }

  /** A pay-to-witness script comes back unchanged exactly when its address is not also Base58Check for 21 bytes. */
  lemma WitnessScriptsBack(w: World, script: Octets)
    requires IsBech32(w) && KindOf(script).Witness?
    ensures AddressOf(w, script).Some?
    ensures ScriptOf(w, AddressOf(w, script).value) == Some(script)
            <==> |Base58.CheckDecoded(w.sha, AddressOf(w, script).value)| != 21
  {
    hide Script.Tiled, Laid, Base58.CheckDecoded;
    Bech32RoundTrips(w);
    Laying(script);
    var op, prog := KindOf(script).op, KindOf(script).prog;
    WitnessAccepted(script, Elements(script), op, prog);
    AllBitsOfNumbers(w.encode(op, prog));
    WitnessVersion(op);
    assert script[0] == op;
  }

  // ---------------------------------------------------------------- addresses that come back

  lemma StartsStep(script: Octets, off: nat, next: nat)
    requires off < |script| && Script.Next(Numbers(script), off) == Some(next)
    ensures Script.Starts(Numbers(script), off) == [off] + Script.Starts(Numbers(script), next)
    ensures Script.Tiled(Numbers(script), off) == Script.Tiled(Numbers(script), next)
  {
  }

  lemma StartsEnd(script: Octets)
    ensures Script.Starts(Numbers(script), |script|) == [] && Script.Tiled(Numbers(script), |script|)
  {
  }

  lemma Number20()
    ensures Number(20) == 20
  {
  }

  /** The elements of a hash between single opcodes. */
  lemma HashLaid(script: Octets, off: nat)
    requires off + 23 <= |script| && script[off] > 0x4e && script[off + 1] == 20 && script[off + 22] > 0x4e
    ensures Script.Starts(Numbers(script), off) == [off, off + 1, off + 22] + Script.Starts(Numbers(script), off + 23)
    ensures Script.Tiled(Numbers(script), off) == Script.Tiled(Numbers(script), off + 23)
    ensures DataAt(script, off + 1) == script[off + 2..off + 22]
  {
    Number20();
    ElementSize(script, off);
    ElementSize(script, off + 1);
    ElementSize(script, off + 22);
    StartsStep(script, off, off + 1);
    StartsStep(script, off + 1, off + 22);
    StartsStep(script, off + 22, off + 23);
    ThreeStarts(off, off + 1, off + 22, Script.Starts(Numbers(script), off + 23));
  }

  lemma ThreeStarts(a: nat, b: nat, c: nat, s: seq<nat>)
    ensures [a] + ([b] + ([c] + s)) == [a, b, c] + s
  {
  }

  lemma ScriptHashKind(h: Octets)
    requires |h| == 20
    ensures KindOf(PayToScriptHash(h)) == ScriptHash(h)
  {
    var s := PayToScriptHash(h);
    HashLaid(s, 0);
    StartsEnd(s);
    assert s[2..22] == h;
    assert Elements(s) == [0, 1, 22];
  }

  lemma PubKeyHashKind(h: Octets)
    requires |h| == 20
    ensures KindOf(PayToPubKeyHash(h)) == PubKeyHash(h)
  {
    var s := PayToPubKeyHash(h);
    ElementSize(s, 0);
    StartsStep(s, 0, 1);
    HashLaid(s, 1);
    ElementSize(s, 24);
    StartsStep(s, 24, 25);
    StartsEnd(s);
    assert s[3..23] == h;
    assert Elements(s) == [0, 1, 2, 23, 24];
  }

  lemma ShortPush(n: nat)
    requires n < 0x4c
    ensures Number(Bits(n)) == n && (n > 0 ==> 0 < Bits(n) < 0x4c)
  {
    NumberOrder(Bits(n));
  }

  lemma KeyLength(n: bv8)
    ensures n == 65 <==> Number(n) == 65
    ensures n == 33 <==> Number(n) == 33
    ensures n == 65 || n == 33 ==> 0 < n < 0x4c
  {
  }

  lemma PubKeyCase(script: Octets, at: seq<nat>, key: Octets)
    requires Classify(script, at) == PubKey(key)
    ensures |at| == 2 && (OpAt(script, at, 0) == 65 || OpAt(script, at, 0) == 33) && OpAt(script, at, 1) == 0xac
    ensures key == DataAt(script, at[0])
  {
  }

  /** A push of a key's length and one opcode, and nothing else. */
  lemma PubKeyElements(script: Octets, at: seq<nat>)
    requires Laid(script, 0, at) && |at| == 2
    requires (OpAt(script, at, 0) == 65 || OpAt(script, at, 0) == 33) && OpAt(script, at, 1) == 0xac
    ensures |script| >= 2 && at == [0, |script| - 1] && |script| == 2 + Number(script[0])
    ensures DataAt(script, 0) == script[1..|script| - 1]
  {
    hide Laid;
    var p1 := Peel(script, 0, at);
    KeyLength(script[0]);
    ElementSize(script, 0);
    var p2 := Peel(script, p1, at[1..]);
    ElementSize(script, p1);
    NoneLeft(script, p2, at[1..][1..]);
  }

  lemma PubKeyAccepted(script: Octets, at: seq<nat>, key: Octets)
    requires Laid(script, 0, at) && Classify(script, at) == PubKey(key)
    ensures (|key| == 33 || |key| == 65) && script == [Bits(|key|)] + key + [0xac]
  {
    hide Classify, Laid, DataAt;
    PubKeyCase(script, at, key);
    PubKeyElements(script, at);
    KeyLength(script[0]);
    BitsOfNumber(script[0]);
  }

  lemma PubKeyKind(key: Octets)
    requires |key| == 33 || |key| == 65
    ensures KindOf([Bits(|key|)] + key + [0xac]) == PubKey(key)
  {
    var s := [Bits(|key|)] + key + [0xac];
    var n := |key| + 1;
    ShortPush(|key|);
    KeyLength(s[0]);
    ElementSize(s, 0);
    StartsStep(s, 0, n);
    ElementSize(s, n);
    StartsStep(s, n, n + 1);
    StartsEnd(s);
    assert s[1..n] == key;
    assert Elements(s) == [0, n];
  }

  /** A script pays to a public key exactly when it is the push of 33 or 65 bytes and OP_CHECKSIG. */
  lemma PubKeyForm(script: Octets, key: Octets)
    ensures KindOf(script) == PubKey(key)
            <==> (|key| == 33 || |key| == 65) && script == [Bits(|key|)] + key + [0xac]
  {
    hide Classify, Elements;
    if KindOf(script) == PubKey(key) {
      Laying(script);
      PubKeyAccepted(script, Elements(script), key);
    } else if |key| == 33 || |key| == 65 {
      PubKeyKind(key);
    }
  }

  /** Every pay-to-witness script with an allowed program is recognized. */
  lemma WitnessKind(op: bv8, prog: Octets)
    requires GoodWitness(op, prog)
    ensures KindOf(PayToWitness(op, prog)) == Witness(op, prog)
  {
    var s := PayToWitness(op, prog);
    ShortPush(|prog|);
    ElementSize(s, 0);
    StartsStep(s, 0, 1);
    ElementSize(s, 1);
    StartsStep(s, 1, |s|);
    StartsEnd(s);
    WitnessLength(s[1]);
    assert Elements(s) == [0, 1];
    assert s[2..] == prog;
  }

  /** A script pays to a public key hash exactly when it is DUP HASH160 <20 bytes> EQUALVERIFY CHECKSIG. */
  lemma PubKeyHashForm(script: Octets, h: Octets)
    ensures KindOf(script) == PubKeyHash(h) <==> |h| == 20 && script == [0x76, 0xa9, 20] + h + [0x88, 0xac]
  {
    hide Classify, Elements;
    if KindOf(script) == PubKeyHash(h) {
      Laying(script);
      PubKeyHashAccepted(script, Elements(script), h);
    } else if |h| == 20 {
      PubKeyHashKind(h);
    }
  }

  /** A script pays to a script hash exactly when it is HASH160 <20 bytes> EQUAL. */
  lemma ScriptHashForm(script: Octets, h: Octets)
    ensures KindOf(script) == ScriptHash(h) <==> |h| == 20 && script == [0xa9, 20] + h + [0x87]
  {
    hide Classify, Elements;
    if KindOf(script) == ScriptHash(h) {
      Laying(script);
      ScriptHashAccepted(script, Elements(script), h);
    } else if |h| == 20 {
      ScriptHashKind(h);
    }
  }

  /** A script pays to a witness program exactly when it is OP_0 and a push of 20 or 32 bytes, or OP_1 to OP_16 and a
      push of 2 to 40 bytes. */
  lemma WitnessForm(script: Octets, op: bv8, prog: Octets)
    ensures KindOf(script) == Witness(op, prog)
            <==> ((op == 0 && (|prog| == 20 || |prog| == 32)) || (0x51 <= op <= 0x60 && 2 <= |prog| <= 40)) &&
                 script == [op, Bits(|prog|)] + prog
  {
    hide Classify, Elements;
    if KindOf(script) == Witness(op, prog) {
      Laying(script);
      WitnessAccepted(script, Elements(script), op, prog);
    } else if GoodWitness(op, prog) {
      WitnessKind(op, prog);
    }
  }

  /** The addresses of the two hash scripts, with their version bytes 93 and 33. */
  lemma HashAddresses(w: World, h: Hash20)
    ensures AddressOf(w, [0x76, 0xa9, 20] + h + [0x88, 0xac]) == Some(Base58.CheckEncoded(w.sha, [93] + Numbers(h)))
    ensures AddressOf(w, [0xa9, 20] + h + [0x87]) == Some(Base58.CheckEncoded(w.sha, [33] + Numbers(h)))
  {
    hide KindOf;
    PubKeyHashForm([0x76, 0xa9, 20] + h + [0x88, 0xac], h);
    ScriptHashForm([0xa9, 20] + h + [0x87], h);
  }

  /** The address of a witness program is its Bech32 encoding under "eac", with the version 0 to 16 for the opcode. */
  lemma WitnessAddress(w: World, hrp: Octets, op: bv8, prog: Octets, ver: bv8)
    requires IsBech32(w) && GoodWitness(op, prog) && if op == 0 then ver == 0 else op == 0x50 + ver
    requires |hrp| == |"eac"| && forall i :: 0 <= i < |hrp| ==> hrp[i] == "eac"[i] as bv8
    ensures AddressOf(w, [op, Bits(|prog|)] + prog) ==
            Some(Numbers(Bech32.AddressOf(Bech32Checksum.Polymod, hrp, ver, prog)))
  {
    hide KindOf, Bech32.AddressOf;
    WitnessForm([op, Bits(|prog|)] + prog, op, prog);
    WitnessVersion(op);
    assert hrp == Eac();
    assert w.encode(op, prog) == Encoding(op, prog);
  }

  /** A pay-to-pubkey script has the address of its key's hash, and comes back as the pay-to-pubkey-hash script. */
  lemma PubKeyScriptsBack(w: World, script: Octets, key: Octets)
    requires (|key| == 33 || |key| == 65) && script == [Bits(|key|)] + key + [0xac]
    ensures AddressOf(w, script) == Some(Base58.CheckEncoded(w.sha, [93] + Numbers(w.hash160(key))))
    ensures ScriptOf(w, AddressOf(w, script).value) == Some([0x76, 0xa9, 20] + w.hash160(key) + [0x88, 0xac])
  {
    hide KindOf;
    PubKeyForm(script, key);
    Base58Back(w, PUBKEY_ADDRESS, w.hash160(key));
  }

  /** A Base58Check address with a known version byte that has a script is the address of that script. */
  lemma AddressBack(w: World, a: seq<byte>)
    requires |Base58.CheckDecoded(w.sha, a)| == 21 && ScriptOf(w, a).Some?
    ensures AddressOf(w, ScriptOf(w, a).value) == Some(a) <==> Base58.InAlphabet(a)
  {
    var d := Base58.CheckDecoded(w.sha, a);
    var h := AllBits(d[1..]);
    Base58.CheckReencodes(w.sha, a);
    Reassemble(d);
    if d[0] == PUBKEY_ADDRESS {
      PubKeyHashKind(h);
    } else {
      ScriptHashKind(h);
    }
  }

  lemma Reassemble(d: seq<byte>)
    requires d != []
    ensures [d[0]] + Numbers(AllBits(d[1..])) == d
  {
    NumbersOfAllBits(d[1..]);
  }

  /** The opcode of a witness version: 0, or 0x50 more than the version. */
  lemma OpcodeOf(ver: bv8)
    requires ver <= 16
    ensures Bech32.OpOf(ver) == (if ver == 0 then 0 else ver + 0x50) && (Bech32.OpOf(ver) == 0 <==> ver == 0)
  {
  }

  /** Every Bech32 address of the network that is not also Base58Check for 21 bytes has the script of its program,
      except a version 0 program of neither 20 nor 32 bytes; one of another network has none. */
  lemma WitnessScript(w: World, a: seq<byte>, hrp: Octets, b: Bech32.Address)
    requires IsBech32(w) && |Base58.CheckDecoded(w.sha, a)| != 21
    requires |hrp| == |"eac"| && forall i :: 0 <= i < |hrp| ==> hrp[i] == "eac"[i] as bv8
    requires Bech32.Meaning(Bech32Checksum.Polymod, AllBits(a)) == Some(b)
    ensures b.ver <= 16 && 2 <= |b.prog| <= 40
    ensures ScriptOf(w, a) ==
            if b.hrp == hrp && (b.ver == 0 ==> |b.prog| == 20 || |b.prog| == 32) then
              Some([if b.ver == 0 then 0 else b.ver + 0x50, Bits(|b.prog|)] + b.prog)
            else None
  {
    hide Base58.CheckDecoded, Bech32.Meaning, BechScript;
    assert w.decode(AllBits(a)) == Decoding(AllBits(a));
    MeaningSizes(AllBits(a));
    assert hrp == Eac();
    ProgramScript(b);
  }

  lemma ProgramScript(b: Bech32.Address)
    requires b.ver <= 16 && 2 <= |b.prog| <= 40
    ensures BechScript(Some(b)) ==
            if b.hrp == Eac() && (b.ver == 0 ==> |b.prog| == 20 || |b.prog| == 32) then
              Some([if b.ver == 0 then 0 else b.ver + 0x50, Bits(|b.prog|)] + b.prog)
            else None
  {
    hide Bech32.OpOf;
    OpcodeOf(b.ver);
  }

  lemma MeaningSizes(s: Octets)
    ensures var m := Bech32.Meaning(Bech32Checksum.Polymod, s);
            m.Some? ==> m.value.ver <= 16 && 2 <= |m.value.prog| <= 40
  {
  }

  /** Base58Check for 21 bytes has a script exactly for the version bytes 93 and 33. */
  lemma HashScript(w: World, a: seq<byte>)
    requires |Base58.CheckDecoded(w.sha, a)| == 21
    ensures var d := Base58.CheckDecoded(w.sha, a);
            ScriptOf(w, a) ==
            if d[0] == 93 then Some([0x76, 0xa9, 20] + AllBits(d[1..]) + [0x88, 0xac])
            else if d[0] == 33 then Some([0xa9, 20] + AllBits(d[1..]) + [0x87])
            else None
  {
  }

  // ---------------------------------------------------------------- in place

  /** The two calls of BRScriptElements. */
  method FindElements(script: Octets) returns (elems: array<nat>)
    requires script != []
    ensures fresh(elems) && elems[..] == Elements(script)
  {
    var s := Numbers(script);
    var count := Script.BRScriptElements(null, 0, s);
    elems := new nat[count](_ => 0);
    count := Script.BRScriptElements(elems, count, s);
  }

  /** The conditions of BRAddressFromScriptPubKey; data of a push is what BRScriptData points to. */
  method Recognize(script: Octets) returns (k: Kind)
    ensures k == KindOf(script)
  {
    if script == [] || |script| > MAX_SCRIPT_LENGTH { return Other; }
    var elems := FindElements(script);
    k := Classify(script, elems[..]);
  }

  /** What all branches promise about the buffer `addr` for the address a. */
  twostate predicate Delivered(addr: array?<byte>, addrLen: nat, a: seq<byte>, r: nat)
    reads addr
  {
    && (addr == null ==> r == |a| + 1)
    && (addr != null && |a| < addrLen ==> r == |a| + 1 <= addr.Length && addr[..r] == a + [0])
    && (addr != null && |a| >= addrLen ==> r == 0 && addr[..] == old(addr[..]))
  }

  /** BRAddressFromScriptPubKey. */
  method AddressFromScriptPubKey(w: World, addr: array?<byte>, addrLen: nat, script: Octets) returns (r: nat)
    requires IsBech32(w) && (addr != null ==> addrLen <= addr.Length)
    modifies addr
    ensures AddressOf(w, script) == None ==> r == 0 && (addr != null ==> addr[..] == old(addr[..]))
    ensures AddressOf(w, script).Some? ==> Delivered(addr, addrLen, AddressOf(w, script).value, r)
  {
    var k := Recognize(script);
    match k {
      case PubKeyHash(h) =>
        r := Base58.Base58CheckEncode(w.sha, addr, addrLen, [PUBKEY_ADDRESS] + Numbers(h));
      case ScriptHash(h) =>
        r := Base58.Base58CheckEncode(w.sha, addr, addrLen, [SCRIPT_ADDRESS] + Numbers(h));
      case PubKey(key) =>
        r := Base58.Base58CheckEncode(w.sha, addr, addrLen, [PUBKEY_ADDRESS] + Numbers(w.hash160(key)));
      case Witness(op, prog) =>
        Laying(script);
        WitnessAccepted(script, Elements(script), op, prog);
        r := WriteWitness(w, addr, addrLen, op, prog);
      case Other =>
        r := 0;
    }
  }

  method WriteWitness(w: World, addr: array?<byte>, addrLen: nat, op: bv8, prog: Octets) returns (r: nat)
    requires IsBech32(w) && GoodWitness(op, prog) && (addr != null ==> addrLen <= addr.Length)
    modifies addr
    ensures Delivered(addr, addrLen, Numbers(w.encode(op, prog)), r)
  {
    hide Bech32.AddressOf;
    WitnessVersion(op);
    EacIsLower();
    var a, inside := new bv8[Bech32.ROOM](_ => 0), true;
    r, inside := Bech32.Bech32Encode(a, Eac(), op, prog);
    ghost var e := Encoding(op, prog);
    assert inside && a[..r] == w.encode(op, prog) + [0];
    if addr != null && r > addrLen { r := 0; }
    if addr != null && r > 0 { Base58.CopyBytes(addr, Numbers(a[..r])); }
  }

  /** BRAddressScriptPubKey. */
  method AddressScriptPubKey(w: World, script: array?<bv8>, scriptLen: nat, a: seq<byte>) returns (r: nat)
    requires IsBech32(w) && (script != null ==> scriptLen <= script.Length)
    modifies script
    ensures ScriptOf(w, a) == None ==> r == 0
    ensures ScriptOf(w, a).Some? ==>
              var s := ScriptOf(w, a).value;
              && r == (if script == null || |s| <= scriptLen then |s| else 0)
              && (script != null && r > 0 ==> script[..r] == s)
    ensures script != null && r == 0 ==> script[..] == old(script[..])
  {
    var s := FindScript(w, a);
    if s == None { return 0; }
    r := if script == null || |s.value| <= scriptLen then |s.value| else 0;
    if script != null && r > 0 {
      forall i | 0 <= i < r { script[i] := s.value[i]; }
    }
  }

  /** The branches of BRAddressScriptPubKey up to the copy. */
  method FindScript(w: World, a: seq<byte>) returns (s: Option<Octets>)
    requires IsBech32(w)
    ensures s == ScriptOf(w, a)
  {
    var data := new byte[42](_ => 0);
    var n := Base58.Base58CheckDecode(w.sha, data, 42, a);
    if n == 21 {
      ghost var d := Base58.CheckDecoded(w.sha, a);
      assert data[1..21] == d[1..];
      if data[0] == PUBKEY_ADDRESS {
        s := Some(PayToPubKeyHash(AllBits(data[1..21])));
      } else if data[0] == SCRIPT_ADDRESS {
        s := Some(PayToScriptHash(AllBits(data[1..21])));
      } else {
        s := None;
      }
    } else {
      s := FindWitness(w, a);
    }
  }

  method FindWitness(w: World, a: seq<byte>) returns (s: Option<Octets>)
    requires IsBech32(w)
    ensures s == BechScript(w.decode(AllBits(a)))
  {
    ghost var b := Decoding(AllBits(a));
    assert b == w.decode(AllBits(a));
    var dataLen, hrp, op, prog := Bech32.Bech32Decode(AllBits(a));
    MeaningLength(AllBits(a));
    if dataLen > 2 && hrp == Eac() && (op != OP_0 || |prog| == 20 || |prog| == 32) {
      s := Some(PayToWitness(op, prog));
    } else {
      s := None;
    }
  }

  lemma MeaningLength(s: Octets)
    ensures Decoding(s).Some? ==> 2 <= |Decoding(s).value.prog| <= 40
  {
  }

  /** BRAddressIsValid: true exactly for the addresses that have a script. */
  method AddressIsValid(w: World, a: seq<byte>) returns (r: bool)
    requires IsBech32(w)
    ensures r <==> ScriptOf(w, a).Some?
  {
    var data := new byte[42](_ => 0);
    var n := Base58.Base58CheckDecode(w.sha, data, 42, a);
    if n == 21 {
      r := data[0] == PUBKEY_ADDRESS || data[0] == SCRIPT_ADDRESS;
    } else {
      ghost var b := Decoding(AllBits(a));
      MeaningLength(AllBits(a));
      var dataLen, hrp, op, prog := Bech32.Bech32Decode(AllBits(a));
      r := dataLen > 2 && hrp == Eac() && (op != OP_0 || |prog| == 20 || |prog| == 32);
    }
  }
}
