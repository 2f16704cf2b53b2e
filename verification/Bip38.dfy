/**
 BIP 38 keys without EC multiplication (BRBIP38Key.c). scrypt, SHA-256 and the address of a key are parameters.
 */
module Bip38 {
  import opened Common
  import opened ByteBits
  import Aes
  import AesTables
  import Base58

  type Derived = s: Octets | |s| == 64 witness seq(64, _ => 0)

  // BRScrypt with the BIP 38 parameters: passphrase and salt.
  type Kdf = (seq<byte>, Octets) -> Derived

  // BRKeyAddress: the address string of a secret, empty when there is none.
  type AddressOf = (Octets, bool) -> seq<byte>

  function Xor(a: Octets, b: Octets): (c: Octets)
    requires |a| == |b|
    ensures |c| == |a| && forall i :: 0 <= i < |a| ==> c[i] == a[i] ^ b[i]
  {
    seq(|a|, i requires 0 <= i < |a| => a[i] ^ b[i])
  }

  lemma XorOne(a: bv8, b: bv8)
    ensures (a ^ b) ^ b == a
  {
  }

  lemma XorTwice(a: Octets, b: Octets)
    requires |a| == |b|
    ensures Xor(Xor(a, b), b) == a
  {
    forall i | 0 <= i < |a| ensures (a[i] ^ b[i]) ^ b[i] == a[i] {
      XorOne(a[i], b[i]);
    }
  }

  // ---------------------------------------------------------------- the format

  const NOEC_FLAG: bv8 := 0xc0
  const COMPRESSED_FLAG: bv8 := 0x20
  const LOTSEQUENCE_FLAG: bv8 := 0x04
  const INVALID_FLAG: bv8 := 0x1b

  function Prefix(): Octets {
    [0x01, 0x42]
  }

  function EcPrefix(): Octets {
    [0x01, 0x43]
  }

  function FlagOf(compressed: bool): bv8 {
    if compressed then NOEC_FLAG | COMPRESSED_FLAG else NOEC_FLAG
  }

  predicate IsCompressed(flag: bv8) {
    flag & COMPRESSED_FLAG != 0
  }

  function Salt(sha: Sha, address: seq<byte>): (s: Octets)
    ensures |s| == 4
  {
    AllBits(sha(address)[..4])
  }

  type Half = s: Octets | |s| == 16 witness seq(16, _ => 0)

  type Key32 = s: Octets | |s| == 32 witness seq(32, _ => 0)

  // A block cipher: `enc` and `dec` of a key and a block.
  datatype Cipher = Cipher(enc: (Key32, Half) -> Half, dec: (Key32, Half) -> Half)

  ghost predicate Inverse(c: Cipher) {
    forall k: Key32, x: Half :: c.dec(k, c.enc(k, x)) == x
  }

  function AesEncrypt(k: Key32, x: Half): Half {
    Aes.Encrypted(AesTables.Sbox, k, x)
  }

  function AesDecrypt(k: Key32, y: Half): Half {
    Aes.Decrypted(AesTables.Sbox, AesTables.Sboxi, k, y)
  }

  /** AES-256 with the tables of the source; the triggers keep AES folded where only its inverse law matters. */
  ghost predicate IsAes(c: Cipher) {
    && (forall k: Key32, x: Half {:trigger AesEncrypt(k, x)} :: c.enc(k, x) == AesEncrypt(k, x))
    && (forall k: Key32, x: Half {:trigger AesDecrypt(k, x)} :: c.dec(k, x) == AesDecrypt(k, x))
  }

  lemma AesIsInverse(c: Cipher)
    requires IsAes(c)
    ensures Inverse(c)
  {
    forall k: Key32, x: Half ensures c.dec(k, c.enc(k, x)) == x {
      var y := AesEncrypt(k, x);
      var z := AesDecrypt(k, y);
      AesTables.TablesInverse();
      Aes.DecryptEncrypt(AesTables.Sbox, AesTables.Sboxi, k, x);
    }
  }

  /** Sixteen bytes of the secret, masked and encrypted. */
  function Hide(c: Cipher, part: Half, mask: Half, key: Key32): Half {
    c.enc(key, Xor(part, mask))
  }

  function Show(c: Cipher, e: Half, mask: Half, key: Key32): Half {
    Xor(c.dec(key, e), mask)
  }

  lemma ShowHide(c: Cipher, part: Half, mask: Half, key: Key32)
    requires Inverse(c)
    ensures Show(c, Hide(c, part, mask, key), mask, key) == part
  {
    XorTwice(part, mask);
  }

  /** Both halves of an encrypted secret under the derived key. */
  function Locked(c: Cipher, secret: Octets, dk: Derived): (e: Octets)
    requires |secret| == 32
    ensures |e| == 32
  {
    Hide(c, secret[..16], dk[..16], dk[32..]) + Hide(c, secret[16..], dk[16..32], dk[32..])
  }

  function Unlocked(c: Cipher, e: Octets, dk: Derived): (secret: Octets)
    requires |e| == 32
    ensures |secret| == 32
  {
    Show(c, e[..16], dk[..16], dk[32..]) + Show(c, e[16..], dk[16..32], dk[32..])
  }

  lemma UnlockedLocked(c: Cipher, secret: Octets, dk: Derived)
    requires |secret| == 32 && Inverse(c)
    ensures Unlocked(c, Locked(c, secret, dk), dk) == secret
  {
    UnlockedParts(c, secret[..16], secret[16..], dk[..16], dk[16..32], dk[32..], Locked(c, secret, dk));
    assert secret == secret[..16] + secret[16..];
  }

  lemma UnlockedParts(c: Cipher, lo: Octets, hi: Octets, m: Octets, n: Octets, key: Octets, e: Octets)
    requires |lo| == 16 && |hi| == 16 && |m| == 16 && |n| == 16 && |key| == 32 && Inverse(c)
    requires e == Hide(c, lo, m, key) + Hide(c, hi, n, key)
    ensures Show(c, e[..16], m, key) + Show(c, e[16..], n, key) == lo + hi
  {
    Halves(Hide(c, lo, m, key), Hide(c, hi, n, key), e);
    ShowHide(c, lo, m, key);
    ShowHide(c, hi, n, key);
  }

  lemma Halves(a: Octets, b: Octets, e: Octets)
    requires |a| == 16 && e == a + b
    ensures e[..16] == a && e[16..] == b
  {
  }

  // What the two functions are given besides the key and the passphrase.
  datatype World = World(c: Cipher, sha: Sha, kdf: Kdf, address: AddressOf)

  /** prefix + flag + salt + encrypted secret. */
  function Payload(w: World, secret: Octets, compressed: bool, pass: seq<byte>): (p: Octets)
    requires |secret| == 32
    ensures |p| == 39
  {
    var salt := Salt(w.sha, w.address(secret, compressed));
    Prefix() + [FlagOf(compressed)] + salt + Locked(w.c, secret, w.kdf(pass, salt))
  }

  function KeyString(w: World, secret: Octets, compressed: bool, pass: seq<byte>): seq<byte>
    requires |secret| == 32
  {
    Base58.CheckEncoded(w.sha, Numbers(Payload(w, secret, compressed, pass)))
  }

  // ---------------------------------------------------------------- reading it back

  datatype Opened = Opened(secret: Octets, compressed: bool)

  /** The secret and flag that a payload yields; `other` gives the secret for any prefix but 0142. */
  function Read(w: World, p: Octets, pass: seq<byte>, other: Octets): Opened
    requires |p| == 39 && |other| == 32
  {
    Opened(if p[..2] == Prefix() then Unlocked(w.c, p[7..], w.kdf(pass, p[3..7])) else other, IsCompressed(p[2]))
  }

  /** The check of the address hash: true for the right passphrase. */
  predicate Matches(w: World, p: Octets, o: Opened)
    requires |p| == 39
  {
    var a := w.address(o.secret, o.compressed);
    a != [] && Salt(w.sha, a) == p[3..7]
  }

  lemma Flags(compressed: bool)
    ensures IsCompressed(FlagOf(compressed)) == compressed
    ensures FlagOf(compressed) & NOEC_FLAG == NOEC_FLAG
    ensures FlagOf(compressed) & LOTSEQUENCE_FLAG == 0 && FlagOf(compressed) & INVALID_FLAG == 0
  {
  }

  lemma PayloadParts(w: World, secret: Octets, compressed: bool, pass: seq<byte>)
    requires |secret| == 32
    ensures var p := Payload(w, secret, compressed, pass);
            var salt := Salt(w.sha, w.address(secret, compressed));
            p[..2] == Prefix() && p[2] == FlagOf(compressed) && p[3..7] == salt &&
              p[7..] == Locked(w.c, secret, w.kdf(pass, salt))
  {
  }

  /** A payload byte for byte: 01 42, c0 or e0, the first four bytes of the address's hash, and the two halves of the
      secret, each XORed with a quarter of the derived key and encrypted under its second half. */
  lemma PayloadBytes(w: World, secret: Octets, compressed: bool, pass: seq<byte>)
    requires |secret| == 32
    ensures var p, hash := Payload(w, secret, compressed, pass), w.sha(w.address(secret, compressed));
            var dk := w.kdf(pass, p[3..7]);
            && p[..3] == [0x01, 0x42, if compressed then 0xe0 else 0xc0]
            && p[3..7] == [Bits(hash[0]), Bits(hash[1]), Bits(hash[2]), Bits(hash[3])]
            && p[7..23] == w.c.enc(dk[32..64], Xor(secret[0..16], dk[0..16]))
            && p[23..39] == w.c.enc(dk[32..64], Xor(secret[16..32], dk[16..32]))
  {
    hide Xor;
    PayloadParts(w, secret, compressed, pass);
    FlagBytes();
    var p, hash := Payload(w, secret, compressed, pass), w.sha(w.address(secret, compressed));
    var dk := w.kdf(pass, p[3..7]);
    var lo: Octets := w.c.enc(dk[32..64], Xor(secret[0..16], dk[0..16]));
    var hi: Octets := w.c.enc(dk[32..64], Xor(secret[16..32], dk[16..32]));
    assert secret[..16] == secret[0..16] && secret[16..] == secret[16..32] && dk[..16] == dk[0..16] &&
           dk[32..] == dk[32..64];
    assert p[7..] == lo + hi;
    assert p[7..23] == p[7..][..16] && p[23..39] == p[7..][16..];
    assert p[..3] == p[..2] + [p[2]];
  }

  lemma FlagBytes()
    ensures FlagOf(true) == 0xe0 && FlagOf(false) == 0xc0
  {
  }

  /** The payloads that are valid: 01 42 with c0 or e0, or 01 43 with one of 00, 04, 20 and 24. */
  lemma ValidFlags(w: World, s: seq<byte>)
    ensures var p := StringPayload(w, s);
            IsValid(w, s) <==>
              |p| == 39 && p[0] == 0x01 &&
              ((p[1] == 0x42 && (p[2] == 0xc0 || p[2] == 0xe0)) ||
               (p[1] == 0x43 && (p[2] == 0x00 || p[2] == 0x04 || p[2] == 0x20 || p[2] == 0x24)))
  {
    var p := StringPayload(w, s);
    if |p| == 39 {
      assert p[..2] == [p[0], p[1]];
      FlagValues(p[2]);
    }
  }

  lemma FlagValues(f: bv8)
    ensures f & NOEC_FLAG == NOEC_FLAG && f & LOTSEQUENCE_FLAG == 0 && f & INVALID_FLAG == 0 <==> f == 0xc0 || f == 0xe0
    ensures f & NOEC_FLAG == 0 && f & INVALID_FLAG == 0 <==> f == 0x00 || f == 0x04 || f == 0x20 || f == 0x24
  {
  }

  /** A payload opens, with the same passphrase, to the secret and the compression flag it was made from. */
  lemma ReadPayload(w: World, secret: Octets, compressed: bool, pass: seq<byte>, other: Octets)
    requires |secret| == 32 && |other| == 32 && Inverse(w.c)
    ensures var p := Payload(w, secret, compressed, pass);
            && Read(w, p, pass, other) == Opened(secret, compressed)
            && (Matches(w, p, Opened(secret, compressed)) <==> w.address(secret, compressed) != [])
  {
    var salt := Salt(w.sha, w.address(secret, compressed));
    PayloadParts(w, secret, compressed, pass);
    Flags(compressed);
    UnlockedLocked(w.c, secret, w.kdf(pass, salt));
  }

  // ---------------------------------------------------------------- strings

  function StringPayload(w: World, s: seq<byte>): Octets {
    AllBits(Base58.CheckDecoded(w.sha, s))
  }

  /** BRBIP38KeyIsValid. */
  predicate IsValid(w: World, s: seq<byte>) {
    var p := StringPayload(w, s);
    |p| == 39 &&
    if p[..2] == Prefix() then
      p[2] & NOEC_FLAG == NOEC_FLAG && p[2] & LOTSEQUENCE_FLAG == 0 && p[2] & INVALID_FLAG == 0
    else
      p[..2] == EcPrefix() && p[2] & NOEC_FLAG == 0 && p[2] & INVALID_FLAG == 0
  }

  lemma StringOfPayload(w: World, p: Octets)
    ensures StringPayload(w, Base58.CheckEncoded(w.sha, Numbers(p))) == p
  {
    Base58.CheckRoundTrip(w.sha, Numbers(p));
    AllBitsOfNumbers(p);
  }

  /** Every key string is a valid BIP 38 key, and with the passphrase it was made with it opens to its secret and
      compression flag; the result is 1 exactly when the key has an address at all. */
  lemma RoundTrip(w: World, secret: Octets, compressed: bool, pass: seq<byte>, other: Octets)
    requires |secret| == 32 && |other| == 32 && Inverse(w.c)
    ensures var s := KeyString(w, secret, compressed, pass);
            var p := StringPayload(w, s);
            && IsValid(w, s)
            && Read(w, p, pass, other) == Opened(secret, compressed)
            && (Matches(w, p, Opened(secret, compressed)) <==> w.address(secret, compressed) != [])
  {
    StringOfPayload(w, Payload(w, secret, compressed, pass));
    ReadPayload(w, secret, compressed, pass, other);
    PayloadParts(w, secret, compressed, pass);
    Flags(compressed);
  }

  /** The same with the tables of the source. */
  lemma RoundTripWithTables(w: World, secret: Octets, compressed: bool, pass: seq<byte>)
    requires |secret| == 32 && IsAes(w.c)
    ensures var p := StringPayload(w, KeyString(w, secret, compressed, pass));
            && |p| == 39
            && Read(w, p, pass, secret) == Opened(secret, compressed)
            && (Matches(w, p, Opened(secret, compressed)) <==> w.address(secret, compressed) != [])
  {
    AesIsInverse(w.c);
    RoundTrip(w, secret, compressed, pass, secret);
  }

  // ---------------------------------------------------------------- in place

  method EncryptHalf(c: Cipher, part: Half, mask: Half, key: array<bv8>) returns (e: Half)
    requires IsAes(c) && key.Length == 32
    ensures e == Hide(c, part, mask, key[..])
  {
    e := EncryptInPlace(key, Xor(part, mask));
  }

  method EncryptInPlace(key: array<bv8>, block: Half) returns (e: Half)
    requires key.Length == 32
    ensures e == AesEncrypt(key[..], block)
  {
    var x := NewBlock(block);
    Aes.ArrayParts(x);
    Aes.ArrayParts(key);
    Aes.EncryptBlock(AesTables.Sbox, key, x);
    Aes.ArrayParts(x);
    e := x[..];
  }

  method DecryptHalf(c: Cipher, e: Half, mask: Half, key: array<bv8>) returns (part: Half)
    requires IsAes(c) && key.Length == 32
    ensures part == Show(c, e, mask, key[..])
  {
    var x := DecryptInPlace(key, e);
    part := Xor(x, mask);
  }

  method DecryptInPlace(key: array<bv8>, block: Half) returns (e: Half)
    requires key.Length == 32
    ensures e == AesDecrypt(key[..], block)
  {
    var x := NewBlock(block);
    Aes.ArrayParts(x);
    Aes.ArrayParts(key);
    Aes.DecryptBlock(AesTables.Sbox, AesTables.Sboxi, key, x);
    Aes.ArrayParts(x);
    e := x[..];
  }

  method NewBlock(s: Octets) returns (x: array<bv8>)
    ensures fresh(x) && x[..] == s
  {
    x := new bv8[|s|](i requires 0 <= i < |s| => s[i]);
  }

  method Lock(c: Cipher, secret: Octets, dk: Derived) returns (e: Octets)
    requires |secret| == 32 && IsAes(c)
    ensures e == Locked(c, secret, dk)
  {
    var key := NewBlock(dk[32..]);
    var a: Octets := EncryptHalf(c, secret[..16], dk[..16], key);
    var b: Octets := EncryptHalf(c, secret[16..], dk[16..32], key);
    e := a + b;
  }

  method Unlock(c: Cipher, e: Octets, dk: Derived) returns (secret: Octets)
    requires |e| == 32 && IsAes(c)
    ensures secret == Unlocked(c, e, dk)
  {
    var key := NewBlock(dk[32..]);
    var a: Octets := DecryptHalf(c, e[..16], dk[..16], key);
    var b: Octets := DecryptHalf(c, e[16..], dk[16..32], key);
    secret := a + b;
  }

  method MakePayload(w: World, secret: Octets, compressed: bool, pass: seq<byte>) returns (buf: Octets)
    requires |secret| == 32 && IsAes(w.c)
    ensures buf == Payload(w, secret, compressed, pass)
  {
    var salt := Salt(w.sha, w.address(secret, compressed));
    var e := Lock(w.c, secret, w.kdf(pass, salt));
    buf := Prefix() + [FlagOf(compressed)] + salt + e;
  }

  method WritePayload(w: World, buf: Octets, ghost s: seq<byte>, str: array<byte>, strLen: nat) returns (n: nat)
    requires strLen <= str.Length && s == Base58.CheckEncoded(w.sha, Numbers(buf))
    modifies str
    ensures if |s| < strLen then n == |s| + 1 && str[..n] == s + [0] else n == 0 && str[..] == old(str[..])
  {
    n := Base58.Base58CheckEncode(w.sha, str, strLen, Numbers(buf));
  }

  /** The size that BRKeyBIP38Key reports for a NULL buffer always suffices. */
  lemma KeyStringLength(w: World, secret: Octets, compressed: bool, pass: seq<byte>)
    requires |secret| == 32
    ensures |KeyString(w, secret, compressed, pass)| < 43 * 138 / 100 + 2
  {
    Base58.CheckEncodedLength(w.sha, Numbers(Payload(w, secret, compressed, pass)));
  }

  // BRKey: BRKeySetSecret writes both fields.
  class Key {
    var secret: Octets
    var compressed: bool

    constructor (secret: Octets, compressed: bool)
      ensures this.secret == secret && this.compressed == compressed
    {
      this.secret, this.compressed := secret, compressed;
    }

    /** BRKeyBIP38Key. */
    method Bip38Key(w: World, str: array?<byte>, strLen: nat, pass: seq<byte>) returns (n: nat)
      requires |secret| == 32 && IsAes(w.c) && (str != null ==> strLen <= str.Length)
      modifies str
      ensures str == null ==> n == 61
      ensures str != null ==>
                var s := KeyString(w, secret, compressed, pass);
                && |s| < 61
                && (if |s| < strLen then n == |s| + 1 && str[..n] == s + [0] else n == 0 && str[..] == old(str[..]))
    {
      if str == null { return 43 * 138 / 100 + 2; }
      KeyStringLength(w, secret, compressed, pass);
      ghost var s := KeyString(w, secret, compressed, pass);
      var buf := MakePayload(w, secret, compressed, pass);
      n := WritePayload(w, buf, s, str, strLen);
    }

    /** BRKeySetBIP38Key; `other` is the secret in the branches for the other prefixes. */
    method SetBip38Key(w: World, s: seq<byte>, pass: seq<byte>, other: Octets) returns (r: int)
      requires |other| == 32 && IsAes(w.c)
      modifies this
      ensures |StringPayload(w, s)| != 39 ==> r == 0 && secret == old(secret) && compressed == old(compressed)
      ensures |StringPayload(w, s)| == 39 ==>
                var p := StringPayload(w, s);
                && Opened(secret, compressed) == Read(w, p, pass, other)
                && r == if Matches(w, p, Opened(secret, compressed)) then 1 else 0
    {
      var data := new byte[39](_ => 0);
      var n := Base58.Base58CheckDecode(w.sha, data, 39, s);
      if n != 39 { return 0; }
      assert data[..39] == data[..];
      var p := AllBits(data[..]);
      var bare := other;
      if p[..2] == Prefix() {
        bare := Unlock(w.c, p[7..], w.kdf(pass, p[3..7]));
      }
      secret, compressed := bare, IsCompressed(p[2]);
      var a := w.address(secret, compressed);
      r := if a == [] || Salt(w.sha, a) != p[3..7] then 0 else 1;
    }
  }
}
