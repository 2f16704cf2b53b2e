/** Variable-length integers (BRVarInt, BRVarIntSet and BRVarIntSize in BRAddress.c), and reading at an offset. */
module VarInts {
  import opened Common
  import opened Words

  /** s lies in buf at off. */
  predicate At(buf: seq<byte>, off: nat, s: seq<byte>) {
    off + |s| <= |buf| && buf[off..off + |s|] == s
  }

  lemma AtConcat(buf: seq<byte>, off: nat, s: seq<byte>, t: seq<byte>)
    ensures At(buf, off, s + t) <==> At(buf, off, s) && At(buf, off + |s|, t)
  {
    if At(buf, off, s + t) {
      assert buf[off..off + |s|] == (s + t)[..|s|] && buf[off + |s|..off + |s| + |t|] == (s + t)[|s|..];
    }
    if At(buf, off, s) && At(buf, off + |s|, t) {
      assert buf[off..off + |s + t|] == buf[off..off + |s|] + buf[off + |s|..off + |s| + |t|];
    }
  }

  /** The same for four parts, with their offsets. */
  lemma AtFour(buf: seq<byte>, off: nat, a: seq<byte>, b: seq<byte>, c: seq<byte>, d: seq<byte>, p: nat, q: nat, r: nat)
    requires At(buf, off, a + (b + (c + d))) && p == off + |a| && q == p + |b| && r == q + |c|
    ensures At(buf, off, a) && At(buf, p, b) && At(buf, q, c) && At(buf, r, d)
    ensures off + |a + (b + (c + d))| == r + |d|
  {
    AtConcat(buf, off, a, b + (c + d));
    AtConcat(buf, p, b, c + d);
    AtConcat(buf, q, c, d);
  }

  const HEADER16: byte := 0xfd
  const HEADER32: byte := 0xfe
  const HEADER64: byte := 0xff

  /** The encoding of a number. */
  function VarInt(v: uint64): (s: seq<byte>)
    ensures 1 <= |s| <= 9
  {
    if v < 0xfd then [v]
    else if v <= 0xffff then [HEADER16] + ToLE(v, 2)
    else if v <= 0xffff_ffff then [HEADER32] + ToLE(v, 4)
    else [HEADER64] + ToLE(v, 8)
  }

  // A value and the number of bytes it takes.
  datatype Reading = Reading(value: nat, len: nat)

  /** How many bytes follow a first byte. */
  function Following(h: byte): nat {
    if h == HEADER16 then 2 else if h == HEADER32 then 4 else if h == HEADER64 then 8 else 0
  }

  /** BRVarInt on the bytes up to bufLen: too few of them read as 0, and none as one byte. */
  function Read(buf: seq<byte>, off: nat, bufLen: nat): (r: Reading)
    requires off + bufLen <= |buf|
  {
    if bufLen == 0 then Reading(0, 1)
    else
      var k := Following(buf[off]);
      if k == 0 then Reading(buf[off], 1)
      else Reading(if 1 + k <= bufLen then LE(buf[off + 1..off + 1 + k]) else 0, 1 + k)
  }

  lemma Fits(v: uint64)
    ensures v <= 0xffff ==> v < Pow2(8 * 2)
    ensures v <= 0xffff_ffff ==> v < Pow2(8 * 4)
    ensures v < Pow2(8 * 8)
  {
    Powers();
    Pow2Add(8, 8);
  }

  lemma VarIntParts(v: uint64)
    ensures Following(VarInt(v)[0]) == |VarInt(v)| - 1
    ensures v >= 0xfd ==> LE(VarInt(v)[1..]) == v
    ensures v < 0xfd ==> VarInt(v) == [v] && Following(v) == 0
  {
    hide LE, ToLE, Pow2;
    Fits(v);
    if v < 0xfd {
    } else if v <= 0xffff {
      LEToLE(v, 2);
      assert VarInt(v)[1..] == ToLE(v, 2);
    } else if v <= 0xffff_ffff {
      LEToLE(v, 4);
      assert VarInt(v)[1..] == ToLE(v, 4);
    } else {
      LEToLE(v, 8);
      assert VarInt(v)[1..] == ToLE(v, 8);
    }
  }

  /** The four forms: one byte below 253, and 2, 4 or 8 bytes, low byte first, behind 253, 254 and 255. */
  lemma VarIntForms(v: uint64)
    ensures var s := VarInt(v);
            if v < 253 then s == [v]
            else if v < 0x10000 then |s| == 3 && s[0] == 253 && Spell(s[1], s[2], 0, 0) == v
            else if v < 0x1_0000_0000 then |s| == 5 && s[0] == 254 && Spell(s[1], s[2], s[3], s[4]) == v
            else
              |s| == 9 && s[0] == 255 &&
              Spell(s[1], s[2], s[3], s[4]) + 0x1_0000_0000 * Spell(s[5], s[6], s[7], s[8]) == v
  {
    hide LE, ToLE, Pow2, Spell;
    var t := VarInt(v)[1..];
    VarIntParts(v);
    LESmall(t);
    if v > 0xffff_ffff {
      Powers();
      LEConcat(t[..4], t[4..]);
      assert t == t[..4] + t[4..];
      LESmall(t[..4]);
      LESmall(t[4..]);
    }
  }

  /** A number is read back from its encoding, whatever follows it. */
  lemma ReadVarInt(buf: seq<byte>, off: nat, bufLen: nat, v: uint64)
    requires At(buf, off, VarInt(v)) && off + bufLen <= |buf| && bufLen >= |VarInt(v)|
    ensures Read(buf, off, bufLen) == Reading(v, |VarInt(v)|)
  {
    var s := VarInt(v);
    VarIntParts(v);
    assert buf[off] == s[0] by {
      assert buf[off..off + |s|][0] == s[0];
    }
    if v >= 0xfd {
      assert buf[off + 1..off + |s|] == s[1..];
    }
  }

  // ---------------------------------------------------------------- in place

  /** BRVarInt at an offset of a buffer. */
  method BRVarInt(buf: seq<byte>, off: nat, bufLen: nat) returns (r: nat, intLen: nat)
    requires off + bufLen <= |buf|
    ensures Reading(r, intLen) == Read(buf, off, bufLen)
  {
    var h := if 1 <= bufLen then buf[off] else 0;
    if h == HEADER16 {
      intLen := 1 + 2;
      r := if 1 + 2 <= bufLen then LE(buf[off + 1..off + 3]) else 0;
    } else if h == HEADER32 {
      intLen := 1 + 4;
      r := if 1 + 4 <= bufLen then LE(buf[off + 1..off + 5]) else 0;
    } else if h == HEADER64 {
      intLen := 1 + 8;
      r := if 1 + 8 <= bufLen then LE(buf[off + 1..off + 9]) else 0;
    } else {
      intLen, r := 1, h;
    }
  }

  /** The part of an array from off on becomes s, and the rest stays. */
  twostate predicate Wrote(buf: array<byte>, off: nat, s: seq<byte>)
    reads buf
  {
    && off + |s| <= buf.Length && buf[off..off + |s|] == s
    && buf[..off] == old(buf[..off]) && buf[off + |s|..] == old(buf[off + |s|..])
  }

  /** `memcpy(&buf[off], s, |s|)`. */
  method Put(buf: array<byte>, off: nat, s: seq<byte>)
    requires off + |s| <= buf.Length
    modifies buf
    ensures Wrote(buf, off, s)
  {
    for k := 0 to |s|
      invariant buf[off..off + k] == s[..k] && buf[..off] == old(buf[..off]) &&
                buf[off + |s|..] == old(buf[off + |s|..])
    {
      buf[off + k] := s[k];
      assert buf[off..off + k + 1] == buf[off..off + k] + [s[k]];
    }
  }

  /** BRVarIntSet; with a null buffer the size that it needs. */
  method BRVarIntSet(buf: array?<byte>, off: nat, bufLen: nat, i: uint64) returns (r: nat)
    requires buf != null ==> off + bufLen <= buf.Length
    modifies buf
    ensures r == if buf == null || |VarInt(i)| <= bufLen then |VarInt(i)| else 0
    ensures buf != null ==> if r > 0 then Wrote(buf, off, VarInt(i)) else buf[..] == old(buf[..])
  {
    r := 0;
    if i < 0xfd {
      if buf != null && 1 <= bufLen { Put(buf, off, [i]); }
      r := if buf == null || 1 <= bufLen then 1 else 0;
    } else if i <= 0xffff {
      if buf != null && 1 + 2 <= bufLen { Put(buf, off, [HEADER16] + ToLE(i, 2)); }
      r := if buf == null || 1 + 2 <= bufLen then 1 + 2 else 0;
    } else if i <= 0xffff_ffff {
      if buf != null && 1 + 4 <= bufLen { Put(buf, off, [HEADER32] + ToLE(i, 4)); }
      r := if buf == null || 1 + 4 <= bufLen then 1 + 4 else 0;
    } else {
      if buf != null && 1 + 8 <= bufLen { Put(buf, off, [HEADER64] + ToLE(i, 8)); }
      r := if buf == null || 1 + 8 <= bufLen then 1 + 8 else 0;
    }
  }
}
