/** Bytes as numbers and as bit-vectors. The numeric modules use the one kind, the bitwise ones the other. */
module ByteBits {
  import opened Common

  type Octets = seq<bv8>

  function Bits(b: byte): bv8 {
    b as bv8
  }

  function Number(x: bv8): byte {
    x as int
  }

  lemma BitsOfNumber(x: bv8)
    ensures Bits(Number(x)) == x
  {
  }

  function AllBits(s: seq<byte>): (t: Octets)
    ensures |t| == |s| && forall i :: 0 <= i < |s| ==> t[i] == Bits(s[i])
  {
    seq(|s|, i requires 0 <= i < |s| => Bits(s[i]))
  }

  function Numbers(s: Octets): (t: seq<byte>)
    ensures |t| == |s| && forall i :: 0 <= i < |s| ==> t[i] == Number(s[i])
  {
    seq(|s|, i requires 0 <= i < |s| => Number(s[i]))
  }

  lemma AllBitsOfNumbers(s: Octets)
    ensures AllBits(Numbers(s)) == s
  {
    forall i | 0 <= i < |s| ensures Bits(Number(s[i])) == s[i] {
      BitsOfNumber(s[i]);
    }
  }

  lemma Successor(x: bv8)
    requires x < 255
    ensures Number(x + 1) == Number(x) + 1
  {
  }

  /** The bit-vector that counts up to b. */
  function Upto(b: nat): bv8 {
    if b == 0 then 0 else Upto(b - 1) + 1
  }

  lemma {:induction false} NumberOfUpto(b: byte)
    ensures Number(Upto(b)) == b
  {
    if b == 0 {
    } else {
      NumberOfUpto(b - 1);
      Below255(Upto(b - 1));
      Successor(Upto(b - 1));
    }
  }

  lemma Below255(x: bv8)
    ensures x < 255 <==> Number(x) < 255
  {
  }

  lemma NumberOfBits(b: byte)
    ensures Number(Bits(b)) == b
  {
    NumberOfUpto(b);
    BitsOfNumber(Upto(b));
  }

  lemma NumbersOfAllBits(s: seq<byte>)
    ensures Numbers(AllBits(s)) == s
  {
    forall i | 0 <= i < |s| ensures Number(Bits(s[i])) == s[i] {
      NumberOfBits(s[i]);
    }
  }
}
