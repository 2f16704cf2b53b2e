/** Numbers as strings of bits, high bit first, and sequences of equally wide numbers as one bit string. */
module BitStream {
  import opened Common
  import opened Words
  import Radix

  /** The low w bits of v. */
  function Bits(w: nat, v: nat): (b: seq<bool>)
    ensures |b| == w
  {
    if w == 0 then [] else Bits(w - 1, v / 2) + [v % 2 == 1]
  }

  /** All the numbers of s, w bits each, one after the other. */
  function Stream(w: nat, s: seq<nat>): (b: seq<bool>)
    ensures |b| == Times(|s|, w)
  {
    if s == [] then [] else Stream(w, s[..|s| - 1]) + Bits(w, s[|s| - 1])
  }

  predicate Below(w: nat, s: seq<nat>) {
    forall i :: 0 <= i < |s| ==> s[i] < Pow2(w)
  }

  lemma {:induction false} BitsInjective(w: nat, u: nat, v: nat)
    requires u < Pow2(w) && v < Pow2(w) && Bits(w, u) == Bits(w, v)
    ensures u == v
  {
    if w == 0 {
    } else {
      assert Bits(w, u)[..w - 1] == Bits(w - 1, u / 2) && Bits(w, v)[..w - 1] == Bits(w - 1, v / 2);
      assert Bits(w, u)[w - 1] == (u % 2 == 1) && Bits(w, v)[w - 1] == (v % 2 == 1);
      BitsInjective(w - 1, u / 2, v / 2);
    }
  }

  /** Shifting right drops the low bits. */
  lemma {:induction false} BitsShift(w: nat, v: nat, s: nat)
    requires s <= w
    ensures Bits(w - s, Shr(v, s)) == Bits(w, v)[..w - s]
  {
    if s == 0 {
    } else {
      BitsShift(w - 1, v / 2, s - 1);
      assert Bits(w, v)[..w - s] == Bits(w - 1, v / 2)[..w - s];
    }
  }

  /** A remainder modulo a power of two keeps the low bits. */
  lemma {:induction false} BitsMod(w: nat, v: nat, k: nat)
    requires k <= w
    ensures Bits(k, v % Pow2(k)) == Bits(w, v)[w - k..]
  {
    if k == 0 {
    } else {
      BitsMod(w - 1, v / 2, k - 1);
      LowBits(v, Pow2(k - 1));
      assert Bits(w, v)[w - k..] == Bits(w - 1, v / 2)[w - k..] + [v % 2 == 1];
    }
  }

  lemma LowBits(v: nat, p: nat)
    requires p > 0
    ensures v % (2 * p) / 2 == (v / 2) % p && v % (2 * p) % 2 == v % 2
  {
    ModDouble(v, p);
  }

  lemma {:induction false} BitsJoin(a: nat, b: nat, u: nat, v: nat)
    requires v < Pow2(b)
    ensures Bits(a + b, Shl(u, b) + v) == Bits(a, u) + Bits(b, v)
  {
    if b == 0 {
    } else {
      BitsJoin(a, b - 1, u, v / 2);
      HalfSum(Shl(u, b - 1), v, Shl(u, b) + v);
      assert Bits(a, u) + Bits(b, v) == (Bits(a, u) + Bits(b - 1, v / 2)) + [v % 2 == 1];
    }
  }

  lemma HalfSum(x: nat, v: nat, y: nat)
    requires y == 2 * x + v
    ensures y / 2 == x + v / 2 && y % 2 == v % 2
  {
  }

  lemma {:induction false} BitsZero(w: nat)
    ensures Bits(w, 0) == seq(w, _ => false)
  {
    if w == 0 {
    } else {
      BitsZero(w - 1);
    }
  }

  // ---------------------------------------------------------------- streams

  lemma StreamAppend(w: nat, s: seq<nat>, d: nat)
    ensures Stream(w, s + [d]) == Stream(w, s) + Bits(w, d)
  {
    assert (s + [d])[..|s|] == s;
  }

  lemma {:induction false} StreamConcat(w: nat, s: seq<nat>, t: seq<nat>)
    ensures Stream(w, s + t) == Stream(w, s) + Stream(w, t)
    decreases |t|
  {
    hide Bits, Times;
    if t == [] {
      assert s + t == s;
    } else {
      var u, d := t[..|t| - 1], t[|t| - 1];
      StreamConcat(w, s, u);
      ConcatLast(s, t, u, d);
      StreamAppend(w, s + u, d);
      StreamAppend(w, u, d);
    }
  }

  lemma ConcatLast(s: seq<nat>, t: seq<nat>, u: seq<nat>, d: nat)
    requires t != [] && u == t[..|t| - 1] && d == t[|t| - 1]
    ensures t == u + [d] && s + t == s + u + [d]
  {
  }

  lemma {:induction false} StreamInjective(w: nat, s: seq<nat>, t: seq<nat>)
    requires |s| == |t| && Below(w, s) && Below(w, t) && Stream(w, s) == Stream(w, t)
    ensures s == t
    decreases |s|
  {
    if s == [] {
    } else {
      var n := |s| - 1;
      var a, c, b, d := s[..n], s[n], t[..n], t[n];
      ConcatLast([], s, a, c);
      ConcatLast([], t, b, d);
      SameParts(Stream(w, a), Bits(w, c), Stream(w, b), Bits(w, d));
      StreamInjective(w, a, b);
      BitsInjective(w, c, d);
    }
  }

  lemma SameParts(a: seq<bool>, c: seq<bool>, b: seq<bool>, d: seq<bool>)
    requires a + c == b + d && |a| == |b|
    ensures a == b && c == d
  {
    assert a == (a + c)[..|a|] && b == (b + d)[..|b|];
    assert c == (a + c)[|a|..] && d == (b + d)[|b|..];
  }

  lemma {:induction false} TimesAdd(a: nat, b: nat, w: nat)
    ensures Times(a + b, w) == Times(a, w) + Times(b, w)
  {
    if a == 0 {
    } else {
      TimesAdd(a - 1, b, w);
    }
  }

  /** The numbers from i up to j are a slice of the stream. */
  lemma StreamSlice(w: nat, s: seq<nat>, i: nat, j: nat, lo: nat, hi: nat)
    requires i <= j <= |s| && lo == Times(i, w) && hi == Times(j, w)
    ensures lo <= hi <= |Stream(w, s)| && Stream(w, s)[lo..hi] == Stream(w, s[i..j])
  {
    hide Stream, Times;
    var a, b, c := s[..i], s[i..j], s[j..];
    ThreeParts(s, i, j);
    StreamConcat(w, a, b + c);
    StreamConcat(w, b, c);
    TimesAdd(i, j - i, w);
    Middle(Stream(w, a), Stream(w, b), Stream(w, c));
  }

  lemma ThreeParts(s: seq<nat>, i: nat, j: nat)
    requires i <= j <= |s|
    ensures s == s[..i] + (s[i..j] + s[j..])
  {
  }

  lemma Middle(a: seq<bool>, b: seq<bool>, c: seq<bool>)
    ensures (a + (b + c))[|a|..|a| + |b|] == b
  {
  }

  lemma StreamOne(w: nat, d: nat)
    ensures Stream(w, [d]) == Bits(w, d)
  {
    assert [d][..0] == [];
    assert Stream(w, []) == [];
  }

  // ---------------------------------------------------------------- cutting a bit string into numbers

  function Number(b: seq<bool>): (v: nat) {
    if b == [] then 0 else 2 * Number(b[..|b| - 1]) + if b[|b| - 1] then 1 else 0
  }

  lemma {:induction false} BitsNumber(b: seq<bool>)
    ensures Bits(|b|, Number(b)) == b && Number(b) < Pow2(|b|)
  {
    if b == [] {
    } else {
      BitsNumber(b[..|b| - 1]);
      assert b == b[..|b| - 1] + [b[|b| - 1]];
    }
  }

  lemma NumberBits(w: nat, v: nat)
    requires v < Pow2(w)
    ensures Number(Bits(w, v)) == v
  {
    BitsNumber(Bits(w, v));
    BitsInjective(w, v, Number(Bits(w, v)));
  }

  lemma {:induction false} NumberConcat(a: seq<bool>, b: seq<bool>)
    ensures Number(a + b) == Number(a) * Pow2(|b|) + Number(b)
  {
    if b == [] {
      assert a + b == a;
    } else {
      var c := b[..|b| - 1];
      NumberConcat(a, c);
      assert (a + b)[..|a + b| - 1] == a + c;
      assert Number(a) * Pow2(|b|) == 2 * (Number(a) * Pow2(|c|));
    }
  }

  /** A stream of numbers spells one number, of which they are the digits in base 2^w, the first the highest. */
  lemma {:induction false} NumberStream(w: nat, s: seq<nat>)
    requires Below(w, s)
    ensures Number(Stream(w, s)) == Radix.Value(Pow2(w), s)
  {
    hide Bits, Number, Pow2;
    if s == [] {
      NoBits();
    } else {
      var n := |s| - 1;
      NumberStream(w, s[..n]);
      NumberConcat(Stream(w, s[..n]), Bits(w, s[n]));
      NumberBits(w, s[n]);
    }
  }

  lemma NoBits()
    ensures Number([]) == 0
  {
  }

  lemma HalfOfQuotient(x: nat, p: nat)
    requires p > 0
    ensures x / 2 / p == x / (2 * p)
  {
    var q, r := x / 2 / p, x / 2 % p;
    assert x / 2 == q * p + r;
    assert x == q * (2 * p) + (2 * r + x % 2);
    ModUnique(x, q, 2 * r + x % 2, 2 * p);
    assert (x / (2 * p) - q) * (2 * p) == 0;
    SmallMultiple(x / (2 * p) - q, 2 * p, 0);
    MulSize(x / (2 * p) - q, 2 * p);
  }

  lemma {:induction false} ShrIsDiv(x: nat, k: nat)
    ensures Shr(x, k) == x / Pow2(k)
  {
    if k == 0 {
    } else {
      ShrIsDiv(x / 2, k - 1);
      HalfOfQuotient(x, Pow2(k - 1));
    }
  }

  /** The first k of w bits are a quotient. */
  lemma NumberTop(w: nat, v: nat, k: nat)
    requires k <= w && v < Pow2(w)
    ensures Number(Bits(w, v)[..k]) == v / Pow2(w - k)
  {
    hide Bits, Number, Shr, Pow2;
    BitsShift(w, v, w - k);
    ShrIsDiv(v, w - k);
    Pow2Add(k, w - k);
    QuotientBelow(v, Pow2(k), Pow2(w - k));
    NumberBits(k, Shr(v, w - k));
  }

  lemma QuotientBelow(v: nat, p: nat, q: nat)
    requires q > 0 && v < p * q
    ensures v / q < p
  {
  }

  /** The first n numbers of w bits. */
  function Groups(w: nat, b: seq<bool>, n: nat): (s: seq<nat>)
    requires Times(n, w) <= |b|
    ensures |s| == n
  {
    if n == 0 then [] else Groups(w, b, n - 1) + [Number(b[Times(n - 1, w)..Times(n, w)])]
  }

  lemma {:induction false} StreamGroups(w: nat, b: seq<bool>, n: nat)
    requires Times(n, w) <= |b|
    ensures Stream(w, Groups(w, b, n)) == b[..Times(n, w)] && Below(w, Groups(w, b, n))
  {
    hide Bits, Number, Pow2;
    if n == 0 {
    } else {
      var lo, hi := Times(n - 1, w), Times(n, w);
      StreamGroups(w, b, n - 1);
      var s := Groups(w, b, n - 1);
      assert Groups(w, b, n) == s + [Number(b[lo..hi])];
      GroupStep(w, b, s, lo, hi);
    }
  }

  lemma GroupStep(w: nat, b: seq<bool>, s: seq<nat>, lo: nat, hi: nat)
    requires lo <= hi <= |b| && hi - lo == w && Stream(w, s) == b[..lo] && Below(w, s)
    ensures var t := s + [Number(b[lo..hi])];
            Stream(w, t) == b[..hi] && Below(w, t)
  {
    hide Stream, Bits, Number, Pow2;
    var c := b[lo..hi];
    BitsNumber(c);
    StreamAppend(w, s, Number(c));
    assert b[..hi] == b[..lo] + c;
  }

  /** A sequence of numbers is what cutting its stream, or any longer one, gives back. */
  lemma GroupsStream(w: nat, s: seq<nat>, b: seq<bool>)
    requires Below(w, s) && Times(|s|, w) <= |b| && b[..Times(|s|, w)] == Stream(w, s)
    ensures Groups(w, b, |s|) == s
  {
    StreamGroups(w, b, |s|);
    StreamInjective(w, s, Groups(w, b, |s|));
  }

  lemma {:induction false} GroupsAt(w: nat, b: seq<bool>, n: nat, i: nat)
    requires Times(n, w) <= |b| && i < n
    ensures Times(i, w) <= Times(i + 1, w) <= |b|
    ensures Groups(w, b, n)[i] == Number(b[Times(i, w)..Times(i + 1, w)])
  {
    if i >= n - 1 {
    } else {
      GroupsAt(w, b, n - 1, i);
    }
  }

  /** The number whose bits are group i is the group's element. */
  lemma GroupIs(w: nat, b: seq<bool>, n: nat, i: nat, lo: nat, hi: nat, v: nat)
    requires Times(n, w) <= |b| && i < n && lo == Times(i, w) && hi == lo + w && hi <= |b|
    requires v < Pow2(w) && Bits(w, v) == b[lo..hi]
    ensures Groups(w, b, n)[i] == v
  {
    hide Bits, Groups, Pow2, Number;
    GroupsAt(w, b, n, i);
    NumberBits(w, v);
  }

  lemma JoinNumber(w: nat, v: nat, k: nat, s: seq<nat>, c: nat, x: nat)
    requires Bits(w, v) == Stream(k, s) && c < Pow2(k) && x == v * Pow2(k) + c
    ensures Bits(w + k, x) == Stream(k, s + [c])
  {
    ShlIsMul(v, k);
    BitsJoin(w, k, v, c);
    StreamAppend(k, s, c);
  }

  lemma JoinByte(w: nat, v: nat, s: seq<nat>, c: byte, x: nat)
    requires Bits(w, v) == Stream(8, s) && x == v * 256 + c
    ensures Bits(w + 8, x) == Stream(8, s + [c])
  {
    Powers();
    JoinNumber(w, v, 8, s, c, x);
  }

  /** Four bytes as a big-endian number. */
  lemma Bits32(a: byte, b: byte, c: byte, d: byte, x: nat)
    requires x == a * 0x1000000 + b * 0x10000 + c * 0x100 + d
    ensures Bits(32, x) == Stream(8, [a, b, c, d])
  {
    hide Stream, Bits;
    var ab := a * 256 + b;
    var abc := ab * 256 + c;
    var s1: seq<nat>, s2: seq<nat>, s3: seq<nat> := [a], [a, b], [a, b, c];
    StreamOne(8, a);
    JoinByte(8, a, s1, b, ab);
    assert s1 + [b] == s2;
    JoinByte(16, ab, s2, c, abc);
    assert s2 + [c] == s3;
    JoinByte(24, abc, s3, d, x);
    assert s3 + [d] == [a, b, c, d];
  }
}
