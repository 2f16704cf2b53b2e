/** Big-endian positional numerals, and a numeral in a fixed buffer multiplied and added to in place. */
module Radix {
  import opened Common
  import opened Words

  // ---------------------------------------------------------------- powers

  lemma {:induction false} PowPositive(b: nat, n: nat)
    requires b > 0
    ensures Pow(b, n) > 0
  {
    if n == 0 {
    } else {
      PowPositive(b, n - 1);
    }
  }

  lemma {:induction false} PowAdd(b: nat, m: nat, n: nat)
    ensures Pow(b, m + n) == Pow(b, m) * Pow(b, n)
  {
    if m == 0 {
    } else {
      PowAdd(b, m - 1, n);
      assert Pow(b, m + n) == b * Pow(b, m - 1 + n);
      Mul3(b, Pow(b, m - 1), Pow(b, n));
    }
  }

  lemma {:induction false} PowTimes(b: nat, m: nat, n: nat)
    ensures Pow(Pow(b, m), n) == Pow(b, m * n)
  {
    if n == 0 {
    } else {
      PowTimes(b, m, n - 1);
      assert m * n == m + m * (n - 1);
      PowAdd(b, m, m * (n - 1));
    }
  }

  lemma MulMono(a: nat, b: nat, c: nat, d: nat)
    requires a <= b && c <= d
    ensures a * c <= b * d
  {
    assert a * c <= a * d <= b * d;
  }

  lemma {:induction false} PowMonoBase(a: nat, b: nat, n: nat)
    requires a <= b
    ensures Pow(a, n) <= Pow(b, n)
  {
    if n == 0 {
    } else {
      PowMonoBase(a, b, n - 1);
      MulMono(a, b, Pow(a, n - 1), Pow(b, n - 1));
    }
  }

  lemma PowMonoExp(b: nat, m: nat, n: nat)
    requires b > 0 && m <= n
    ensures Pow(b, m) <= Pow(b, n)
  {
    PowAdd(b, m, n - m);
    PowPositive(b, n - m);
    MulMono(Pow(b, m), Pow(b, m), 1, Pow(b, n - m));
  }

  lemma MulStrict(a: nat, b: nat, c: nat, d: nat)
    requires a < b && c < d
    ensures a * c < b * d
  {
    assert a * c <= b * c < b * d;
  }

  lemma {:induction false} PowStrictBase(a: nat, b: nat, n: nat)
    requires a < b && n > 0
    ensures Pow(a, n) < Pow(b, n)
  {
    if n > 1 {
      PowStrictBase(a, b, n - 1);
      MulStrict(a, b, Pow(a, n - 1), Pow(b, n - 1));
    } else {
      assert Pow(a, 0) == 1 && Pow(b, 0) == 1;
    }
  }

  lemma Commute(a: int, b: int)
    ensures a * b == b * a
  {
  }

  lemma PowSwap(a: nat, m: nat, n: nat)
    ensures Pow(Pow(a, m), n) == Pow(Pow(a, n), m)
  {
    PowTimes(a, m, n);
    PowTimes(a, n, m);
    Commute(m, n);
  }

  lemma RootMono(x: nat, y: nat, p: nat)
    requires p > 0 && Pow(x, p) <= Pow(y, p)
    ensures x <= y
  {
    if x > y {
      PowStrictBase(y, x, p);
    }
  }

  lemma PowTimesTo(b: nat, m: nat, n: nat, x: nat)
    requires x == m * n
    ensures Pow(Pow(b, m), n) == Pow(b, x)
  {
    PowTimes(b, m, n);
  }

  lemma PowPowMono(b: nat, q: nat, m: nat, e: nat, p: nat)
    requires b > 0 && q * m <= e * p
    ensures Pow(Pow(b, q), m) <= Pow(Pow(b, e), p)
  {
    var x, y := q * m, e * p;
    PowTimesTo(b, q, m, x);
    PowTimesTo(b, e, p, y);
    PowMonoExp(b, x, y);
  }

  /** A rational bound q/p on a logarithm carries over to every length. */
  lemma LogBound(a: nat, b: nat, p: nat, q: nat, m: nat, e: nat)
    requires b > 0 && p > 0 && Pow(a, p) <= Pow(b, q) && q * m <= e * p
    ensures Pow(a, m) <= Pow(b, e)
  {
    PowSwap(a, m, p);
    PowMonoBase(Pow(a, p), Pow(b, q), m);
    PowPowMono(b, q, m, e, p);
    RootMono(Pow(a, m), Pow(b, e), p);
  }

  // ---------------------------------------------------------------- numerals

  predicate Digits(b: nat, s: seq<nat>) {
    forall i :: 0 <= i < |s| ==> s[i] < b
  }

  function Value(b: nat, s: seq<nat>): nat {
    if s == [] then 0 else Value(b, s[..|s| - 1]) * b + s[|s| - 1]
  }

  /** The shortest numeral of n: no digits at all for 0. */
  function Numeral(b: nat, n: nat): (s: seq<nat>)
    requires b >= 2
    ensures Digits(b, s)
  {
    if n == 0 then [] else Numeral(b, n / b) + [n % b]
  }

  lemma ValueAppend(b: nat, s: seq<nat>, d: nat)
    ensures Value(b, s + [d]) == Value(b, s) * b + d
  {
    assert (s + [d])[..|s|] == s;
  }

  lemma DivIdentity(n: nat, b: nat)
    requires b > 0
    ensures n == n / b * b + n % b
  {
  }

  lemma {:induction false} ValueNumeral(b: nat, n: nat)
    requires b >= 2
    ensures Value(b, Numeral(b, n)) == n
  {
    if n == 0 {
    } else {
      var q, r := n / b, n % b;
      ValueNumeral(b, q);
      NumeralLast(b, n, q, r);
      ValueIs(b, Numeral(b, q), r, q, n);
    }
  }

  lemma NumeralLast(b: nat, n: nat, q: nat, r: nat)
    requires b >= 2 && n > 0 && q == n / b && r == n % b
    ensures Numeral(b, n) == Numeral(b, q) + [r] && n == q * b + r
  {
    DivIdentity(n, b);
  }

  lemma ValueIs(b: nat, t: seq<nat>, d: nat, v: nat, w: nat)
    requires Value(b, t) == v && w == v * b + d
    ensures Value(b, t + [d]) == w
  {
    ValueAppend(b, t, d);
  }

  lemma AtLeast(d: int, b: nat)
    ensures d >= 1 ==> d * b >= b
    ensures d <= -1 ==> d * b <= 0 - b
  {
  }

  lemma DistributeOver(x: int, y: int, b: int)
    ensures (x + y) * b == x * b + y * b
  {
  }

  lemma DivMod(n: nat, q: nat, b: nat, r: nat)
    requires r < b && n == q * b + r
    ensures n / b == q && n % b == r
  {
    DivIdentity(n, b);
    DistributeOver(q, n / b - q, b);
    AtLeast(n / b - q, b);
  }

  lemma {:induction false} NumeralValue(b: nat, s: seq<nat>)
    requires b >= 2 && Digits(b, s) && (s != [] ==> s[0] != 0)
    ensures Numeral(b, Value(b, s)) == s
    ensures s != [] ==> Value(b, s) > 0
  {
    if s == [] {
    } else {
      var t, d := s[..|s| - 1], s[|s| - 1];
      NumeralValue(b, t);
      NumeralStep(b, t, d, Value(b, t), Value(b, s));
      assert s == t + [d];
    }
  }

  lemma NumeralStep(b: nat, t: seq<nat>, d: nat, v: nat, w: nat)
    requires b >= 2 && d < b && Numeral(b, v) == t && (t == [] ==> d != 0) && w == v * b + d
    ensures w > 0 && Numeral(b, w) == t + [d]
  {
    DivMod(w, v, b, d);
    AtLeast(v, b);
    if v == 0 {
      assert t == [];
    }
  }

  lemma {:induction false} NumeralLeads(b: nat, n: nat)
    requires b >= 2 && n > 0
    ensures Numeral(b, n) != [] && Numeral(b, n)[0] != 0
  {
    DivIdentity(n, b);
    QuotientIsNat(n, b);
    var q: nat := n / b;
    if q == 0 {
    } else {
      Smaller(n, q, b);
      NumeralLeads(b, q);
    }
  }

  lemma Smaller(n: nat, q: nat, b: nat)
    requires b >= 2 && q > 0 && n >= q * b
    ensures q < n
  {
    MulMono(q, q, 2, b);
  }

  lemma {:induction false} ZerosAreNothing(b: nat, z: nat)
    ensures Value(b, Zeros(z)) == 0
  {
    if z == 0 {
    } else {
      ZerosAreNothing(b, z - 1);
      assert Zeros(z) == Zeros(z - 1) + [0];
      ValueAppend(b, Zeros(z - 1), 0);
    }
  }

  lemma {:induction false} LeadingZeros(b: nat, z: nat, s: seq<nat>)
    ensures Value(b, Zeros(z) + s) == Value(b, s)
    decreases |s|
  {
    if s == [] {
      ZerosAreNothing(b, z);
      assert Zeros(z) + s == Zeros(z);
    } else {
      var t, d := s[..|s| - 1], s[|s| - 1];
      LeadingZeros(b, z, t);
      ConcatLast(Zeros(z), s, t, d);
      ValueAppend(b, Zeros(z) + t, d);
    }
  }

  lemma ConcatLast(p: seq<nat>, s: seq<nat>, t: seq<nat>, d: nat)
    requires s != [] && t == s[..|s| - 1] && d == s[|s| - 1]
    ensures p + s == p + t + [d]
  {
  }

  lemma {:induction false} ValueBound(b: nat, s: seq<nat>)
    requires b > 0 && Digits(b, s)
    ensures Value(b, s) < Pow(b, |s|)
  {
    if s == [] {
    } else {
      var t, d := s[..|s| - 1], s[|s| - 1];
      ValueBound(b, t);
      BoundStep(b, Value(b, t), d, Pow(b, |t|));
    }
  }

  lemma BoundStep(b: nat, v: nat, d: nat, p: nat)
    requires d < b && v < p
    ensures v * b + d < b * p
  {
    MulMono(v + 1, p, b, b);
    DistributeOver(v, 1, b);
    Commute(p, b);
  }

  // ---------------------------------------------------------------- multiply and add in place

  /** s, digits in base b, times m plus c, keeping the length. */
  function MulAdd(b: nat, s: seq<nat>, m: nat, c: nat): (t: seq<nat>)
    requires b > 0
    ensures |t| == |s|
  {
    if s == [] then []
    else
      var x := c + s[|s| - 1] * m;
      MulAdd(b, s[..|s| - 1], m, x / b) + [x % b]
  }

  /** What does not fit. */
  function CarryOut(b: nat, s: seq<nat>, m: nat, c: nat): nat
    requires b > 0
  {
    if s == [] then c else CarryOut(b, s[..|s| - 1], m, (c + s[|s| - 1] * m) / b)
  }

  /** The product plus c is what the digits spell, plus the carry above them. */
  lemma {:induction false} MulAddValue(b: nat, s: seq<nat>, m: nat, c: nat)
    requires b > 0
    ensures Digits(b, MulAdd(b, s, m, c))
    ensures Value(b, MulAdd(b, s, m, c)) + Pow(b, |s|) * CarryOut(b, s, m, c) == Value(b, s) * m + c
  {
    if s == [] {
    } else {
      var t, d := s[..|s| - 1], s[|s| - 1];
      var x := c + d * m;
      QuotientIsNat(x, b);
      var q: nat := x / b;
      MulAddValue(b, t, m, q);
      ValueAppend(b, MulAdd(b, t, m, q), x % b);
      DivIdentity(x, b);
      MulAddStep(b, m, Value(b, MulAdd(b, t, m, q)), Pow(b, |t|), CarryOut(b, t, m, q), Value(b, t), q, d, c, x, x % b);
    }
  }

  lemma QuotientIsNat(n: nat, b: nat)
    requires b > 0
    ensures n / b >= 0
  {
  }

  lemma MulAddStep(b: nat, m: nat, v: nat, p: nat, o: nat, w: nat, q: nat, d: nat, c: nat, x: nat, r: nat)
    requires v + p * o == w * m + q && x == c + d * m && x == q * b + r
    ensures (v * b + r) + (b * p) * o == (w * b + d) * m + c
  {
    calc {
      (v * b + r) + (b * p) * o;
    == { Mul3(b, p, o); Commute(b, p * o); }
      v * b + (p * o) * b + r;
    == { DistributeOver(v, p * o, b); }
      (w * m + q) * b + r;
    == { DistributeOver(w * m, q, b); }
      w * m * b + x;
    == { Mul3(w, m, b); Commute(m, b); Mul3(w, b, m); }
      w * b * m + d * m + c;
    == { DistributeOver(w * b, d, m); }
      (w * b + d) * m + c;
    }
  }
}
