/**
 The checksum of BIP 173 as BRBech32.c computes it: one step of a shift register over GF(2) per symbol. Everything
 here follows from the four laws collected in `Register`, which hold of `Polymod`.
 */
module Bech32Checksum {
  import Bits = Bech32Bits

  // One symbol is a bv8 below 32.
  type Step = bv32 -> bv32

  // XOR as a named function, so that proofs can replace equals by equals inside it.
  function X(a: bv32, b: bv32): bv32 {
    a ^ b
  }

  /** `-(((x) >> n) & 1) & g`. */
  function Term(bit: bv32, g: bv32): bv32 {
    (0 - (bit & 1)) & g
  }

  function Shifted(x: bv32): bv32 {
    (x & 0x1ffffff) << 5
  }

  /** The polymod macro. */
  function Polymod(x: bv32): bv32 {
    X(X(X(X(X(Shifted(x), Term(x >> 25, 0x3b6a57b2)), Term(x >> 26, 0x26508e6d)), Term(x >> 27, 0x1ea119fa)),
        Term(x >> 28, 0x3d4233dd)), Term(x >> 29, 0x2a1462b3))
  }

  /** `chk = polymod(chk) ^ c` for every symbol c. */
  function Feed(pm: Step, chk: bv32, s: seq<bv8>): bv32
    decreases |s|
  {
    if s == [] then chk else X(pm(Feed(pm, chk, s[..|s| - 1])), s[|s| - 1] as bv32)
  }

  // ---------------------------------------------------------------- what the proofs need of polymod

  ghost predicate Linear(pm: Step) {
    forall a, b {:trigger pm(X(a, b))} :: pm(X(a, b)) == X(pm(a), pm(b))
  }

  /** Without feedback the register only shifts. */
  ghost predicate Shifts(pm: Step) {
    forall a: bv32 :: a < 0x2000000 ==> pm(a) == a << 5
  }

  ghost predicate Bounded(pm: Step) {
    forall a :: pm(a) < 0x40000000
  }

  /** No non-zero 30-bit state steps to zero. */
  ghost predicate Nonsingular(pm: Step) {
    forall a: bv32 :: a < 0x40000000 && pm(a) == 0 ==> a == 0
  }

  ghost predicate Register(pm: Step) {
    Linear(pm) && Shifts(pm) && Bounded(pm) && Nonsingular(pm)
  }

  lemma Symmetric(a: bv32, b: bv32)
    ensures X(a, b) == X(b, a)
  {
  }

  lemma Associative(a: bv32, b: bv32, c: bv32)
    ensures X(X(a, b), c) == X(a, X(b, c))
  {
  }

  lemma Interchange(a: bv32, b: bv32, c: bv32, d: bv32)
    ensures X(X(a, b), X(c, d)) == X(X(a, c), X(b, d))
  {
    Associative(a, b, X(c, d));
    Associative(b, c, d);
    Symmetric(b, c);
    Associative(c, b, d);
    Associative(a, c, X(b, d));
  }

  lemma LowBit(p: bv32)
    ensures p & 1 == 0 || p & 1 == 1
  {
  }

  lemma Masks(g: bv32)
    ensures (0 - 0) & g == 0 && (0 - 1) & g == g
  {
  }

  lemma TermIs(p: bv32, g: bv32)
    ensures p & 1 == 0 || p & 1 == 1
    ensures Term(p, g) == if p & 1 == 1 then g else 0
  {
    LowBit(p);
    Masks(g);
  }

  lemma BitLinear(p: bv32, q: bv32)
    ensures X(p, q) & 1 == X(p & 1, q & 1)
  {
  }

  lemma Nothing(a: bv32, g: bv32)
    ensures Term(0, g) == 0 && X(a, 0) == a && X(0, a) == a && X(a, a) == 0
  {
  }

  lemma TermLinear(p: bv32, q: bv32, g: bv32)
    ensures Term(X(p, q), g) == X(Term(p, g), Term(q, g))
  {
    TermIs(p, g);
    TermIs(q, g);
    TermIs(X(p, q), g);
    BitLinear(p, q);
    Nothing(g, g);
  }

  lemma ShiftLinear(a: bv32, b: bv32)
    ensures X(a, b) >> 25 == X(a >> 25, b >> 25)
    ensures X(a, b) >> 26 == X(a >> 26, b >> 26)
    ensures X(a, b) >> 27 == X(a >> 27, b >> 27)
    ensures X(a, b) >> 28 == X(a >> 28, b >> 28)
    ensures X(a, b) >> 29 == X(a >> 29, b >> 29)
  {
  }

  lemma ShiftedLinear(a: bv32, b: bv32)
    ensures Shifted(X(a, b)) == X(Shifted(a), Shifted(b))
  {
  }

  lemma NoFeedback(a: bv32)
    requires a < 0x2000000
    ensures Shifted(a) == a << 5
    ensures a >> 25 == 0 && a >> 26 == 0 && a >> 27 == 0 && a >> 28 == 0 && a >> 29 == 0
  {
  }

  lemma PolymodShifts(a: bv32)
    requires a < 0x2000000
    ensures Polymod(a) == a << 5
  {
    NoFeedback(a);
    Nothing(a << 5, 0x3b6a57b2);
    Nothing(a << 5, 0x26508e6d);
    Nothing(a << 5, 0x1ea119fa);
    Nothing(a << 5, 0x3d4233dd);
    Nothing(a << 5, 0x2a1462b3);
  }

  lemma PolymodBounded(a: bv32)
    ensures Polymod(a) < 0x40000000
  {
  }

  lemma PolymodNonsingular(a: bv32)
    requires a < 0x40000000 && Polymod(a) == 0
    ensures a == 0
  {
  }

  lemma PolymodLinear(a: bv32, b: bv32)
    ensures Polymod(X(a, b)) == X(Polymod(a), Polymod(b))
  {
    ShiftedLinear(a, b);
    ShiftLinear(a, b);
    TermLinear(a >> 25, b >> 25, 0x3b6a57b2);
    TermLinear(a >> 26, b >> 26, 0x26508e6d);
    TermLinear(a >> 27, b >> 27, 0x1ea119fa);
    TermLinear(a >> 28, b >> 28, 0x3d4233dd);
    TermLinear(a >> 29, b >> 29, 0x2a1462b3);
    SumsLinear(Shifted(a), Shifted(b), Term(a >> 25, 0x3b6a57b2), Term(b >> 25, 0x3b6a57b2),
               Term(a >> 26, 0x26508e6d), Term(b >> 26, 0x26508e6d),
               Term(a >> 27, 0x1ea119fa), Term(b >> 27, 0x1ea119fa),
               Term(a >> 28, 0x3d4233dd), Term(b >> 28, 0x3d4233dd),
               Term(a >> 29, 0x2a1462b3), Term(b >> 29, 0x2a1462b3));
  }

  lemma SumsLinear(a0: bv32, b0: bv32, a1: bv32, b1: bv32, a2: bv32, b2: bv32,
                   a3: bv32, b3: bv32, a4: bv32, b4: bv32, a5: bv32, b5: bv32)
    ensures X(X(X(X(X(X(a0, b0), X(a1, b1)), X(a2, b2)), X(a3, b3)), X(a4, b4)), X(a5, b5))
            == X(X(X(X(X(X(a0, a1), a2), a3), a4), a5), X(X(X(X(X(b0, b1), b2), b3), b4), b5))
  {
    var a01, b01 := X(a0, a1), X(b0, b1);
    var a02, b02 := X(a01, a2), X(b01, b2);
    var a03, b03 := X(a02, a3), X(b02, b3);
    var a04, b04 := X(a03, a4), X(b03, b4);
    Interchange(a0, b0, a1, b1);
    Interchange(a01, b01, a2, b2);
    Interchange(a02, b02, a3, b3);
    Interchange(a03, b03, a4, b4);
    Interchange(a04, b04, a5, b5);
  }

  lemma LinearPolymod()
    ensures Linear(Polymod)
  {
    forall a, b ensures Polymod(X(a, b)) == X(Polymod(a), Polymod(b)) {
      PolymodLinear(a, b);
    }
  }

  lemma ShiftsPolymod()
    ensures Shifts(Polymod)
  {
    forall a: bv32 | a < 0x2000000 ensures Polymod(a) == a << 5 {
      PolymodShifts(a);
    }
  }

  lemma BoundedPolymod()
    ensures Bounded(Polymod)
  {
    forall a ensures Polymod(a) < 0x40000000 {
      PolymodBounded(a);
    }
  }

  lemma NonsingularPolymod()
    ensures Nonsingular(Polymod)
  {
    forall a: bv32 | a < 0x40000000 && Polymod(a) == 0 ensures a == 0 {
      PolymodNonsingular(a);
    }
  }

  lemma PolymodIsRegister()
    ensures Register(Polymod)
  {
    LinearPolymod();
    ShiftsPolymod();
    BoundedPolymod();
    NonsingularPolymod();
  }

  // ---------------------------------------------------------------- two words side by side

  /** How far apart the register is after two words. */
  function Apart(pm: Step, chk: bv32, s: seq<bv8>, t: seq<bv8>): bv32 {
    X(Feed(pm, chk, s), Feed(pm, chk, t))
  }

  lemma ApartStep(pm: Step, chk: bv32, s: seq<bv8>, t: seq<bv8>, x: bv8, y: bv8)
    requires Linear(pm)
    ensures Apart(pm, chk, s + [x], t + [y]) == X(pm(Apart(pm, chk, s, t)), X(x as bv32, y as bv32))
  {
    assert (s + [x])[..|s|] == s && (t + [y])[..|t|] == t;
    Interchange(pm(Feed(pm, chk, s)), x as bv32, pm(Feed(pm, chk, t)), y as bv32);
  }

  lemma Same(a: bv32, b: bv32)
    ensures X(a, b) == 0 <==> a == b
  {
    if X(a, b) == 0 {
      Back(a, b);
      Nothing(b, 0);
    } else {
      Nothing(a, 0);
    }
  }

  lemma Back(a: bv32, b: bv32)
    ensures X(X(a, b), b) == a
  {
    hide X;
    Associative(a, b, b);
    Nothing(b, 0);
    Nothing(a, 0);
  }

  /** d is below 32^m. */
  predicate Fits(d: bv32, m: nat) {
    if m == 0 then d == 0 else Fits(d >> 5, m - 1)
  }

  lemma FitsIs(d: bv32, m: nat)
    requires m <= 6
    ensures Fits(d, m) <==> d < if m == 0 then 1 else if m == 1 then 0x20 else if m == 2 then 0x400
            else if m == 3 then 0x8000
                                else if m == 4 then 0x100000 else if m == 5 then 0x2000000 else 0x40000000
  {
    if m == 0 {
    } else {
      FitsIs(d >> 5, m - 1);
    }
  }

  lemma Append(d: bv32, x: bv8, y: bv8, m: nat)
    requires m <= 5 && Fits(d, m) && x < 32 && y < 32
    ensures Fits(X(d << 5, X(x as bv32, y as bv32)), m + 1)
    ensures X(d << 5, X(x as bv32, y as bv32)) == 0 <==> d == 0 && x == y
  {
    FitsIs(d, m);
    AppendBits(d, x, y);
  }

  lemma AppendBits(d: bv32, x: bv8, y: bv8)
    requires d < 0x2000000 && x < 32 && y < 32
    ensures X(d << 5, X(x as bv32, y as bv32)) >> 5 == d
    ensures X(d << 5, X(x as bv32, y as bv32)) == 0 <==> d == 0 && x == y
  {
  }

  lemma AppendOne(p: seq<bv8>, s: seq<bv8>, x: bv8)
    ensures p + (s + [x]) == p + s + [x]
  {
  }

  lemma TakeLast(s: seq<bv8>)
    requires s != []
    ensures s == s[..|s| - 1] + [s[|s| - 1]]
  {
  }

  /** Over six symbols after a common prefix the register only collects the differences. */
  lemma {:induction false} Collect(pm: Step, chk: bv32, p: seq<bv8>, s: seq<bv8>, t: seq<bv8>)
    requires Register(pm) && |s| == |t| <= 6 && Bits.Symbols(s) && Bits.Symbols(t)
    ensures Fits(Apart(pm, chk, p + s, p + t), |s|)
    ensures Apart(pm, chk, p + s, p + t) == 0 <==> s == t
    decreases |s|
  {
    if s == [] {
      CollectNone(pm, chk, p + s, p + t);
    } else {
      var n := |s| - 1;
      Collect(pm, chk, p, s[..n], t[..n]);
      TakeLast(s);
      TakeLast(t);
      CollectStep(pm, chk, p, s[..n], t[..n], s[n], t[n], s, t);
    }
  }

  lemma CollectNone(pm: Step, chk: bv32, s: seq<bv8>, t: seq<bv8>)
    requires s == t
    ensures Fits(Apart(pm, chk, s, t), 0)
    ensures Apart(pm, chk, s, t) == 0
  {
    Same(Feed(pm, chk, s), Feed(pm, chk, t));
  }

  lemma CollectStep(pm: Step, chk: bv32, p: seq<bv8>, s: seq<bv8>, t: seq<bv8>, x: bv8, y: bv8, s': seq<bv8>,
                    t': seq<bv8>)
    requires Register(pm) && |s| == |t| <= 5 && x < 32 && y < 32 && s' == s + [x] && t' == t + [y]
    requires Fits(Apart(pm, chk, p + s, p + t), |s|)
    requires Apart(pm, chk, p + s, p + t) == 0 <==> s == t
    ensures Fits(Apart(pm, chk, p + s', p + t'), |s'|)
    ensures Apart(pm, chk, p + s', p + t') == 0 <==> s' == t'
  {
    hide Feed, Apart, Linear, Shifts, Bounded, Nonsingular, Fits;
    var d := Apart(pm, chk, p + s, p + t);
    var e := ApartAppended(pm, chk, p, s, t, x, y, s', t', d);
    StepApart(pm, d, x, y, |s|, e);
    SameAppended(s, t, x, y);
  }

  lemma ApartAppended(pm: Step, chk: bv32, p: seq<bv8>, s: seq<bv8>, t: seq<bv8>, x: bv8, y: bv8,
                      s': seq<bv8>, t': seq<bv8>, d: bv32) returns (e: bv32)
    requires Linear(pm) && s' == s + [x] && t' == t + [y] && d == Apart(pm, chk, p + s, p + t)
    ensures e == Apart(pm, chk, p + s', p + t') && e == X(pm(d), X(x as bv32, y as bv32))
  {
    ApartStep(pm, chk, p + s, p + t, x, y);
    AppendOne(p, s, x);
    AppendOne(p, t, y);
    e := Apart(pm, chk, p + s', p + t');
  }

  lemma SameAppended(s: seq<bv8>, t: seq<bv8>, x: bv8, y: bv8)
    requires |s| == |t|
    ensures s + [x] == t + [y] <==> s == t && x == y
  {
    if s + [x] == t + [y] {
      assert (s + [x])[..|s|] == s && (t + [y])[..|t|] == t && (s + [x])[|s|] == x;
    }
  }

  lemma StepApart(pm: Step, d: bv32, x: bv8, y: bv8, m: nat, e: bv32)
    requires Shifts(pm) && m <= 5 && Fits(d, m) && x < 32 && y < 32 && e == X(pm(d), X(x as bv32, y as bv32))
    ensures Fits(e, m + 1)
    ensures e == 0 <==> d == 0 && x == y
  {
    Append(d, x, y, m);
    FitsIs(d, m);
  }

  lemma StepAgain(pm: Step, d: bv32, x: bv8)
    requires Register(pm) && d < 0x40000000
    ensures X(pm(d), X(x as bv32, x as bv32)) < 0x40000000
    ensures X(pm(d), X(x as bv32, x as bv32)) == 0 <==> pm(d) == 0
  {
    Same(x as bv32, x as bv32);
    Nothing(pm(d), 0);
  }

  /** A difference never goes away again while the symbols agree. */
  lemma {:induction false} Persists(pm: Step, chk: bv32, s: seq<bv8>, t: seq<bv8>, z: seq<bv8>)
    requires Register(pm) && Apart(pm, chk, s, t) != 0 && Apart(pm, chk, s, t) < 0x40000000
    ensures Apart(pm, chk, s + z, t + z) != 0 && Apart(pm, chk, s + z, t + z) < 0x40000000
    decreases |z|
  {
    if z == [] {
      assert s + z == s && t + z == t;
    } else {
      var n := |z| - 1;
      TakeLast(z);
      Persists(pm, chk, s, t, z[..n]);
      PersistStep(pm, chk, s, t, z[..n], z[n], z);
    }
  }

  lemma PersistStep(pm: Step, chk: bv32, s: seq<bv8>, t: seq<bv8>, z: seq<bv8>, x: bv8, z': seq<bv8>)
    requires Register(pm) && z' == z + [x] && Apart(pm, chk, s + z, t + z) != 0 &&
             Apart(pm, chk, s + z, t + z) < 0x40000000
    ensures Apart(pm, chk, s + z', t + z') != 0 && Apart(pm, chk, s + z', t + z') < 0x40000000
  {
    AppendOne(s, z, x);
    AppendOne(t, z, x);
    ApartStep(pm, chk, s + z, t + z, x, x);
    StepAgain(pm, Apart(pm, chk, s + z, t + z), x);
  }

  /** Words that differ only within six consecutive symbols have different checksums. */
  lemma BurstDetected(pm: Step, chk: bv32, p: seq<bv8>, s: seq<bv8>, t: seq<bv8>, z: seq<bv8>)
    requires Register(pm) && |s| == |t| <= 6 && s != t && Bits.Symbols(s) && Bits.Symbols(t) && Bits.Symbols(z)
    ensures Feed(pm, chk, p + s + z) != Feed(pm, chk, p + t + z)
  {
    Collect(pm, chk, p, s, t);
    FitsIs(Apart(pm, chk, p + s, p + t), |s|);
    Persists(pm, chk, p + s, p + t, z);
    Same(Feed(pm, chk, p + s + z), Feed(pm, chk, p + t + z));
  }

  // ---------------------------------------------------------------- the six symbols of an encoder

  function ZeroSymbols(n: nat): (s: seq<bv8>)
    ensures |s| == n
  {
    if n == 0 then [] else ZeroSymbols(n - 1) + [0]
  }

  /** The last n symbols of a number, high bits first. */
  function Digits(m: bv32, n: nat): (s: seq<bv8>)
    ensures |s| == n
    ensures Bits.Symbols(s)
  {
    if n == 0 then [] else Digits(m >> 5, n - 1) + [Five(m)]
  }

  function Five(m: bv32): (c: bv8)
    ensures c < 32
  {
    (m & 0x1f) as bv8
  }

  /** The checksum of BIP 173, "Checksum": run six zeros, then fold in the constant 1. */
  function Check(pm: Step, chk: bv32): bv32 {
    X(Feed(pm, chk, ZeroSymbols(6)), 1)
  }

  lemma SixStep(q: bv32)
    ensures q == X((q >> 5) << 5, Five(q) as bv32)
  {
  }

  lemma SixApart(pm: Step, chk: bv32, s: seq<bv8>, t: seq<bv8>, d: bv32, q: bv32)
    requires Register(pm) && Apart(pm, chk, s, t) == d && d == q >> 5 && q < 0x40000000
    ensures Apart(pm, chk, s + [Five(q)], t + [0]) == q
  {
    ApartStep(pm, chk, s, t, Five(q), 0);
    SixStep(q);
    Small(q);
    Nothing(Five(q) as bv32, 0);
  }

  lemma Small(q: bv32)
    requires q < 0x40000000
    ensures q >> 5 < 0x2000000
  {
  }

  lemma SmallDigits(m: bv32, n: nat, d: bv32)
    requires 1 <= n <= 6 && Fits(m, n) && d == m >> 5
    ensures m < 0x40000000 && Fits(d, n - 1)
  {
    FitsIs(m, n);
  }

  lemma {:induction false} DigitsCollected(pm: Step, chk: bv32, m: bv32, n: nat)
    requires Register(pm) && n <= 6 && Fits(m, n)
    ensures Apart(pm, chk, Digits(m, n), ZeroSymbols(n)) == m
  {
    if n == 0 {
      DigitsNone(pm, chk, m);
    } else {
      var d := m >> 5;
      SmallDigits(m, n, d);
      DigitsCollected(pm, chk, d, n - 1);
      DigitsStep(pm, chk, m, n, d);
    }
  }

  lemma DigitsNone(pm: Step, chk: bv32, m: bv32)
    requires m == 0
    ensures Apart(pm, chk, Digits(m, 0), ZeroSymbols(0)) == m
  {
    Same(Feed(pm, chk, []), Feed(pm, chk, []));
  }

  lemma DigitsStep(pm: Step, chk: bv32, m: bv32, n: nat, d: bv32)
    requires 1 <= n && Register(pm) && m < 0x40000000 && d == m >> 5 &&
             Apart(pm, chk, Digits(d, n - 1), ZeroSymbols(n - 1)) == d
    ensures Apart(pm, chk, Digits(m, n), ZeroSymbols(n)) == m
  {
    SixApart(pm, chk, Digits(d, n - 1), ZeroSymbols(n - 1), d, m);
  }

  lemma CheckBounded(pm: Step, chk: bv32)
    requires Bounded(pm)
    ensures Check(pm, chk) < 0x40000000
  {
    var n := 6;
    FeedAppend(pm, chk, ZeroSymbols(n - 1), 0);
    FoldOne(pm(Feed(pm, chk, ZeroSymbols(n - 1))));
  }

  lemma FoldOne(x: bv32)
    requires x < 0x40000000
    ensures X(X(x, 0), 1) < 0x40000000
  {
  }

  lemma CheckUndone(f: bv32, g: bv32)
    requires X(g, f) == X(f, 1)
    ensures g == 1
  {
  }

  /** The six symbols that BRBech32Encode appends drive the checksum to 1, the value BRBech32Decode asks for. */
  lemma ChecksumWorks(pm: Step, chk: bv32, s: seq<bv8>)
    requires Register(pm)
    ensures Feed(pm, Feed(pm, chk, s), Digits(Check(pm, Feed(pm, chk, s)), 6)) == 1
  {
    var c := Feed(pm, chk, s);
    CheckBounded(pm, c);
    FitsIs(Check(pm, c), 6);
    DigitsCollected(pm, c, Check(pm, c), 6);
    CheckUndone(Feed(pm, c, ZeroSymbols(6)), Feed(pm, c, Digits(Check(pm, c), 6)));
  }

  lemma {:induction false} FeedConcat(pm: Step, chk: bv32, s: seq<bv8>, t: seq<bv8>)
    ensures Feed(pm, Feed(pm, chk, s), t) == Feed(pm, chk, s + t)
    decreases |t|
  {
    if t == [] {
      assert s + t == s;
    } else {
      var n := |t| - 1;
      FeedConcat(pm, chk, s, t[..n]);
      TakeLast(t);
      AppendOne(s, t[..n], t[n]);
      FeedAppend(pm, chk, s + t[..n], t[n]);
    }
  }

  lemma FeedNone(pm: Step, chk: bv32)
    ensures Feed(pm, chk, []) == chk
  {
  }

  lemma FeedAppend(pm: Step, chk: bv32, s: seq<bv8>, x: bv8)
    ensures Feed(pm, chk, s + [x]) == X(pm(Feed(pm, chk, s)), x as bv32)
  {
    assert (s + [x])[..|s|] == s;
  }
}
