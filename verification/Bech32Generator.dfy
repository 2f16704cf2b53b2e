/**
 What one step of the Bech32 checksum means: multiplication by x modulo the generator of BIP 173, a polynomial over
 GF(32). The meaning is defined without the constants of the polymod macro.
 */
module Bech32Generator {
  import opened Bech32Checksum
  import Bits = Bech32Bits

  // ---------------------------------------------------------------- GF(32)

  // A field element is a bv32 below 32; its bits are the coefficients of a polynomial.

  /** Shift, and reduce by x^5 + x^3 + 1. */
  function Twice(a: bv32): bv32 {
    if a < 16 then a << 1 else (a << 1) ^ 0x29
  }

  /** b if the lowest bit of a is set. */
  function If(a: bv32, b: bv32): bv32 {
    if a & 1 == 1 then b else 0
  }

  /** The product: the sum of a*x^i over the bits i of b. */
  function Times(a: bv32, b: bv32): bv32 {
    If(b, a) ^ If(b >> 1, Twice(a)) ^ If(b >> 2, Twice(Twice(a))) ^ If(b >> 3, Twice(Twice(Twice(a)))) ^
    If(b >> 4, Twice(Twice(Twice(Twice(a)))))
  }

  // ---------------------------------------------------------------- polynomials over GF(32)

  // s5*x^5 + s4*x^4 + s3*x^3 + s2*x^2 + s1*x + s0.
  datatype Poly = Poly(s5: bv32, s4: bv32, s3: bv32, s2: bv32, s1: bv32, s0: bv32)

  /** The register as a polynomial: the last symbol is the constant term. */
  function Symbols(a: bv32): Poly {
    Poly((a >> 25) & 0x1f, (a >> 20) & 0x1f, (a >> 15) & 0x1f, (a >> 10) & 0x1f, (a >> 5) & 0x1f, a & 0x1f)
  }

  /** x*p modulo x^6 + {29}x^5 + {22}x^4 + {20}x^3 + {21}x^2 + {29}x + {18}, the generator of BIP 173. */
  function TimesX(p: Poly): Poly {
    Poly(X(Times(p.s5, 29), p.s4), X(Times(p.s5, 22), p.s3), X(Times(p.s5, 20), p.s2), X(Times(p.s5, 21), p.s1),
         X(Times(p.s5, 29), p.s0), Times(p.s5, 18))
  }

  /** The word as a polynomial, by Horner's rule: its first symbol is the leading coefficient, after the start value. */
  function Horner(p: Poly, s: seq<bv8>): Poly
    decreases |s|
  {
    if s == [] then p
    else
      var q := TimesX(Horner(p, s[..|s| - 1]));
      q.(s0 := X(q.s0, s[|s| - 1] as bv32))
  }

  // ---------------------------------------------------------------- polymod

  lemma HighFeedback(c: bv32)
    requires c < 32
    ensures Polymod(c << 25) >> 25 == Times(c, 29)
    ensures (Polymod(c << 25) >> 20) & 0x1f == Times(c, 22)
    ensures (Polymod(c << 25) >> 15) & 0x1f == Times(c, 20)
  {
  }

  lemma LowFeedback(c: bv32)
    requires c < 32
    ensures (Polymod(c << 25) >> 10) & 0x1f == Times(c, 21)
    ensures (Polymod(c << 25) >> 5) & 0x1f == Times(c, 29)
    ensures Polymod(c << 25) & 0x1f == Times(c, 18)
  {
  }

  lemma Whole(a: bv32)
    requires a < 0x40000000
    ensures (a >> 25) & 0x1f == a >> 25
  {
  }

  /** What comes out of the top symbol alone is that symbol times the generator. */
  lemma Feedback(c: bv32)
    requires c < 32
    ensures Symbols(Polymod(c << 25)) ==
            Poly(Times(c, 29), Times(c, 22), Times(c, 20), Times(c, 21), Times(c, 29), Times(c, 18))
  {
    hide Times, Polymod;
    PolymodBounded(c << 25);
    Whole(Polymod(c << 25));
    HighFeedback(c);
    LowFeedback(c);
  }

  /** The two bits above the register do nothing. */
  lemma Above(h: bv32)
    requires h & 0x3fffffff == 0
    ensures Polymod(h) == 0
  {
  }

  lemma ThreeParts(a: bv32)
    ensures a == X(X((((a >> 25) & 0x1f) << 25), a & 0x1ffffff), a & 0xc0000000)
    ensures (a & 0xc0000000) & 0x3fffffff == 0 && a & 0x1ffffff < 0x2000000
  {
  }

  lemma SplitStep(a: bv32, top: bv32, low: bv32, high: bv32)
    requires a == X(X(top, low), high) && low < 0x2000000 && high & 0x3fffffff == 0
    ensures Polymod(a) == X(Polymod(top), low << 5)
  {
    hide Polymod, X;
    PolymodLinear(X(top, low), high);
    PolymodLinear(top, low);
    PolymodShifts(low);
    Above(high);
    AddNothing(X(Polymod(top), low << 5));
  }

  lemma ShiftedUp(a: bv32)
    ensures var p := Symbols(a);
            Symbols((a & 0x1ffffff) << 5) == Poly(p.s4, p.s3, p.s2, p.s1, p.s0, 0)
  {
  }

  function Plus(p: Poly, q: Poly): Poly {
    Poly(X(p.s5, q.s5), X(p.s4, q.s4), X(p.s3, q.s3), X(p.s2, q.s2), X(p.s1, q.s1), X(p.s0, q.s0))
  }

  lemma SymbolsAdd(a: bv32, b: bv32)
    ensures Symbols(X(a, b)) == Plus(Symbols(a), Symbols(b))
  {
  }

  lemma AddNothing(a: bv32)
    ensures X(a, 0) == a
  {
  }

  lemma TopSymbol(a: bv32)
    ensures Symbols(a).s5 == (a >> 25) & 0x1f < 32
  {
  }

  /** One step multiplies the register by x. */
  lemma StepIsTimesX(a: bv32)
    ensures Symbols(Polymod(a)) == TimesX(Symbols(a))
  {
    hide Polymod, X, Times, Symbols;
    TopSymbol(a);
    var c := (a >> 25) & 0x1f;
    ThreeParts(a);
    SplitStep(a, c << 25, a & 0x1ffffff, a & 0xc0000000);
    Feedback(c);
    ShiftedUp(a);
    SymbolsAdd(Polymod(c << 25), (a & 0x1ffffff) << 5);
    AddNothing(Times(c, 18));
  }

  lemma OneSymbol(c: bv8)
    requires c < 32
    ensures Symbols(c as bv32) == Poly(0, 0, 0, 0, 0, c as bv32)
  {
  }

  lemma AddSymbol(p: Poly, c: bv32)
    ensures Plus(p, Poly(0, 0, 0, 0, 0, c)) == p.(s0 := X(p.s0, c))
  {
    hide X;
    AddNothing(p.s5);
    AddNothing(p.s4);
    AddNothing(p.s3);
    AddNothing(p.s2);
    AddNothing(p.s1);
  }

  /** After any word the register is the word's polynomial modulo the generator. */
  lemma {:induction false} FeedIsHorner(chk: bv32, s: seq<bv8>)
    requires Bits.Symbols(s)
    ensures Symbols(Feed(Polymod, chk, s)) == Horner(Symbols(chk), s)
    decreases |s|
  {
    hide Polymod, X, Symbols, Plus, TimesX;
    if s == [] {
    } else {
      var n := |s| - 1;
      FeedIsHorner(chk, s[..n]);
      StepIsTimesX(Feed(Polymod, chk, s[..n]));
      SymbolsAdd(Polymod(Feed(Polymod, chk, s[..n])), s[n] as bv32);
      OneSymbol(s[n]);
      AddSymbol(TimesX(Horner(Symbols(chk), s[..n])), s[n] as bv32);
    }
  }
}
