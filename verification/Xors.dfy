/** Sums of bytes in GF(2^8): XOR, and the rearrangements that the column transforms of AES need. */
module Xors {

  // XOR as a named function, so that proofs can replace equals by equals inside it.
  function X(a: bv8, b: bv8): bv8 {
    a ^ b
  }

  lemma Symmetric(a: bv8, b: bv8)
    ensures X(a, b) == X(b, a)
  {
  }

  lemma Associative(a: bv8, b: bv8, c: bv8)
    ensures X(X(a, b), c) == X(a, X(b, c))
  {
  }

  lemma Rotate(a: bv8, b: bv8, c: bv8, d: bv8)
    ensures X(X(X(b, c), d), a) == X(X(X(a, b), c), d)
  {
    Symmetric(X(X(b, c), d), a);
    Associative(a, X(b, c), d);
    Associative(a, b, c);
  }

  lemma Cancel(a: bv8, b: bv8)
    ensures X(a, X(a, b)) == b
  {
  }

  lemma SwapLast(h: bv8, a: bv8, c: bv8)
    ensures X(X(h, a), c) == X(X(h, c), a)
  {
  }

  lemma Interchange(a: bv8, b: bv8, c: bv8, d: bv8)
    ensures X(X(a, b), X(c, d)) == X(X(a, c), X(b, d))
  {
    hide X;
    Associative(X(a, b), c, d);
    SwapLast(a, b, c);
    Associative(X(a, c), b, d);
  }

  lemma RowIs(a: bv8, b: bv8, c: bv8, d: bv8, xa: bv8, xb: bv8)
    ensures X(a, X(X(X(X(a, b), c), d), X(xa, xb))) == X(X(X(xa, X(xb, b)), c), d)
  {
    var sum, pair, rest := X(X(X(a, b), c), d), X(xa, xb), X(X(b, c), d);
    Associative(a, sum, pair);
    assert X(a, sum) == rest by {
      Associative(X(a, b), c, d);
      Associative(a, b, X(c, d));
      Associative(b, c, d);
      Cancel(a, rest);
    }
    Symmetric(rest, pair);
    Associative(pair, X(b, c), d);
    Associative(pair, b, c);
    Associative(xa, xb, b);
  }

  // A mixed column adds e and one of p..s to each byte; p..s stand for xt of the neighbouring pairs ab, bc, cd, da.

  lemma MixedPair(a: bv8, b: bv8, e: bv8, p: bv8, q: bv8)
    ensures X(X(a, X(e, p)), X(b, X(e, q))) == X(X(a, b), X(p, q))
  {
  }

  lemma MixedSum(a: bv8, b: bv8, c: bv8, d: bv8, e: bv8, p: bv8, q: bv8, r: bv8, s: bv8)
    requires X(p, r) == X(q, s)
    ensures X(X(X(X(a, X(e, p)), X(b, X(e, q))), X(c, X(e, r))), X(d, X(e, s))) == X(X(X(a, b), c), d)
  {
  }

  lemma MixedCross(a: bv8, c: bv8, e: bv8, p: bv8, r: bv8)
    ensures X(X(X(p, r), X(a, X(e, p))), X(c, X(e, r))) == X(a, c)
  {
  }

  lemma XorCancel(a: bv8, e: bv8, p: bv8, u: bv8)
    ensures X(X(a, X(e, p)), X(X(e, u), X(p, u))) == a
  {
  }

  lemma Telescope(a: bv8, b: bv8, c: bv8)
    ensures X(X(a, b), X(b, c)) == X(a, c)
  {
  }

  lemma XorSymmetric(a: bv8, b: bv8, c: bv8, d: bv8)
    ensures X(a, b) == X(b, a)
    ensures X(X(X(b, c), d), a) == X(X(X(a, b), c), d)
    ensures X(X(a, b), X(c, d)) == X(X(X(a, b), c), d)
  {
    Symmetric(a, b);
    Rotate(a, b, c, d);
    Associative(X(a, b), c, d);
  }

  // In the unmix code a2, c2 stand for xt(xt(.)) and a3 to d3 for xt(xt(xt(.))).

  lemma GatherCubes(a3: bv8, b3: bv8, c3: bv8, d3: bv8, a2: bv8, c2: bv8)
    ensures X(X(X(X(X(a3, b3), c3), d3), a2), c2) == X(X(X(X(a3, a2), b3), X(c3, c2)), d3)
  {
    hide X;
    var s := X(X(a3, b3), c3);
    SwapLast(s, d3, a2);
    SwapLast(X(s, a2), d3, c2);
    SwapLast(X(a3, b3), c3, a2);
    SwapLast(a3, b3, a2);
    Associative(X(X(a3, a2), b3), c3, c2);
  }

  lemma GatherPair(m: bv8, n: bv8, o: bv8, p: bv8, xa: bv8, xb: bv8)
    ensures X(X(X(X(m, n), o), p), X(xa, xb)) == X(X(X(X(m, xa), X(n, xb)), o), p)
  {
    hide X;
    SwapLast(X(X(m, n), o), p, X(xa, xb));
    SwapLast(X(m, n), o, X(xa, xb));
    Interchange(m, n, xa, xb);
  }

  lemma GatherRest(m: bv8, n: bv8, o: bv8, p: bv8, b: bv8, c: bv8, d: bv8)
    ensures X(X(X(b, c), d), X(X(X(m, n), o), p)) == X(X(X(m, X(n, b)), X(o, c)), X(p, d))
  {
    hide X;
    Interchange(X(b, c), d, X(X(m, n), o), p);
    Interchange(b, c, X(m, n), o);
    Symmetric(b, X(m, n));
    Associative(m, n, b);
    Symmetric(c, o);
    Symmetric(d, p);
  }

  lemma OwnCancels(a: bv8, b: bv8, c: bv8, d: bv8, t: bv8, p: bv8)
    ensures X(a, X(X(X(X(X(a, b), c), d), t), p)) == X(X(X(b, c), d), X(t, p))
  {
    hide X;
    var s, rest := X(X(X(a, b), c), d), X(X(b, c), d);
    Associative(s, t, p);
    Associative(a, s, X(t, p));
    Associative(X(a, b), c, d);
    Associative(a, b, X(c, d));
    Associative(b, c, d);
    Cancel(a, rest);
  }
}
