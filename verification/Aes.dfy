/**
 AES-256 as BRBIP38Key.c does it in place, against FIPS 197. The substitution tables are parameters `sub` and `inv`
 here (AesTables has the real ones); all that decryption needs of them is that `inv` undoes `sub`.
 */
module Aes {
  import opened Xors

  // Four bytes of a C uint32_t, addressed as bytes: one column of the state or one word of the key.
  datatype Word = Word(b0: bv8, b1: bv8, b2: bv8, b3: bv8)

  type Table = bv8 -> bv8

  // ---------------------------------------------------------------- GF(2^8)

  function Xt(x: bv8): bv8 {
    (x << 1) ^ (((x >> 7) & 1) * 0x1b)
  }

  lemma XtLinear(x: bv8, y: bv8)
    ensures Xt(X(x, y)) == X(Xt(x), Xt(y))
  {
  }

  /** `(r >> 1) ^ ((r & 1)*0x8d)`. */
  function Back(r: bv8): bv8 {
    (r >> 1) ^ ((r & 1) * 0x8d)
  }

  lemma BackXt(r: bv8)
    ensures Back(Xt(r)) == r
  {
  }

  function XorW(a: Word, b: Word): Word {
    Word(a.b0 ^ b.b0, a.b1 ^ b.b1, a.b2 ^ b.b2, a.b3 ^ b.b3)
  }

  lemma XorWTwice(a: Word, b: Word)
    ensures XorW(XorW(a, b), b) == a
    ensures XorW(a, b) == XorW(b, a)
  {
  }

  // ---------------------------------------------------------------- columns

  // The column transforms take multiplication by x as a parameter, so that proofs about them need not look inside it.

  /** The body of the mix loop. */
  function Mix(xt: Table, w: Word): Word {
    var e := X(X(X(w.b0, w.b1), w.b2), w.b3);
    Word(X(w.b0, X(e, xt(X(w.b0, w.b1)))), X(w.b1, X(e, xt(X(w.b1, w.b2)))),
         X(w.b2, X(e, xt(X(w.b2, w.b3)))), X(w.b3, X(e, xt(X(w.b3, w.b0)))))
  }

  /** One row of the MixColumns matrix of FIPS 197, section 5.1.3: 02 03 01 01. */
  function Row(xt: Table, a: bv8, b: bv8, c: bv8, d: bv8): bv8 {
    X(X(X(xt(a), X(xt(b), b)), c), d)
  }

  /** MixColumns of FIPS 197, section 5.1.3: each row of the matrix is the one above it, rotated. */
  function FipsMix(xt: Table, w: Word): Word {
    Word(Row(xt, w.b0, w.b1, w.b2, w.b3), Row(xt, w.b1, w.b2, w.b3, w.b0),
         Row(xt, w.b2, w.b3, w.b0, w.b1), Row(xt, w.b3, w.b0, w.b1, w.b2))
  }

  /** The body of the unmix loop. */
  function Unmix(xt: Table, w: Word): Word {
    var e := X(X(X(w.b0, w.b1), w.b2), w.b3);
    var h := xt(e);
    var f := X(e, xt(xt(X(X(h, w.b0), w.b2))));
    var g := X(e, xt(xt(X(X(h, w.b1), w.b3))));
    Word(X(w.b0, X(f, xt(X(w.b0, w.b1)))), X(w.b1, X(g, xt(X(w.b1, w.b2)))),
         X(w.b2, X(f, xt(X(w.b2, w.b3)))), X(w.b3, X(g, xt(X(w.b3, w.b0)))))
  }

  /** One row of the InvMixColumns matrix of FIPS 197, section 5.3.3: 0e 0b 0d 09, as sums of the powers of x. */
  function InvRow(xt: Table, a: bv8, b: bv8, c: bv8, d: bv8): bv8 {
    X(X(X(X(X(xt(xt(xt(a))), xt(xt(a))), xt(a)), X(X(xt(xt(xt(b))), xt(b)), b)), X(X(xt(xt(xt(c))), xt(xt(c))), c)),
      X(xt(xt(xt(d))), d))
  }

  /** InvMixColumns. */
  function FipsUnmix(xt: Table, w: Word): Word {
    Word(InvRow(xt, w.b0, w.b1, w.b2, w.b3), InvRow(xt, w.b1, w.b2, w.b3, w.b0),
         InvRow(xt, w.b2, w.b3, w.b0, w.b1), InvRow(xt, w.b3, w.b0, w.b1, w.b2))
  }

  predicate LinearAt(xt: Table, x: bv8, y: bv8) {
    xt(X(x, y)) == X(xt(x), xt(y))
  }

  lemma MixIsFips(xt: Table, w: Word)
    requires LinearAt(xt, w.b0, w.b1) && LinearAt(xt, w.b1, w.b2) && LinearAt(xt, w.b2, w.b3) &&
             LinearAt(xt, w.b3, w.b0)
    ensures Mix(xt, w) == FipsMix(xt, w)
  {
    var a, b, c, d := w.b0, w.b1, w.b2, w.b3;
    Rotate(a, b, c, d);
    Rotate(b, c, d, a);
    Rotate(c, d, a, b);
    RowIs(a, b, c, d, xt(a), xt(b));
    RowIs(b, c, d, a, xt(b), xt(c));
    RowIs(c, d, a, b, xt(c), xt(d));
    RowIs(d, a, b, c, xt(d), xt(a));
  }

  /** t is xt of the column sum, u and v are xt(xt(ac)) and xt(xt(bd)). */
  lemma UnmixMixFor(xt: Table, w: Word, p: bv8, q: bv8, r: bv8, s: bv8, t: bv8, u: bv8, v: bv8)
    requires p == xt(X(w.b0, w.b1)) && q == xt(X(w.b1, w.b2)) && r == xt(X(w.b2, w.b3)) && s == xt(X(w.b3, w.b0))
    requires t == xt(X(X(X(w.b0, w.b1), w.b2), w.b3)) && X(p, r) == t && X(q, s) == t
    requires u == xt(xt(X(w.b0, w.b2))) && v == xt(xt(X(w.b1, w.b3)))
    requires xt(X(X(w.b0, w.b1), X(p, q))) == X(p, u) && xt(X(X(w.b1, w.b2), X(q, r))) == X(q, v)
    requires xt(X(X(w.b2, w.b3), X(r, s))) == X(r, u) && xt(X(X(w.b3, w.b0), X(s, p))) == X(s, v)
    ensures Unmix(xt, Mix(xt, w)) == w
  {
    var a, b, c, d := w.b0, w.b1, w.b2, w.b3;
    var e := X(X(X(a, b), c), d);
    MixedSum(a, b, c, d, e, p, q, r, s);
    MixedCross(a, c, e, p, r);
    MixedCross(b, d, e, q, s);
    MixedPair(a, b, e, p, q);
    MixedPair(b, c, e, q, r);
    MixedPair(c, d, e, r, s);
    MixedPair(d, a, e, s, p);
    XorCancel(a, e, p, u);
    XorCancel(b, e, q, v);
    XorCancel(c, e, r, u);
    XorCancel(d, e, s, v);
  }

  /** Neighbouring pairs telescope: xt(ab) ^ xt(bc) is xt(ac). */
  lemma PairFact(a: bv8, b: bv8, c: bv8)
    ensures Xt(X(X(a, b), X(Xt(X(a, b)), Xt(X(b, c))))) == X(Xt(X(a, b)), Xt(Xt(X(a, c))))
  {
    Telescope(a, b, c);
    XtLinear(X(a, b), X(b, c));
    XtLinear(X(a, b), Xt(X(a, c)));
  }

  lemma SumFact(a: bv8, b: bv8, c: bv8, d: bv8)
    ensures X(Xt(X(a, b)), Xt(X(c, d))) == Xt(X(X(X(a, b), c), d))
  {
    XtLinear(X(a, b), X(c, d));
    XorSymmetric(a, b, c, d);
  }

  lemma UnmixMix(w: Word)
    ensures Unmix(Xt, Mix(Xt, w)) == w
  {
    var a, b, c, d := w.b0, w.b1, w.b2, w.b3;
    PairFact(a, b, c);
    PairFact(b, c, d);
    PairFact(c, d, a);
    PairFact(d, a, b);
    SumFact(a, b, c, d);
    SumFact(b, c, d, a);
    XorSymmetric(a, b, c, d);
    XorSymmetric(c, a, b, d);
    XorSymmetric(d, b, a, c);
    UnmixMixFor(Xt, w, Xt(X(a, b)), Xt(X(b, c)), Xt(X(c, d)), Xt(X(d, a)), Xt(X(X(X(a, b), c), d)),
                Xt(Xt(X(a, c))), Xt(Xt(X(b, d))));
  }

  lemma MixColumnIsFips(w: Word)
    ensures Mix(Xt, w) == FipsMix(Xt, w)
  {
    XtLinear(w.b0, w.b1);
    XtLinear(w.b1, w.b2);
    XtLinear(w.b2, w.b3);
    XtLinear(w.b3, w.b0);
    MixIsFips(Xt, w);
  }

  lemma SumLinear(a: bv8, b: bv8, c: bv8, d: bv8)
    ensures Xt(X(X(X(a, b), c), d)) == X(X(X(Xt(a), Xt(b)), Xt(c)), Xt(d))
  {
    hide X, Xt;
    XtLinear(X(X(a, b), c), d);
    XtLinear(X(a, b), c);
    XtLinear(a, b);
  }

  lemma TwiceLinear(h: bv8, a: bv8, c: bv8)
    ensures Xt(Xt(X(X(h, a), c))) == X(X(Xt(Xt(h)), Xt(Xt(a))), Xt(Xt(c)))
  {
    hide X, Xt;
    XtLinear(X(h, a), c);
    XtLinear(h, a);
    XtLinear(X(Xt(h), Xt(a)), Xt(c));
    XtLinear(Xt(h), Xt(a));
  }

  lemma UnmixRow(a: bv8, b: bv8, c: bv8, d: bv8, e: bv8)
    requires e == X(X(X(a, b), c), d)
    ensures X(a, X(X(e, Xt(Xt(X(X(Xt(e), a), c)))), Xt(X(a, b)))) == InvRow(Xt, a, b, c, d)
  {
    hide X, Xt;
    var a2, c2, a3, b3, c3, d3 := Xt(Xt(a)), Xt(Xt(c)), Xt(Xt(Xt(a))), Xt(Xt(Xt(b))), Xt(Xt(Xt(c))), Xt(Xt(Xt(d)));
    SumLinear(a, b, c, d);
    SumLinear(Xt(a), Xt(b), Xt(c), Xt(d));
    SumLinear(Xt(Xt(a)), Xt(Xt(b)), Xt(Xt(c)), Xt(Xt(d)));
    TwiceLinear(Xt(e), a, c);
    XtLinear(a, b);
    GatherCubes(a3, b3, c3, d3, a2, c2);
    GatherPair(X(a3, a2), b3, X(c3, c2), d3, Xt(a), Xt(b));
    GatherRest(X(X(a3, a2), Xt(a)), X(b3, Xt(b)), X(c3, c2), d3, b, c, d);
    OwnCancels(a, b, c, d, Xt(Xt(X(X(Xt(e), a), c))), Xt(X(a, b)));
  }

  lemma UnmixColumnIsFips(w: Word)
    ensures Unmix(Xt, w) == FipsUnmix(Xt, w)
  {
    hide X, Xt, InvRow;
    var a, b, c, d := w.b0, w.b1, w.b2, w.b3;
    var e := X(X(X(a, b), c), d);
    Rotate(a, b, c, d);
    Rotate(b, c, d, a);
    Rotate(c, d, a, b);
    SwapLast(Xt(e), a, c);
    SwapLast(Xt(e), b, d);
    UnmixRow(a, b, c, d, e);
    UnmixRow(b, c, d, a, e);
    UnmixRow(c, d, a, b, e);
    UnmixRow(d, a, b, c, e);
  }

  // ---------------------------------------------------------------- FIPS 197

  // Four columns: the State of FIPS 197, and a round key.
  datatype State = State(c0: Word, c1: Word, c2: Word, c3: Word)

  function SubWord(sub: Table, w: Word): Word {
    Word(sub(w.b0), sub(w.b1), sub(w.b2), sub(w.b3))
  }

  function RotWord(w: Word): Word {
    Word(w.b1, w.b2, w.b3, w.b0)
  }

  /** Rcon[i] of section 5.2: x^(i-1) in GF(2^8). */
  function Rcon(i: nat): bv8
    requires 1 <= i
  {
    if i == 1 then 1 else Xt(Rcon(i - 1))
  }

  /** Word w[8e + j] of the key expansion, section 5.2 with Nk = 8. */
  function KeyWord(sub: Table, key: seq<Word>, e: nat, j: nat): Word
    requires |key| == 8 && j < 8
    decreases e, j
  {
    if e == 0 then key[j]
    else if j == 0 then
      XorW(KeyWord(sub, key, e - 1, 0),
        XorW(SubWord(sub, RotWord(KeyWord(sub, key, e - 1, 7))), Word(Rcon(e), 0, 0, 0)))
    else if j == 4 then
      XorW(KeyWord(sub, key, e - 1, 4), SubWord(sub, KeyWord(sub, key, e, 3)))
    else
      XorW(KeyWord(sub, key, e - 1, j), KeyWord(sub, key, e, j - 1))
  }

  /** The first word of a row in bytes: one byte of the last word of the row before moves from the front to the back. */
  lemma FirstWordBytes(sub: Table, key: seq<Word>, e: nat)
    requires |key| == 8
    ensures var v, u, w := KeyWord(sub, key, e, 0), KeyWord(sub, key, e, 7), KeyWord(sub, key, e + 1, 0);
            w.b0 == v.b0 ^ sub(u.b1) ^ Rcon(e + 1) && w.b1 == v.b1 ^ sub(u.b2) && w.b2 == v.b2 ^ sub(u.b3) &&
            w.b3 == v.b3 ^ sub(u.b0)
  {
    var v, u := KeyWord(sub, key, e, 0), KeyWord(sub, key, e, 7);
    Zero(v.b1, sub(u.b2));
    Zero(v.b2, sub(u.b3));
    Zero(v.b3, sub(u.b0));
    ThreeXor(v.b0, sub(u.b1), Rcon(e + 1));
  }

  lemma Zero(a: bv8, b: bv8)
    ensures a ^ (b ^ 0) == a ^ b
  {
  }

  lemma ThreeXor(a: bv8, b: bv8, c: bv8)
    ensures a ^ (b ^ c) == a ^ b ^ c
  {
  }

  /** The other words of a row in bytes. */
  lemma OtherWordBytes(sub: Table, key: seq<Word>, e: nat, j: nat)
    requires |key| == 8 && 1 <= j < 8
    ensures var v, u, w := KeyWord(sub, key, e, j), KeyWord(sub, key, e + 1, j - 1), KeyWord(sub, key, e + 1, j);
            if j == 4 then w == Word(v.b0 ^ sub(u.b0), v.b1 ^ sub(u.b1), v.b2 ^ sub(u.b2), v.b3 ^ sub(u.b3))
            else w == Word(v.b0 ^ u.b0, v.b1 ^ u.b1, v.b2 ^ u.b2, v.b3 ^ u.b3)
  {
  }

  /** The words w[4i] to w[4i+3]. */
  function RoundKey(sub: Table, key: seq<Word>, i: nat): State
    requires |key| == 8
  {
    var e, o := i / 2, 4 * (i % 2);
    State(KeyWord(sub, key, e, o), KeyWord(sub, key, e, o + 1), KeyWord(sub, key, e, o + 2),
      KeyWord(sub, key, e, o + 3))
  }

  function AddRoundKeys(s: State, k: State): State {
    State(XorW(s.c0, k.c0), XorW(s.c1, k.c1), XorW(s.c2, k.c2), XorW(s.c3, k.c3))
  }

  function SubState(sub: Table, s: State): State {
    State(SubWord(sub, s.c0), SubWord(sub, s.c1), SubWord(sub, s.c2), SubWord(sub, s.c3))
  }

  /** Row t of the state moves t columns to the left. */
  function Shift(s: State): State {
    State(Word(s.c0.b0, s.c1.b1, s.c2.b2, s.c3.b3), Word(s.c1.b0, s.c2.b1, s.c3.b2, s.c0.b3),
          Word(s.c2.b0, s.c3.b1, s.c0.b2, s.c1.b3), Word(s.c3.b0, s.c0.b1, s.c1.b2, s.c2.b3))
  }

  function Unshift(s: State): State {
    State(Word(s.c0.b0, s.c3.b1, s.c2.b2, s.c1.b3), Word(s.c1.b0, s.c0.b1, s.c3.b2, s.c2.b3),
          Word(s.c2.b0, s.c1.b1, s.c0.b2, s.c3.b3), Word(s.c3.b0, s.c2.b1, s.c1.b2, s.c0.b3))
  }

  function MixWith(f: Word -> Word, s: State): State {
    State(f(s.c0), f(s.c1), f(s.c2), f(s.c3))
  }

  function MixColumn(w: Word): Word {
    FipsMix(Xt, w)
  }

  function UnmixColumn(w: Word): Word {
    FipsUnmix(Xt, w)
  }

  /** The state before round key i is added: section 5.1, with Nr = 14 and no MixColumns in the last round. */
  function Before(sub: Table, key: seq<Word>, s: State, i: nat): State
    requires |key| == 8
    decreases |key|, i, 0
  {
    if i == 0 then s
    else
      var t := Shift(SubState(sub, After(sub, key, s, i - 1)));
      if i < 14 then MixWith(MixColumn, t) else t
  }

  function After(sub: Table, key: seq<Word>, s: State, i: nat): State
    requires |key| == 8
    decreases |key|, i, 1
  {
    AddRoundKeys(Before(sub, key, s, i), RoundKey(sub, key, i))
  }

  function Cipher(sub: Table, key: seq<Word>, s: State): State
    requires |key| == 8
  {
    After(sub, key, s, 14)
  }

  /** The state before round key 14 - i is added by the inverse cipher of section 5.3. */
  function InvBefore(sub: Table, inv: Table, key: seq<Word>, s: State, i: nat): State
    requires |key| == 8 && i <= 14
    decreases |key|, i, 0
  {
    if i == 0 then s
    else
      var t := InvAfter(sub, inv, key, s, i - 1);
      SubState(inv, Unshift(if i > 1 then MixWith(UnmixColumn, t) else t))
  }

  function InvAfter(sub: Table, inv: Table, key: seq<Word>, s: State, i: nat): State
    requires |key| == 8 && i <= 14
    decreases |key|, i, 1
  {
    AddRoundKeys(InvBefore(sub, inv, key, s, i), RoundKey(sub, key, 14 - i))
  }

  function InvCipher(sub: Table, inv: Table, key: seq<Word>, s: State): State
    requires |key| == 8
  {
    InvAfter(sub, inv, key, s, 14)
  }

  ghost predicate Undoes(inv: Table, sub: Table) {
    forall x :: inv(sub(x)) == x
  }

  lemma AddTwice(s: State, k: State)
    ensures AddRoundKeys(AddRoundKeys(s, k), k) == s
  {
    XorWTwice(s.c0, k.c0);
    XorWTwice(s.c1, k.c1);
    XorWTwice(s.c2, k.c2);
    XorWTwice(s.c3, k.c3);
  }

  lemma UnsubUnshift(sub: Table, inv: Table, s: State)
    requires Undoes(inv, sub)
    ensures SubState(inv, Unshift(Shift(SubState(sub, s)))) == s
  {
  }

  lemma UnmixMixState(s: State)
    ensures MixWith(UnmixColumn, MixWith(MixColumn, s)) == s
  {
    forall w ensures UnmixColumn(MixColumn(w)) == w {
      hide Mix, Unmix, FipsMix, FipsUnmix, X, Xt;
      MixColumnIsFips(w);
      UnmixMix(w);
      UnmixColumnIsFips(Mix(Xt, w));
    }
  }

  /** Going backwards, the state after round key i is added is the one that encryption had before adding it. */
  lemma {:induction false} Backwards(sub: Table, inv: Table, key: seq<Word>, s: State, i: nat)
    requires |key| == 8 && i <= 14 && Undoes(inv, sub)
    ensures InvAfter(sub, inv, key, Cipher(sub, key, s), i) == Before(sub, key, s, 14 - i)
  {
    var n := 14 - i;
    if i == 0 {
      AddTwice(Before(sub, key, s, 14), RoundKey(sub, key, 14));
    } else {
      Backwards(sub, inv, key, s, i - 1);
      var t := Shift(SubState(sub, After(sub, key, s, n)));
      UnmixMixState(t);
      UnsubUnshift(sub, inv, After(sub, key, s, n));
      AddTwice(Before(sub, key, s, n), RoundKey(sub, key, n));
    }
  }

  lemma InverseCipher(sub: Table, inv: Table, key: seq<Word>, s: State)
    requires |key| == 8 && Undoes(inv, sub)
    ensures InvCipher(sub, inv, key, Cipher(sub, key, s)) == s
  {
    Backwards(sub, inv, key, s, 14);
  }

  // ---------------------------------------------------------------- in place

  function Column(x: array<bv8>, j: nat): Word
    requires 4 * j + 4 <= x.Length
    reads x
  {
    Word(x[4 * j], x[4 * j + 1], x[4 * j + 2], x[4 * j + 3])
  }

  function StateOf(x: array<bv8>): State
    requires x.Length == 16
    reads x
  {
    State(Column(x, 0), Column(x, 1), Column(x, 2), Column(x, 3))
  }

  function KeyOf(k: array<bv8>): (r: seq<Word>)
    requires k.Length == 32
    reads k
    ensures |r| == 8
  {
    [Column(k, 0), Column(k, 1), Column(k, 2), Column(k, 3), Column(k, 4), Column(k, 5), Column(k, 6), Column(k, 7)]
  }

  /** k holds the words w[8e] to w[8e+7]. */
  ghost predicate Holds(k: array<bv8>, sub: Table, key: seq<Word>, e: nat)
    requires k.Length == 32 && |key| == 8
    reads k
  {
    forall j :: 0 <= j < 8 ==> Column(k, j) == KeyWord(sub, key, e, j)
  }

  /** A column is four bytes at 4*j, written as one uint32_t or byte by byte. */
  method SetColumn(x: array<bv8>, j: nat, w: Word)
    requires 4 * j + 4 <= x.Length
    modifies x
    ensures Column(x, j) == w
    ensures forall i :: 0 <= i < x.Length && !(4 * j <= i < 4 * j + 4) ==> x[i] == old(x[i])
  {
    x[4 * j] := w.b0;
    x[4 * j + 1] := w.b1;
    x[4 * j + 2] := w.b2;
    x[4 * j + 3] := w.b3;
  }

  method ReplaceColumn(x: array<bv8>, j: nat, w: Word)
    requires x.Length == 16 && j < 4
    modifies x
    ensures forall i :: 0 <= i < 4 ==> Column(x, i) == if i == j then w else old(Column(x, i))
  {
    SetColumn(x, j, w);
  }

  method AddRoundKey(x: array<bv8>, k: array<bv8>, o: nat)
    requires x.Length == 16 && k.Length == 32 && x != k && o <= 4
    modifies x
    ensures StateOf(x) == AddRoundKeys(old(StateOf(x)),
            State(Column(k, o), Column(k, o + 1), Column(k, o + 2), Column(k, o + 3)))
  {
    var j := 0;
    while j < 4
      invariant j <= 4
      invariant forall i :: 0 <= i < 4 ==> Column(x, i) == if i < j then XorW(old(Column(x, i)), Column(k, o + i))
                else old(Column(x, i))
    {
      SetColumn(x, j, XorW(Column(x, j), Column(k, o + j)));
      j := j + 1;
    }
  }

  method SubBytes(sub: Table, x: array<bv8>)
    requires x.Length == 16
    modifies x
    ensures StateOf(x) == SubState(sub, old(StateOf(x)))
  {
    for j := 0 to 16
      invariant forall i :: 0 <= i < 16 ==> x[i] == if i < j then sub(old(x[i])) else old(x[i])
    {
      x[j] := sub(x[j]);
    }
  }

  /** `a = x[p], x[p] = x[q], x[q] = x[r], x[r] = x[s], x[s] = a`. */
  method Rotate4(x: array<bv8>, p: nat, q: nat, r: nat, s: nat)
    requires p < x.Length && q < x.Length && r < x.Length && s < x.Length
    requires p != q && p != r && p != s && q != r && q != s && r != s
    modifies x
    ensures x[p] == old(x[q]) && x[q] == old(x[r]) && x[r] == old(x[s]) && x[s] == old(x[p])
    ensures forall i :: 0 <= i < x.Length && i != p && i != q && i != r && i != s ==> x[i] == old(x[i])
  {
    var a := x[p];
    x[p] := x[q];
    x[q] := x[r];
    x[r] := x[s];
    x[s] := a;
  }

  /** `a = x[p], x[p] = x[q], x[q] = a`. */
  method Swap(x: array<bv8>, p: nat, q: nat)
    requires p < x.Length && q < x.Length && p != q
    modifies x
    ensures x[p] == old(x[q]) && x[q] == old(x[p])
    ensures forall i :: 0 <= i < x.Length && i != p && i != q ==> x[i] == old(x[i])
  {
    var a := x[p];
    x[p] := x[q];
    x[q] := a;
  }

  method ShiftRows(x: array<bv8>)
    requires x.Length == 16
    modifies x
    ensures StateOf(x) == Shift(old(StateOf(x)))
  {
    Rotate4(x, 1, 5, 9, 13);
    Swap(x, 10, 2);
    Rotate4(x, 3, 15, 11, 7);
    Swap(x, 14, 6);
  }

  method UnshiftRows(x: array<bv8>)
    requires x.Length == 16
    modifies x
    ensures StateOf(x) == Unshift(old(StateOf(x)))
  {
    Rotate4(x, 1, 13, 9, 5);
    Swap(x, 2, 10);
    Rotate4(x, 3, 7, 11, 15);
    Swap(x, 6, 14);
  }

  method MixColumns(x: array<bv8>)
    requires x.Length == 16
    modifies x
    ensures StateOf(x) == MixWith(MixColumn, old(StateOf(x)))
  {
    hide MixColumn;
    for j := 0 to 4
      invariant forall i :: 0 <= i < 4 ==> Column(x, i) == if i < j then MixColumn(old(Column(x, i)))
                else old(Column(x, i))
    {
      var w := MixedColumn(x[4 * j], x[4 * j + 1], x[4 * j + 2], x[4 * j + 3]);
      ReplaceColumn(x, j, w);
    }
  }

  method MixedColumn(a: bv8, b: bv8, c: bv8, d: bv8) returns (w: Word)
    ensures w == MixColumn(Word(a, b, c, d))
  {
    MixColumnIsFips(Word(a, b, c, d));
    var e := X(X(X(a, b), c), d);
    w := Word(X(a, X(e, Xt(X(a, b)))), X(b, X(e, Xt(X(b, c)))), X(c, X(e, Xt(X(c, d)))), X(d, X(e, Xt(X(d, a)))));
  }

  /** The unmix loop; `f` stands for UnmixColumn, which the loop does not look into. */
  method UnmixColumns(x: array<bv8>)
    requires x.Length == 16
    modifies x
    ensures StateOf(x) == MixWith(UnmixColumn, old(StateOf(x)))
  {
    UnmixLoop(x, UnmixColumn);
  }

  ghost predicate IsUnmix(f: Word -> Word) {
    forall w {:trigger UnmixColumn(w)} :: f(w) == UnmixColumn(w)
  }

  method UnmixLoop(x: array<bv8>, ghost f: Word -> Word)
    requires x.Length == 16 && IsUnmix(f)
    modifies x
    ensures StateOf(x) == MixWith(f, old(StateOf(x)))
  {
    for j := 0 to 4
      invariant forall i :: 0 <= i < 4 ==> Column(x, i) == if i < j then f(old(Column(x, i))) else old(Column(x, i))
    {
      UnmixOne(x, j, f);
    }
  }

  method UnmixOne(x: array<bv8>, j: nat, ghost f: Word -> Word)
    requires x.Length == 16 && j < 4 && IsUnmix(f)
    modifies x
    ensures forall i :: 0 <= i < 4 ==> Column(x, i) == if i == j then f(old(Column(x, i))) else old(Column(x, i))
  {
    var w := UnmixedColumn(x[4 * j], x[4 * j + 1], x[4 * j + 2], x[4 * j + 3]);
    ReplaceColumn(x, j, w);
  }

  method UnmixedColumn(a: bv8, b: bv8, c: bv8, d: bv8) returns (w: Word)
    ensures w == UnmixColumn(Word(a, b, c, d))
  {
    var e := X(X(X(a, b), c), d);
    var h := Xt(e);
    UnmixColumnIsFips(Word(a, b, c, d));
    var f, g := X(e, Xt(Xt(X(X(h, a), c)))), X(e, Xt(Xt(X(X(h, b), d))));
    w := Word(X(a, X(f, Xt(X(a, b)))), X(b, X(g, Xt(X(b, c)))), X(c, X(f, Xt(X(c, d)))), X(d, X(g, Xt(X(d, a)))));
  }

  /** The first j words of k are already those of e + 1, the others are still those of e. */
  ghost predicate Moving(k: array<bv8>, sub: Table, key: seq<Word>, e: nat, j: nat)
    requires k.Length == 32 && |key| == 8
    reads k
  {
    forall i :: 0 <= i < 8 ==> Column(k, i) == if i < j then KeyWord(sub, key, e + 1, i) else KeyWord(sub, key, e, i)
  }

  /** What is XORed into word j to go from one row of eight words to the next. */
  function Mask(sub: Table, key: seq<Word>, e: nat, j: nat): Word
    requires |key| == 8 && j < 8
  {
    if j == 0 then XorW(SubWord(sub, RotWord(KeyWord(sub, key, e, 7))), Word(Rcon(e + 1), 0, 0, 0))
    else if j == 4 then SubWord(sub, KeyWord(sub, key, e + 1, 3))
    else KeyWord(sub, key, e + 1, j - 1)
  }

  lemma MaskWorks(sub: Table, key: seq<Word>, e: nat, j: nat)
    requires |key| == 8 && j < 8
    ensures KeyWord(sub, key, e + 1, j) == XorW(KeyWord(sub, key, e, j), Mask(sub, key, e, j))
    ensures KeyWord(sub, key, e, j) == XorW(KeyWord(sub, key, e + 1, j), Mask(sub, key, e, j))
  {
    XorWTwice(KeyWord(sub, key, e, j), Mask(sub, key, e, j));
  }

  method XorUp(k: array<bv8>, j: nat, w: Word, ghost sub: Table, ghost key: seq<Word>, ghost e: nat)
    requires k.Length == 32 && |key| == 8 && j < 8
    requires Moving(k, sub, key, e, j) && w == Mask(sub, key, e, j)
    modifies k
    ensures Moving(k, sub, key, e, j + 1)
  {
    MaskWorks(sub, key, e, j);
    SetColumn(k, j, XorW(Column(k, j), w));
  }

  method XorDown(k: array<bv8>, j: nat, w: Word, ghost sub: Table, ghost key: seq<Word>, ghost e: nat)
    requires k.Length == 32 && |key| == 8 && j < 8
    requires Moving(k, sub, key, e, j + 1) && w == Mask(sub, key, e, j)
    modifies k
    ensures Moving(k, sub, key, e, j)
  {
    MaskWorks(sub, key, e, j);
    SetColumn(k, j, XorW(Column(k, j), w));
  }

  /** The bytes at o to o + 3 are XORed with f of the four before them. */
  ghost predicate FourBytes(s: seq<bv8>, t: seq<bv8>, o: nat, f: Table)
    requires 4 <= o && o + 4 <= |s| == |t|
  {
    t[o] == s[o] ^ f(t[o - 4]) && t[o + 1] == s[o + 1] ^ f(t[o - 3]) && t[o + 2] == s[o + 2] ^ f(t[o - 2]) &&
    t[o + 3] == s[o + 3] ^ f(t[o - 1])
  }

  /** One key expansion in bytes: `s` is the 32 bytes of the key before it, `t` after it, `r` the round constant. */
  ghost predicate Expanded(sub: Table, s: seq<bv8>, t: seq<bv8>, r: bv8) {
    && |s| == |t| == 32
    && t[0] == s[0] ^ sub(s[29]) ^ r && t[1] == s[1] ^ sub(s[30]) && t[2] == s[2] ^ sub(s[31])
    && t[3] == s[3] ^ sub(s[28])
    && FourBytes(s, t, 4, x => x) && FourBytes(s, t, 8, x => x) && FourBytes(s, t, 12, x => x)
    && FourBytes(s, t, 16, sub)
    && FourBytes(s, t, 20, x => x) && FourBytes(s, t, 24, x => x) && FourBytes(s, t, 28, x => x)
  }

  /** Word j of the 32 bytes. */
  ghost predicate WordIs(s: seq<bv8>, j: nat, w: Word) {
    4 * j + 4 <= |s| && s[4 * j] == w.b0 && s[4 * j + 1] == w.b1 && s[4 * j + 2] == w.b2 && s[4 * j + 3] == w.b3
  }

  /** `s` is the row e of the schedule in bytes. */
  ghost predicate RowIs32(s: seq<bv8>, sub: Table, key: seq<Word>, e: nat)
    requires |key| == 8
  {
    |s| == 32 && forall j {:trigger KeyWord(sub, key, e, j)} :: 0 <= j < 8 ==> WordIs(s, j, KeyWord(sub, key, e, j))
  }

  lemma FirstWord(sub: Table, key: seq<Word>, e: nat, s: seq<bv8>, t: seq<bv8>)
    requires |key| == 8 && RowIs32(s, sub, key, e) && RowIs32(t, sub, key, e + 1)
    ensures t[0] == s[0] ^ sub(s[29]) ^ Rcon(e + 1) && t[1] == s[1] ^ sub(s[30]) && t[2] == s[2] ^ sub(s[31]) &&
            t[3] == s[3] ^ sub(s[28])
  {
    hide KeyWord, Rcon;
    FirstWordBytes(sub, key, e);
  }

  lemma FourFromWords(s: seq<bv8>, t: seq<bv8>, j: nat, f: Table, v: Word, u: Word, w: Word)
    requires 1 <= j < 8 && |s| == |t| == 32 && WordIs(s, j, v) && WordIs(t, j - 1, u) && WordIs(t, j, w)
    requires w == XorW(v, SubWord(f, u))
    ensures FourBytes(s, t, 4 * j, f)
  {
    var o := 4 * j;
    assert t[o - 4] == u.b0 && t[o - 3] == u.b1 && t[o - 2] == u.b2 && t[o - 1] == u.b3;
    assert s[o] == v.b0 && s[o + 1] == v.b1 && s[o + 2] == v.b2 && s[o + 3] == v.b3;
  }

  lemma OtherWord(sub: Table, key: seq<Word>, e: nat, j: nat, s: seq<bv8>, t: seq<bv8>)
    requires |key| == 8 && 1 <= j < 8 && RowIs32(s, sub, key, e) && RowIs32(t, sub, key, e + 1)
    ensures FourBytes(s, t, 4 * j, if j == 4 then sub else x => x)
  {
    hide KeyWord, WordIs, FourBytes;
    OtherWordBytes(sub, key, e, j);
    FourFromWords(s, t, j, if j == 4 then sub else x => x,
                  KeyWord(sub, key, e, j), KeyWord(sub, key, e + 1, j - 1), KeyWord(sub, key, e + 1, j));
  }

  /** The rows e and e + 1 of the schedule, as bytes, are one expansion apart. */
  lemma RowsExpanded(sub: Table, key: seq<Word>, e: nat, s: seq<bv8>, t: seq<bv8>)
    requires |key| == 8 && RowIs32(s, sub, key, e) && RowIs32(t, sub, key, e + 1)
    ensures Expanded(sub, s, t, Rcon(e + 1))
  {
    hide KeyWord, Rcon;
    FirstWord(sub, key, e, s, t);
    OtherWord(sub, key, e, 1, s, t);
    OtherWord(sub, key, e, 2, s, t);
    OtherWord(sub, key, e, 3, s, t);
    OtherWord(sub, key, e, 4, s, t);
    OtherWord(sub, key, e, 5, s, t);
    OtherWord(sub, key, e, 6, s, t);
    OtherWord(sub, key, e, 7, s, t);
  }

  /** The 32 bytes of k are the row that k holds. */
  lemma HeldBytes(k: array<bv8>, sub: Table, key: seq<Word>, e: nat)
    requires k.Length == 32 && |key| == 8 && Holds(k, sub, key, e)
    ensures RowIs32(k[..], sub, key, e)
  {
    forall j {:trigger KeyWord(sub, key, e, j)} | 0 <= j < 8 ensures WordIs(k[..], j, KeyWord(sub, key, e, j)) {
      assert Column(k, j) == KeyWord(sub, key, e, j);
    }
  }

  method ExpandKey(sub: Table, k: array<bv8>, r: bv8, ghost key: seq<Word>, ghost e: nat) returns (next: bv8)
    requires k.Length == 32 && |key| == 8 && Holds(k, sub, key, e) && r == Rcon(e + 1)
    modifies k
    ensures Holds(k, sub, key, e + 1) && next == Rcon(e + 2)
    ensures Expanded(sub, old(k[..]), k[..], r)
  {
    ghost var s := k[..];
    HeldBytes(k, sub, key, e);
    XorUp(k, 0, XorW(SubWord(sub, RotWord(Column(k, 7))), Word(r, 0, 0, 0)), sub, key, e);
    next := Xt(r);
    for j := 1 to 4
      invariant Moving(k, sub, key, e, j)
    {
      XorUp(k, j, Column(k, j - 1), sub, key, e);
    }
    XorUp(k, 4, SubWord(sub, Column(k, 3)), sub, key, e);
    for j := 5 to 8
      invariant Moving(k, sub, key, e, j)
    {
      XorUp(k, j, Column(k, j - 1), sub, key, e);
    }
    HeldBytes(k, sub, key, e + 1);
    RowsExpanded(sub, key, e, s, k[..]);
  }

  method UnexpandKey(sub: Table, k: array<bv8>, r: bv8, ghost key: seq<Word>, ghost e: nat) returns (back: bv8)
    requires k.Length == 32 && |key| == 8 && Holds(k, sub, key, e + 1) && r == Rcon(e + 2)
    modifies k
    ensures Holds(k, sub, key, e) && back == Rcon(e + 1)
    ensures Expanded(sub, k[..], old(k[..]), back)
  {
    ghost var t := k[..];
    HeldBytes(k, sub, key, e + 1);
    for j := 8 downto 5
      invariant Moving(k, sub, key, e, j)
    {
      XorDown(k, j, Column(k, j - 1), sub, key, e);
    }
    XorDown(k, 4, SubWord(sub, Column(k, 3)), sub, key, e);
    for j := 4 downto 1
      invariant Moving(k, sub, key, e, j)
    {
      XorDown(k, j, Column(k, j - 1), sub, key, e);
    }
    back := Back(r);
    BackXt(Rcon(e + 1));
    XorDown(k, 0, XorW(SubWord(sub, RotWord(Column(k, 7))), Word(back, 0, 0, 0)), sub, key, e);
    HeldBytes(k, sub, key, e);
    RowsExpanded(sub, key, e, k[..], t);
  }

  /** `memcpy(key, key32, sizeof(key)); r = 1` */
  method FirstKey(sub: Table, key32: array<bv8>, ghost key: seq<Word>) returns (k: array<bv8>, r: bv8)
    requires key32.Length == 32 && key == KeyOf(key32)
    ensures fresh(k) && k.Length == 32
    ensures Holds(k, sub, key, 0) && r == Rcon(1)
  {
    k := new bv8[32](i requires 0 <= i < 32 reads key32 => key32[i]);
    r := 1;
    assert forall j :: 0 <= j < 8 ==> Column(k, j) == key[j];
  }

  /** The whole key schedule, run forward. */
  method ExpandAll(sub: Table, k: array<bv8>, r: bv8, ghost key: seq<Word>) returns (last: bv8)
    requires k.Length == 32 && |key| == 8 && Holds(k, sub, key, 0) && r == Rcon(1)
    modifies k
    ensures Holds(k, sub, key, 7) && last == Rcon(8)
  {
    last := r;
    for i := 0 to 7
      invariant Holds(k, sub, key, i) && last == Rcon(i + 1)
    {
      last := ExpandKey(sub, k, last, key, i);
    }
  }

  // The rounds below keep the row e of the key schedule that k holds: i / 2 in round i, both ways.

  method AddRound(sub: Table, x: array<bv8>, k: array<bv8>, o: nat, ghost i: nat, ghost key: seq<Word>, ghost e: nat)
    requires x.Length == 16 && k.Length == 32 && x != k && |key| == 8
    requires Holds(k, sub, key, e) && e == i / 2 && o == i % 2 * 4
    modifies x
    ensures StateOf(x) == AddRoundKeys(old(StateOf(x)), RoundKey(sub, key, i))
  {
    AddRoundKey(x, k, o);
  }

  /** The loop body of encryption, up to the key expansion. */
  method Round(sub: Table, x: array<bv8>, k: array<bv8>, i: nat, ghost key: seq<Word>, ghost s: State, ghost e: nat)
    requires x.Length == 16 && k.Length == 32 && x != k && |key| == 8 && i < 14
    requires Holds(k, sub, key, e) && e == i / 2 && StateOf(x) == Before(sub, key, s, i)
    modifies x
    ensures StateOf(x) == Before(sub, key, s, i + 1)
  {
    AddRound(sub, x, k, i % 2 * 4, i, key, e);
    SubBytes(sub, x);
    ShiftRows(x);
    assert StateOf(x) == Shift(SubState(sub, After(sub, key, s, i)));
    if i < 13 {
      MixColumns(x);
    }
  }

  lemma SameParity(n: nat, i: nat)
    requires n + i == 14
    ensures n % 2 == i % 2
  {
  }

  /** The loop body of decryption, up to the key schedule. */
  method InvRound(sub: Table, inv: Table, x: array<bv8>, k: array<bv8>, i: nat, ghost key: seq<Word>, ghost s: State,
                  ghost e: nat)
    requires x.Length == 16 && k.Length == 32 && x != k && |key| == 8 && i < 14
    requires Holds(k, sub, key, e) && e == (14 - i) / 2 && StateOf(x) == InvBefore(sub, inv, key, s, i)
    modifies x
    ensures StateOf(x) == InvBefore(sub, inv, key, s, i + 1)
  {
    var o := i % 2 * 4;
    SameParity(14 - i, i);
    AddRound(sub, x, k, o, 14 - i, key, e);
    assert StateOf(x) == InvAfter(sub, inv, key, s, i);
    if i > 0 {
      UnmixColumns(x);
    }
    UnshiftRows(x);
    SubBytes(inv, x);
  }

  /** The key schedule of one turn of the encryption loop. */
  method NextKey(sub: Table, k: array<bv8>, r: bv8, i: nat, ghost key: seq<Word>, ghost e: nat)
    returns (next: bv8, ghost f: nat)
    requires k.Length == 32 && |key| == 8
    requires Holds(k, sub, key, e) && r == Rcon(e + 1) && e == i / 2
    modifies k
    ensures Holds(k, sub, key, f) && next == Rcon(f + 1) && f == (i + 1) / 2
  {
    next, f := r, e;
    if i % 2 != 0 {
      next := ExpandKey(sub, k, r, key, e);
      f := e + 1;
    }
  }

  /** The key schedule of one turn of the decryption loop. */
  method LastKey(sub: Table, k: array<bv8>, r: bv8, i: nat, ghost key: seq<Word>, ghost e: nat)
    returns (back: bv8, ghost f: nat)
    requires k.Length == 32 && |key| == 8 && i < 14
    requires Holds(k, sub, key, e) && r == Rcon(e + 1) && e == (14 - i) / 2
    modifies k
    ensures Holds(k, sub, key, f) && back == Rcon(f + 1) && f == (13 - i) / 2
  {
    back, f := r, e;
    if i % 2 == 0 {
      f := e - 1;
      back := UnexpandKey(sub, k, r, key, f);
    }
  }

  /** _BRAES256ECBEncrypt */
  method EncryptBlock(sub: Table, key32: array<bv8>, x: array<bv8>)
    requires key32.Length == 32 && x.Length == 16 && x != key32
    modifies x
    ensures StateOf(x) == Cipher(sub, KeyOf(key32), old(StateOf(x)))
  {
    ghost var key, s, e := KeyOf(key32), StateOf(x), 0;
    var k, r := FirstKey(sub, key32, key);
    for i := 0 to 14
      invariant Holds(k, sub, key, e) && r == Rcon(e + 1) && e == i / 2
      invariant StateOf(x) == Before(sub, key, s, i)
    {
      Round(sub, x, k, i, key, s, e);
      r, e := NextKey(sub, k, r, i, key, e);
    }
    AddRound(sub, x, k, 0, 14, key, e);
  }

  /** _BRAES256ECBDecrypt */
  method DecryptBlock(sub: Table, inv: Table, key32: array<bv8>, x: array<bv8>)
    requires key32.Length == 32 && x.Length == 16 && x != key32
    modifies x
    ensures StateOf(x) == InvCipher(sub, inv, KeyOf(key32), old(StateOf(x)))
  {
    hide Holds, StateOf, Rcon, KeyOf;
    ghost var key, s, e := KeyOf(key32), StateOf(x), 7;
    var k, r := FirstKey(sub, key32, key);
    r := ExpandAll(sub, k, r, key);
    for i := 0 to 14
      invariant Holds(k, sub, key, e) && r == Rcon(e + 1) && e == (14 - i) / 2
      invariant StateOf(x) == InvBefore(sub, inv, key, s, i)
    {
      InvRound(sub, inv, x, k, i, key, s, e);
      r, e := LastKey(sub, k, r, i, key, e);
    }
    AddRound(sub, x, k, 0, 0, key, e);
  }

  // ---------------------------------------------------------------- as byte strings

  function WordAt(s: seq<bv8>, j: nat): Word
    requires 4 * j + 4 <= |s|
  {
    Word(s[4 * j], s[4 * j + 1], s[4 * j + 2], s[4 * j + 3])
  }

  function StateFrom(s: seq<bv8>): State
    requires |s| == 16
  {
    State(WordAt(s, 0), WordAt(s, 1), WordAt(s, 2), WordAt(s, 3))
  }

  function KeyFrom(s: seq<bv8>): (r: seq<Word>)
    requires |s| == 32
    ensures |r| == 8
  {
    [WordAt(s, 0), WordAt(s, 1), WordAt(s, 2), WordAt(s, 3), WordAt(s, 4), WordAt(s, 5), WordAt(s, 6), WordAt(s, 7)]
  }

  function BytesOf(s: State): (r: seq<bv8>)
    ensures |r| == 16
  {
    [s.c0.b0, s.c0.b1, s.c0.b2, s.c0.b3, s.c1.b0, s.c1.b1, s.c1.b2, s.c1.b3,
     s.c2.b0, s.c2.b1, s.c2.b2, s.c2.b3, s.c3.b0, s.c3.b1, s.c3.b2, s.c3.b3]
  }

  lemma StateOfBytes(s: State)
    ensures StateFrom(BytesOf(s)) == s
  {
  }

  lemma BytesOfState(x: seq<bv8>)
    requires |x| == 16
    ensures BytesOf(StateFrom(x)) == x
  {
  }

  function Encrypted(sub: Table, key: seq<bv8>, x: seq<bv8>): (y: seq<bv8>)
    requires |key| == 32 && |x| == 16
    ensures |y| == 16
  {
    BytesOf(Cipher(sub, KeyFrom(key), StateFrom(x)))
  }

  function Decrypted(sub: Table, inv: Table, key: seq<bv8>, y: seq<bv8>): (x: seq<bv8>)
    requires |key| == 32 && |y| == 16
    ensures |x| == 16
  {
    BytesOf(InvCipher(sub, inv, KeyFrom(key), StateFrom(y)))
  }

  /** Decryption undoes encryption for every key and block. */
  lemma DecryptEncrypt(sub: Table, inv: Table, key: seq<bv8>, x: seq<bv8>)
    requires |key| == 32 && |x| == 16 && Undoes(inv, sub)
    ensures Decrypted(sub, inv, key, Encrypted(sub, key, x)) == x
  {
    var c := Cipher(sub, KeyFrom(key), StateFrom(x));
    StateOfBytes(c);
    BytesOfState(x);
    InverseCipher(sub, inv, KeyFrom(key), StateFrom(x));
  }

  lemma ArrayParts(x: array<bv8>)
    ensures x.Length == 16 ==> x[..] == BytesOf(StateOf(x)) && StateFrom(x[..]) == StateOf(x)
    ensures x.Length == 32 ==> KeyOf(x) == KeyFrom(x[..])
  {
  }
}
