/** The cosine score of two biometric embeddings, of any length. */
module CosineScore {

  import opened LinearAlgebra

  // ---------------------------------------------------------------- the score

  ghost predicate SquareRoot(root: real -> real) {
    forall x: real :: x >= 0.0 ==> root(x) >= 0.0 && root(x) * root(x) == x
  }

  function Similarity(root: real -> real, a: Vec, b: Vec): real {
    if |a| != |b| || |a| == 0 then 0.0
    else
      var na, nb := root(Dot(a, a)), root(Dot(b, b));
      if na == 0.0 || nb == 0.0 then 0.0 else Quotient(Dot(a, b), na, nb)
  }

  function Quotient(d: real, x: real, y: real): real
    requires x != 0.0 && y != 0.0
  {
    assert x * y != 0.0;
    d / (x * y)
  }

  lemma {:induction false} SquareIsDot(a: Vec)
    ensures Dot(a, a) >= 0.0
  {
    if |a| > 0 {
      SquareIsDot(a[..|a| - 1]);
      assert a[|a| - 1] * a[|a| - 1] >= 0.0;
    }
  }

  lemma {:induction false} SumSquared(a: Vec, b: Vec, x: real, y: real)
    requires |a| == |b|
    ensures Dot(Comb(y, a, x, b), Comb(y, a, x, b))
         == y * (y * Dot(a, a) + x * Dot(a, b)) + x * (y * Dot(a, b) + x * Dot(b, b))
  {
    var w := Comb(y, a, x, b);
    DotComb(y, a, x, b, w);
    DotCombRight(a, y, a, x, b);
    DotCombRight(b, y, a, x, b);
    DotSym(a, b);
  }

  lemma Monomials(x: real, y: real, d: real)
    ensures y * (y * (x * x)) == (x * y) * (x * y) && x * (x * (y * y)) == (x * y) * (x * y)
    ensures y * (x * d) == (x * y) * d && x * (y * d) == (x * y) * d
  {
    assert y * (x * x) == (x * y) * x && x * (y * y) == (x * y) * y;
  }

  lemma Factor(x: real, y: real, d: real)
    ensures y * (y * (x * x) + x * d) + x * (y * d + x * (y * y)) == 2.0 * ((x * y) * (x * y + d))
  {
    Monomials(x, y, d);
    var p, q := x * x, y * y;
    assert y * (y * p + x * d) == y * (y * p) + y * (x * d);
    assert x * (y * d + x * q) == x * (y * d) + x * (x * q);
  }

  lemma {:induction false} SideOne(a: Vec, b: Vec, x: real, y: real)
    requires |a| == |b| && x * x == Dot(a, a) && y * y == Dot(b, b)
    ensures Dot(Comb(y, a, x, b), Comb(y, a, x, b)) == 2.0 * ((x * y) * (x * y + Dot(a, b)))
  {
    SumSquared(a, b, x, y);
    Factor(x, y, Dot(a, b));
  }

  /** |nb a + na b|^2 and |nb a - na b|^2, for the norms na and nb. */
  lemma ParallelogramSides(a: Vec, b: Vec, na: real, nb: real)
    requires |a| == |b| && na * na == Dot(a, a) && nb * nb == Dot(b, b)
    ensures var u, v, p := Comb(nb, a, na, b), Comb(nb, a, -na, b), na * nb;
            Dot(u, u) == 2.0 * (p * (p + Dot(a, b))) && Dot(v, v) == 2.0 * (p * (p - Dot(a, b)))
  {
    var x := -na;
    assert x * x == na * na && x * nb == -(na * nb);
    SideOne(a, b, na, nb);
    SideOne(a, b, x, nb);
    Opposed(na * nb, x * nb, Dot(a, b));
  }

  lemma Opposed(p: real, m: real, d: real)
    requires m == -p
    ensures m * (m + d) == p * (p - d)
  {
  }

  lemma PositiveFactor(p: real, q: real)
    requires p > 0.0
    ensures p * q >= 0.0 <==> q >= 0.0
    ensures p * q == 0.0 <==> q == 0.0
  {
    assert q < 0.0 ==> p * q < 0.0;
    assert q > 0.0 ==> p * q > 0.0;
  }

  lemma ZeroSide(p: real, d: real, side: real)
    requires p > 0.0 && side == 2.0 * (p * (p + d))
    ensures side == 0.0 <==> p + d == 0.0
  {
    PositiveFactor(p, p + d);
  }

  lemma SquareZero(x: real)
    ensures x * x >= 0.0 && (x * x == 0.0 <==> x == 0.0)
  {
    var y := if x < 0.0 then -x else x;
    assert y * y == x * x;
    if y > 0.0 { PositiveFactor(y, y); }
  }

  lemma QuotientBounds(d: real, x: real, y: real)
    requires x > 0.0 && y > 0.0
    requires (x * y) * (x * y + d) >= 0.0 && (x * y) * (x * y - d) >= 0.0
    ensures -1.0 <= Quotient(d, x, y) <= 1.0
    ensures Quotient(d, x, y) == -1.0 <==> x * y + d == 0.0
    ensures Quotient(d, x, y) == 1.0 <==> x * y - d == 0.0
  {
    var p := x * y;
    assert p > 0.0;
    PositiveFactor(p, p + d);
    PositiveFactor(p, p - d);
    var r := d / p;
    assert r * p == d;
    PositiveFactor(p, r + 1.0);
    PositiveFactor(p, 1.0 - r);
    assert p * (r + 1.0) == p + d && p * (1.0 - r) == p - d;
  }

  /** Cauchy-Schwarz: every score lies between -1 and 1, for vectors of any length. */
  lemma ScoreIsBounded(root: real -> real, a: Vec, b: Vec)
    requires SquareRoot(root)
    ensures -1.0 <= Similarity(root, a, b) <= 1.0
  {
    if |a| == |b| && |a| > 0 {
      var na, nb := root(Dot(a, a)), root(Dot(b, b));
      SquareIsDot(a);
      SquareIsDot(b);
      ParallelogramSides(a, b, na, nb);
      SquareIsDot(Comb(nb, a, na, b));
      SquareIsDot(Comb(nb, a, -na, b));
      hide Dot, Comb;
      if na != 0.0 && nb != 0.0 { QuotientBounds(Dot(a, b), na, nb); }
    }
  }

  /** b points exactly the opposite way of a. */
  ghost predicate Opposite(root: real -> real, a: Vec, b: Vec) {
    && |a| == |b| && |a| > 0
    && var na, nb := root(Dot(a, a)), root(Dot(b, b));
       && na > 0.0 && nb > 0.0
       && Comb(nb, a, na, b) == Zero(|a|)
  }

  lemma {:induction false} ZeroSquare(w: Vec)
    ensures Dot(w, w) == 0.0 <==> w == Zero(|w|)
  {
    if |w| > 0 {
      var n := |w| - 1;
      ZeroSquare(w[..n]);
      SquareIsDot(w[..n]);
      SquareZero(w[n]);
      assert w == w[..n] + [w[n]];
      assert Zero(|w|) == Zero(n) + [0.0];
    }
  }

  /** The lowest score is reached by opposite vectors and by no others. */
  lemma LowestScoreIsOpposite(root: real -> real, a: Vec, b: Vec)
    requires SquareRoot(root)
    ensures Similarity(root, a, b) == -1.0 <==> Opposite(root, a, b)
  {
    if |a| == |b| && |a| > 0 {
      var na, nb := root(Dot(a, a)), root(Dot(b, b));
      SquareIsDot(a);
      SquareIsDot(b);
      ParallelogramSides(a, b, na, nb);
      SquareIsDot(Comb(nb, a, na, b));
      SquareIsDot(Comb(nb, a, -na, b));
      ZeroSquare(Comb(nb, a, na, b));
      hide Dot, Comb;
      if na != 0.0 && nb != 0.0 {
        QuotientBounds(Dot(a, b), na, nb);
        ZeroSide(na * nb, Dot(a, b), Dot(Comb(nb, a, na, b), Comb(nb, a, na, b)));
      }
    }
  }

  /** b points exactly the same way as a. */
  ghost predicate Aligned(root: real -> real, a: Vec, b: Vec) {
    && |a| == |b| && |a| > 0
    && var na, nb := root(Dot(a, a)), root(Dot(b, b));
       && na > 0.0 && nb > 0.0
       && Comb(nb, a, -na, b) == Zero(|a|)
  }

  /** The highest score is reached by aligned vectors and by no others. */
  lemma HighestScoreIsAligned(root: real -> real, a: Vec, b: Vec)
    requires SquareRoot(root)
    ensures Similarity(root, a, b) == 1.0 <==> Aligned(root, a, b)
  {
    if |a| == |b| && |a| > 0 {
      var na, nb := root(Dot(a, a)), root(Dot(b, b));
      SquareIsDot(a);
      SquareIsDot(b);
      ParallelogramSides(a, b, na, nb);
      SquareIsDot(Comb(nb, a, na, b));
      SquareIsDot(Comb(nb, a, -na, b));
      ZeroSquare(Comb(nb, a, -na, b));
      hide Dot, Comb;
      if na != 0.0 && nb != 0.0 {
        QuotientBounds(Dot(a, b), na, nb);
        ZeroSide(na * nb, -Dot(a, b), Dot(Comb(nb, a, -na, b), Comb(nb, a, -na, b)));
      }
    }
  }

  /** The score does not depend on the order of the vectors, and is the cosine: times both
      lengths it gives the inner product. */
  lemma ScoreIsCosine(root: real -> real, a: Vec, b: Vec)
    requires SquareRoot(root)
    ensures Similarity(root, a, b) == Similarity(root, b, a)
    ensures |a| == |b| && Dot(a, a) > 0.0 && Dot(b, b) > 0.0 ==>
              Similarity(root, a, b) * (root(Dot(a, a)) * root(Dot(b, b))) == Dot(a, b)
    ensures |a| != |b| || Dot(a, a) == 0.0 || Dot(b, b) == 0.0 ==> Similarity(root, a, b) == 0.0
  {
    hide Dot, Quotient, SquareRoot;
    if |a| == |b| {
      if |a| == 0 { DotZero(a, a); }
      DotSym(a, b);
      SquareIsDot(a);
      SquareIsDot(b);
      RootIsZero(root, Dot(a, a));
      RootIsZero(root, Dot(b, b));
      var na, nb := root(Dot(a, a)), root(Dot(b, b));
      if na != 0.0 && nb != 0.0 { QuotientTimes(Dot(a, b), na, nb); }
    }
  }

  lemma RootIsZero(root: real -> real, x: real)
    requires SquareRoot(root) && x >= 0.0
    ensures root(x) == 0.0 <==> x == 0.0
  {
    SquareZero(root(x));
  }

  lemma QuotientTimes(d: real, x: real, y: real)
    requires x != 0.0 && y != 0.0
    ensures Quotient(d, x, y) == Quotient(d, y, x) && Quotient(d, x, y) * (x * y) == d
  {
    assert x * y == y * x && x * y != 0.0;
  }
}
