/** The covariance algebra shared by both Kalman filters of the vehicle: propagation through
    a transition matrix, and the Joseph-form measurement update. */
module Kalman {
  import opened LinearAlgebra

  /** A covariance matrix of n states: symmetric and positive definite. */
  ghost predicate Covariance(p: Mat, n: nat) {
    Symmetric(p) && PositiveDefinite(p, n)
  }

  /** F P F^T + Q, symmetrized. */
  function Propagated(p: Mat, f: Mat, q: Mat): (c: Mat)
    requires Shape(p, f.width, f.width) && Shape(q, |f.rows|, |f.rows|)
    ensures Shape(c, |f.rows|, |f.rows|)
  {
    Symmetrized(CombM(1.0, Sandwich(f, p), 1.0, q))
  }

  /** S = H P H^T + R */
  function Innovation(p: Mat, h: Mat, r: Mat): (s: Mat)
    requires Shape(p, h.width, h.width) && Shape(r, |h.rows|, |h.rows|)
    ensures Shape(s, |h.rows|, |h.rows|)
  {
    CombM(1.0, Sandwich(h, p), 1.0, r)
  }

  /** P H^T */
  function CrossCovariance(p: Mat, h: Mat): (c: Mat)
    requires Shape(p, h.width, h.width)
    ensures Shape(c, h.width, |h.rows|)
  {
    Mul(p, Transpose(h))
  }

  /** I - K H */
  function Residual(h: Mat, k: Mat): (c: Mat)
    requires Shape(k, h.width, |h.rows|)
    ensures Shape(c, h.width, h.width)
  {
    CombM(1.0, Identity(h.width), -1.0, Mul(k, h))
  }

  /** (I - K H) P (I - K H)^T + K R K^T */
  function Joseph(p: Mat, h: Mat, r: Mat, k: Mat): (c: Mat)
    requires Shape(p, h.width, h.width) && Shape(r, |h.rows|, |h.rows|) && Shape(k, h.width, |h.rows|)
    ensures Shape(c, h.width, h.width)
  {
    CombM(1.0, Sandwich(Residual(h, k), p), 1.0, Sandwich(k, r))
  }

  /** x + K (z - H x) */
  function Corrected(x: Vec, h: Mat, z: Vec, k: Mat): (c: Vec)
    requires |x| == h.width && |z| == |h.rows| && Shape(k, h.width, |h.rows|)
    ensures |c| == |x|
  {
    Comb(1.0, x, 1.0, Apply(k, Comb(1.0, z, -1.0, Apply(h, x))))
  }

  // ---------------------------------------------------------------- forms of the two steps

  lemma SumForm(p: Mat, q: Mat, x: Vec, y: Vec)
    requires Shape(p, |x|, |y|) && Shape(q, |x|, |y|)
    ensures Dot(x, Apply(CombM(1.0, p, 1.0, q), y)) == Dot(x, Apply(p, y)) + Dot(x, Apply(q, y))
  {
    hide Dot, Apply, Comb, CombM;
    ApplyCombM(1.0, p, 1.0, q, y);
    DotCombRight(x, 1.0, Apply(p, y), 1.0, Apply(q, y));
  }

  lemma SumIsSymmetric(p: Mat, q: Mat)
    requires Symmetric(p) && Symmetric(q) && |p.rows| == |q.rows|
    ensures Symmetric(CombM(1.0, p, 1.0, q))
  {}

  lemma VecByDot(u: Vec, v: Vec)
    requires |u| == |v| && forall y: Vec | |y| == |u| :: Dot(u, y) == Dot(v, y)
    ensures u == v
  {
    forall i | 0 <= i < |u| ensures u[i] == v[i] {
      DotBasis(u, i);
      DotBasis(v, i);
    }
    VecEq(u, v);
  }

  /** (I - K H)^T x = x - H^T K^T x */
  lemma ResidualTransposed(h: Mat, k: Mat, x: Vec)
    requires Shape(k, h.width, |h.rows|) && |x| == h.width
    ensures Apply(Transpose(Residual(h, k)), x)
            == Comb(1.0, x, -1.0, Apply(Transpose(h), Apply(Transpose(k), x)))
  {
    var w := Apply(Transpose(k), x);
    var lhs, rhs := Apply(Transpose(Residual(h, k)), x), Comb(1.0, x, -1.0, Apply(Transpose(h), w));
    forall y: Vec | |y| == |x| ensures Dot(lhs, y) == Dot(rhs, y) {
      Adjoint(Residual(h, k), x, y);
      ApplyCombM(1.0, Identity(|x|), -1.0, Mul(k, h), y);
      ApplyIdentity(y);
      ApplyMul(k, h, y);
      DotCombRight(x, 1.0, y, -1.0, Apply(k, Apply(h, y)));
      Adjoint(k, x, Apply(h, y));
      Adjoint(h, w, y);
      DotComb(1.0, x, -1.0, Apply(Transpose(h), w), y);
    }
    VecByDot(lhs, rhs);
  }

  /** x^T J x = u^T P u + w^T R w, where w = K^T x and u = x - H^T w. */
  lemma JosephForm(p: Mat, h: Mat, r: Mat, k: Mat, x: Vec)
    requires Shape(p, h.width, h.width) && Shape(r, |h.rows|, |h.rows|) && Shape(k, h.width, |h.rows|)
    requires |x| == h.width
    ensures var w := Apply(Transpose(k), x);
            var u := Comb(1.0, x, -1.0, Apply(Transpose(h), w));
            Form(Joseph(p, h, r, k), x) == Form(p, u) + Form(r, w)
  {
    SumForm(Sandwich(Residual(h, k), p), Sandwich(k, r), x, x);
    SandwichForm(Residual(h, k), p, x, x);
    SandwichForm(k, r, x, x);
    ResidualTransposed(h, k, x);
  }

  // ---------------------------------------------------------------- what the filter keeps

  /** Nothing is lost: if w = 0 the prior form of x remains, otherwise the noise contributes. */
  lemma PartsArePositive(p: Mat, h: Mat, r: Mat, x: Vec, w: Vec)
    requires PositiveDefinite(p, h.width) && PositiveDefinite(r, |h.rows|)
    requires |x| == h.width && x != Zero(|x|) && |w| == |h.rows|
    ensures Form(p, Comb(1.0, x, -1.0, Apply(Transpose(h), w))) + Form(r, w) > 0.0
  {
    hide Form, Apply, Transpose, Dot;
    var u := Comb(1.0, x, -1.0, Apply(Transpose(h), w));
    if w == Zero(|w|) {
      FormOfZero(r, |w|);
      ApplyZero(Transpose(h));
      VecEq(u, x);
    } else {
      FormOfZero(p, |x|);
      assert Form(p, u) >= 0.0;
    }
  }

  /** The Joseph update keeps a covariance a covariance, whatever the gain K, and its result
      is symmetric already. */
  lemma JosephKeepsCovariance(p: Mat, h: Mat, r: Mat, k: Mat)
    requires Covariance(p, h.width) && Covariance(r, |h.rows|) && Shape(k, h.width, |h.rows|)
    ensures Covariance(Joseph(p, h, r, k), h.width)
    ensures Symmetrized(Joseph(p, h, r, k)) == Joseph(p, h, r, k)
  {
    SandwichIsSymmetric(Residual(h, k), p);
    SandwichIsSymmetric(k, r);
    SumIsSymmetric(Sandwich(Residual(h, k), p), Sandwich(k, r));
    SymmetrizedFixes(Joseph(p, h, r, k));
    forall x: Vec | |x| == h.width && x != Zero(|x|) ensures Form(Joseph(p, h, r, k), x) > 0.0 {
      JosephForm(p, h, r, k, x);
      PartsArePositive(p, h, r, x, Apply(Transpose(k), x));
    }
  }

  lemma ApplyZero(a: Mat)
    ensures Apply(a, Zero(a.width)) == Zero(|a.rows|)
  {
    forall i | 0 <= i < |a.rows| ensures Apply(a, Zero(a.width))[i] == 0.0 {
      DotZero(a.rows[i], Zero(a.width));
    }
  }

  lemma FormOfZero(p: Mat, n: nat)
    requires Shape(p, n, n)
    ensures Form(p, Zero(n)) == 0.0
  {
    DotZero(Zero(n), Apply(p, Zero(n)));
  }

  /** Positive semidefinite plus positive definite is positive definite. */
  lemma SumIsDefinite(p: Mat, q: Mat, n: nat)
    requires PositiveSemidefinite(p, n) && PositiveDefinite(q, n)
    ensures PositiveDefinite(CombM(1.0, p, 1.0, q), n)
  {
    forall x: Vec | |x| == n && x != Zero(n) ensures Form(CombM(1.0, p, 1.0, q), x) > 0.0 {
      SumForm(p, q, x, x);
      assert Form(p, x) >= 0.0 && Form(q, x) > 0.0;
    }
  }

  lemma SandwichIsSemidefinite(a: Mat, p: Mat)
    requires PositiveDefinite(p, a.width)
    ensures PositiveSemidefinite(Sandwich(a, p), |a.rows|)
  {
    forall x: Vec | |x| == |a.rows| ensures Form(Sandwich(a, p), x) >= 0.0 {
      SandwichForm(a, p, x, x);
      FormOfZero(p, a.width);
      assert Form(p, Apply(Transpose(a), x)) >= 0.0;
    }
  }

  /** Every innovation covariance is itself a covariance, and so S x = 0 only for x = 0. */
  lemma InnovationIsRegular(p: Mat, h: Mat, r: Mat)
    requires Covariance(p, h.width) && Covariance(r, |h.rows|)
    ensures Covariance(Innovation(p, h, r), |h.rows|)
    ensures Regular(Innovation(p, h, r), |h.rows|)
  {
    SandwichIsSemidefinite(h, p);
    SumIsDefinite(Sandwich(h, p), r, |h.rows|);
    SandwichIsSymmetric(h, p);
    SumIsSymmetric(Sandwich(h, p), r);
    PositiveDefiniteIsRegular(Innovation(p, h, r), |h.rows|);
  }

  /** No direction is both erased by F and free of noise. */
  ghost predicate Uncancelled(f: Mat, q: Mat, n: nat)
    requires Shape(f, n, n) && Shape(q, n, n)
  {
    forall x: Vec | |x| == n && x != Zero(n) && Apply(Transpose(f), x) == Zero(n) :: Form(q, x) > 0.0
  }

  lemma PropagatedForm(p: Mat, f: Mat, q: Mat, n: nat, x: Vec)
    requires Shape(p, n, n) && Shape(f, n, n) && Shape(q, n, n) && |x| == n
    ensures Form(Propagated(p, f, q), x) == Form(p, Apply(Transpose(f), x)) + Form(q, x)
  {
    SymmetrizedKeepsForm(CombM(1.0, Sandwich(f, p), 1.0, q), x);
    SumForm(Sandwich(f, p), q, x, x);
    SandwichForm(f, p, x, x);
  }

  /** Propagation with semidefinite noise keeps a covariance a covariance exactly when the
      noise reaches every direction that F erases. */
  lemma PropagationKeepsCovariance(p: Mat, f: Mat, q: Mat, n: nat)
    requires Covariance(p, n) && Shape(f, n, n) && PositiveSemidefinite(q, n)
    ensures Covariance(Propagated(p, f, q), n) <==> Uncancelled(f, q, n)
  {
    var p' := Propagated(p, f, q);
    SymmetrizedIsSymmetric(CombM(1.0, Sandwich(f, p), 1.0, q));
    FormOfZero(p, n);
    if Uncancelled(f, q, n) {
      forall x: Vec | |x| == n && x != Zero(n) ensures Form(p', x) > 0.0 {
        PropagatedForm(p, f, q, n, x);
        PartsOfPropagation(p, f, q, n, x);
      }
    }
    if Covariance(p', n) {
      forall x: Vec | |x| == n && x != Zero(n) && Apply(Transpose(f), x) == Zero(n) ensures Form(q, x) > 0.0 {
        PropagatedForm(p, f, q, n, x);
        assert Form(p', x) > 0.0;
      }
    }
  }

  lemma PartsOfPropagation(p: Mat, f: Mat, q: Mat, n: nat, x: Vec)
    requires Covariance(p, n) && Shape(f, n, n) && PositiveSemidefinite(q, n) && Uncancelled(f, q, n)
    requires |x| == n && x != Zero(n)
    ensures Form(p, Apply(Transpose(f), x)) + Form(q, x) > 0.0
  {
    FormOfZero(p, n);
    assert Form(q, x) >= 0.0;
  }

  // ---------------------------------------------------------------- uncertainty never grows

  /** K solves K S = P H^T: the gain that K = P H^T S^-1 denotes. */
  ghost predicate OptimalGain(p: Mat, h: Mat, r: Mat, k: Mat) {
    && Shape(p, h.width, h.width) && Shape(r, |h.rows|, |h.rows|) && Shape(k, h.width, |h.rows|)
    && Mul(k, Innovation(p, h, r)) == CrossCovariance(p, h)
  }

  lemma {:induction false} DotMinusRight(w: Vec, u: Vec, v: Vec)
    requires |w| == |u| == |v|
    ensures Dot(w, Comb(1.0, u, -1.0, v)) == Dot(w, u) - Dot(w, v)
  {
    DotCombRight(w, 1.0, u, -1.0, v);
  }

  lemma {:induction false} DotMinusLeft(u: Vec, v: Vec, w: Vec)
    requires |w| == |u| == |v|
    ensures Dot(Comb(1.0, u, -1.0, v), w) == Dot(u, w) - Dot(v, w)
  {
    DotComb(1.0, u, -1.0, v, w);
  }

  /** u^T P u for u = x - y. */
  lemma FormOfDifference(p: Mat, x: Vec, y: Vec)
    requires Symmetric(p) && |x| == |y| == |p.rows|
    ensures Form(p, Comb(1.0, x, -1.0, y)) == Form(p, x) - 2.0 * Dot(x, Apply(p, y)) + Form(p, y)
  {
    var px, py := Apply(p, x), Apply(p, y);
    ApplyComb(p, 1.0, x, -1.0, y);
    DotMinusLeft(x, y, Comb(1.0, px, -1.0, py));
    DotMinusRight(x, px, py);
    DotMinusRight(y, px, py);
    SymmetricSwap(p, x, y);
  }

  /** With the optimal gain the Joseph form equals P - K S K^T, as a quadratic form. */
  lemma OptimalUpdateForm(p: Mat, h: Mat, r: Mat, k: Mat, x: Vec)
    requires Symmetric(p) && OptimalGain(p, h, r, k) && |x| == h.width
    ensures Form(Joseph(p, h, r, k), x)
            == Form(p, x) - Form(Innovation(p, h, r), Apply(Transpose(k), x))
  {
    var s, w := Innovation(p, h, r), Apply(Transpose(k), x);
    var hw := Apply(Transpose(h), w);
    JosephForm(p, h, r, k, x);
    FormOfDifference(p, x, hw);
    SumForm(Sandwich(h, p), r, w, w);
    SandwichForm(h, p, w, w);
    assert Form(s, w) == Form(p, hw) + Form(r, w);
    // <x, P H^T w> = <x, K S w> = <w, S w>
    ApplyMul(p, Transpose(h), w);
    ApplyMul(k, s, w);
    Adjoint(k, x, Apply(s, w));
    assert Dot(x, Apply(p, hw)) == Form(s, w);
  }

  /** With the optimal gain no direction becomes more uncertain. */
  lemma OptimalUpdateContracts(p: Mat, h: Mat, r: Mat, k: Mat, x: Vec)
    requires Covariance(p, h.width) && Covariance(r, |h.rows|) && OptimalGain(p, h, r, k)
    requires |x| == h.width
    ensures Form(Joseph(p, h, r, k), x) <= Form(p, x)
  {
    OptimalUpdateForm(p, h, r, k, x);
    InnovationIsRegular(p, h, r);
    FormOfZero(Innovation(p, h, r), |h.rows|);
  }
}
