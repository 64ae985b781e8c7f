/** What one measurement update does to the state: a system of equations that pins the corrected
    state down without an inverse, and what follows from it. */
module Corrections {
  import opened LinearAlgebra
  import opened Kalman
  import opened LinearSolve

  // ---------------------------------------------------------------- vectors

  function Plus(u: Vec, v: Vec): (w: Vec)
    requires |u| == |v|
    ensures |w| == |u| && forall i | 0 <= i < |u| :: w[i] == u[i] + v[i]
  {
    Comb(1.0, u, 1.0, v)
  }

  function Minus(u: Vec, v: Vec): (w: Vec)
    requires |u| == |v|
    ensures |w| == |u| && forall i | 0 <= i < |u| :: w[i] == u[i] - v[i]
  {
    Comb(1.0, u, -1.0, v)
  }

  lemma ApplyPlus(a: Mat, u: Vec, v: Vec)
    requires |u| == |v| == a.width
    ensures Apply(a, Plus(u, v)) == Plus(Apply(a, u), Apply(a, v))
    ensures Apply(a, Minus(u, v)) == Minus(Apply(a, u), Apply(a, v))
  {
    ApplyComb(a, 1.0, u, 1.0, v);
    ApplyComb(a, 1.0, u, -1.0, v);
  }

  /** H^T l */
  function Back(h: Mat, l: Vec): (v: Vec)
    requires |l| == |h.rows|
    ensures |v| == h.width
  {
    Apply(Transpose(h), l)
  }

  // ---------------------------------------------------------------- the corrected state

  ghost predicate Fits(p: Mat, h: Mat, r: Mat) {
    Shape(p, h.width, h.width) && Shape(r, |h.rows|, |h.rows|)
  }

  /** x' = x + P H^T m and R m = z - H x': what the updated state x' means. */
  ghost predicate Settles(p: Mat, h: Mat, r: Mat, x: Vec, z: Vec, m: Vec, x': Vec)
    requires Fits(p, h, r)
  {
    && |x| == |x'| == h.width && |m| == |z| == |h.rows|
    && x' == Plus(x, Apply(p, Back(h, m))) && Apply(r, m) == Minus(z, Apply(h, x'))
  }

  lemma InnovationApplied(p: Mat, h: Mat, r: Mat, l: Vec)
    requires Fits(p, h, r) && |l| == |h.rows|
    ensures Apply(Innovation(p, h, r), l) == Plus(Apply(h, Apply(p, Back(h, l))), Apply(r, l))
  {
    ApplyCombM(1.0, Sandwich(h, p), 1.0, r, l);
    ApplyMul(Mul(h, p), Transpose(h), l);
    ApplyMul(h, p, Back(h, l));
  }

  lemma SettlesFix(p: Mat, h: Mat, r: Mat, x: Vec, z: Vec, m: Vec, x': Vec)
    requires Fits(p, h, r) && Settles(p, h, r, x, z, m, x')
    ensures Apply(Innovation(p, h, r), m) == Minus(z, Apply(h, x))
  {
    var d := Apply(p, Back(h, m));
    InnovationApplied(p, h, r, m);
    ApplyPlus(h, x, d);
    VecEq(Plus(Apply(h, d), Minus(z, Apply(h, x'))), Minus(z, Apply(h, x)));
  }

  lemma SettlesAreUnique(p: Mat, h: Mat, r: Mat, x: Vec, z: Vec, m: Vec, a: Vec, m': Vec, a': Vec)
    requires Covariance(p, h.width) && Covariance(r, |h.rows|)
    requires Settles(p, h, r, x, z, m, a) && Settles(p, h, r, x, z, m', a')
    ensures a == a'
  {
    SettlesFix(p, h, r, x, z, m, a);
    SettlesFix(p, h, r, x, z, m', a');
    InnovationIsRegular(p, h, r);
    RegularIsInjective(Innovation(p, h, r), m, m');
  }

  /** The corrected state settles the reading. */
  lemma CorrectedSettles(p: Mat, h: Mat, r: Mat, k: Mat, x: Vec, z: Vec, m: Vec)
    requires OptimalGain(p, h, r, k) && |x| == h.width && |z| == |m| == |h.rows|
    requires Apply(Innovation(p, h, r), m) == Minus(z, Apply(h, x))
    ensures Settles(p, h, r, x, z, m, Corrected(x, h, z, k))
  {
    var d := Apply(p, Back(h, m));
    ApplyMul(k, Innovation(p, h, r), m);
    ApplyMul(p, Transpose(h), m);
    InnovationApplied(p, h, r, m);
    ApplyPlus(h, x, d);
    hide Apply, Back, Innovation, Mul, CrossCovariance, Transpose;
    assert Corrected(x, h, z, k) == Plus(x, d);
    VecEq(Apply(r, m), Minus(z, Apply(h, Plus(x, d))));
  }

  // ---------------------------------------------------------------- agreement with the reading

  /** A state that the reading agrees with is not moved. */
  lemma AgreeingStateStays(p: Mat, h: Mat, r: Mat, x: Vec, z: Vec, m: Vec, x': Vec)
    requires Fits(p, h, r) && Covariance(p, h.width) && Covariance(r, |h.rows|)
    requires Settles(p, h, r, x, z, m, x') && z == Apply(h, x)
    ensures x' == x
  {
    hide Apply, Transpose, Innovation, Symmetric, PositiveDefinite;
    SettlesFix(p, h, r, x, z, m, x');
    InnovationIsRegular(p, h, r);
    VecEq(Minus(z, Apply(h, x)), Zero(|z|));
    assert m == Zero(|m|);
    ApplyZero(Transpose(h));
    ApplyZero(p);
    VecEq(x, x');
  }

  /** How far off y is, each entry measured in units of its variance. */
  function Misfit(y: Vec, noise: Vec): real
    requires |y| == |noise| && forall i | 0 <= i < |noise| :: noise[i] > 0.0
  {
    if |y| == 0 then 0.0
    else
      var n := |y| - 1;
      Misfit(y[..n], noise[..n]) + y[n] * y[n] / noise[n]
  }

  lemma TermShrinks(q: real, l: real, r: real)
    requires r > 0.0
    ensures (q + r * l) * (q + r * l) / r >= (r * l) * (r * l) / r + 2.0 * (q * l)
  {
    assert (q + r * l) * (q + r * l) == q * q + r * (2.0 * (q * l)) + r * (r * l * l);
    assert (r * l) * (r * l) == r * (r * l * l);
    assert q * q >= 0.0;
  }

  lemma {:induction false} MisfitSplits(q: Vec, l: Vec, w: Vec, y: Vec, noise: Vec)
    requires |q| == |l| == |w| == |y| == |noise| && forall i | 0 <= i < |noise| :: noise[i] > 0.0
    requires forall i | 0 <= i < |noise| :: w[i] == noise[i] * l[i] && y[i] == q[i] + w[i]
    ensures Misfit(y, noise) >= Misfit(w, noise) + 2.0 * Dot(q, l)
  {
    if |q| > 0 {
      var n := |q| - 1;
      MisfitSplits(q[..n], l[..n], w[..n], y[..n], noise[..n]);
      TermShrinks(q[n], l[n], noise[n]);
    }
  }

  lemma SandwichIsPositive(p: Mat, h: Mat, m: Vec)
    requires PositiveDefinite(p, h.width) && |m| == |h.rows|
    ensures Dot(Apply(h, Apply(p, Back(h, m))), m) >= 0.0
  {
    var b := Back(h, m);
    Adjoint(h, m, Apply(p, b));
    DotSym(m, Apply(h, Apply(p, b)));
    FormOfZero(p, h.width);
    assert Form(p, b) >= 0.0;
  }

  /** An update never makes the state agree less with the reading, in units of its variances. */
  lemma MisfitNeverGrows(p: Mat, h: Mat, noise: Vec, x: Vec, z: Vec, m: Vec, x': Vec)
    requires Covariance(p, h.width) && |noise| == |h.rows| && forall i | 0 <= i < |noise| :: noise[i] > 0.0
    requires Settles(p, h, Diagonal(noise), x, z, m, x')
    ensures Misfit(Minus(z, Apply(h, x')), noise) <= Misfit(Minus(z, Apply(h, x)), noise)
  {
    var q := Apply(h, Apply(p, Back(h, m)));
    SettlesFix(p, h, Diagonal(noise), x, z, m, x');
    InnovationApplied(p, h, Diagonal(noise), m);
    SandwichIsPositive(p, h, m);
    ApplyDiagonal(noise, m);
    MisfitSplits(q, m, Minus(z, Apply(h, x')), Minus(z, Apply(h, x)), noise);
  }
}
