/** A system with a covariance matrix has exactly one solution, found by eliminating one
    unknown at a time. It stands for the matrix inverse that the filters take of S. */
module LinearSolve {
  import opened LinearAlgebra
  import opened Kalman

  predicate Bordered(s: Mat) {
    s.width == |s.rows| > 0 && s.rows[|s.rows| - 1][|s.rows| - 1] != 0.0
  }

  /** The last row of a symmetric matrix, without its last entry. */
  function Border(s: Mat): (b: Vec)
    requires Bordered(s)
    ensures |b| == |s.rows| - 1
  {
    s.rows[|s.rows| - 1][..|s.rows| - 1]
  }

  /** The negated reciprocal of the last diagonal entry. */
  function Pivot(s: Mat): (r: real)
    requires Bordered(s)
    ensures r * s.rows[|s.rows| - 1][|s.rows| - 1] == -1.0
  {
    -1.0 / s.rows[|s.rows| - 1][|s.rows| - 1]
  }

  function Factor(s: Mat, i: nat): real
    requires Bordered(s) && i < |s.rows| - 1
  {
    Border(s)[i] * Pivot(s)
  }

  function SchurRow(s: Mat, i: nat): (v: Vec)
    requires Bordered(s) && i < |s.rows| - 1
    ensures |v| == |s.rows| - 1
  {
    Comb(1.0, s.rows[i][..|s.rows| - 1], Factor(s, i), Border(s))
  }

  /** The Schur complement of the last diagonal entry: C - b b^T / a. */
  function Schur(s: Mat): (t: Mat)
    requires Bordered(s)
    ensures Shape(t, |s.rows| - 1, |s.rows| - 1)
    ensures forall i | 0 <= i < |s.rows| - 1 :: t.rows[i] == SchurRow(s, i)
  {
    Mat(|s.rows| - 1, seq(|s.rows| - 1, i requires 0 <= i < |s.rows| - 1 => SchurRow(s, i)))
  }

  lemma CovarianceIsBordered(s: Mat, n: nat)
    requires Covariance(s, n) && n > 0
    ensures Bordered(s)
  {
    var e := Basis(n, n - 1);
    assert e[n - 1] == 1.0 && e != Zero(n);
    EntryByBasis(s, n - 1, n - 1);
  }

  /** x' completed so that the last row of s gives t. */
  function Completed(s: Mat, x': Vec, t: real): (x: Vec)
    requires Bordered(s) && |x'| == |s.rows| - 1
    ensures |x| == |s.rows| && x[..|x'|] == x'
  {
    x' + [(Dot(Border(s), x') - t) * Pivot(s)]
  }

  lemma SchurRowDot(s: Mat, i: nat, x': Vec)
    requires Bordered(s) && |x'| == |s.rows| - 1 && i < |x'|
    ensures Dot(SchurRow(s, i), x') == Dot(s.rows[i][..|s.rows| - 1], x') + Factor(s, i) * Dot(Border(s), x')
  {
    hide Dot;
    DotComb(1.0, s.rows[i][..|s.rows| - 1], Factor(s, i), Border(s), x');
  }

  lemma BorderIsColumn(s: Mat, i: nat)
    requires Symmetric(s) && Bordered(s) && i < |s.rows| - 1
    ensures s.rows[i][|s.rows| - 1] == Border(s)[i]
  {
  }

  lemma CompletedDot(s: Mat, x': Vec, t: real, i: nat)
    requires Symmetric(s) && Bordered(s) && |x'| == |s.rows| - 1 && i < |x'|
    ensures Dot(s.rows[i], Completed(s, x', t)) == Dot(s.rows[i][..|x'|], x') + Border(s)[i] * Completed(s, x', t)[|x'|]
  {
    hide Dot, Symmetric, Border, Completed;
    var n, x := |x'|, Completed(s, x', t);
    BorderIsColumn(s, i);
    assert |s.rows[i]| == |x| == n + 1 && x[..n] == x';
    DotLast(s.rows[i], x, n);
    SameTerm(Dot(s.rows[i], x), Dot(s.rows[i][..n], x'), s.rows[i][n], Border(s)[i], x[n]);
  }

  lemma SameTerm(l: real, p: real, u: real, v: real, w: real)
    requires l == p + u * w && u == v
    ensures l == p + v * w
  {
  }

  lemma CompletedMeans(s: Mat, x': Vec, t: real, i: nat)
    requires Bordered(s) && |x'| == |s.rows| - 1 && i < |x'|
    ensures Completed(s, x', t)[|x'|] == (Dot(Border(s), x') - t) * Pivot(s) && Factor(s, i) == Border(s)[i] * Pivot(s)
  {
    hide Dot;
  }

  lemma CompletedRow(s: Mat, x': Vec, t: real, i: nat)
    requires Symmetric(s) && Bordered(s) && |x'| == |s.rows| - 1 && i < |x'|
    ensures Dot(s.rows[i], Completed(s, x', t)) == Dot(SchurRow(s, i), x') - (t * Pivot(s)) * Border(s)[i]
  {
    hide Dot, SchurRow, Symmetric, Border, Pivot, Completed, Factor;
    CompletedDot(s, x', t, i);
    SchurRowDot(s, i, x');
    CompletedMeans(s, x', t, i);
    Cancel(Dot(s.rows[i][..|x'|], x'), Border(s)[i], Pivot(s), t, Dot(Border(s), x'), Factor(s, i), Completed(s, x', t)[|x'|]);
  }

  lemma Cancel(c: real, b: real, r: real, t: real, d: real, f: real, x: real)
    requires f == b * r && x == (d - t) * r
    ensures c + b * x == (c + f * d) - (t * r) * b
  {
    assert b * x == (b * r) * (d - t);
  }

  lemma CompletedLast(s: Mat, x': Vec, t: real)
    requires Bordered(s) && |x'| == |s.rows| - 1
    ensures Dot(s.rows[|x'|], Completed(s, x', t)) == t
  {
  }

  /** The form of the Schur complement is a form of s. */
  lemma SchurForm(s: Mat, x': Vec)
    requires Symmetric(s) && Bordered(s) && |x'| == |s.rows| - 1
    ensures Form(Schur(s), x') == Form(s, Completed(s, x', 0.0))
  {
    var n, x, v := |x'|, Completed(s, x', 0.0), Apply(Schur(s), x');
    forall i | 0 <= i < n ensures Apply(s, x)[i] == v[i] { CompletedRow(s, x', 0.0, i); }
    CompletedLast(s, x', 0.0);
    VecEq(Apply(s, x)[..n], v);
  }

  lemma SchurIsSymmetric(s: Mat)
    requires Symmetric(s) && Bordered(s)
    ensures Symmetric(Schur(s))
  {
  }

  lemma CompletedIsNonZero(s: Mat, x': Vec)
    requires Bordered(s) && |x'| == |s.rows| - 1 && x' != Zero(|x'|)
    ensures Completed(s, x', 0.0) != Zero(|x'| + 1)
  {
  }

  lemma SchurIsCovariance(s: Mat, n: nat)
    requires Covariance(s, n) && n > 0
    ensures Bordered(s) && Covariance(Schur(s), n - 1)
  {
    CovarianceIsBordered(s, n);
    SchurIsSymmetric(s);
    forall x': Vec | |x'| == n - 1 && x' != Zero(n - 1) ensures Form(Schur(s), x') > 0.0 {
      SchurForm(s, x');
      CompletedIsNonZero(s, x');
    }
  }

  /** The right-hand side after eliminating the last unknown. */
  function Reduced(s: Mat, y: Vec): (v: Vec)
    requires Bordered(s) && |y| == |s.rows|
    ensures |v| == |y| - 1
  {
    Comb(1.0, y[..|y| - 1], y[|y| - 1] * Pivot(s), Border(s))
  }

  lemma SolutionCompletes(s: Mat, y: Vec, x': Vec)
    requires Symmetric(s) && Bordered(s) && |s.rows| == |y| && |x'| == |y| - 1
    requires Apply(Schur(s), x') == Reduced(s, y)
    ensures Apply(s, Completed(s, x', y[|y| - 1])) == y
  {
    var n := |y| - 1;
    var x := Completed(s, x', y[n]);
    forall i | 0 <= i < |y| ensures Apply(s, x)[i] == y[i] {
      if i < n {
        CompletedRow(s, x', y[n], i);
        assert Apply(Schur(s), x')[i] == Reduced(s, y)[i];
      } else {
        CompletedLast(s, x', y[n]);
      }
    }
    VecEq(Apply(s, x), y);
  }

  /** The solution of s x = y. */
  function Solve(s: Mat, y: Vec): (x: Vec)
    requires Covariance(s, |y|)
    ensures |x| == |y| && Apply(s, x) == y
    decreases |y|
  {
    if |y| == 0 then []
    else
      SchurIsCovariance(s, |y|);
      var x' := Solve(Schur(s), Reduced(s, y));
      SolutionCompletes(s, y, x');
      Completed(s, x', y[|y| - 1])
  }

  /** The matrix k with k s = c. */
  function SolveRows(s: Mat, c: Mat): (k: Mat)
    requires Covariance(s, c.width)
    ensures Shape(k, |c.rows|, c.width) && Mul(k, s) == c
  {
    var k: Mat := Mat(c.width, seq(|c.rows|, i requires 0 <= i < |c.rows| => Solve(s, c.rows[i])));
    RowsMultiply(s, c, k);
    k
  }

  lemma RowsMultiply(s: Mat, c: Mat, k: Mat)
    requires Symmetric(s) && Shape(s, c.width, c.width) && Shape(k, |c.rows|, c.width)
    requires forall i | 0 <= i < |c.rows| :: Apply(s, k.rows[i]) == c.rows[i]
    ensures Mul(k, s) == c
  {
    MatEq(Transpose(s), s);
    MatEq(Mul(k, s), c);
  }

  lemma RegularIsInjective(s: Mat, u: Vec, v: Vec)
    requires Regular(s, |u|) && |v| == |u| && Apply(s, u) == Apply(s, v)
    ensures u == v
  {
    var d := Comb(1.0, u, -1.0, v);
    ApplyComb(s, 1.0, u, -1.0, v);
    VecEq(Apply(s, d), Zero(|u|));
    forall j | 0 <= j < |u| ensures u[j] == v[j] { assert d[j] == Zero(|u|)[j]; }
    VecEq(u, v);
  }

  lemma RowsAreUnique(s: Mat, k: Mat, g: Mat)
    requires Symmetric(s) && Regular(s, |s.rows|) && k.width == |s.rows| && Shape(g, |k.rows|, k.width)
    requires Mul(k, s) == Mul(g, s)
    ensures k == g
  {
    MatEq(Transpose(s), s);
    forall i | 0 <= i < |k.rows| ensures k.rows[i] == g.rows[i] {
      assert Apply(s, k.rows[i]) == Mul(k, s).rows[i] == Mul(g, s).rows[i] == Apply(s, g.rows[i]);
      RegularIsInjective(s, k.rows[i], g.rows[i]);
    }
    MatEq(k, g);
  }

  /** The gain K = P H^T S^-1. */
  function Gain(p: Mat, h: Mat, r: Mat): (k: Mat)
    requires Covariance(p, h.width) && Covariance(r, |h.rows|)
    ensures OptimalGain(p, h, r, k)
  {
    InnovationIsRegular(p, h, r);
    SolveRows(Innovation(p, h, r), CrossCovariance(p, h))
  }

  /** No other matrix is the gain. */
  lemma GainIsUnique(p: Mat, h: Mat, r: Mat, k: Mat)
    requires Covariance(p, h.width) && Covariance(r, |h.rows|) && OptimalGain(p, h, r, k)
    ensures k == Gain(p, h, r)
  {
    InnovationIsRegular(p, h, r);
    RowsAreUnique(Innovation(p, h, r), k, Gain(p, h, r));
  }
}
