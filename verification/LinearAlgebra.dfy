/** Vectors and matrices of exact reals, of any finite dimension, and the facts about
    quadratic forms that a covariance filter rests on. */
module LinearAlgebra {

  type Vec = seq<real>

  datatype RawMat = Mat(width: nat, rows: seq<Vec>)

  type Mat = m: RawMat | forall i | 0 <= i < |m.rows| :: |m.rows[i]| == m.width witness Mat(0, [])

  predicate Shape(a: Mat, height: nat, width: nat) {
    |a.rows| == height && a.width == width
  }

  // ---------------------------------------------------------------- vectors

  function Zero(n: nat): (z: Vec)
    ensures |z| == n
  {
    seq(n, _ => 0.0)
  }

  /** The i-th basis vector. */
  function Basis(n: nat, i: nat): (e: Vec)
    ensures |e| == n
  {
    seq(n, k => if k == i then 1.0 else 0.0)
  }

  /** a u + b v */
  function Comb(a: real, u: Vec, b: real, v: Vec): (w: Vec)
    requires |u| == |v|
    ensures |w| == |u|
  {
    seq(|u|, i requires 0 <= i < |u| => a * u[i] + b * v[i])
  }

  function Dot(u: Vec, v: Vec): real
    requires |u| == |v|
  {
    if |u| == 0 then 0.0 else Dot(u[..|u| - 1], v[..|u| - 1]) + u[|u| - 1] * v[|u| - 1]
  }

  lemma DotLast(u: Vec, v: Vec, n: nat)
    requires |u| == |v| == n + 1
    ensures Dot(u, v) == Dot(u[..n], v[..n]) + u[n] * v[n]
  {
  }

  lemma {:induction false} DotSym(u: Vec, v: Vec)
    requires |u| == |v|
    ensures Dot(u, v) == Dot(v, u)
  {
    if |u| > 0 { DotSym(u[..|u| - 1], v[..|u| - 1]); }
  }

  lemma DotNone(u: Vec, v: Vec)
    requires |u| == |v| == 0
    ensures Dot(u, v) == 0.0
  {
  }

  lemma Distribute(a: real, u: real, b: real, v: real, c: real, w: real, du: real, dv: real)
    requires c == a * u + b * v
    ensures (a * du + b * dv) + c * w == a * (du + u * w) + b * (dv + v * w)
    ensures (a * du + b * dv) + w * c == a * (du + w * u) + b * (dv + w * v)
  {
  }

  lemma {:induction false} DotComb(a: real, u: Vec, b: real, v: Vec, w: Vec)
    requires |u| == |v| == |w|
    ensures Dot(Comb(a, u, b, v), w) == a * Dot(u, w) + b * Dot(v, w)
  {
    hide Dot;
    var c := Comb(a, u, b, v);
    if |u| == 0 {
      DotNone(c, w);
      DotNone(u, w);
      DotNone(v, w);
    } else {
      var n := |u| - 1;
      VecEq(c[..n], Comb(a, u[..n], b, v[..n]));
      DotComb(a, u[..n], b, v[..n], w[..n]);
      DotLast(c, w, n);
      DotLast(u, w, n);
      DotLast(v, w, n);
      Distribute(a, u[n], b, v[n], c[n], w[n], Dot(u[..n], w[..n]), Dot(v[..n], w[..n]));
    }
  }

  lemma {:induction false} DotCombRight(w: Vec, a: real, u: Vec, b: real, v: Vec)
    requires |u| == |v| == |w|
    ensures Dot(w, Comb(a, u, b, v)) == a * Dot(w, u) + b * Dot(w, v)
  {
    hide Dot;
    var c := Comb(a, u, b, v);
    if |u| == 0 {
      DotNone(w, c);
      DotNone(w, u);
      DotNone(w, v);
    } else {
      var n := |u| - 1;
      VecEq(c[..n], Comb(a, u[..n], b, v[..n]));
      DotCombRight(w[..n], a, u[..n], b, v[..n]);
      DotLast(w, c, n);
      DotLast(w, u, n);
      DotLast(w, v, n);
      Distribute(a, u[n], b, v[n], c[n], w[n], Dot(w[..n], u[..n]), Dot(w[..n], v[..n]));
    }
  }

  lemma {:induction false} DotZero(u: Vec, v: Vec)
    requires |u| == |v| && forall i | 0 <= i < |u| :: u[i] == 0.0 || v[i] == 0.0
    ensures Dot(u, v) == 0.0
  {
    if |u| > 0 { DotZero(u[..|u| - 1], v[..|u| - 1]); }
  }

  /** Where at most two terms of the product do not vanish. */
  lemma {:induction false} DotTwo(u: Vec, v: Vec, i: nat, j: nat)
    requires |u| == |v| && i < j < |u|
    requires forall k | 0 <= k < |u| && k != i && k != j :: u[k] == 0.0 || v[k] == 0.0
    ensures Dot(u, v) == u[i] * v[i] + u[j] * v[j]
  {
    var n := |u| - 1;
    if j < n { DotTwo(u[..n], v[..n], i, j); } else { DotOne(u[..n], v[..n], i); }
  }

  lemma {:induction false} DotOne(u: Vec, v: Vec, i: nat)
    requires |u| == |v| && i < |u|
    requires forall k | 0 <= k < |u| && k != i :: u[k] == 0.0 || v[k] == 0.0
    ensures Dot(u, v) == u[i] * v[i]
  {
    var n := |u| - 1;
    if i < n { DotOne(u[..n], v[..n], i); } else { DotZero(u[..n], v[..n]); }
  }

  lemma {:induction false} DotSplit(u: Vec, v: Vec, k: nat)
    requires |u| == |v| && k <= |u|
    ensures Dot(u, v) == Dot(u[..k], v[..k]) + Dot(u[k..], v[k..])
    decreases |u|
  {
    if k == |u| {
      assert u[..k] == u && v[..k] == v;
    } else {
      var n := |u| - 1;
      DotSplit(u[..n], v[..n], k);
      assert u[..n][..k] == u[..k] && v[..n][..k] == v[..k];
      assert u[k..][..n - k] == u[..n][k..] && v[k..][..n - k] == v[..n][k..];
    }
  }

  lemma DotBasis(v: Vec, i: nat)
    requires i < |v|
    ensures Dot(Basis(|v|, i), v) == v[i] == Dot(v, Basis(|v|, i))
  {
    DotOne(Basis(|v|, i), v, i);
    DotSym(Basis(|v|, i), v);
  }

  lemma {:induction false} DotNonNegative(u: Vec, v: Vec)
    requires |u| == |v| && forall k | 0 <= k < |u| :: u[k] * v[k] >= 0.0
    ensures Dot(u, v) >= 0.0
  {
    if |u| > 0 {
      var n := |u| - 1;
      assert forall k | 0 <= k < n :: u[..n][k] * v[..n][k] == u[k] * v[k];
      DotNonNegative(u[..n], v[..n]);
    }
  }

  lemma {:induction false} DotPositive(u: Vec, v: Vec, i: nat)
    requires |u| == |v| && forall k | 0 <= k < |u| :: u[k] * v[k] >= 0.0
    requires i < |u| && u[i] * v[i] > 0.0
    ensures Dot(u, v) > 0.0
  {
    var n := |u| - 1;
    assert forall k | 0 <= k < n :: u[..n][k] * v[..n][k] == u[k] * v[k];
    DotNonNegative(u[..n], v[..n]);
    if i < n { DotPositive(u[..n], v[..n], i); }
    assert Dot(u, v) == Dot(u[..n], v[..n]) + u[n] * v[n];
  }

  lemma VecEq(u: Vec, v: Vec)
    requires |u| == |v| && forall i | 0 <= i < |u| :: u[i] == v[i]
    ensures u == v
  {}

  // ---------------------------------------------------------------- matrices

  function Apply(a: Mat, x: Vec): (y: Vec)
    requires |x| == a.width
    ensures |y| == |a.rows|
  {
    seq(|a.rows|, i requires 0 <= i < |a.rows| => Dot(a.rows[i], x))
  }

  function Transpose(a: Mat): (t: Mat)
    ensures Shape(t, a.width, |a.rows|)
    ensures forall i, j | 0 <= i < a.width && 0 <= j < |a.rows| :: t.rows[i][j] == a.rows[j][i]
  {
    Mat(|a.rows|, seq(a.width, j requires 0 <= j < a.width =>
      seq(|a.rows|, i requires 0 <= i < |a.rows| => a.rows[i][j])))
  }

  function Mul(a: Mat, b: Mat): (c: Mat)
    requires a.width == |b.rows|
    ensures Shape(c, |a.rows|, b.width)
  {
    var bt := Transpose(b);
    Mat(b.width, seq(|a.rows|, i requires 0 <= i < |a.rows| => Apply(bt, a.rows[i])))
  }

  /** a p + b q */
  function CombM(a: real, p: Mat, b: real, q: Mat): (c: Mat)
    requires Shape(p, |q.rows|, q.width)
    ensures Shape(c, |q.rows|, q.width)
  {
    Mat(q.width, seq(|q.rows|, i requires 0 <= i < |q.rows| => Comb(a, p.rows[i], b, q.rows[i])))
  }

  function Diagonal(d: Vec): (c: Mat)
    ensures Shape(c, |d|, |d|)
  {
    Mat(|d|, seq(|d|, i requires 0 <= i < |d| => seq(|d|, j => if i == j then d[i] else 0.0)))
  }

  function Identity(n: nat): (c: Mat)
    ensures Shape(c, n, n)
  {
    Diagonal(seq(n, _ => 1.0))
  }

  /** Row k picks entry index[k] of a vector of n. */
  function Selection(n: nat, index: seq<nat>): (h: Mat)
    ensures Shape(h, |index|, n)
  {
    Mat(n, seq(|index|, k requires 0 <= k < |index| => Basis(n, index[k])))
  }

  lemma SelectionApplied(index: seq<nat>, x: Vec, k: nat)
    requires k < |index| && index[k] < |x|
    ensures Apply(Selection(|x|, index), x)[k] == x[index[k]]
  {
    DotBasis(x, index[k]);
  }

  lemma MatEq(a: Mat, b: Mat)
    requires Shape(a, |b.rows|, b.width)
    requires forall i, j | 0 <= i < |b.rows| && 0 <= j < b.width :: a.rows[i][j] == b.rows[i][j]
    ensures a == b
  {
    forall i | 0 <= i < |b.rows| ensures a.rows[i] == b.rows[i] { VecEq(a.rows[i], b.rows[i]); }
    assert a.rows == b.rows;
  }

  lemma ApplyComb(p: Mat, a: real, x: Vec, b: real, y: Vec)
    requires |x| == |y| == p.width
    ensures Apply(p, Comb(a, x, b, y)) == Comb(a, Apply(p, x), b, Apply(p, y))
  {
    forall i | 0 <= i < |p.rows|
      ensures Apply(p, Comb(a, x, b, y))[i] == Comb(a, Apply(p, x), b, Apply(p, y))[i]
    {
      DotCombRight(p.rows[i], a, x, b, y);
    }
  }

  lemma ApplyCombM(a: real, p: Mat, b: real, q: Mat, x: Vec)
    requires Shape(p, |q.rows|, q.width) && |x| == q.width
    ensures Apply(CombM(a, p, b, q), x) == Comb(a, Apply(p, x), b, Apply(q, x))
  {
    forall i | 0 <= i < |p.rows|
      ensures Apply(CombM(a, p, b, q), x)[i] == Comb(a, Apply(p, x), b, Apply(q, x))[i]
    {
      DotComb(a, p.rows[i], b, q.rows[i], x);
    }
  }

  lemma ApplyDiagonal(d: Vec, x: Vec)
    requires |d| == |x|
    ensures forall i | 0 <= i < |d| :: Apply(Diagonal(d), x)[i] == d[i] * x[i]
  {
    forall i | 0 <= i < |d| ensures Apply(Diagonal(d), x)[i] == d[i] * x[i] {
      DotOne(Diagonal(d).rows[i], x, i);
    }
  }

  lemma ApplyIdentity(x: Vec)
    ensures Apply(Identity(|x|), x) == x
  {
    ApplyDiagonal(seq(|x|, _ => 1.0), x);
  }

  function DropLast(a: Mat): (c: Mat)
    requires |a.rows| > 0
    ensures Shape(c, |a.rows| - 1, a.width)
  {
    Mat(a.width, a.rows[..|a.rows| - 1])
  }

  /** A^T x is a combination of the rows of A. */
  lemma TransposeApplyStep(a: Mat, x: Vec)
    requires |x| == |a.rows| > 0
    ensures var n := |x| - 1;
            Apply(Transpose(a), x) == Comb(1.0, Apply(Transpose(DropLast(a)), x[..n]), x[n], a.rows[n])
  {
    var n := |x| - 1;
    var t, t' := Transpose(a), Transpose(DropLast(a));
    forall j | 0 <= j < a.width
      ensures Apply(t, x)[j] == Comb(1.0, Apply(t', x[..n]), x[n], a.rows[n])[j]
    {
      VecEq(t.rows[j][..n], t'.rows[j]);
    }
  }

  /** <x, A y> = <A^T x, y>, by induction on the rows of A. */
  lemma {:induction false} Adjoint(a: Mat, x: Vec, y: Vec)
    requires |x| == |a.rows| && |y| == a.width
    ensures Dot(x, Apply(a, y)) == Dot(Apply(Transpose(a), x), y)
    decreases |x|
  {
    hide Dot, Transpose, Apply, Comb;
    if |x| == 0 {
      DotNone(x, Apply(a, y));
      NothingApplied(a, x, y);
    } else {
      var n := |x| - 1;
      var head := Apply(Transpose(DropLast(a)), x[..n]);
      Adjoint(DropLast(a), x[..n], y);
      ApplyLast(a, y);
      DotLast(x, Apply(a, y), n);
      TransposeApplyStep(a, x);
      DotComb(1.0, head, x[n], a.rows[n], y);
      SameSum(Dot(head, y), x[n], Apply(a, y)[n], Dot(a.rows[n], y), Dot(x, Apply(a, y)), Dot(Apply(Transpose(a), x), y));
    }
  }

  lemma NothingApplied(a: Mat, x: Vec, y: Vec)
    requires |x| == |a.rows| == 0 && |y| == a.width
    ensures Dot(Apply(Transpose(a), x), y) == 0.0
  {
    DotZero(Apply(Transpose(a), x), y);
  }

  lemma SameSum(p: real, s: real, q: real, q': real, l: real, r: real)
    requires q == q' && l == p + s * q && r == 1.0 * p + s * q'
    ensures l == r
  {
  }

  lemma ApplyLast(a: Mat, y: Vec)
    requires |a.rows| > 0 && |y| == a.width
    ensures var n := |a.rows| - 1; Apply(a, y)[n] == Dot(a.rows[n], y) && Apply(a, y)[..n] == Apply(DropLast(a), y)
  {
    hide Dot;
    VecEq(Apply(a, y)[..|a.rows| - 1], Apply(DropLast(a), y));
  }

  lemma ApplyMul(a: Mat, b: Mat, x: Vec)
    requires a.width == |b.rows| && |x| == b.width
    ensures Apply(Mul(a, b), x) == Apply(a, Apply(b, x))
  {
    forall i | 0 <= i < |a.rows| ensures Apply(Mul(a, b), x)[i] == Apply(a, Apply(b, x))[i] {
      Adjoint(b, a.rows[i], x);
    }
  }

  lemma EntryByBasis(a: Mat, i: nat, j: nat)
    requires i < |a.rows| && j < a.width
    ensures a.rows[i][j] == Dot(Basis(|a.rows|, i), Apply(a, Basis(a.width, j)))
  {
    DotBasis(Apply(a, Basis(a.width, j)), i);
    DotBasis(a.rows[i], j);
  }

  // ---------------------------------------------------------------- quadratic forms

  function Form(p: Mat, x: Vec): real
    requires Shape(p, |x|, |x|)
  {
    Dot(x, Apply(p, x))
  }

  ghost predicate Symmetric(p: Mat) {
    p.width == |p.rows| && forall i, j | 0 <= i < |p.rows| && 0 <= j < |p.rows| :: p.rows[i][j] == p.rows[j][i]
  }

  ghost predicate PositiveDefinite(p: Mat, n: nat) {
    Shape(p, n, n) && forall x: Vec | |x| == n && x != Zero(n) :: Form(p, x) > 0.0
  }

  ghost predicate PositiveSemidefinite(p: Mat, n: nat) {
    Shape(p, n, n) && forall x: Vec | |x| == n :: Form(p, x) >= 0.0
  }

  /** p x = 0 only for x = 0: what makes a linear solve with p well defined. */
  ghost predicate Regular(p: Mat, n: nat) {
    Shape(p, n, n) && forall x: Vec | |x| == n && Apply(p, x) == Zero(n) :: x == Zero(n)
  }

  lemma PositiveDefiniteIsRegular(p: Mat, n: nat)
    requires PositiveDefinite(p, n)
    ensures Regular(p, n)
  {
    forall x: Vec | |x| == n && Apply(p, x) == Zero(n) ensures x == Zero(n) {
      DotZero(x, Apply(p, x));
    }
  }

  /** <x, P y> = <P x, y> for a symmetric P. */
  lemma SymmetricSwap(p: Mat, x: Vec, y: Vec)
    requires Symmetric(p) && |x| == |y| == |p.rows|
    ensures Dot(x, Apply(p, y)) == Dot(y, Apply(p, x))
  {
    MatEq(Transpose(p), p);
    Adjoint(p, x, y);
    DotSym(Apply(p, x), y);
  }

  lemma SwapMakesSymmetric(p: Mat, n: nat)
    requires Shape(p, n, n)
    requires forall x: Vec, y: Vec | |x| == n && |y| == n :: Dot(x, Apply(p, y)) == Dot(y, Apply(p, x))
    ensures Symmetric(p)
  {
    forall i, j | 0 <= i < n && 0 <= j < n ensures p.rows[i][j] == p.rows[j][i] {
      EntryByBasis(p, i, j);
      EntryByBasis(p, j, i);
    }
  }

  /** (P + P^T) / 2 */
  function Symmetrized(p: Mat): (c: Mat)
    requires p.width == |p.rows|
    ensures Shape(c, |p.rows|, p.width)
  {
    CombM(0.5, p, 0.5, Transpose(p))
  }

  lemma SymmetrizedKeepsForm(p: Mat, x: Vec)
    requires Shape(p, |x|, |x|)
    ensures Form(Symmetrized(p), x) == Form(p, x)
  {
    var y, z := Apply(p, x), Apply(Transpose(p), x);
    ApplyCombM(0.5, p, 0.5, Transpose(p), x);
    DotCombRight(x, 0.5, y, 0.5, z);
    Adjoint(p, x, x);
    DotSym(x, z);
  }

  lemma SymmetrizedIsSymmetric(p: Mat)
    requires p.width == |p.rows|
    ensures Symmetric(Symmetrized(p))
  {}

  /** In exact arithmetic symmetrizing leaves a symmetric matrix alone. */
  lemma SymmetrizedFixes(p: Mat)
    requires Symmetric(p)
    ensures Symmetrized(p) == p
  {
    MatEq(Symmetrized(p), p);
  }

  /** A P A^T */
  function Sandwich(a: Mat, p: Mat): (c: Mat)
    requires Shape(p, a.width, a.width)
    ensures Shape(c, |a.rows|, |a.rows|)
  {
    Mul(Mul(a, p), Transpose(a))
  }

  /** <x, A P A^T y> = <A^T x, P A^T y> */
  lemma SandwichForm(a: Mat, p: Mat, x: Vec, y: Vec)
    requires Shape(p, a.width, a.width) && |x| == |y| == |a.rows|
    ensures Dot(x, Apply(Sandwich(a, p), y)) == Dot(Apply(Transpose(a), x), Apply(p, Apply(Transpose(a), y)))
  {
    var aty := Apply(Transpose(a), y);
    ApplyMul(Mul(a, p), Transpose(a), y);
    ApplyMul(a, p, aty);
    Adjoint(a, x, Apply(p, aty));
  }

  lemma SandwichIsSymmetric(a: Mat, p: Mat)
    requires Shape(p, a.width, a.width) && Symmetric(p)
    ensures Symmetric(Sandwich(a, p))
  {
    var n := |a.rows|;
    forall x: Vec, y: Vec | |x| == n && |y| == n
      ensures Dot(x, Apply(Sandwich(a, p), y)) == Dot(y, Apply(Sandwich(a, p), x))
    {
      SandwichForm(a, p, x, y);
      SandwichForm(a, p, y, x);
      SymmetricSwap(p, Apply(Transpose(a), x), Apply(Transpose(a), y));
    }
    SwapMakesSymmetric(Sandwich(a, p), n);
  }

  lemma DiagonalTerm(d: Vec, x: Vec, i: nat)
    requires |d| == |x| && i < |d| && d[i] >= 0.0
    ensures var y := Apply(Diagonal(d), x);
            x[i] * y[i] >= 0.0 && (d[i] > 0.0 && x[i] != 0.0 ==> x[i] * y[i] > 0.0)
  {
    ApplyDiagonal(d, x);
    assert x[i] * Apply(Diagonal(d), x)[i] == d[i] * (x[i] * x[i]);
    SquareTimes(d[i], x[i]);
  }

  lemma DiagonalIsPositive(d: Vec)
    requires forall i | 0 <= i < |d| :: d[i] > 0.0
    ensures PositiveDefinite(Diagonal(d), |d|) && Symmetric(Diagonal(d))
  {
    forall x: Vec | |x| == |d| && x != Zero(|d|) ensures Form(Diagonal(d), x) > 0.0 {
      var i :| 0 <= i < |d| && x[i] != 0.0;
      forall k | 0 <= k < |d| ensures x[k] * Apply(Diagonal(d), x)[k] >= 0.0 { DiagonalTerm(d, x, k); }
      DiagonalTerm(d, x, i);
      DotPositive(x, Apply(Diagonal(d), x), i);
    }
  }

  lemma SquareTimes(d: real, x: real)
    requires d >= 0.0
    ensures d * (x * x) >= 0.0
    ensures d > 0.0 && x != 0.0 ==> d * (x * x) > 0.0
  {
    assert x * x >= 0.0;
    assert x != 0.0 ==> x * x > 0.0;
  }
}
