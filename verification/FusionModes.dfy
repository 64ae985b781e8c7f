/** The two fusion modes agree. An update is pinned down by a small system of equations that
    mentions no inverse; updating with two readings one after the other and updating with both
    stacked on top of one another solve the same system. */
module FusionModes {
  import opened LinearAlgebra
  import opened Kalman
  import opened Corrections
  import opened Estimates
  import opened LinearSolve
  import opened Measurements
  import opened Options
  import opened SensorModel
  import opened SensorFusion

  // ---------------------------------------------------------------- one reading

  /** y = P (w - H^T l) and R l = H y: what y = P' w means for the updated covariance P'. */
  ghost predicate Answers(p: Mat, h: Mat, r: Mat, w: Vec, l: Vec, y: Vec)
    requires Fits(p, h, r)
  {
    && |w| == |y| == h.width && |l| == |h.rows|
    && y == Apply(p, Minus(w, Back(h, l))) && Apply(r, l) == Apply(h, y)
  }

  lemma AnswersFix(p: Mat, h: Mat, r: Mat, w: Vec, l: Vec, y: Vec)
    requires Fits(p, h, r) && Answers(p, h, r, w, l, y)
    ensures Apply(Innovation(p, h, r), l) == Apply(h, Apply(p, w))
  {
    var b := Back(h, l);
    InnovationApplied(p, h, r, l);
    ApplyPlus(p, w, b);
    ApplyPlus(h, Apply(p, w), Apply(p, b));
    VecEq(Plus(Apply(h, Apply(p, b)), Apply(h, y)), Apply(h, Apply(p, w)));
  }

  lemma AnswersAreUnique(p: Mat, h: Mat, r: Mat, w: Vec, l: Vec, y: Vec, l': Vec, y': Vec)
    requires Covariance(p, h.width) && Covariance(r, |h.rows|)
    requires Answers(p, h, r, w, l, y) && Answers(p, h, r, w, l', y')
    ensures y == y'
  {
    AnswersFix(p, h, r, w, l, y);
    AnswersFix(p, h, r, w, l', y');
    InnovationIsRegular(p, h, r);
    RegularIsInjective(Innovation(p, h, r), l, l');
  }

  /** S K^T w = H P w */
  lemma GainTransposed(p: Mat, h: Mat, r: Mat, k: Mat, w: Vec)
    requires Symmetric(p) && Symmetric(r) && OptimalGain(p, h, r, k) && |w| == h.width
    ensures Apply(Innovation(p, h, r), Apply(Transpose(k), w)) == Apply(h, Apply(p, w))
  {
    var s, l := Innovation(p, h, r), Apply(Transpose(k), w);
    SandwichIsSymmetric(h, p);
    SumIsSymmetric(Sandwich(h, p), r);
    var lhs, rhs := Apply(s, l), Apply(h, Apply(p, w));
    forall v: Vec | |v| == |lhs| ensures Dot(lhs, v) == Dot(rhs, v) {
      SymmetricSwap(s, l, v);
      DotSym(lhs, v);
      SymmetricSwap(s, v, l);
      ApplyMul(k, s, v);
      ApplyMul(p, Transpose(h), v);
      Adjoint(k, w, Apply(s, v));
      assert Dot(w, Apply(p, Back(h, v))) == Dot(l, Apply(s, v));
      SymmetricSwap(p, w, Back(h, v));
      DotSym(Apply(p, w), Back(h, v));
      Adjoint(h, v, Apply(p, w));
      DotSym(v, rhs);
      DotSym(l, Apply(s, v));
    }
    VecByDot(lhs, rhs);
  }

  /** (I - K H) v = v - K H v */
  lemma ResidualApplied(h: Mat, k: Mat, v: Vec)
    requires Shape(k, h.width, |h.rows|) && |v| == h.width
    ensures Apply(Residual(h, k), v) == Minus(v, Apply(k, Apply(h, v)))
  {
    ApplyCombM(1.0, Identity(h.width), -1.0, Mul(k, h), v);
    ApplyIdentity(v);
    ApplyMul(k, h, v);
  }

  lemma SandwichApplied(a: Mat, p: Mat, w: Vec)
    requires Shape(p, a.width, a.width) && |w| == |a.rows|
    ensures Apply(Sandwich(a, p), w) == Apply(a, Apply(p, Apply(Transpose(a), w)))
  {
    ApplyMul(Mul(a, p), Transpose(a), w);
    ApplyMul(a, p, Apply(Transpose(a), w));
  }

  /** The updated covariance answers every w. */
  lemma PosteriorAnswers(p: Mat, h: Mat, r: Mat, k: Mat, w: Vec)
    requires Symmetric(p) && Symmetric(r) && OptimalGain(p, h, r, k) && |w| == h.width
    ensures Answers(p, h, r, w, Apply(Transpose(k), w), Apply(Joseph(p, h, r, k), w))
  {
    var l := Apply(Transpose(k), w);
    var u := Minus(w, Back(h, l));
    var pu, rl := Apply(p, u), Apply(r, l);
    GainTransposed(p, h, r, k, w);
    InnovationApplied(p, h, r, l);
    ApplyPlus(p, w, Back(h, l));
    ApplyPlus(h, Apply(p, w), Apply(p, Back(h, l)));
    VecEq(Apply(h, pu), rl);
    ApplyCombM(1.0, Sandwich(Residual(h, k), p), 1.0, Sandwich(k, r), w);
    SandwichApplied(Residual(h, k), p, w);
    SandwichApplied(k, r, w);
    ResidualTransposed(h, k, w);
    ResidualApplied(h, k, pu);
    VecEq(Plus(Minus(pu, Apply(k, rl)), Apply(k, rl)), pu);
  }

  // ---------------------------------------------------------------- two readings

  function Atop(a: Reading, b: Reading): Reading
    requires WellShaped(a, |a.z|) && WellShaped(b, |b.z|)
    ensures WellShaped(Atop(a, b), |a.z| + |b.z|)
  {
    Reading(Mat(STATE_DIM, a.h.rows + b.h.rows), a.z + b.z, a.noise + b.noise)
  }

  lemma {:induction false} DotConcat(u: Vec, v: Vec, u': Vec, v': Vec)
    requires |u| == |v| && |u'| == |v'|
    ensures Dot(u + u', v + v') == Dot(u, v) + Dot(u', v')
  {
    if |u'| == 0 {
      assert u + u' == u && v + v' == v;
    } else {
      var n := |u'| - 1;
      DotConcat(u, v, u'[..n], v'[..n]);
      assert (u + u')[..|u| + n] == u + u'[..n] && (v + v')[..|v| + n] == v + v'[..n];
    }
  }

  lemma BackAtop(a: Reading, b: Reading, l: Vec, m: Vec)
    requires WellShaped(a, |a.z|) && WellShaped(b, |b.z|) && |l| == |a.z| && |m| == |b.z|
    ensures Back(Atop(a, b).h, l + m) == Plus(Back(a.h, l), Back(b.h, m))
  {
    var h := Atop(a, b).h;
    forall j | 0 <= j < STATE_DIM ensures Back(h, l + m)[j] == Back(a.h, l)[j] + Back(b.h, m)[j] {
      var s, t := Transpose(a.h).rows[j], Transpose(b.h).rows[j];
      VecEq(Transpose(h).rows[j], s + t);
      DotConcat(s, l, t, m);
    }
    VecEq(Back(h, l + m), Plus(Back(a.h, l), Back(b.h, m)));
  }

  lemma ApplyAtop(a: Reading, b: Reading, y: Vec)
    requires WellShaped(a, |a.z|) && WellShaped(b, |b.z|) && |y| == STATE_DIM
    ensures Apply(Atop(a, b).h, y) == Apply(a.h, y) + Apply(b.h, y)
  {
  }

  lemma DiagonalAt(d: Vec, x: Vec, i: nat)
    requires |d| == |x| && i < |d|
    ensures Apply(Diagonal(d), x)[i] == d[i] * x[i]
  {
    ApplyDiagonal(d, x);
  }

  lemma NoiseAtop(d: Vec, e: Vec, l: Vec, m: Vec)
    requires |l| == |d| && |m| == |e|
    ensures Apply(Diagonal(d + e), l + m) == Apply(Diagonal(d), l) + Apply(Diagonal(e), m)
  {
    hide Apply, Diagonal;
    var lhs, rhs := Apply(Diagonal(d + e), l + m), Apply(Diagonal(d), l) + Apply(Diagonal(e), m);
    forall i: nat | i < |lhs| ensures lhs[i] == rhs[i] {
      DiagonalAt(d + e, l + m, i);
      if i < |l| { DiagonalAt(d, l, i); } else { DiagonalAt(e, m, i - |l|); }
    }
    VecEq(lhs, rhs);
  }

  /** The equations of both readings at once; they do not depend on the order of the two. */
  ghost predicate BothAnswer(p: Mat, a: Reading, b: Reading, w: Vec, l: Vec, m: Vec, y: Vec)
    requires WellShaped(a, |a.z|) && WellShaped(b, |b.z|) && Shape(p, STATE_DIM, STATE_DIM)
  {
    && |w| == |y| == STATE_DIM && |l| == |a.z| && |m| == |b.z|
    && y == Apply(p, Minus(w, Plus(Back(a.h, l), Back(b.h, m))))
    && Apply(Diagonal(a.noise), l) == Apply(a.h, y) && Apply(Diagonal(b.noise), m) == Apply(b.h, y)
  }

  ghost predicate BothSettle(p: Mat, a: Reading, b: Reading, x: Vec, l: Vec, m: Vec, x': Vec)
    requires WellShaped(a, |a.z|) && WellShaped(b, |b.z|) && Shape(p, STATE_DIM, STATE_DIM)
  {
    && |x| == |x'| == STATE_DIM && |l| == |a.z| && |m| == |b.z|
    && x' == Plus(x, Apply(p, Plus(Back(a.h, l), Back(b.h, m))))
    && Apply(Diagonal(a.noise), l) == Minus(a.z, Apply(a.h, x'))
    && Apply(Diagonal(b.noise), m) == Minus(b.z, Apply(b.h, x'))
  }

  lemma BothAnswerAtop(p: Mat, a: Reading, b: Reading, w: Vec, l: Vec, m: Vec, y: Vec)
    requires WellShaped(a, |a.z|) && WellShaped(b, |b.z|) && Shape(p, STATE_DIM, STATE_DIM)
    requires BothAnswer(p, a, b, w, l, m, y)
    ensures Answers(p, Atop(a, b).h, Diagonal(Atop(a, b).noise), w, l + m, y)
  {
    BackAtop(a, b, l, m);
    ApplyAtop(a, b, y);
    NoiseAtop(a.noise, b.noise, l, m);
  }

  lemma BothSettleAtop(p: Mat, a: Reading, b: Reading, x: Vec, l: Vec, m: Vec, x': Vec)
    requires WellShaped(a, |a.z|) && WellShaped(b, |b.z|) && Shape(p, STATE_DIM, STATE_DIM)
    requires BothSettle(p, a, b, x, l, m, x')
    ensures Settles(p, Atop(a, b).h, Diagonal(Atop(a, b).noise), x, Atop(a, b).z, l + m, x')
  {
    BackAtop(a, b, l, m);
    ApplyAtop(a, b, x');
    NoiseAtop(a.noise, b.noise, l, m);
    VecEq(Minus(a.z, Apply(a.h, x')) + Minus(b.z, Apply(b.h, x')), Minus(a.z + b.z, Apply(Atop(a, b).h, x')));
  }

  lemma SumSwaps(u: Vec, v: Vec)
    requires |u| == |v|
    ensures Plus(u, v) == Plus(v, u)
  {
  }

  lemma BothAnswerSwaps(p: Mat, a: Reading, b: Reading, w: Vec, l: Vec, m: Vec, y: Vec)
    requires WellShaped(a, |a.z|) && WellShaped(b, |b.z|) && Shape(p, STATE_DIM, STATE_DIM)
    requires BothAnswer(p, a, b, w, l, m, y)
    ensures BothAnswer(p, b, a, w, m, l, y)
  {
    SumSwaps(Back(a.h, l), Back(b.h, m));
    hide Apply, Back;
  }

  lemma BothSettleSwaps(p: Mat, a: Reading, b: Reading, x: Vec, l: Vec, m: Vec, x': Vec)
    requires WellShaped(a, |a.z|) && WellShaped(b, |b.z|) && Shape(p, STATE_DIM, STATE_DIM)
    requires BothSettle(p, a, b, x, l, m, x')
    ensures BothSettle(p, b, a, x, m, l, x')
  {
    SumSwaps(Back(a.h, l), Back(b.h, m));
    hide Apply, Back;
  }

  /** One reading, then the other: for the covariance, */
  lemma OneThenOtherAnswers(p: Mat, p': Mat, a: Reading, b: Reading, w: Vec, l: Vec, m: Vec, y: Vec)
    requires WellShaped(a, |a.z|) && WellShaped(b, |b.z|) && Shape(p, STATE_DIM, STATE_DIM) && Shape(p', STATE_DIM, STATE_DIM)
    requires Answers(p', b.h, Diagonal(b.noise), w, m, y)
    requires Answers(p, a.h, Diagonal(a.noise), Minus(w, Back(b.h, m)), l, y)
    ensures BothAnswer(p, a, b, w, l, m, y)
  {
    VecEq(Minus(Minus(w, Back(b.h, m)), Back(a.h, l)), Minus(w, Plus(Back(a.h, l), Back(b.h, m))));
  }

  /** and for the state. The first correction is revised by what the second reading adds. */
  lemma OneThenOtherSettles(p: Mat, p': Mat, a: Reading, b: Reading, x: Vec, l: Vec, x1: Vec,
                                               m: Vec, x2: Vec, l': Vec)
    requires WellShaped(a, |a.z|) && WellShaped(b, |b.z|) && Shape(p, STATE_DIM, STATE_DIM) && Shape(p', STATE_DIM, STATE_DIM)
    requires Settles(p, a.h, Diagonal(a.noise), x, a.z, l, x1)
    requires Settles(p', b.h, Diagonal(b.noise), x1, b.z, m, x2)
    requires Answers(p, a.h, Diagonal(a.noise), Back(b.h, m), l', Apply(p', Back(b.h, m)))
    ensures BothSettle(p, a, b, x, Minus(l, l'), m, x2)
  {
    var ra := Diagonal(a.noise);
    var ba, ba', bb := Back(a.h, l), Back(a.h, l'), Back(b.h, m);
    var d, y := Apply(p, ba), Apply(p', bb);
    ApplyPlus(Transpose(a.h), l, l');
    ApplyPlus(p, ba, Minus(bb, ba'));
    VecEq(Plus(ba, Minus(bb, ba')), Plus(Minus(ba, ba'), bb));
    VecEq(Plus(Plus(x, d), y), Plus(x, Plus(d, y)));
    ApplyPlus(ra, l, l');
    ApplyPlus(a.h, x1, y);
    VecEq(Minus(Minus(a.z, Apply(a.h, x1)), Apply(a.h, y)), Minus(a.z, Apply(a.h, x2)));
  }

  // ---------------------------------------------------------------- updates

  lemma FusedAnswers(e: Estimate, rd: Reading, w: Vec) returns (l: Vec)
    requires Sane(e) && WellShaped(rd, |rd.z|) && |w| == STATE_DIM
    ensures Answers(e.p, rd.h, Diagonal(rd.noise), w, l, Apply(Fused(e, rd).p, w))
  {
    DiagonalIsPositive(rd.noise);
    var r := Diagonal(rd.noise);
    var k := Gain(e.p, rd.h, r);
    JosephKeepsCovariance(e.p, rd.h, r, k);
    l := Apply(Transpose(k), w);
    PosteriorAnswers(e.p, rd.h, r, k, w);
    hide Answers;
  }

  lemma FusedSettles(e: Estimate, rd: Reading) returns (m: Vec)
    requires Sane(e) && WellShaped(rd, |rd.z|)
    ensures Settles(e.p, rd.h, Diagonal(rd.noise), e.x, rd.z, m, Fused(e, rd).x)
  {
    DiagonalIsPositive(rd.noise);
    var r := Diagonal(rd.noise);
    var k := Gain(e.p, rd.h, r);
    InnovationIsRegular(e.p, rd.h, r);
    m := Solve(Innovation(e.p, rd.h, r), Minus(rd.z, Apply(rd.h, e.x)));
    CorrectedSettles(e.p, rd.h, r, k, e.x, rd.z, m);
    hide Settles;
  }

  lemma SameAction(p: Mat, q: Mat, n: nat)
    requires Shape(p, n, n) && Shape(q, n, n)
    requires forall w: Vec | |w| == n :: Apply(p, w) == Apply(q, w)
    ensures p == q
  {
    forall i, j | 0 <= i < n && 0 <= j < n ensures p.rows[i][j] == q.rows[i][j] {
      EntryByBasis(p, i, j);
      EntryByBasis(q, i, j);
    }
    MatEq(p, q);
  }

  /** Whatever solves the equations of both readings is the update with both stacked. */
  lemma AtopAction(e: Estimate, a: Reading, b: Reading, w: Vec, l: Vec, m: Vec, y: Vec)
    requires Sane(e) && WellShaped(a, |a.z|) && WellShaped(b, |b.z|) && BothAnswer(e.p, a, b, w, l, m, y)
    ensures y == Apply(Fused(e, Atop(a, b)).p, w)
  {
    var ab := Atop(a, b);
    BothAnswerAtop(e.p, a, b, w, l, m, y);
    hide BothAnswer, Fused, Answers;
    DiagonalIsPositive(ab.noise);
    var n := FusedAnswers(e, ab, w);
    AnswersAreUnique(e.p, ab.h, Diagonal(ab.noise), w, l + m, y, n, Apply(Fused(e, ab).p, w));
  }

  lemma AtopState(e: Estimate, a: Reading, b: Reading, l: Vec, m: Vec, x': Vec)
    requires Sane(e) && WellShaped(a, |a.z|) && WellShaped(b, |b.z|) && BothSettle(e.p, a, b, e.x, l, m, x')
    ensures x' == Fused(e, Atop(a, b)).x
  {
    var ab := Atop(a, b);
    BothSettleAtop(e.p, a, b, e.x, l, m, x');
    hide BothSettle, Fused, Settles;
    DiagonalIsPositive(ab.noise);
    var n := FusedSettles(e, ab);
    SettlesAreUnique(e.p, ab.h, Diagonal(ab.noise), e.x, ab.z, l + m, x', n, Fused(e, ab).x);
  }

  lemma TwiceAnswers(e: Estimate, a: Reading, b: Reading, w: Vec) returns (l: Vec, m: Vec)
    requires Sane(e) && WellShaped(a, |a.z|) && WellShaped(b, |b.z|) && |w| == STATE_DIM
    ensures BothAnswer(e.p, a, b, w, l, m, Apply(Fused(Fused(e, a), b).p, w))
  {
    hide Fused;
    var e1 := Fused(e, a);
    m := FusedAnswers(e1, b, w);
    var u := Minus(w, Back(b.h, m));
    l := FusedAnswers(e, a, u);
    OneThenOtherAnswers(e.p, e1.p, a, b, w, l, m, Apply(Fused(e1, b).p, w));
  }

  lemma TwiceSettles(e: Estimate, a: Reading, b: Reading) returns (l: Vec, m: Vec)
    requires Sane(e) && WellShaped(a, |a.z|) && WellShaped(b, |b.z|)
    ensures BothSettle(e.p, a, b, e.x, l, m, Fused(Fused(e, a), b).x)
  {
    hide Fused;
    var e1 := Fused(e, a);
    var l1 := FusedSettles(e, a);
    m := FusedSettles(e1, b);
    var l' := FusedAnswers(e, a, Back(b.h, m));
    OneThenOtherSettles(e.p, e1.p, a, b, e.x, l1, e1.x, m, Fused(e1, b).x, l');
    l := Minus(l1, l');
  }

  /** Two readings one after the other, or both at once: the same estimate. */
  lemma TwiceIsAtop(e: Estimate, a: Reading, b: Reading)
    requires Sane(e) && WellShaped(a, |a.z|) && WellShaped(b, |b.z|)
    ensures Fused(Fused(e, a), b) == Fused(e, Atop(a, b))
  {
    hide Fused, BothAnswer, BothSettle, Atop;
    var e', s := Fused(Fused(e, a), b), Fused(e, Atop(a, b));
    forall w: Vec | |w| == STATE_DIM ensures Apply(e'.p, w) == Apply(s.p, w) {
      var l, m := TwiceAnswers(e, a, b, w);
      AtopAction(e, a, b, w, l, m, Apply(e'.p, w));
    }
    SameAction(e'.p, s.p, STATE_DIM);
    var l, m := TwiceSettles(e, a, b);
    AtopState(e, a, b, l, m, e'.x);
  }

  lemma OtherOrderIsAtop(e: Estimate, a: Reading, b: Reading)
    requires Sane(e) && WellShaped(a, |a.z|) && WellShaped(b, |b.z|)
    ensures Fused(Fused(e, b), a) == Fused(e, Atop(a, b))
  {
    hide Fused, BothAnswer, BothSettle, Atop;
    var e', s := Fused(Fused(e, b), a), Fused(e, Atop(a, b));
    forall w: Vec | |w| == STATE_DIM ensures Apply(e'.p, w) == Apply(s.p, w) {
      var m, l := TwiceAnswers(e, b, a, w);
      BothAnswerSwaps(e.p, b, a, w, m, l, Apply(e'.p, w));
      AtopAction(e, a, b, w, l, m, Apply(e'.p, w));
    }
    SameAction(e'.p, s.p, STATE_DIM);
    var m, l := TwiceSettles(e, b, a);
    BothSettleSwaps(e.p, b, a, e.x, m, l, e'.x);
    AtopState(e, a, b, l, m, e'.x);
  }

  /** The order of two readings does not matter. */
  lemma FusionCommutes(e: Estimate, a: Reading, b: Reading)
    requires Sane(e) && WellShaped(a, |a.z|) && WellShaped(b, |b.z|)
    ensures Fused(Fused(e, a), b) == Fused(Fused(e, b), a)
  {
    TwiceIsAtop(e, a, b);
    OtherOrderIsAtop(e, a, b);
    hide Fused, Atop, Sane;
  }

  // ---------------------------------------------------------------- whole buffers

  /** The step of sequential mode. */
  function FusedOne(e: Estimate, m: Measurement): (e': Estimate)
    requires Sane(e)
    ensures Sane(e')
  {
    SwitchesAgree(m);
    match BuildMeasurementMatrix(m)
    case None => e
    case Some(rd) => Fused(e, rd)
  }

  lemma FusedAllNext(e: Estimate, ms: seq<Measurement>, m: Measurement)
    requires Sane(e)
    ensures FusedAll(e, ms + [m]) == FusedOne(FusedAll(e, ms), m)
  {
  }

  lemma FusedNone(e: Estimate)
    requires Sane(e)
    ensures FusedAll(e, []) == e
  {
  }

  lemma OneCommutes(e: Estimate, m: Measurement, n: Measurement)
    requires Sane(e)
    ensures FusedOne(FusedOne(e, m), n) == FusedOne(FusedOne(e, n), m)
  {
    hide Fused, Sane, BuildMeasurementMatrix, WellShaped;
    SwitchesAgree(m);
    SwitchesAgree(n);
    match (BuildMeasurementMatrix(m), BuildMeasurementMatrix(n))
    case (Some(a), Some(b)) => FusionCommutes(e, a, b);
    case (_, _) =>
  }

  /** A measurement may as well come last. */
  lemma {:induction false} MoveToEnd(e: Estimate, ms: seq<Measurement>, m: Measurement, rest: seq<Measurement>)
    requires Sane(e)
    ensures FusedAll(e, ms + [m] + rest) == FusedAll(e, ms + rest + [m])
  {
    hide Sane, FusedOne, FusedAll;
    if rest == [] {
      assert ms + [m] + rest == ms + rest + [m];
    } else {
      var k := |rest| - 1;
      var n := rest[k];
      MoveToEnd(e, ms, m, rest[..k]);
      assert ms + [m] + rest == (ms + [m] + rest[..k]) + [n];
      FusedAllNext(e, ms + [m] + rest[..k], n);
      FusedAllNext(e, ms + rest[..k], m);
      OneCommutes(FusedAll(e, ms + rest[..k]), m, n);
      FusedAllNext(e, ms + rest[..k], n);
      assert ms + rest == ms + rest[..k] + [n];
      FusedAllNext(e, ms + rest, m);
    }
  }

  lemma SameRest<T>(front: seq<T>, back: seq<T>, rest: seq<T>, m: T)
    requires multiset(front + [m] + back) == multiset(rest + [m])
    ensures multiset(front + back) == multiset(rest)
  {
    assert multiset(front + [m] + back) == multiset(front + back) + multiset{m};
    assert multiset(rest + [m]) == multiset(rest) + multiset{m};
    assert multiset(front + back) == multiset(front + back) + multiset{m} - multiset{m};
    assert multiset(rest) == multiset(rest) + multiset{m} - multiset{m};
  }

  /** Fusion does not depend on the order of the buffer. */
  lemma {:induction false} OrderDoesNotMatter(e: Estimate, ms: seq<Measurement>, ns: seq<Measurement>)
    requires Sane(e) && multiset(ms) == multiset(ns)
    ensures FusedAll(e, ms) == FusedAll(e, ns)
    decreases |ns|
  {
    hide FusedAll, Sane;
    if ns == [] {
      assert |multiset(ms)| == 0;
    } else {
      var k := |ns| - 1;
      var m := ns[k];
      assert m in multiset(ns);
      var i :| 0 <= i < |ms| && ms[i] == m;
      var front, back := ms[..i], ms[i + 1..];
      assert ms == front + [m] + back && ns == ns[..k] + [m];
      SameRest(front, back, ns[..k], m);
      MoveToEnd(e, front, m, back);
      OrderDoesNotMatter(e, front + back, ns[..k]);
      FusedAllNext(e, front + back, m);
      FusedAllNext(e, ns[..k], m);
    }
  }

  lemma EmptyStack(group: Group)
    requires TotalDimension(group) == 0
    ensures Stacked(group) == Reading(Mat(STATE_DIM, []), [], [])
  {
  }

  lemma KnownSensorsReserveRows(m: Measurement)
    ensures BuildMeasurementMatrix(m).Some? <==> BatchDimension(m.sensor) > 0
  {
  }

  /** One group stacked, or its measurements one after another. */
  lemma {:induction false} GroupIsSequence(e: Estimate, group: Group)
    requires Sane(e)
    ensures FusedAll(e, group) == if TotalDimension(group) == 0 then e else Fused(e, Stacked(group))
  {
    hide Sane, Fused, BuildMeasurementMatrix;
    if group != [] {
      var n := |group| - 1;
      var rest := group[..n];
      GroupIsSequence(e, rest);
      SwitchesAgree(group[n]);
      KnownSensorsReserveRows(group[n]);
      match BuildMeasurementMatrix(group[n])
      case None =>
      case Some(rd) =>
        if TotalDimension(rest) == 0 {
          EmptyStack(rest);
          assert [] + rd.h.rows == rd.h.rows && [] + rd.z == rd.z && [] + rd.noise == rd.noise;
          assert Stacked(group) == rd;
        } else {
          TwiceIsAtop(e, Stacked(rest), rd);
        }
    }
  }

  lemma ConcatLast<T>(front: seq<T>, back: seq<T>)
    requires back != []
    ensures var k := |back| - 1;
            front + back == (front + back[..k]) + [back[k]] && back == back[..k] + [back[k]]
  {
  }

  lemma {:induction false} FusedAllConcat(e: Estimate, ms: seq<Measurement>, ns: seq<Measurement>)
    requires Sane(e)
    ensures FusedAll(e, ms + ns) == FusedAll(FusedAll(e, ms), ns)
  {
    FusedNone(FusedAll(e, ms));
    hide Sane, FusedOne, FusedAll;
    if ns == [] {
      assert ms + ns == ms;
    } else {
      var k := |ns| - 1;
      FusedAllConcat(e, ms, ns[..k]);
      ConcatLast(ms, ns);
      FusedAllNext(e, ms + ns[..k], ns[k]);
      FusedAllNext(FusedAll(e, ms), ns[..k], ns[k]);
    }
  }

  lemma {:induction false} GroupsAreSequence(e: Estimate, groups: seq<Group>)
    requires Sane(e)
    ensures FusedGroups(e, groups) == FusedAll(e, Flatten(groups))
  {
    hide Sane, Fused, Stacked;
    if groups != [] {
      var n := |groups| - 1;
      GroupsAreSequence(e, groups[..n]);
      GroupIsSequence(FusedGroups(e, groups[..n]), groups[n]);
      hide FusedAll;
      FusedAllConcat(e, Flatten(groups[..n]), groups[n]);
    }
  }

  /** Batch mode, with any grouping of the buffer, computes what sequential mode computes. */
  lemma BatchIsSequential(e: Estimate, buffer: seq<Measurement>, groups: seq<Group>)
    requires Sane(e) && multiset(Flatten(groups)) == multiset(buffer)
    ensures FusedGroups(e, groups) == FusedAll(e, buffer)
  {
    hide Sane, FusedAll, FusedGroups, Flatten;
    GroupsAreSequence(e, groups);
    OrderDoesNotMatter(e, Flatten(groups), buffer);
  }

  /** An update does not depend on the fusion mode, on the synchronization threshold, or on the
      order of the buffer. */
  lemma ModesAgree(c: Config, d: Config, s: State, t: State, s': State, t': State)
    requires Sane(s.estimate) && t.estimate == s.estimate && multiset(t.buffer) == multiset(s.buffer)
    requires UpdateStep(c, s, s') && UpdateStep(d, t, t')
    ensures s' == t'
  {
    hide Sane, FusedAll, FusedGroups;
    OrderDoesNotMatter(s.estimate, s.buffer, t.buffer);
    if !c.sequential {
      var groups :| Grouping(s.buffer, c.threshold, groups) && s'.estimate == FusedGroups(s.estimate, groups);
      BatchIsSequential(s.estimate, s.buffer, groups);
    }
    if !d.sequential {
      var groups :| Grouping(t.buffer, d.threshold, groups) && t'.estimate == FusedGroups(t.estimate, groups);
      BatchIsSequential(t.estimate, t.buffer, groups);
    }
  }

  lemma AddedIsUnique(before: seq<Measurement>, m: Measurement, a: seq<Measurement>, b: seq<Measurement>)
    requires Added(before, m, a) && Added(before, m, b)
    ensures a == b
  {
    hide Latest;
  }

  lemma StepsAgree(c: Config, d: Config, s: State, op: Op, s': State, t': State)
    requires Sane(s.estimate) && Step(c, s, op, s') && Step(d, s, op, t')
    ensures s' == t'
  {
    hide Sane, FusedAll, FusedGroups, Predicted, Grouping, UpdateStep, Added, Initial;
    match op
    case Add(m) => AddedIsUnique(s.buffer, m, s'.buffer, t'.buffer);
    case Update => ModesAgree(c, d, s, s, s', t');
    case _ =>
  }

  /** Two filters that differ in mode and threshold go through the same states. */
  lemma {:induction false} RunsAgree(c: Config, d: Config, a: seq<State>, b: seq<State>, ops: seq<Op>, i: nat)
    requires Run(c, a, ops) && Run(d, b, ops) && i <= |ops|
    ensures a[i] == b[i]
  {
    hide Sane, Step, Initial;
    if i > 0 {
      RunsAgree(c, d, a, b, ops, i - 1);
      EveryRunKeepsCovariance(c, a, ops, i - 1);
      StepsAgree(c, d, a[i - 1], ops[i - 1], a[i], b[i]);
    }
  }
}
