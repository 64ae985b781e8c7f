/** What a prediction and a measurement do to the state of the multi-sensor filter, in terms of
    the physical quantities that each sensor is said to observe. */
module SensorEffects {
  import opened LinearAlgebra
  import opened Kalman
  import opened Estimates
  import opened LinearSolve
  import opened Corrections
  import opened Measurements
  import opened Options
  import opened SensorModel
  import opened SensorFusion
  import opened FusionModes

  // ---------------------------------------------------------------- what a sensor observes

  /** What a sensor would read without noise in state x. */
  function Observed(sensor: SensorType, x: Vec): Vec
    requires |x| == STATE_DIM
  {
    match sensor
    case Gps => Position(x)
    case Radar => Position(x)
    case Imu => Orientation(x)
    case Camera => Orientation(x)
    case Lidar => Position(x) + Orientation(x)
    case Ultrasonic => Position(x)[..2]
    case Other => []
  }

  /** The built matrix, applied to any state, gives what the sensor observes, and z holds the
      data, with zeros for missing entries. */
  lemma SensorObserves(m: Measurement, x: Vec)
    requires |x| == STATE_DIM
    ensures match BuildMeasurementMatrix(m)
            case None => m.sensor == Other
            case Some(rd) =>
              && m.sensor != Other && Shape(rd.h, |rd.z|, STATE_DIM) && Apply(rd.h, x) == Observed(m.sensor, x)
              && forall i | 0 <= i < |rd.z| :: rd.z[i] == if i < |m.data| then m.data[i] else 0.0
  {
    match BuildMeasurementMatrix(m)
    case None =>
    case Some(rd) =>
      SwitchesAgree(m);
      forall i: nat | i < |rd.z| ensures Apply(rd.h, x)[i] == Observed(m.sensor, x)[i] {
        match m.sensor
        case Lidar => SelectionApplied([0, 1, 2, 6, 7, 8], x, i);
        case Ultrasonic => SelectionApplied([0, 1], x, i);
        case Imu => SelectionApplied([6, 7, 8], x, i);
        case Camera => SelectionApplied([6, 7, 8], x, i);
        case Gps => SelectionApplied([0, 1, 2], x, i);
        case Radar => SelectionApplied([0, 1, 2], x, i);
        case Other =>
      }
      VecEq(Apply(rd.h, x), Observed(m.sensor, x));
  }

  /** The variance of a reading where the sensor reports none. */
  function DefaultVariance(sensor: SensorType, i: nat): real {
    match sensor
    case Gps => 4.0
    case Imu => 0.0025
    case Camera => 0.0025
    case Lidar => if i < 3 then 0.01 else 0.0004
    case _ => 0.25
  }

  /** A reported variance is taken as it is; the lidar's are fixed. */
  lemma SensorNoise(m: Measurement, i: nat)
    requires BuildMeasurementMatrix(m).Some? && i < |BuildMeasurementMatrix(m).value.noise|
    ensures var variance := BuildMeasurementMatrix(m).value.noise[i];
            if m.sensor != Lidar && m.covariance[i * 3 + i] > 0.000000000001 then variance == m.covariance[i * 3 + i]
            else variance == DefaultVariance(m.sensor, i)
  {
  }

  // ---------------------------------------------------------------- what a measurement does

  /** The measurement reads exactly what it would read in state x. */
  ghost predicate Agrees(m: Measurement, x: Vec)
    requires |x| == STATE_DIM
  {
    BuildMeasurementMatrix(m).Some? ==> BuildMeasurementMatrix(m).value.z == Observed(m.sensor, x)
  }

  /** A measurement that agrees with the state does not move it. */
  lemma AgreeingMeasurementKeepsState(e: Estimate, m: Measurement)
    requires Sane(e) && Agrees(m, e.x)
    ensures FusedOne(e, m).x == e.x
  {
    hide Fused, Settles, Observed, BuildMeasurementMatrix, Diagonal;
    SwitchesAgree(m);
    match BuildMeasurementMatrix(m)
    case None =>
    case Some(rd) =>
      SensorObserves(m, e.x);
      DiagonalIsPositive(rd.noise);
      var l := FusedSettles(e, rd);
      AgreeingStateStays(e.p, rd.h, Diagonal(rd.noise), e.x, rd.z, l, Fused(e, rd).x);
  }

  /** Any measurement leaves the state no farther from what it reads, in units of its variances. */
  lemma MeasurementPullsState(e: Estimate, m: Measurement)
    requires Sane(e) && BuildMeasurementMatrix(m).Some?
    ensures var rd := BuildMeasurementMatrix(m).value;
            && WellShaped(rd, |rd.z|)
            && |Observed(m.sensor, e.x)| == |Observed(m.sensor, Fused(e, rd).x)| == |rd.z|
            && Misfit(Minus(rd.z, Observed(m.sensor, Fused(e, rd).x)), rd.noise)
               <= Misfit(Minus(rd.z, Observed(m.sensor, e.x)), rd.noise)
  {
    hide Fused, Settles, Observed, BuildMeasurementMatrix, Diagonal, Misfit;
    var rd := BuildMeasurementMatrix(m).value;
    SwitchesAgree(m);
    SensorObserves(m, e.x);
    var l := FusedSettles(e, rd);
    SensorObserves(m, Fused(e, rd).x);
    MisfitNeverGrows(e.p, rd.h, rd.noise, e.x, rd.z, l, Fused(e, rd).x);
  }

  /** So a buffer of measurements that all agree with the state leaves it where it is. */
  lemma {:induction false} AgreeingBufferKeepsState(e: Estimate, ms: seq<Measurement>)
    requires Sane(e) && forall m | m in ms :: Agrees(m, e.x)
    ensures FusedAll(e, ms).x == e.x
  {
    hide Sane, FusedAll, FusedOne, Agrees;
    if ms == [] {
      FusedNone(e);
    } else {
      var n := |ms| - 1;
      assert ms == ms[..n] + [ms[n]];
      AgreeingBufferKeepsState(e, ms[..n]);
      FusedAllNext(e, ms[..n], ms[n]);
      AgreeingMeasurementKeepsState(FusedAll(e, ms[..n]), ms[n]);
    }
  }

  // ---------------------------------------------------------------- concrete steps

  lemma TransitionApplied(dt: real, x: Vec, i: nat)
    requires |x| == STATE_DIM && i < STATE_DIM
    ensures Apply(Transition(dt), x)[i] == if i < 3 then x[i] + dt * x[i + 3] else x[i]
  {
    hide Dot;
    var row := Transition(dt).rows[i];
    assert |row| == STATE_DIM && forall j | 0 <= j < STATE_DIM ::
      row[j] == if i == j then 1.0 else if i < 3 && j == i + 3 then dt else 0.0;
    if i < 3 { DotTwo(row, x, i, i + 3); } else { DotOne(row, x, i); }
  }

  /** A prediction moves the position along the velocity, and nothing else. */
  lemma PredictionMoves(e: Estimate, dt: real, i: nat)
    requires Sane(e) && dt > 0.0 && i < STATE_DIM
    ensures Predicted(e, dt).x[i] == if i < 3 then e.x[i] + dt * e.x[i + 3] else e.x[i]
  {
    TransitionApplied(dt, e.x, i);
    hide Apply, Transition, ProcessNoise, Propagated, Symmetric, PositiveDefinite;
  }

  /** The process noise is that of a random acceleration along each axis: in the direction of a
      position p and a velocity v of one axis, it is (0.5 (dt^2/2 p + dt v))^2. */
  lemma NoiseIsRandomAcceleration(dt: real, p: real, v: real, i: nat)
    requires i < 3
    ensures var x := Comb(p, Basis(STATE_DIM, i), v, Basis(STATE_DIM, i + 3));
            var s := 0.5 * (dt * dt / 2.0 * p + dt * v);
            Form(ProcessNoise(dt), x) == s * s
  {
    var x := Comb(p, Basis(STATE_DIM, i), v, Basis(STATE_DIM, i + 3));
    assert forall k | 0 <= k < STATE_DIM :: x[k] == if k == i then p else if k == i + 3 then v else 0.0;
    hide Dot, Comb, Basis;
    NoiseRow(dt, x, i);
    NoiseRow(dt, x, i + 3);
    hide Apply, ProcessNoise;
    DotTwo(x, Apply(ProcessNoise(dt), x), i, i + 3);
  }

  /** How uncertain the filter starts: the variance of each state, nothing correlated. */
  lemma InitialUncertainty(i: nat, j: nat)
    requires i < STATE_DIM && j < STATE_DIM
    ensures Shape(Initial().p, STATE_DIM, STATE_DIM)
    ensures Initial().p.rows[i][j]
         == if i != j then 0.0 else if i < 3 then 100.0 else if i < 6 then 25.0 else if i < 9 then 0.25
            else if i < 12 then 0.01 else 0.0001
  {
    hide Symmetric, PositiveDefinite;
  }

  lemma BackOfPosition(l: Vec, i: nat)
    requires |l| == 3 && i < STATE_DIM
    ensures Back(Selection(STATE_DIM, [0, 1, 2]), l)[i] == if i < 3 then l[i] else 0.0
  {
    var column := Transpose(Selection(STATE_DIM, [0, 1, 2])).rows[i];
    assert forall k | 0 <= k < 3 :: column[k] == if k == i then 1.0 else 0.0;
    hide Dot, Transpose;
    if i < 3 { DotOne(column, l, i); } else { DotZero(column, l); }
  }

  lemma DiagonalStep(x: Vec, d: Vec, b: Vec, i: nat)
    requires |x| == |d| == |b| == STATE_DIM && i < STATE_DIM && x == Plus(Zero(STATE_DIM), Apply(Diagonal(d), b))
    ensures x[i] == d[i] * b[i]
  {
    ApplyDiagonal(d, b);
  }

  lemma Share(x: real, l: real, r: real, z: real)
    requires x == 100.0 * l && r * l == z - x
    ensures (100.0 + r) * x == 100.0 * z
  {
    assert r * x == 100.0 * (r * l);
  }

  /** What the equations of an update say of the first fix. */
  lemma FixMeans(h: Mat, noise: Vec, z: Vec, l: Vec, x: Vec, i: nat)
    requires h == Selection(STATE_DIM, [0, 1, 2]) && |noise| == |z| == |l| == 3 && i < STATE_DIM
    requires |x| == STATE_DIM && Apply(h, x) == Position(x)
    requires Settles(Diagonal(INITIAL_VARIANCES), h, Diagonal(noise), Zero(STATE_DIM), z, l, x)
    ensures if i < 3 then (100.0 + noise[i]) * x[i] == 100.0 * z[i] else x[i] == 0.0
  {
    hide Diagonal, Back, Apply, Selection;
    DiagonalStep(x, INITIAL_VARIANCES, Back(h, l), i);
    BackOfPosition(l, i);
    if i < 3 {
      ApplyDiagonal(noise, l);
      Share(x[i], l[i], noise[i], z[i]);
    }
  }

  lemma GpsReads(m: Measurement, x: Vec)
    requires m.sensor == Gps && |x| == STATE_DIM
    ensures BuildMeasurementMatrix(m).Some? && BatchDimension(m.sensor) == 3
    ensures BuildMeasurementMatrix(m).value.h == Selection(STATE_DIM, [0, 1, 2])
    ensures Apply(BuildMeasurementMatrix(m).value.h, x) == Position(x)
  {
    SensorObserves(m, x);
  }

  lemma InitialIs()
    ensures Initial().x == Zero(STATE_DIM) && Initial().p == Diagonal(INITIAL_VARIANCES)
  {
  }

  lemma InitialSettles(rd: Reading) returns (l: Vec)
    requires WellShaped(rd, |rd.z|)
    ensures var x := Fused(Initial(), rd).x;
            && |x| == STATE_DIM && |l| == |rd.z|
            && Settles(Diagonal(INITIAL_VARIANCES), rd.h, Diagonal(rd.noise), Zero(STATE_DIM), rd.z, l, x)
  {
    hide Fused, Initial, Diagonal;
    InitialIs();
    l := FusedSettles(Initial(), rd);
  }

  /** The first GPS fix of a new filter moves the position towards the reading, by the share of
      the initial variance in the sum of both, and leaves everything else at zero. */
  lemma FirstFix(m: Measurement, i: nat)
    requires m.sensor == Gps && i < STATE_DIM
    ensures BuildMeasurementMatrix(m).Some?
    ensures var rd := BuildMeasurementMatrix(m).value;
            && WellShaped(rd, |rd.z|) && |rd.z| == 3
            && var x := Fused(Initial(), rd).x[i];
               if i < 3 then (100.0 + rd.noise[i]) * x == 100.0 * rd.z[i] else x == 0.0
  {
    hide Fused, Initial, BuildMeasurementMatrix, Selection, Position, Apply, Diagonal, Settles, Sane, Observed;
    SwitchesAgree(m);
    GpsReads(m, Zero(STATE_DIM));
    var rd := BuildMeasurementMatrix(m).value;
    var l := InitialSettles(rd);
    GpsReads(m, Fused(Initial(), rd).x);
    FixMeans(rd.h, rd.noise, rd.z, l, Fused(Initial(), rd).x, i);
  }
}
