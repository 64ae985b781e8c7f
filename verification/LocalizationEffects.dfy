/** What a prediction and an update do to the state of the localizer. */
module LocalizationEffects {
  import opened LinearAlgebra
  import opened Kalman
  import opened LinearSolve
  import opened Corrections
  import opened Angles
  import opened Estimates
  import opened Localization

  /** The localizer starts at the given pose, with wrapped angles, at rest and without bias. */
  lemma StartsAtPose(pose: Vec)
    requires |pose| == 6
    ensures var x := Initial(pose).x;
            && |x| == STATE_DIM && Position(x) == pose[..3]
            && Orientation(x) == [Wrapped(pose[3]), Wrapped(pose[4]), Wrapped(pose[5])]
            && x[3..6] == Zero(3) && x[9..] == Zero(6)
  {
    hide Wrapped, Diagonal, Symmetric, PositiveDefinite;
  }

  /** The index lies in the k-th of the groups position, velocity, orientation, accelerometer
      bias and gyro bias. */
  predicate InGroup(i: nat, k: nat) {
    3 * k <= i < 3 * k + 3
  }

  /** How uncertain the localizer starts, and how much noise a step adds, by group; nothing is
      correlated. */
  lemma UncertaintyByGroup(pose: Vec, pos: real, ori: real, dt: real, i: nat, j: nat)
    requires |pose| == 6 && i < STATE_DIM && j < STATE_DIM
    ensures Shape(Initial(pose).p, STATE_DIM, STATE_DIM)
    ensures var p, q := Initial(pose).p.rows[i][j], Diagonal(ScaledNoise(pos, ori, dt)).rows[i][j];
            && (i != j ==> p == q == 0.0)
            && (i == j && InGroup(i, 0) ==> p == 100.0 && q == pos * pos * dt)
            && (i == j && InGroup(i, 1) ==> p == 1000.0 && q == 100.0 * (pos * pos * dt))
            && (i == j && InGroup(i, 2) ==> p == 1.0 && q == ori * ori * dt)
            && (i == j && InGroup(i, 3) ==> p == 0.01 && q == 0.0001 * dt)
            && (i == j && InGroup(i, 4) ==> p == 0.01 && q == 0.00001 * dt)
  {
    hide Wrapped, Symmetric, PositiveDefinite;
  }

  // ---------------------------------------------------------------- updates

  /** The reading whose difference to the observed states is the innovation. */
  ghost function Virtual(e: Estimate, index: seq<nat>, z: Vec): (v: Vec)
    requires |e.x| == STATE_DIM && |z| == |index| && forall i | 0 <= i < |index| :: index[i] < STATE_DIM
    ensures |v| == |z|
  {
    Plus(Apply(Selection(STATE_DIM, index), e.x), InnovationVector(e.x, index, z))
  }

  /** The updated state is the corrected one with its yaw wrapped. */
  lemma UpdatedSettles(e: Estimate, index: seq<nat>, z: Vec, variances: Vec) returns (l: Vec, moved: Vec)
    requires Sane(e) && WellPosed(index, z, variances)
    ensures |moved| == STATE_DIM && Updated(e, index, z, variances).x == moved[IDX_YAW := Wrapped(moved[IDX_YAW])]
    ensures Settles(e.p, Selection(STATE_DIM, index), Diagonal(variances), e.x, Virtual(e, index, z), l, moved)
  {
    hide InnovationVector, Settles, Selection, Diagonal, Symmetric, PositiveDefinite, Joseph;
    DiagonalIsPositive(variances);
    var h, r := Selection(STATE_DIM, index), Diagonal(variances);
    var k := Gain(e.p, h, r);
    JosephKeepsCovariance(e.p, h, r, k);
    var y, v := InnovationVector(e.x, index, z), Virtual(e, index, z);
    VecEq(Minus(v, Apply(h, e.x)), y);
    InnovationIsRegular(e.p, h, r);
    l := Solve(Innovation(e.p, h, r), y);
    moved := Corrected(e.x, h, v, k);
    CorrectedSettles(e.p, h, r, k, e.x, v, l);
  }

  lemma AgreeingUpdateStays(e: Estimate, index: seq<nat>, z: Vec, variances: Vec)
    requires Sane(e) && WellPosed(index, z, variances) && InnovationVector(e.x, index, z) == Zero(|z|)
    ensures Updated(e, index, z, variances).x == e.x[IDX_YAW := Wrapped(e.x[IDX_YAW])]
  {
    hide InnovationVector, Settles, Selection, Diagonal, Updated;
    DiagonalIsPositive(variances);
    var h := Selection(STATE_DIM, index);
    var l, moved := UpdatedSettles(e, index, z, variances);
    VecEq(Virtual(e, index, z), Apply(h, e.x));
    AgreeingStateStays(e.p, h, Diagonal(variances), e.x, Virtual(e, index, z), l, moved);
  }

  lemma WholeTurnsVanish(a: real, turns: int)
    ensures Wrapped(Turned(a, turns) - a) == 0.0
  {
    WrappedIsCanonical(0.0, turns);
    assert Turned(a, turns) - a == Turned(0.0, turns);
  }

  /** The fix, the orientation or the pose read is the one of state x, the yaw up to whole turns. */
  ghost predicate ReadsFrom(op: Op, x: Vec, turns: int)
    requires Meaningful(op) && |x| == STATE_DIM
  {
    match op
    case Predict(_, _, _, _) => false
    case Gps(_, _, z) => z == Position(x)
    case Imu(_, z) => z[..2] == Orientation(x)[..2] && z[2] == Turned(x[IDX_YAW], turns)
    case Lidar(z) => z[..5] == (Position(x) + Orientation(x))[..5] && z[5] == Turned(x[IDX_YAW], turns)
  }

  lemma PrefixAgrees(z: Vec, y: Vec, n: nat)
    requires n <= |z| && n <= |y| && z[..n] == y[..n]
    ensures forall i | 0 <= i < n :: z[i] == y[i]
  {
    assert forall i | 0 <= i < n :: z[i] == z[..n][i] && y[i] == y[..n][i];
  }

  lemma NoInnovation(x: Vec, index: seq<nat>, z: Vec, op: Op, turns: int)
    requires Meaningful(op) && |x| == STATE_DIM && ReadsFrom(op, x, turns)
    requires match op
             case Predict(_, _, _, _) => false
             case Gps(_, _, w) => z == w && index == GPS_ROWS
             case Imu(_, w) => z == w && index == IMU_ROWS
             case Lidar(w) => z == w && index == LIDAR_ROWS
    ensures InnovationVector(x, index, z) == Zero(|z|)
  {
    WholeTurnsVanish(x[IDX_YAW], turns);
    hide Wrapped, Turned;
    match op {
      case Predict(_, _, _, _) =>
      case Gps(_, _, _) => assert z[0] == Position(x)[0] && z[1] == Position(x)[1] && z[2] == Position(x)[2];
      case Imu(_, _) => PrefixAgrees(z, Orientation(x), 2);
      case Lidar(_) => PrefixAgrees(z, Position(x) + Orientation(x), 5);
    }
    VecEq(InnovationVector(x, index, z), Zero(|z|));
  }

  /** A GPS, IMU or lidar reading that agrees with the state does not move it. */
  lemma AgreeingReadingKeepsState(c: Config, e: Estimate, op: Op, turns: int)
    requires Sane(e) && Meaningful(op) && ReadsFrom(op, e.x, turns)
    ensures After(c, e, op).x == e.x[IDX_YAW := Wrapped(e.x[IDX_YAW])]
  {
    hide Updated, InnovationVector, Covariance;
    match op
    case Predict(_, _, _, _) =>
    case Gps(fixType, accuracy, z) =>
      NoInnovation(e.x, GPS_ROWS, z, op, turns);
      AgreeingUpdateStays(e, GPS_ROWS, z, Triple(GpsVariance(fixType, accuracy)));
    case Imu(g, z) =>
      NoInnovation(e.x, IMU_ROWS, z, op, turns);
      AgreeingUpdateStays(e, IMU_ROWS, z, Triple(0.1 * (1.0 + g)));
    case Lidar(z) =>
      NoInnovation(e.x, LIDAR_ROWS, z, op, turns);
      AgreeingUpdateStays(e, LIDAR_ROWS, z, LIDAR_VARIANCES);
  }

  /** What is left of the innovation once the state has moved. */
  ghost function Remaining(e: Estimate, index: seq<nat>, z: Vec, moved: Vec): (y: Vec)
    requires |e.x| == |moved| == STATE_DIM && |z| == |index| && forall i | 0 <= i < |index| :: index[i] < STATE_DIM
    ensures |y| == |z|
  {
    seq(|index|, i requires 0 <= i < |index| => InnovationVector(e.x, index, z)[i] - (moved[index[i]] - e.x[index[i]]))
  }

  /** An update never leaves more of the innovation than there was, in units of the variances. */
  lemma UpdatePulls(e: Estimate, index: seq<nat>, z: Vec, variances: Vec) returns (moved: Vec)
    requires Sane(e) && WellPosed(index, z, variances)
    ensures |moved| == STATE_DIM && Updated(e, index, z, variances).x == moved[IDX_YAW := Wrapped(moved[IDX_YAW])]
    ensures Misfit(Remaining(e, index, z, moved), variances) <= Misfit(InnovationVector(e.x, index, z), variances)
  {
    hide InnovationVector, Settles, Selection, Diagonal, Updated, Misfit;
    var h, v := Selection(STATE_DIM, index), Virtual(e, index, z);
    var l;
    l, moved := UpdatedSettles(e, index, z, variances);
    MisfitNeverGrows(e.p, h, variances, e.x, v, l, moved);
    VecEq(Minus(v, Apply(h, e.x)), InnovationVector(e.x, index, z));
    forall k: nat | k < |index| ensures Minus(v, Apply(h, moved))[k] == Remaining(e, index, z, moved)[k] {
      SelectionApplied(index, e.x, k);
      SelectionApplied(index, moved, k);
    }
    VecEq(Minus(v, Apply(h, moved)), Remaining(e, index, z, moved));
  }

  /** So a GPS fix leaves the position no farther from what it reads. */
  lemma FixPullsPosition(c: Config, e: Estimate, fixType: int, accuracy: real, z: Vec)
    requires Sane(e) && |z| == 3
    ensures var v := Triple(GpsVariance(fixType, accuracy));
            && |After(c, e, Gps(fixType, accuracy, z)).x| == STATE_DIM
            && Misfit(Minus(z, Position(After(c, e, Gps(fixType, accuracy, z)).x)), v) <= Misfit(Minus(z, Position(e.x)), v)
  {
    hide Updated, Misfit, Covariance, Wrapped;
    var moved := UpdatePulls(e, GPS_ROWS, z, Triple(GpsVariance(fixType, accuracy)));
    VecEq(Minus(z, Position(moved)), Remaining(e, GPS_ROWS, z, moved));
    VecEq(Minus(z, Position(e.x)), InnovationVector(e.x, GPS_ROWS, z));
    assert Position(moved[IDX_YAW := Wrapped(moved[IDX_YAW])]) == Position(moved);
  }

  /** The variance grows with the accuracy figure, in proportion from 0.1 on and constant below;
      a better fix has the smaller one. */
  lemma VarianceFollowsFix(fixType: int, a: real, b: real)
    requires a <= b
    ensures GpsVariance(fixType, a) <= GpsVariance(fixType, b)
    ensures fixType == 4 || fixType == 5 ==> GpsVariance(fixType, a) < GpsVariance(2, a)
    ensures fixType != 2 && fixType != 4 && fixType != 5 ==> GpsVariance(2, a) < GpsVariance(fixType, a)
    ensures a < 0.1 ==> GpsVariance(fixType, a) == GpsVariance(fixType, 0.1)
    ensures 0.1 <= a ==> GpsVariance(fixType, b) * a == GpsVariance(fixType, a) * b
  {
  }

  // ---------------------------------------------------------------- predictions

  /** A prediction moves the position along the velocity and leaves the biases alone. */
  lemma PredictionMoves(c: Config, e: Estimate, dt: real, j: Jacobian, a: Vec, r: Vec, i: nat)
    requires Sane(e) && Possible(j) && |a| == |r| == 3 && 0.0 < dt <= 1.0 && i < STATE_DIM && (i < 3 || i >= 9)
    ensures var x := After(c, e, Op.Predict(dt, j, a, r)).x;
            |x| == STATE_DIM && x[i] == if i < 3 then e.x[i] + dt * e.x[i + 3] else e.x[i]
  {
    hide Propagated, ScaledNoise, Transition, Symmetric, PositiveDefinite;
  }

  lemma DotThree(u: Vec, v: Vec)
    requires |u| == |v| == 3
    ensures Dot(u, v) == u[0] * v[0] + u[1] * v[1] + u[2] * v[2]
  {
    assert u[..2][..1][..0] == [] && v[..2][..1][..0] == [];
    assert Dot(u[..2][..1], v[..2][..1]) == u[0] * v[0];
    assert Dot(u[..2], v[..2]) == u[0] * v[0] + u[1] * v[1];
  }

  /** Where only the terms at i, b, b + 1 and b + 2 do not vanish. */
  lemma {:induction false} DotFour(u: Vec, v: Vec, i: nat, b: nat)
    requires |u| == |v| && i < b && b + 3 <= |u|
    requires forall k | 0 <= k < |u| && k != i && !(b <= k < b + 3) :: u[k] == 0.0 || v[k] == 0.0
    ensures Dot(u, v) == u[i] * v[i] + u[b] * v[b] + u[b + 1] * v[b + 1] + u[b + 2] * v[b + 2]
  {
    var n := |u| - 1;
    if b + 3 < |u| {
      DotFour(u[..n], v[..n], i, b);
    } else {
      FourAtTheEnd(u, v, i, b);
    }
  }

  lemma FourAtTheEnd(u: Vec, v: Vec, i: nat, b: nat)
    requires |u| == |v| == b + 3 && i < b
    requires forall k | 0 <= k < b && k != i :: u[k] == 0.0 || v[k] == 0.0
    ensures Dot(u, v) == u[i] * v[i] + u[b] * v[b] + u[b + 1] * v[b + 1] + u[b + 2] * v[b + 2]
  {
    hide Dot;
    var s, t := u[b..], v[b..];
    DotSplit(u, v, b);
    DotOne(u[..b], v[..b], i);
    DotThree(s, t);
    assert s[0] == u[b] && s[1] == u[b + 1] && s[2] == u[b + 2];
    assert t[0] == v[b] && t[1] == v[b + 1] && t[2] == v[b + 2];
  }

  lemma BiasRow(m: Vec, row: Vec, d: Vec, dt: real, i: nat, b: nat)
    requires |m| == 3 && |row| == |d| == STATE_DIM && i < 9 <= b <= 12
    requires row[i] == 1.0 || d[i] == 0.0
    requires row[b] == -m[0] * dt && row[b + 1] == -m[1] * dt && row[b + 2] == -m[2] * dt
    requires forall k | 0 <= k < STATE_DIM && k != i && !(b <= k < b + 3) :: row[k] == 0.0 || d[k] == 0.0
    ensures Dot(row, d) == d[i] - dt * Dot(m, d[b..b + 3])
  {
    hide Dot;
    DotFour(row, d, i, b);
    DotThree(m, d[b..b + 3]);
    OneOrNothing(row[i], d[i]);
    ThreeTerms(dt, m[0], m[1], m[2], row[b], row[b + 1], row[b + 2], d[b], d[b + 1], d[b + 2]);
  }

  lemma OneOrNothing(u: real, v: real)
    requires u == 1.0 || v == 0.0
    ensures u * v == v
  {
  }

  lemma ThreeTerms(dt: real, a: real, b: real, c: real, p: real, q: real, r: real, u: real, v: real, w: real)
    requires p == -a * dt && q == -b * dt && r == -c * dt
    ensures p * u + q * v + r * w == -(dt * (a * u + b * v + c * w))
  {
  }

  lemma VelocityRow(j: Jacobian, dt: real, d: Vec, i: nat, row: Vec)
    requires Possible(j) && |d| == |row| == STATE_DIM && 3 <= i < 6 && d[6] == d[7] == d[8] == 0.0
    requires forall k | 0 <= k < STATE_DIM :: row[k] == Entry(j, dt, i, k)
    ensures Dot(row, d) == d[i] - dt * Dot(j.rotation.rows[i - 3], d[9..12])
  {
    hide Dot;
    assert forall k | 0 <= k < STATE_DIM && k != i && !(6 <= k < 12) :: row[k] == 0.0;
    BiasRow(j.rotation.rows[i - 3], row, d, dt, i, 9);
  }

  lemma OrientationEntries(j: Jacobian, dt: real, i: nat, row: Vec)
    requires Possible(j) && |row| == STATE_DIM && 6 <= i < 9
    requires forall k | 0 <= k < STATE_DIM :: row[k] == Entry(j, dt, i, k)
    ensures i != 6 ==> row[i] == 1.0
    ensures forall k | 0 <= k < 12 && k != i && k != 6 :: row[k] == 0.0
    ensures var m := j.rates.rows[i - 6];
            |m| == 3 && row[12] == -m[0] * dt && row[13] == -m[1] * dt && row[14] == -m[2] * dt
  {
  }

  lemma OrientationRow(j: Jacobian, dt: real, d: Vec, i: nat, row: Vec)
    requires Possible(j) && |d| == |row| == STATE_DIM && 6 <= i < 9 && d[6] == d[7] == d[8] == 0.0
    requires forall k | 0 <= k < STATE_DIM :: row[k] == Entry(j, dt, i, k)
    ensures Dot(row, d) == d[i] - dt * Dot(j.rates.rows[i - 6], d[12..15])
  {
    hide Dot, Entry;
    OrientationEntries(j, dt, i, row);
    BiasRow(j.rates.rows[i - 6], row, d, dt, i, 12);
  }

  lemma TransitionRow(j: Jacobian, dt: real, d: Vec, i: nat)
    requires Possible(j) && |d| == STATE_DIM && i < STATE_DIM && d[6] == d[7] == d[8] == 0.0
    ensures var row := Transition(j, dt).rows[i];
            && |row| == STATE_DIM && Apply(Transition(j, dt), d)[i] == Dot(row, d)
            && forall k | 0 <= k < STATE_DIM :: row[k] == Entry(j, dt, i, k)
  {
    hide Entry, Dot;
  }

  lemma TransitionApplied(j: Jacobian, dt: real, d: Vec, i: nat)
    requires Possible(j) && |d| == STATE_DIM && i < STATE_DIM && d[6] == d[7] == d[8] == 0.0
    ensures Apply(Transition(j, dt), d)[i]
         == if i < 3 then d[i] + dt * d[i + 3]
            else if i < 6 then d[i] - dt * Dot(j.rotation.rows[i - 3], d[9..12])
            else if i < 9 then d[i] - dt * Dot(j.rates.rows[i - 6], d[12..15])
            else d[i]
  {
    TransitionRow(j, dt, d, i);
    var row := Transition(j, dt).rows[i];
    hide Dot, Transition, Apply;
    if i < 3 {
      DotTwo(row, d, i, i + 3);
    } else if i < 6 {
      VelocityRow(j, dt, d, i, row);
    } else if i < 9 {
      OrientationRow(j, dt, d, i, row);
    } else {
      DotOne(row, d, i);
    }
  }

  lemma MovedAt(x: Vec, dt: real, a: Vec, r: Vec, i: nat)
    requires |x| == STATE_DIM && |a| == |r| == 3 && i < STATE_DIM && i != IDX_YAW
    ensures Moved(x, dt, a, r)[i]
         == if i < 3 then x[i] + x[i + 3] * dt
            else if i < 6 then x[i] + a[i - 3] * dt
            else if i < 9 then x[i] + r[i - 6] * dt
            else x[i]
  {
    hide Wrapped;
    assert i >= 9 ==> Moved(x, dt, a, r)[i] == x[9..][i - 9];
  }

  /** The transition is the derivative of the motion by position, velocity and the biases: for a
      change of the state that leaves the orientation alone, it gives the change of the motion,
      the world acceleration and the Euler rates following the corrected biases. */
  lemma TransitionIsDerivative(j: Jacobian, dt: real, x: Vec, d: Vec, a: Vec, r: Vec, a': Vec, r': Vec, i: nat)
    requires Possible(j) && |x| == |d| == STATE_DIM && |a| == |r| == 3 && i < STATE_DIM && i != IDX_YAW
    requires d[6] == d[7] == d[8] == 0.0
    requires a' == Minus(a, Apply(j.rotation, d[9..12])) && r' == Minus(r, Apply(j.rates, d[12..15]))
    ensures Apply(Transition(j, dt), d)[i] == Moved(Plus(x, d), dt, a', r')[i] - Moved(x, dt, a, r)[i]
  {
    hide Moved, Transition, Apply, Dot, Entry, Minus;
    TransitionApplied(j, dt, d, i);
    MovedAt(x, dt, a, r, i);
    MovedAt(Plus(x, d), dt, a', r', i);
    if i < 3 {
      Difference(x[i], d[i], x[i + 3], d[i + 3], dt);
    } else if i < 6 {
      MinusApplied(a, j.rotation, d[9..12], i - 3);
      Difference(x[i], d[i], a[i - 3], -Dot(j.rotation.rows[i - 3], d[9..12]), dt);
    } else if i < 9 {
      MinusApplied(r, j.rates, d[12..15], i - 6);
      Difference(x[i], d[i], r[i - 6], -Dot(j.rates.rows[i - 6], d[12..15]), dt);
    }
  }

  lemma MinusApplied(a: Vec, m: Mat, b: Vec, k: nat)
    requires |a| == |m.rows| && |b| == m.width && k < |a|
    ensures Minus(a, Apply(m, b))[k] == a[k] - Dot(m.rows[k], b)
  {
    hide Dot;
  }

  lemma Difference(x: real, d: real, v: real, w: real, dt: real)
    ensures (x + d) + (v + w) * dt - (x + v * dt) == d + dt * w
  {
  }
}
