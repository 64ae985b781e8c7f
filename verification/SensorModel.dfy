/** What each sensor observes, how a synchronized group is stacked, and the motion model. */
module SensorModel {
  import opened Options
  import opened LinearAlgebra
  import opened Kalman
  import opened Estimates
  import opened Measurements

  // ---------------------------------------------------------------- one measurement

  /** h selects the observed states, z holds the data, and R is Diagonal(noise). */
  datatype Reading = Reading(h: Mat, z: Vec, noise: Vec)

  ghost predicate WellShaped(rd: Reading, m: nat) {
    && Shape(rd.h, m, STATE_DIM) && |rd.z| == m && |rd.noise| == m
    && forall i | 0 <= i < m :: rd.noise[i] > 0.0
  }

  /** The first n data values, with zero for the missing ones. */
  function Padded(data: seq<real>, n: nat): (z: Vec)
    ensures |z| == n
  {
    seq(n, i => if 0 <= i < |data| then data[i] else 0.0)
  }

  /** The default variance, or the reported one where it is not (almost) zero. */
  function Variances(m: Measurement, variance: real, n: nat): (r: Vec)
    requires n <= 3 && variance > 0.0
    ensures |r| == n && forall i | 0 <= i < n :: r[i] > 0.0
  {
    seq(n, i requires 0 <= i < n =>
      if m.covariance[i * 3 + i] > 0.000000000001 then m.covariance[i * 3 + i] else variance)
  }

  function BuildMeasurementMatrix(m: Measurement): Option<Reading> {
    match m.sensor
    case Gps => Some(Reading(Selection(STATE_DIM, [0, 1, 2]), Padded(m.data, 3), Variances(m, 2.0 * 2.0, 3)))
    case Imu => Some(Reading(Selection(STATE_DIM, [6, 7, 8]), Padded(m.data, 3), Variances(m, 0.05 * 0.05, 3)))
    case Lidar => Some(Reading(Selection(STATE_DIM, [0, 1, 2, 6, 7, 8]), Padded(m.data, 6),
                               [0.1 * 0.1, 0.1 * 0.1, 0.1 * 0.1, 0.02 * 0.02, 0.02 * 0.02, 0.02 * 0.02]))
    case Radar => Some(Reading(Selection(STATE_DIM, [0, 1, 2]), Padded(m.data, 3), Variances(m, 0.5 * 0.5, 3)))
    case Camera => Some(Reading(Selection(STATE_DIM, [6, 7, 8]), Padded(m.data, 3), Variances(m, 0.05 * 0.05, 3)))
    case Ultrasonic => Some(Reading(Selection(STATE_DIM, [0, 1]), Padded(m.data, 2), Variances(m, 0.5 * 0.5, 2)))
    case Other => None
  }

  /** The second switch over sensor types: the rows that batch mode reserves. */
  function BatchDimension(sensor: SensorType): nat {
    match sensor
    case Gps => 3
    case Imu => 3
    case Lidar => 6
    case Radar => 3
    case Camera => 3
    case Ultrasonic => 2
    case Other => 0
  }

  /** The two switches agree: a measurement fills exactly the rows reserved for it, with
      positive noise variances. */
  lemma SwitchesAgree(m: Measurement)
    ensures var rd := BuildMeasurementMatrix(m);
            if rd.Some? then WellShaped(rd.value, BatchDimension(m.sensor)) && WellShaped(rd.value, |rd.value.z|)
            else BatchDimension(m.sensor) == 0
  {
  }

  // ---------------------------------------------------------------- a synchronized group

  function TotalDimension(group: Group): nat {
    if group == [] then 0
    else TotalDimension(group[..|group| - 1]) + BatchDimension(group[|group| - 1].sensor)
  }

  /** All readings of the group on top of one another. */
  function Stacked(group: Group): (rd: Reading)
    ensures WellShaped(rd, TotalDimension(group))
  {
    if group == [] then Reading(Mat(STATE_DIM, []), [], [])
    else
      var n := |group| - 1;
      var rest, last := Stacked(group[..n]), BuildMeasurementMatrix(group[n]);
      SwitchesAgree(group[n]);
      match last
      case None => rest
      case Some(rd) => Reading(Mat(STATE_DIM, rest.h.rows + rd.h.rows), rest.z + rd.z, rest.noise + rd.noise)
  }

  lemma {:induction false} DimensionGrows(group: Group, i: nat)
    requires i <= |group|
    ensures TotalDimension(group[..i]) <= TotalDimension(group)
    ensures i < |group| ==>
              TotalDimension(group[..i]) + BatchDimension(group[i].sensor) <= TotalDimension(group)
    decreases |group| - i
  {
    assert group[..|group|] == group;
    if i < |group| {
      assert group[..i + 1][..i] == group[..i];
      DimensionGrows(group, i + 1);
    }
  }

  /** A matrix with block b written at (top, left). */
  function WithBlock(a: Mat, top: nat, left: nat, b: Mat): (c: Mat)
    requires top + |b.rows| <= |a.rows| && left + b.width <= a.width
    ensures Shape(c, |a.rows|, a.width)
    ensures forall i, j | 0 <= i < |a.rows| && 0 <= j < a.width ::
              c.rows[i][j] == if top <= i < top + |b.rows| && left <= j < left + b.width
                              then b.rows[i - top][j - left] else a.rows[i][j]
  {
    Mat(a.width, seq(|a.rows|, i requires 0 <= i < |a.rows| =>
      seq(a.width, j requires 0 <= j < a.width =>
        if top <= i < top + |b.rows| && left <= j < left + b.width then b.rows[i - top][j - left]
        else a.rows[i][j])))
  }

  function ZeroMatrix(height: nat, width: nat): (c: Mat)
    ensures Shape(c, height, width)
    ensures forall i, j | 0 <= i < height && 0 <= j < width :: c.rows[i][j] == 0.0
  {
    Mat(width, seq(height, _ => Zero(width)))
  }

  /** The stacked reading of a prefix, followed by rows of zeros up to the total. */
  ghost predicate FilledTo(group: Group, i: nat, total: nat, offset: nat, h: Mat, z: Vec, r: Mat) {
    && i <= |group| && offset == TotalDimension(group[..i]) <= total
    && var rd := Stacked(group[..i]);
       var rest := total - offset;
       && h == Mat(STATE_DIM, rd.h.rows + ZeroMatrix(rest, STATE_DIM).rows)
       && z == rd.z + Zero(rest)
       && r == Diagonal(rd.noise + Zero(rest))
  }

  lemma FilledShapes(group: Group, i: nat, total: nat, offset: nat, h: Mat, z: Vec, r: Mat)
    requires FilledTo(group, i, total, offset, h, z, r)
    ensures i <= |group| && offset == TotalDimension(group[..i])
    ensures Shape(h, total, STATE_DIM) && |z| == total && Shape(r, total, total)
  {
  }

  lemma WriteRows(top: seq<Vec>, b: Mat, rest: nat)
    requires forall i | 0 <= i < |top| :: |top[i]| == b.width
    requires |b.rows| <= rest
    ensures var a: Mat := Mat(b.width, top + ZeroMatrix(rest, b.width).rows);
            WithBlock(a, |top|, 0, b) == Mat(b.width, top + b.rows + ZeroMatrix(rest - |b.rows|, b.width).rows)
  {
    var a: Mat := Mat(b.width, top + ZeroMatrix(rest, b.width).rows);
    var c: Mat := Mat(b.width, top + b.rows + ZeroMatrix(rest - |b.rows|, b.width).rows);
    MatEq(WithBlock(a, |top|, 0, b), c);
  }

  lemma WriteDiagonal(d: Vec, e: Vec, rest: nat)
    requires |e| <= rest
    ensures WithBlock(Diagonal(d + Zero(rest)), |d|, |d|, Diagonal(e)) == Diagonal(d + e + Zero(rest - |e|))
  {
    MatEq(WithBlock(Diagonal(d + Zero(rest)), |d|, |d|, Diagonal(e)), Diagonal(d + e + Zero(rest - |e|)));
  }

  /** Stacks a group block by block at a moving row offset; the blocks tile all rows. */
  method StackGroup(group: Group) returns (h: Mat, z: Vec, r: Mat)
    ensures var rd := Stacked(group); h == rd.h && z == rd.z && r == Diagonal(rd.noise)
  {
    hide FilledTo, Stacked, WithBlock, BuildMeasurementMatrix, ZeroMatrix, Zero, Diagonal;
    var total := 0;
    for i := 0 to |group|
      invariant total == TotalDimension(group[..i])
    {
      assert group[..i + 1][..i] == group[..i];
      total := total + BatchDimension(group[i].sensor);
    }
    assert group[..|group|] == group;
    h, z, r := ZeroMatrix(total, STATE_DIM), Zero(total), ZeroMatrix(total, total);
    NothingFilled(group, total);
    hide TotalDimension;
    var offset: nat := 0;
    for i := 0 to |group|
      invariant FilledTo(group, i, total, offset, h, z, r)
    {
      FilledShapes(group, i, total, offset, h, z, r);
      DimensionGrows(group, i);
      SwitchesAgree(group[i]);
      BlockStep(group, i, total, offset, h, z, r);
      match BuildMeasurementMatrix(group[i])
      case None =>
      case Some(rd) =>
        var m := |rd.h.rows|;
        h := WithBlock(h, offset, 0, rd.h);
        z := z[..offset] + rd.z + z[offset + m..];
        r := WithBlock(r, offset, offset, Diagonal(rd.noise));
        offset := offset + m;
    }
    AllFilled(group, total, offset, h, z, r);
  }

  lemma NothingFilled(group: Group, total: nat)
    ensures FilledTo(group, 0, total, 0, ZeroMatrix(total, STATE_DIM), Zero(total), ZeroMatrix(total, total))
  {
    MatEq(ZeroMatrix(total, total), Diagonal(Zero(total)));
    assert [] + ZeroMatrix(total, STATE_DIM).rows == ZeroMatrix(total, STATE_DIM).rows;
    assert [] + Zero(total) == Zero(total);
  }

  lemma AllFilled(group: Group, total: nat, offset: nat, h: Mat, z: Vec, r: Mat)
    requires total == TotalDimension(group) && FilledTo(group, |group|, total, offset, h, z, r)
    ensures var rd := Stacked(group); h == rd.h && z == rd.z && r == Diagonal(rd.noise)
  {
    assert group[..|group|] == group;
    assert Zero(0) == [] && ZeroMatrix(0, STATE_DIM).rows == [];
    var rd := Stacked(group);
    assert rd.h.rows + [] == rd.h.rows && rd.z + [] == rd.z && rd.noise + [] == rd.noise;
  }

  lemma {:induction false} BlockStep(group: Group, i: nat, total: nat, offset: nat, h: Mat, z: Vec, r: Mat)
    requires i < |group| && total == TotalDimension(group) && FilledTo(group, i, total, offset, h, z, r)
    requires offset + BatchDimension(group[i].sensor) <= total
    ensures match BuildMeasurementMatrix(group[i])
            case None => FilledTo(group, i + 1, total, offset, h, z, r)
            case Some(rd) =>
              && WellShaped(rd, BatchDimension(group[i].sensor))
              && FilledTo(group, i + 1, total, offset + |rd.h.rows|, WithBlock(h, offset, 0, rd.h),
                          z[..offset] + rd.z + z[offset + |rd.h.rows|..],
                          WithBlock(r, offset, offset, Diagonal(rd.noise)))
  {
    SwitchesAgree(group[i]);
    assert group[..i + 1][..i] == group[..i];
    var done, rest := Stacked(group[..i]), total - offset;
    match BuildMeasurementMatrix(group[i])
    case None =>
    case Some(rd) =>
      var m := |rd.h.rows|;
      WriteRows(done.h.rows, rd.h, rest);
      WriteDiagonal(done.noise, rd.noise, rest);
      assert Zero(rest)[m..] == Zero(rest - m);
      assert z[..offset] + rd.z + z[offset + m..] == done.z + rd.z + Zero(rest - m);
  }

  // ---------------------------------------------------------------- motion model

  /** Identity, plus dt from velocity i + 3 to position i. */
  function Transition(dt: real): (f: Mat)
    ensures Shape(f, STATE_DIM, STATE_DIM)
  {
    Mat(STATE_DIM, seq(STATE_DIM, i => seq(STATE_DIM, j =>
      if i == j then 1.0 else if i < 3 && j == i + 3 then dt else 0.0)))
  }

  const SIGMA_ACC := 0.5
  const SIGMA_ORI := 0.05
  const SIGMA_ACCEL_BIAS := 0.001
  const SIGMA_GYRO_BIAS := 0.0001

  function NoiseEntry(dt: real, i: nat, j: nat): real {
    var dt2 := dt * dt;
    var dt3 := dt2 * dt;
    var dt4 := dt3 * dt;
    if i == j then
      if i < 3 then (dt4 / 4.0) * SIGMA_ACC * SIGMA_ACC
      else if i < 6 then dt2 * SIGMA_ACC * SIGMA_ACC
      else if i < 9 then dt2 * SIGMA_ORI * SIGMA_ORI
      else if i < 12 then dt * SIGMA_ACCEL_BIAS * SIGMA_ACCEL_BIAS
      else dt * SIGMA_GYRO_BIAS * SIGMA_GYRO_BIAS
    else if (i < 3 && j == i + 3) || (j < 3 && i == j + 3) then (dt3 / 2.0) * SIGMA_ACC * SIGMA_ACC
    else 0.0
  }

  function ProcessNoise(dt: real): (q: Mat)
    ensures Shape(q, STATE_DIM, STATE_DIM)
  {
    Mat(STATE_DIM, seq(STATE_DIM, i requires 0 <= i => seq(STATE_DIM, j requires 0 <= j => NoiseEntry(dt, i, j))))
  }

  /** F^T x = 0 only for x = 0, whatever dt. */
  lemma TransitionIsRegular(dt: real)
    ensures Regular(Transpose(Transition(dt)), STATE_DIM)
  {
    var t := Transpose(Transition(dt));
    forall x: Vec | |x| == STATE_DIM && Apply(t, x) == Zero(STATE_DIM) ensures x == Zero(STATE_DIM) {
      forall j | 0 <= j < STATE_DIM ensures x[j] == 0.0 {
        assert Apply(t, x)[j] == 0.0;
        if 3 <= j < 6 {
          DotOne(t.rows[j - 3], x, j - 3);
          assert Apply(t, x)[j - 3] == 0.0;
          DotTwo(t.rows[j], x, j - 3, j);
        } else {
          DotOne(t.rows[j], x, j);
        }
      }
      VecEq(x, Zero(STATE_DIM));
    }
  }

  lemma {:induction false} PairedNonNegative(a: Vec, b: Vec, c: Vec, d: Vec)
    requires |a| == |b| == |c| == |d|
    requires forall i | 0 <= i < |a| :: a[i] * b[i] + c[i] * d[i] >= 0.0
    ensures Dot(a, b) + Dot(c, d) >= 0.0
  {
    if |a| > 0 {
      var n := |a| - 1;
      assert forall i | 0 <= i < n :: a[..n][i] * b[..n][i] + c[..n][i] * d[..n][i] == a[i] * b[i] + c[i] * d[i];
      PairedNonNegative(a[..n], b[..n], c[..n], d[..n]);
    }
  }

  lemma NoiseRow(dt: real, x: Vec, i: nat)
    requires |x| == STATE_DIM && i < STATE_DIM
    ensures var y := Apply(ProcessNoise(dt), x);
            y[i] == if i < 3 then NoiseEntry(dt, i, i) * x[i] + NoiseEntry(dt, i, i + 3) * x[i + 3]
                    else if i < 6 then NoiseEntry(dt, i, i - 3) * x[i - 3] + NoiseEntry(dt, i, i) * x[i]
                    else NoiseEntry(dt, i, i) * x[i]
  {
    var row := ProcessNoise(dt).rows[i];
    assert forall j | 0 <= j < STATE_DIM :: row[j] == NoiseEntry(dt, i, j);
    assert forall j | 0 <= j < STATE_DIM && j != i && j != i + 3 && i != j + 3 :: NoiseEntry(dt, i, j) == 0.0;
    assert forall j | 0 <= j < STATE_DIM && i >= 3 && j == i + 3 :: NoiseEntry(dt, i, j) == 0.0;
    assert forall j | 0 <= j < STATE_DIM && j >= 3 && i == j + 3 :: NoiseEntry(dt, i, j) == 0.0;
    hide NoiseEntry;
    if i < 3 { DotTwo(row, x, i, i + 3); }
    else if i < 6 { DotTwo(row, x, i - 3, i); }
    else { DotOne(row, x, i); }
  }

  /** The position and velocity noise of one axis is a square: (s (dt^2/2 p + dt v))^2. */
  lemma PairIsSquare(dt: real, p: real, v: real, c: real)
    requires c >= 0.0
    ensures var dt2 := dt * dt; var dt3 := dt2 * dt; var dt4 := dt3 * dt;
            p * ((dt4 / 4.0) * c * p + (dt3 / 2.0) * c * v) + v * ((dt3 / 2.0) * c * p + dt2 * c * v) >= 0.0
  {
    var s := dt * dt / 2.0 * p + dt * v;
    SquareTimes(c, s);
    var dt2 := dt * dt; var dt3 := dt2 * dt; var dt4 := dt3 * dt;
    assert c * (s * s) == p * ((dt4 / 4.0) * c * p + (dt3 / 2.0) * c * v) + v * ((dt3 / 2.0) * c * p + dt2 * c * v);
  }

  lemma NoiseIsSemidefinite(dt: real)
    requires dt > 0.0
    ensures Symmetric(ProcessNoise(dt)) && PositiveSemidefinite(ProcessNoise(dt), STATE_DIM)
  {
    forall x: Vec | |x| == STATE_DIM ensures Form(ProcessNoise(dt), x) >= 0.0 {
      NoiseFormNonNegative(dt, x);
    }
  }

  lemma NoiseFormNonNegative(dt: real, x: Vec)
    requires dt > 0.0 && |x| == STATE_DIM
    ensures Form(ProcessNoise(dt), x) >= 0.0
  {
    var y := Apply(ProcessNoise(dt), x);
    DotSplit(x, y, 6);
    DotSplit(x[..6], y[..6], 3);
    var a, b, c, d := x[..6][..3], y[..6][..3], x[..6][3..], y[..6][3..];
    forall i | 0 <= i < 3 ensures a[i] * b[i] + c[i] * d[i] >= 0.0 {
      NoiseRow(dt, x, i);
      NoiseRow(dt, x, i + 3);
      PairIsSquare(dt, x[i], x[i + 3], SIGMA_ACC * SIGMA_ACC);
    }
    PairedNonNegative(a, b, c, d);
    var u, v := x[6..], y[6..];
    forall i | 0 <= i < 9 ensures u[i] * v[i] >= 0.0 {
      NoiseRow(dt, x, i + 6);
      SquareTimes(NoiseEntry(dt, i + 6, i + 6), x[i + 6]);
    }
    DotNonNegative(u, v);
  }
}
