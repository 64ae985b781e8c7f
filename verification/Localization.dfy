/** The EKF localizer: the same covariance theory on a second filter. Values of trigonometric
    functions enter as arbitrary reals. */
module Localization {
  import opened LinearAlgebra
  import opened Kalman
  import opened LinearSolve
  import opened Angles
  import opened Estimates

  const IDX_ROLL: nat := 6
  const IDX_YAW: nat := 8
  const IDX_GBX: nat := 12

  // ---------------------------------------------------------------- propagation

  /** The parts of the transition Jacobian: the velocity's derivatives by roll, pitch and yaw,
      the rotation matrix, the Euler rate matrix, and the addition to the roll column. */
  datatype Jacobian = Jacobian(accel: Mat, rotation: Mat, rates: Mat, coupling: Vec)

  /** The Euler rate matrix always starts with 1: roll follows the first gyro axis. */
  predicate Possible(j: Jacobian) {
    && Shape(j.accel, 3, 3) && Shape(j.rotation, 3, 3) && Shape(j.rates, 3, 3) && |j.coupling| == 3
    && j.rates.rows[0][0] == 1.0
  }

  function Entry(j: Jacobian, dt: real, r: nat, c: nat): real
    requires Possible(j) && r < STATE_DIM && c < STATE_DIM
  {
    var id := if r == c then 1.0 else 0.0;
    if r < 3 && c == r + 3 then dt
    else if 3 <= r < 6 && 6 <= c < 9 then j.accel.rows[r - 3][c - 6]
    else if 3 <= r < 6 && 9 <= c < 12 then -j.rotation.rows[r - 3][c - 9] * dt
    else if 6 <= r < 9 && 12 <= c then -j.rates.rows[r - 6][c - 12] * dt
    else if 6 <= r < 9 && c == IDX_ROLL then id + j.coupling[r - 6]
    else id
  }

  function Transition(j: Jacobian, dt: real): (f: Mat)
    requires Possible(j)
    ensures Shape(f, STATE_DIM, STATE_DIM)
    ensures forall r, c | 0 <= r < STATE_DIM && 0 <= c < STATE_DIM :: f.rows[r][c] == Entry(j, dt, r, c)
  {
    Mat(STATE_DIM, seq(STATE_DIM, r requires 0 <= r < STATE_DIM =>
      seq(STATE_DIM, c requires 0 <= c < STATE_DIM => Entry(j, dt, r, c))))
  }

  /** process_noise_ * dt: the diagonal for position, velocity, orientation and the biases. */
  function ScaledNoise(pos: real, ori: real, dt: real): (d: Vec)
    ensures |d| == STATE_DIM
    ensures dt > 0.0 ==> d[IDX_GBX] > 0.0 && forall i | 0 <= i < STATE_DIM :: d[i] >= 0.0
  {
    SquareTimes(1.0, pos);
    SquareTimes(1.0, ori);
    var p, v, o, a, g := pos * pos, (10.0 * pos) * (10.0 * pos), ori * ori, 0.0001, 0.00001;
    assert v == 100.0 * (pos * pos);
    [p * dt, p * dt, p * dt, v * dt, v * dt, v * dt, o * dt, o * dt, o * dt,
     a * dt, a * dt, a * dt, g * dt, g * dt, g * dt]
  }

  /** Column c of F against x, which is entry c of F^T x. */
  lemma Column(j: Jacobian, dt: real, x: Vec, c: nat)
    requires Possible(j) && |x| == STATE_DIM && c < STATE_DIM
    ensures var col := Transpose(Transition(j, dt)).rows[c];
            && |col| == STATE_DIM && Apply(Transpose(Transition(j, dt)), x)[c] == Dot(col, x)
            && forall r | 0 <= r < STATE_DIM :: col[r] == Entry(j, dt, r, c)
  {
  }

  /** A direction that F erases has no position, velocity, pitch, yaw or accelerometer part,
      and its gyro-bias part follows its roll part. */
  lemma ErasedDirection(j: Jacobian, dt: real, x: Vec)
    requires Possible(j) && |x| == STATE_DIM
    requires Apply(Transpose(Transition(j, dt)), x) == Zero(STATE_DIM)
    ensures forall i | 0 <= i < STATE_DIM && i != IDX_ROLL && i < IDX_GBX :: x[i] == 0.0
    ensures x[IDX_GBX] == dt * x[IDX_ROLL]
    ensures x[IDX_ROLL] == 0.0 ==> x == Zero(STATE_DIM)
  {
    hide Apply, Transpose, Transition;
    var t := Transpose(Transition(j, dt));
    forall i | 0 <= i < 3 ensures x[i] == 0.0 { Column(j, dt, x, i); DotOne(t.rows[i], x, i); }
    forall i | 3 <= i < 6 ensures x[i] == 0.0 { Column(j, dt, x, i); DotOne(t.rows[i], x, i); }
    forall i | 9 <= i < 12 ensures x[i] == 0.0 { Column(j, dt, x, i); DotOne(t.rows[i], x, i); }
    forall i | 7 <= i < 9 ensures x[i] == 0.0 { Column(j, dt, x, i); DotOne(t.rows[i], x, i); }
    Column(j, dt, x, IDX_GBX);
    DotTwo(t.rows[IDX_GBX], x, IDX_ROLL, IDX_GBX);
    if x[IDX_ROLL] == 0.0 {
      forall i | 12 <= i < 15 ensures x[i] == 0.0 { Column(j, dt, x, i); DotOne(t.rows[i], x, i); }
      VecEq(x, Zero(STATE_DIM));
    }
  }

  /** A direction that F erases when the coupling cancels the roll. */
  function Cancelled(j: Jacobian, dt: real): (x: Vec)
    requires Possible(j)
    ensures |x| == STATE_DIM
    ensures forall i | 0 <= i < STATE_DIM ::
              x[i] == if i == IDX_ROLL then 1.0 else if i < IDX_GBX then 0.0 else dt * j.rates.rows[0][i - IDX_GBX]
  {
    seq(STATE_DIM, i requires 0 <= i < STATE_DIM =>
      if i == IDX_ROLL then 1.0 else if i < IDX_GBX then 0.0 else dt * j.rates.rows[0][i - IDX_GBX])
  }

  lemma CancelledColumn(j: Jacobian, dt: real, c: nat, col: Vec)
    requires Possible(j) && j.coupling[0] == -1.0 && c < STATE_DIM
    requires |col| == STATE_DIM && forall r | 0 <= r < STATE_DIM :: col[r] == Entry(j, dt, r, c)
    ensures Dot(col, Cancelled(j, dt)) == 0.0
  {
    hide Dot, Cancelled;
    var x := Cancelled(j, dt);
    if c < IDX_GBX {
      assert forall r | IDX_GBX <= r < STATE_DIM :: col[r] == 0.0;
      hide Entry;
      RollEntry(j, dt, c);
      DotOne(col, x, IDX_ROLL);
    } else {
      assert col[c] == 1.0 && col[IDX_ROLL] == -j.rates.rows[0][c - IDX_GBX] * dt;
      assert forall r | IDX_GBX <= r < STATE_DIM && r != c :: col[r] == 0.0;
      hide Entry;
      DotTwo(col, x, IDX_ROLL, c);
    }
  }

  lemma RollEntry(j: Jacobian, dt: real, c: nat)
    requires Possible(j) && j.coupling[0] == -1.0 && c < IDX_GBX
    ensures Entry(j, dt, IDX_ROLL, c) == 0.0
  {
  }

  lemma CancelledIsErased(j: Jacobian, dt: real)
    requires Possible(j) && j.coupling[0] == -1.0
    ensures Apply(Transpose(Transition(j, dt)), Cancelled(j, dt)) == Zero(STATE_DIM)
  {
    hide Transpose, Transition, Cancelled, Entry, Dot;
    var t, x := Transpose(Transition(j, dt)), Cancelled(j, dt);
    forall c: nat | c < STATE_DIM ensures Apply(t, x)[c] == 0.0 {
      Column(j, dt, x, c);
      CancelledColumn(j, dt, c, t.rows[c]);
    }
    VecEq(Apply(t, x), Zero(STATE_DIM));
  }

  /** F is singular exactly when the coupling cancels the roll. */
  lemma TransitionIsSingularExactly(j: Jacobian, dt: real)
    requires Possible(j)
    ensures (exists x: Vec :: |x| == STATE_DIM && x != Zero(STATE_DIM)
                              && Apply(Transpose(Transition(j, dt)), x) == Zero(STATE_DIM))
            <==> j.coupling[0] == -1.0
  {
    hide Apply, Transpose, Transition;
    var t := Transpose(Transition(j, dt));
    if j.coupling[0] == -1.0 {
      CancelledIsErased(j, dt);
      assert Cancelled(j, dt)[IDX_ROLL] != Zero(STATE_DIM)[IDX_ROLL];
    } else {
      forall x: Vec | |x| == STATE_DIM && Apply(t, x) == Zero(STATE_DIM) ensures x == Zero(STATE_DIM) {
        ErasedDirection(j, dt, x);
        Column(j, dt, x, IDX_ROLL);
        DotOne(t.rows[IDX_ROLL], x, IDX_ROLL);
      }
    }
  }

  /** What F erases always meets the gyro-bias noise. */
  lemma NoiseReachesErased(j: Jacobian, pos: real, ori: real, dt: real)
    requires Possible(j) && dt > 0.0
    ensures PositiveSemidefinite(Diagonal(ScaledNoise(pos, ori, dt)), STATE_DIM)
    ensures Uncancelled(Transition(j, dt), Diagonal(ScaledNoise(pos, ori, dt)), STATE_DIM)
  {
    hide Possible, Apply, Transpose, Transition;
    var d := ScaledNoise(pos, ori, dt);
    forall x: Vec | |x| == STATE_DIM ensures Form(Diagonal(d), x) >= 0.0 { DiagonalForm(d, x); }
    forall x: Vec | |x| == STATE_DIM && x != Zero(STATE_DIM) && Apply(Transpose(Transition(j, dt)), x) == Zero(STATE_DIM)
      ensures Form(Diagonal(d), x) > 0.0
    {
      ErasedDirection(j, dt, x);
      DiagonalFormAt(d, x, IDX_GBX);
    }
  }

  lemma DiagonalForm(d: Vec, x: Vec)
    requires |d| == |x| && forall i | 0 <= i < |d| :: d[i] >= 0.0
    ensures Form(Diagonal(d), x) >= 0.0
  {
    forall k | 0 <= k < |d| ensures x[k] * Apply(Diagonal(d), x)[k] >= 0.0 { DiagonalTerm(d, x, k); }
    DotNonNegative(x, Apply(Diagonal(d), x));
  }

  lemma DiagonalFormAt(d: Vec, x: Vec, i: nat)
    requires |d| == |x| && forall k | 0 <= k < |d| :: d[k] >= 0.0
    requires i < |d| && d[i] > 0.0 && x[i] != 0.0
    ensures Form(Diagonal(d), x) > 0.0
  {
    forall k | 0 <= k < |d| ensures x[k] * Apply(Diagonal(d), x)[k] >= 0.0 { DiagonalTerm(d, x, k); }
    DiagonalTerm(d, x, i);
    DotPositive(x, Apply(Diagonal(d), x), i);
  }

  // ---------------------------------------------------------------- measurements

  const GPS_ROWS: seq<nat> := [0, 1, 2]
  const IMU_ROWS: seq<nat> := [6, 7, 8]
  const LIDAR_ROWS: seq<nat> := [0, 1, 2, 6, 7, 8]

  /** The variance of one GPS coordinate, by fix type and scaled by the accuracy. */
  function GpsVariance(fixType: int, accuracy: real): (v: real)
    ensures v > 0.0
  {
    var base := if fixType == 4 || fixType == 5 then 0.01 else if fixType == 2 then 1.0 else 9.0;
    base * if accuracy < 0.1 then 0.1 else accuracy
  }

  const LIDAR_VARIANCES: Vec := [0.01, 0.01, 0.01, 0.001, 0.001, 0.001]

  /** y = z - (the observed states), with the last entry wrapped when it is a yaw. */
  ghost function InnovationVector(x: Vec, index: seq<nat>, z: Vec): (y: Vec)
    requires |x| == STATE_DIM && |z| == |index| && forall i | 0 <= i < |index| :: index[i] < STATE_DIM
    ensures |y| == |z|
  {
    seq(|index|, i requires 0 <= i < |index| =>
      var d := z[i] - x[index[i]]; if index[i] == IDX_YAW then Wrapped(d) else d)
  }

  ghost predicate WellPosed(index: seq<nat>, z: Vec, variances: Vec) {
    && |index| == |z| == |variances|
    && (forall i | 0 <= i < |index| :: index[i] < STATE_DIM)
    && (forall i | 0 <= i < |variances| :: variances[i] > 0.0)
  }

  ghost function Updated(e: Estimate, index: seq<nat>, z: Vec, variances: Vec): (e': Estimate)
    requires Sane(e) && WellPosed(index, z, variances)
    ensures Sane(e')
  {
    DiagonalIsPositive(variances);
    var h, r := Selection(STATE_DIM, index), Diagonal(variances);
    var k := Gain(e.p, h, r);
    JosephKeepsCovariance(e.p, h, r, k);
    var x := Comb(1.0, e.x, 1.0, Apply(k, InnovationVector(e.x, index, z)));
    Estimate(x[IDX_YAW := Wrapped(x[IDX_YAW])], Symmetrized(Joseph(e.p, h, r, k)))
  }

  // ---------------------------------------------------------------- runs

  /** The process noise parameters given at construction. */
  datatype Config = Config(pos: real, ori: real)

  datatype Op =
    | Predict(dt: real, j: Jacobian, accelWorld: Vec, eulerRates: Vec)
    | Gps(fixType: int, accuracy: real, z: Vec)
    | Imu(gyroMagnitude: real, z: Vec)
    | Lidar(z: Vec)

  ghost predicate Meaningful(op: Op) {
    match op
    case Predict(_, j, a, r) => Possible(j) && |a| == 3 && |r| == 3
    case Gps(_, _, z) => |z| == 3
    case Imu(g, z) => g >= 0.0 && |z| == 3
    case Lidar(z) => |z| == 6
  }

  function Triple(v: real): (r: Vec)
    ensures |r| == 3 && (v > 0.0 ==> forall i | 0 <= i < 3 :: r[i] > 0.0)
  {
    [v, v, v]
  }

  ghost function Moved(x: Vec, dt: real, a: Vec, r: Vec): (x': Vec)
    requires |x| == STATE_DIM && |a| == 3 && |r| == 3
    ensures |x'| == STATE_DIM
  {
    [x[0] + x[3] * dt, x[1] + x[4] * dt, x[2] + x[5] * dt,
     x[3] + a[0] * dt, x[4] + a[1] * dt, x[5] + a[2] * dt,
     x[6] + r[0] * dt, x[7] + r[1] * dt, Wrapped(x[8] + r[2] * dt)] + x[9..]
  }

  ghost function After(c: Config, e: Estimate, op: Op): Estimate
    requires Sane(e) && Meaningful(op)
  {
    hide Form, Dot, Entry, Wrapped, ScaledNoise;
    match op
    case Predict(dt, j, a, r) =>
      if dt <= 0.0 || dt > 1.0 then e
      else Estimate(Moved(e.x, dt, a, r), Propagated(e.p, Transition(j, dt), Diagonal(ScaledNoise(c.pos, c.ori, dt))))
    case Gps(fixType, accuracy, z) => Updated(e, GPS_ROWS, z, Triple(GpsVariance(fixType, accuracy)))
    case Imu(g, z) => Updated(e, IMU_ROWS, z, Triple(0.1 * (1.0 + g)))
    case Lidar(z) => Updated(e, LIDAR_ROWS, z, LIDAR_VARIANCES)
  }

  /** Every operation keeps the covariance symmetric and positive definite, with any process
      noise parameters, zero included. */
  lemma OperationKeepsCovariance(c: Config, e: Estimate, op: Op)
    requires Sane(e) && Meaningful(op)
    ensures Sane(After(c, e, op))
  {
    hide Uncancelled, Updated, PositiveSemidefinite, Propagated, ScaledNoise, Transition, Symmetric, PositiveDefinite;
    match op
    case Predict(dt, j, _, _) =>
      if 0.0 < dt <= 1.0 {
        NoiseReachesErased(j, c.pos, c.ori, dt);
        PropagationKeepsCovariance(e.p, Transition(j, dt), Diagonal(ScaledNoise(c.pos, c.ori, dt)), STATE_DIM);
      }
    case _ =>
  }

  /** A GPS, IMU or lidar update makes no direction more uncertain. */
  lemma UpdateNeverAddsUncertainty(c: Config, e: Estimate, op: Op, v: Vec)
    requires Sane(e) && Meaningful(op) && !op.Predict? && |v| == STATE_DIM
    ensures Sane(After(c, e, op)) && Form(After(c, e, op).p, v) <= Form(e.p, v)
  {
    hide Updated, Form, Sane;
    OperationKeepsCovariance(c, e, op);
    match op
    case Gps(fixType, accuracy, z) => UpdatedContracts(e, GPS_ROWS, z, Triple(GpsVariance(fixType, accuracy)), v);
    case Imu(g, z) => UpdatedContracts(e, IMU_ROWS, z, Triple(0.1 * (1.0 + g)), v);
    case Lidar(z) => UpdatedContracts(e, LIDAR_ROWS, z, LIDAR_VARIANCES, v);
  }

  lemma UpdatedContracts(e: Estimate, index: seq<nat>, z: Vec, variances: Vec, v: Vec)
    requires Sane(e) && WellPosed(index, z, variances) && |v| == STATE_DIM
    ensures Form(Updated(e, index, z, variances).p, v) <= Form(e.p, v)
  {
    hide Joseph, Form, Diagonal, Symmetric, PositiveDefinite;
    DiagonalIsPositive(variances);
    var h, r := Selection(STATE_DIM, index), Diagonal(variances);
    var k := Gain(e.p, h, r);
    JosephKeepsCovariance(e.p, h, r, k);
    OptimalUpdateContracts(e.p, h, r, k, v);
  }

  const INITIAL_VARIANCES: Vec :=
    [100.0, 100.0, 100.0, 1000.0, 1000.0, 1000.0, 1.0, 1.0, 1.0, 0.01, 0.01, 0.01, 0.01, 0.01, 0.01]

  /** The estimate for an initial pose x, y, z, roll, pitch, yaw. */
  ghost function Initial(pose: Vec): (e: Estimate)
    requires |pose| == 6
    ensures Sane(e)
  {
    hide Diagonal, Symmetric, PositiveDefinite;
    DiagonalIsPositive(INITIAL_VARIANCES);
    Estimate(pose[..3] + [0.0, 0.0, 0.0] + [Wrapped(pose[3]), Wrapped(pose[4]), Wrapped(pose[5])] + Zero(6),
             Diagonal(INITIAL_VARIANCES))
  }

  ghost predicate Run(c: Config, pose: Vec, states: seq<Estimate>, ops: seq<Op>)
    requires |pose| == 6
  {
    && |states| == |ops| + 1 && states[0] == Initial(pose)
    && forall i | 0 <= i < |ops| :: Meaningful(ops[i]) && (Sane(states[i]) ==> states[i + 1] == After(c, states[i], ops[i]))
  }

  lemma {:induction false} EveryRunKeepsCovariance(c: Config, pose: Vec, states: seq<Estimate>, ops: seq<Op>, i: nat)
    requires |pose| == 6 && Run(c, pose, states, ops) && i < |states|
    ensures Sane(states[i])
  {
    hide Sane, After, Initial;
    if i > 0 {
      EveryRunKeepsCovariance(c, pose, states, ops, i - 1);
      OperationKeepsCovariance(c, states[i - 1], ops[i - 1]);
    }
  }

  // ---------------------------------------------------------------- the class

  class EKFLocalizer {
    var state: Vec
    var covariance: Mat
    const config: Config

    ghost function Belief(): Estimate
      reads this
    {
      Estimate(state, covariance)
    }

    constructor (pose: Vec, processNoisePos: real, processNoiseOri: real)
      requires |pose| == 6
      ensures Belief() == Initial(pose) && config == Config(processNoisePos, processNoiseOri)
    {
      config := Config(processNoisePos, processNoiseOri);
      var roll := NormalizeAngle(pose[3]);
      var pitch := NormalizeAngle(pose[4]);
      var yaw := NormalizeAngle(pose[5]);
      state := pose[..3] + [0.0, 0.0, 0.0] + [roll, pitch, yaw] + Zero(6);
      covariance := Diagonal(INITIAL_VARIANCES);
    }

    method Predict(dt: real, j: Jacobian, accelWorld: Vec, eulerRates: Vec)
      requires Sane(Belief()) && Possible(j) && |accelWorld| == 3 && |eulerRates| == 3
      modifies this
      ensures Sane(Belief())
      ensures Belief() == After(config, old(Belief()), Op.Predict(dt, j, accelWorld, eulerRates))
    {
      hide Propagated, ScaledNoise, Transition, Symmetric, Form, Moved, Possible;
      OperationKeepsCovariance(config, Belief(), Op.Predict(dt, j, accelWorld, eulerRates));
      if dt <= 0.0 || dt > 1.0 { return; }
      Move(dt, accelWorld, eulerRates);
      covariance := Propagated(covariance, Transition(j, dt), Diagonal(ScaledNoise(config.pos, config.ori, dt)));
    }

    method Move(dt: real, accelWorld: Vec, eulerRates: Vec)
      requires |state| == STATE_DIM && |accelWorld| == 3 && |eulerRates| == 3
      modifies this`state
      ensures state == Moved(old(state), dt, accelWorld, eulerRates)
    {
      var x := state;
      var yaw := NormalizeAngle(x[8] + eulerRates[2] * dt);
      state := [x[0] + x[3] * dt, x[1] + x[4] * dt, x[2] + x[5] * dt,
                x[3] + accelWorld[0] * dt, x[4] + accelWorld[1] * dt, x[5] + accelWorld[2] * dt,
                x[6] + eulerRates[0] * dt, x[7] + eulerRates[1] * dt, yaw] + x[9..];
      VecEq(state, Moved(x, dt, accelWorld, eulerRates));
    }

    method UpdateGps(fixType: int, accuracy: real, z: Vec)
      requires Sane(Belief()) && |z| == 3
      modifies this
      ensures Sane(Belief()) && Belief() == After(config, old(Belief()), Gps(fixType, accuracy, z))
    {
      hide Updated, Covariance;
      var y := [z[0] - state[0], z[1] - state[1], z[2] - state[2]];
      Correct(GPS_ROWS, z, y, Triple(GpsVariance(fixType, accuracy)));
    }

    method UpdateImu(gyroMagnitude: real, z: Vec)
      requires Sane(Belief()) && gyroMagnitude >= 0.0 && |z| == 3
      modifies this
      ensures Sane(Belief()) && Belief() == After(config, old(Belief()), Imu(gyroMagnitude, z))
    {
      hide Updated, Covariance;
      var yaw := NormalizeAngle(z[2] - state[8]);
      var y := [z[0] - state[6], z[1] - state[7], yaw];
      Correct(IMU_ROWS, z, y, Triple(0.1 * (1.0 + gyroMagnitude)));
    }

    method UpdateLidar(z: Vec)
      requires Sane(Belief()) && |z| == 6
      modifies this
      ensures Sane(Belief()) && Belief() == After(config, old(Belief()), Lidar(z))
    {
      hide Updated, Covariance;
      var yaw := NormalizeAngle(z[5] - state[8]);
      var y := [z[0] - state[0], z[1] - state[1], z[2] - state[2], z[3] - state[6], z[4] - state[7], yaw];
      Correct(LIDAR_ROWS, z, y, LIDAR_VARIANCES);
    }

    /** The Kalman update shared by the three sensors. */
    method Correct(index: seq<nat>, ghost z: Vec, y: Vec, variances: Vec)
      requires Sane(Belief()) && WellPosed(index, z, variances)
      requires y == InnovationVector(state, index, z)
      modifies this
      ensures Belief() == Updated(old(Belief()), index, z, variances)
    {
      DiagonalIsPositive(variances);
      var h, r := Selection(STATE_DIM, index), Diagonal(variances);
      var k := Gain(covariance, h, r);
      state := Comb(1.0, state, 1.0, Apply(k, y));
      var yaw := NormalizeAngle(state[IDX_YAW]);
      state := state[IDX_YAW := yaw];
      covariance := Symmetrized(Joseph(covariance, h, r, k));
    }
  }
}
