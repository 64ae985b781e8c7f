/** The multi-sensor filter: its state, its operations, and what every run of them keeps. */
module SensorFusion {
  import opened LinearAlgebra
  import opened Kalman
  import opened Estimates
  import opened LinearSolve
  import opened Measurements
  import opened Options
  import opened SensorModel

  const MAX_BUFFER_SIZE: nat := 200

  // ---------------------------------------------------------------- estimate transformers

  const INITIAL_VARIANCES: Vec :=
    [10.0 * 10.0, 10.0 * 10.0, 10.0 * 10.0, 5.0 * 5.0, 5.0 * 5.0, 5.0 * 5.0, 0.5 * 0.5, 0.5 * 0.5, 0.5 * 0.5,
     0.1 * 0.1, 0.1 * 0.1, 0.1 * 0.1, 0.01 * 0.01, 0.01 * 0.01, 0.01 * 0.01]

  function Initial(): (e: Estimate)
    ensures Sane(e)
  {
    hide Diagonal, Symmetric, PositiveDefinite;
    DiagonalIsPositive(INITIAL_VARIANCES);
    Estimate(Zero(STATE_DIM), Diagonal(INITIAL_VARIANCES))
  }

  function Predicted(e: Estimate, dt: real): (e': Estimate)
    requires Sane(e) && dt > 0.0
    ensures Sane(e')
  {
    TransitionIsRegular(dt);
    NoiseIsSemidefinite(dt);
    PropagationKeepsCovariance(e.p, Transition(dt), ProcessNoise(dt), STATE_DIM);
    Estimate(Apply(Transition(dt), e.x), Propagated(e.p, Transition(dt), ProcessNoise(dt)))
  }

  /** One measurement update with the gain K = P H^T S^-1. */
  function Fused(e: Estimate, rd: Reading): (e': Estimate)
    requires Sane(e) && WellShaped(rd, |rd.z|)
    ensures Sane(e')
  {
    DiagonalIsPositive(rd.noise);
    var r := Diagonal(rd.noise);
    var k := Gain(e.p, rd.h, r);
    JosephKeepsCovariance(e.p, rd.h, r, k);
    Estimate(Corrected(e.x, rd.h, rd.z, k), Symmetrized(Joseph(e.p, rd.h, r, k)))
  }

  /** Sequential mode: the measurements one after another, skipping unknown sensors. */
  function FusedAll(e: Estimate, ms: seq<Measurement>): (e': Estimate)
    requires Sane(e)
    ensures Sane(e')
  {
    hide Sane, Fused, WellShaped, BuildMeasurementMatrix;
    if ms == [] then e
    else
      var n := |ms| - 1;
      var before := FusedAll(e, ms[..n]);
      SwitchesAgree(ms[n]);
      match BuildMeasurementMatrix(ms[n])
      case None => before
      case Some(rd) => Fused(before, rd)
  }

  /** Batch mode: the groups one after another, each as one stacked reading. */
  function FusedGroups(e: Estimate, groups: seq<Group>): (e': Estimate)
    requires Sane(e)
    ensures Sane(e')
  {
    hide Sane, Fused, Stacked;
    if groups == [] then e
    else
      var n := |groups| - 1;
      var before := FusedGroups(e, groups[..n]);
      if TotalDimension(groups[n]) == 0 then before else Fused(before, Stacked(groups[n]))
  }

  /** a is nowhere more uncertain than b. */
  ghost predicate NoMoreUncertain(a: Estimate, b: Estimate)
    requires Sane(a) && Sane(b)
  {
    forall v: Vec | |v| == STATE_DIM :: Form(a.p, v) <= Form(b.p, v)
  }

  lemma FusedContracts(e: Estimate, rd: Reading)
    requires Sane(e) && WellShaped(rd, |rd.z|)
    ensures NoMoreUncertain(Fused(e, rd), e)
  {
    DiagonalIsPositive(rd.noise);
    var r := Diagonal(rd.noise);
    var k := Gain(e.p, rd.h, r);
    JosephKeepsCovariance(e.p, rd.h, r, k);
    forall v: Vec | |v| == STATE_DIM ensures Form(Fused(e, rd).p, v) <= Form(e.p, v) {
      OptimalUpdateContracts(e.p, rd.h, r, k, v);
    }
  }

  lemma {:induction false} FusedAllContracts(e: Estimate, ms: seq<Measurement>)
    requires Sane(e)
    ensures NoMoreUncertain(FusedAll(e, ms), e)
  {
    hide Sane, Fused, BuildMeasurementMatrix, WellShaped;
    if ms != [] {
      var n := |ms| - 1;
      FusedAllContracts(e, ms[..n]);
      SwitchesAgree(ms[n]);
      match BuildMeasurementMatrix(ms[n])
      case None =>
      case Some(rd) => FusedContracts(FusedAll(e, ms[..n]), rd);
    }
  }

  lemma {:induction false} FusedGroupsContracts(e: Estimate, groups: seq<Group>)
    requires Sane(e)
    ensures NoMoreUncertain(FusedGroups(e, groups), e)
  {
    hide Sane, Fused, Stacked;
    if groups != [] {
      var n := |groups| - 1;
      FusedGroupsContracts(e, groups[..n]);
      FusedContracts(FusedGroups(e, groups[..n]), Stacked(groups[n]));
    }
  }

  // ---------------------------------------------------------------- the buffer

  /** The latest timestamp in the buffer, but never below zero. */
  function Latest(buffer: seq<Measurement>): (t: real)
    ensures t >= 0.0 && forall m | m in buffer :: m.timestamp <= t
    ensures t == 0.0 || exists m :: m in buffer && m.timestamp == t
  {
    if buffer == [] then 0.0
    else
      var n := |buffer| - 1;
      var t := Latest(buffer[..n]);
      assert buffer == buffer[..n] + [buffer[n]];
      if buffer[n].timestamp > t then buffer[n].timestamp else t
  }

  ghost predicate Oldest(buffer: seq<Measurement>, k: nat) {
    && k < |buffer|
    && (forall j | 0 <= j < |buffer| :: buffer[k].timestamp <= buffer[j].timestamp)
    && (forall j | 0 <= j < k :: buffer[k].timestamp < buffer[j].timestamp)
  }

  predicate Dropped(before: seq<Measurement>, m: Measurement) {
    before != [] && m.timestamp < Latest(before) - 1.0
  }

  /** What adding m does: a measurement over one second behind is dropped, and a full buffer
      gives up its oldest entry first. */
  ghost predicate Added(before: seq<Measurement>, m: Measurement, after: seq<Measurement>) {
    if Dropped(before, m) then after == before
    else if |before| >= MAX_BUFFER_SIZE then
      exists k: nat :: Oldest(before, k) && after == before[..k] + before[k + 1..] + [m]
    else after == before + [m]
  }

  /** A full buffer gives up one measurement that no buffered one is older than, and only that. */
  lemma FullBufferDropsOldest(before: seq<Measurement>, m: Measurement, after: seq<Measurement>)
    requires Added(before, m, after) && !Dropped(before, m) && |before| >= MAX_BUFFER_SIZE
    ensures exists gone :: gone in before && (forall b | b in before :: gone.timestamp <= b.timestamp)
                          && multiset(after) + multiset{gone} == multiset(before) + multiset{m}
  {
    var k: nat :| Oldest(before, k) && after == before[..k] + before[k + 1..] + [m];
    OneForAnother(before, k, m);
    OldestIsOldest(before, k);
    hide Added, Oldest;
  }

  lemma OldestIsOldest(buffer: seq<Measurement>, k: nat)
    requires Oldest(buffer, k)
    ensures buffer[k] in buffer && forall b | b in buffer :: buffer[k].timestamp <= b.timestamp
  {
  }

  lemma OneForAnother(s: seq<Measurement>, k: nat, m: Measurement)
    requires k < |s|
    ensures multiset(s[..k] + s[k + 1..] + [m]) + multiset{s[k]} == multiset(s) + multiset{m}
  {
    assert s == s[..k] + [s[k]] + s[k + 1..];
  }

  /** The documented rule: more than one second behind a buffered measurement. */
  ghost predicate TooOld(before: seq<Measurement>, m: Measurement) {
    exists b :: b in before && m.timestamp < b.timestamp - 1.0
  }

  /** The drop rule in terms of the buffer alone. */
  lemma DroppedExactly(before: seq<Measurement>, m: Measurement)
    ensures Dropped(before, m) <==> before != [] && (m.timestamp < -1.0 || TooOld(before, m))
  {
  }

  /** The code keeps the documented rule exactly where the floor of the latest time makes no
      difference: for times from -1 on, and for measurements that are too old anyway. */
  lemma DropRuleHoldsExactly(before: seq<Measurement>, m: Measurement)
    requires before != []
    ensures (Dropped(before, m) <==> TooOld(before, m)) <==> m.timestamp >= -1.0 || TooOld(before, m)
  {
    DroppedExactly(before, m);
    hide Dropped, TooOld;
  }

  /** A measurement newer than the whole buffer can be dropped. */
  lemma NewestCanBeDropped(m: Measurement, b: Measurement)
    requires m.timestamp == -2.0 && b.timestamp == -5.0
    ensures Dropped([b], m) && !TooOld([b], m) && m.timestamp > b.timestamp
  {
    DroppedExactly([b], m);
  }

  // ---------------------------------------------------------------- runs

  datatype State = State(estimate: Estimate, buffer: seq<Measurement>)

  datatype Config = Config(sequential: bool, threshold: real)

  datatype Op = Add(m: Measurement) | Predict(dt: real) | Update | Reset

  ghost predicate Step(c: Config, s: State, op: Op, s': State)
    requires Sane(s.estimate)
  {
    match op
    case Add(m) => s'.estimate == s.estimate && Added(s.buffer, m, s'.buffer)
    case Predict(dt) => s' == if dt <= 0.0 then s else s.(estimate := Predicted(s.estimate, dt))
    case Update => UpdateStep(c, s, s')
    case Reset => s' == State(Initial(), [])
  }

  ghost predicate UpdateStep(c: Config, s: State, s': State)
    requires Sane(s.estimate)
  {
    && s'.buffer == []
    && if c.sequential then s'.estimate == FusedAll(s.estimate, s.buffer)
       else exists groups :: Grouping(s.buffer, c.threshold, groups) && s'.estimate == FusedGroups(s.estimate, groups)
  }

  /** What batch mode may rely on about its groups: the guarantees of Synchronize. */
  ghost predicate Grouping(buffer: seq<Measurement>, threshold: real, groups: seq<Group>) {
    && multiset(Flatten(groups)) == multiset(buffer) && Sorted(Flatten(groups))
    && (forall i | 0 <= i < |groups| :: Tight(groups[i], threshold))
    && HeadsApart(groups, threshold)
  }

  ghost predicate Run(c: Config, states: seq<State>, ops: seq<Op>) {
    && |states| == |ops| + 1
    && states[0] == State(Initial(), [])
    && forall i | 0 <= i < |ops| :: Sane(states[i].estimate) ==> Step(c, states[i], ops[i], states[i + 1])
  }

  /** In every state of every run, in either mode, the covariance is symmetric and positive
      definite and the buffer holds at most 200 measurements. */
  lemma {:induction false} EveryRunKeepsCovariance(c: Config, states: seq<State>, ops: seq<Op>, i: nat)
    requires Run(c, states, ops) && i < |states|
    ensures Sane(states[i].estimate) && |states[i].buffer| <= MAX_BUFFER_SIZE
  {
    hide Sane; hide Fused; hide FusedAll; hide FusedGroups; hide Predicted;
    if i > 0 {
      EveryRunKeepsCovariance(c, states, ops, i - 1);
      assert Step(c, states[i - 1], ops[i - 1], states[i]);
    }
  }

  /** So in every state of every run the next innovation covariance is regular, for any
      stacked group of measurements (a single one included). */
  lemma EveryInnovationIsRegular(c: Config, states: seq<State>, ops: seq<Op>, i: nat, group: Group)
    requires Run(c, states, ops) && i < |states|
    ensures Sane(states[i].estimate)
    ensures var rd := Stacked(group);
            Regular(Innovation(states[i].estimate.p, rd.h, Diagonal(rd.noise)), TotalDimension(group))
  {
    hide Stacked, Innovation, Symmetric, PositiveDefinite;
    EveryRunKeepsCovariance(c, states, ops, i);
    var rd := Stacked(group);
    DiagonalIsPositive(rd.noise);
    InnovationIsRegular(states[i].estimate.p, rd.h, Diagonal(rd.noise));
  }

  /** An update of the whole buffer makes no direction more uncertain, in either mode. */
  lemma UpdateNeverAddsUncertainty(c: Config, s: State, s': State)
    requires Sane(s.estimate) && Step(c, s, Update, s')
    ensures Sane(s'.estimate) && NoMoreUncertain(s'.estimate, s.estimate)
  {
    hide Sane, FusedAll, FusedGroups, NoMoreUncertain;
    if c.sequential {
      FusedAllContracts(s.estimate, s.buffer);
    } else {
      var groups :| Grouping(s.buffer, c.threshold, groups) && s'.estimate == FusedGroups(s.estimate, groups);
      FusedGroupsContracts(s.estimate, groups);
    }
  }

  // ---------------------------------------------------------------- what is handed out

  const OBSERVABLE: nat := 9

  /** The first m rows and columns. */
  function LeadingBlock(p: Mat, m: nat): (b: Mat)
    requires m <= |p.rows| && m <= p.width
    ensures Shape(b, m, m)
  {
    Mat(m, seq(m, i requires 0 <= i < m => p.rows[i][..m]))
  }

  lemma BlockApplied(p: Mat, x: Vec, i: nat)
    requires |x| <= |p.rows| && |x| <= p.width && i < |x|
    ensures Dot(p.rows[i], x + Zero(p.width - |x|)) == Dot(LeadingBlock(p, |x|).rows[i], x)
  {
    var m, x' := |x|, x + Zero(p.width - |x|);
    DotSplit(p.rows[i], x', m);
    DotZero(p.rows[i][m..], x'[m..]);
    assert x'[..m] == x;
  }

  lemma BlockForm(p: Mat, x: Vec)
    requires p.width == |p.rows| >= |x|
    ensures Form(LeadingBlock(p, |x|), x) == Form(p, x + Zero(p.width - |x|))
  {
    var m, x' := |x|, x + Zero(p.width - |x|);
    var y := Apply(p, x');
    DotSplit(x', y, m);
    DotZero(x'[m..], y[m..]);
    assert x'[..m] == x;
    forall i | 0 <= i < m ensures y[..m][i] == Apply(LeadingBlock(p, m), x)[i] { BlockApplied(p, x, i); }
    VecEq(y[..m], Apply(LeadingBlock(p, m), x));
  }

  lemma PaddingIsNonZero(x: Vec, n: nat)
    requires |x| <= n && x != Zero(|x|)
    ensures x + Zero(n - |x|) != Zero(n)
  {
    assert Zero(n)[..|x|] == Zero(|x|) && (x + Zero(n - |x|))[..|x|] == x;
  }

  /** A leading block of a covariance is a covariance. */
  lemma BlockIsCovariance(p: Mat, n: nat, m: nat)
    requires Covariance(p, n) && m <= n
    ensures Covariance(LeadingBlock(p, m), m)
  {
    assert Symmetric(LeadingBlock(p, m));
    hide Form, LeadingBlock, Symmetric;
    forall x: Vec | |x| == m && x != Zero(m) ensures Form(LeadingBlock(p, m), x) > 0.0 {
      BlockForm(p, x);
      PaddingIsNonZero(x, n);
    }
  }

  // ---------------------------------------------------------------- the class

  class SensorFusion {
    var state: Vec
    var covariance: Mat
    var buffer: seq<Measurement>
    const config: Config

    ghost predicate Valid()
      reads this
    {
      Sane(Belief()) && |buffer| <= MAX_BUFFER_SIZE
    }

    ghost function Belief(): Estimate
      reads this`state, this`covariance
    {
      Estimate(state, covariance)
    }

    ghost function Abs(): State
      reads this
    {
      State(Belief(), buffer)
    }

    constructor (fusionMode: string, syncThreshold: real)
      ensures Valid() && Abs() == State(Initial(), [])
      ensures config == Config(fusionMode == "sequential", syncThreshold)
    {
      state, covariance, buffer := Initial().x, Initial().p, [];
      config := Config(fusionMode == "sequential", syncThreshold);
    }

    method AddMeasurement(m: Measurement)
      requires Valid()
      modifies this`buffer
      ensures Valid() && Step(config, old(Abs()), Add(m), Abs())
    {
      hide Sane, Latest, Oldest;
      if buffer != [] {
        var latest := LatestTime();
        if m.timestamp < latest - 1.0 { return; }
      }
      if |buffer| >= MAX_BUFFER_SIZE {
        var k := OldestIndex();
        buffer := buffer[..k] + buffer[k + 1..];
      }
      buffer := buffer + [m];
    }

    method LatestTime() returns (latest: real)
      ensures latest == Latest(buffer)
    {
      latest := 0.0;
      for i := 0 to |buffer|
        invariant latest == Latest(buffer[..i])
      {
        assert buffer[..i + 1][..i] == buffer[..i];
        if buffer[i].timestamp > latest { latest := buffer[i].timestamp; }
      }
      assert buffer[..|buffer|] == buffer;
    }

    method OldestIndex() returns (k: nat)
      requires buffer != []
      ensures k < |buffer| && Oldest(buffer, k)
    {
      k := 0;
      for j := 1 to |buffer|
        invariant k < j && Oldest(buffer[..j], k)
      {
        if buffer[j].timestamp < buffer[k].timestamp { k := j; }
      }
      assert buffer[..|buffer|] == buffer;
    }

    method Predict(dt: real)
      requires Valid()
      modifies this
      ensures Valid() && Step(config, old(Abs()), Op.Predict(dt), Abs())
    {
      if dt <= 0.0 { return; }
      ghost var e := Belief();
      state := Apply(Transition(dt), state);
      covariance := Propagated(covariance, Transition(dt), ProcessNoise(dt));
      assert Belief() == Predicted(e, dt);
    }

    /** The covariance of position, velocity and orientation. */
    method FusedCovariance() returns (c: Mat)
      requires Valid()
      ensures c == LeadingBlock(covariance, OBSERVABLE) && Covariance(c, OBSERVABLE)
    {
      BlockIsCovariance(covariance, STATE_DIM, OBSERVABLE);
      c := LeadingBlock(covariance, OBSERVABLE);
    }

    method Reset()
      modifies this
      ensures Valid() && Abs() == State(Initial(), [])
      ensures old(Valid()) ==> Step(config, old(Abs()), Op.Reset, Abs())
    {
      state, covariance, buffer := Initial().x, Initial().p, [];
    }

    method Update()
      requires Valid()
      modifies this
      ensures Valid() && Step(config, old(Abs()), Op.Update, Abs())
    {
      hide Sane;
      if buffer == [] {
        assert !config.sequential ==> Grouping(buffer, config.threshold, []) && FusedGroups(Belief(), []) == Belief();
        return;
      }
      if config.sequential {
        UpdateSequential();
      } else {
        UpdateBatch();
      }
      buffer := [];
    }

    method UpdateSequential()
      requires Valid()
      modifies this`state, this`covariance
      ensures Belief() == old(FusedAll(Belief(), buffer))
    {
      hide Sane; hide Fused; hide BuildMeasurementMatrix;
      ghost var e := Belief();
      for i := 0 to |buffer|
        invariant Belief() == FusedAll(e, buffer[..i])
      {
        assert buffer[..i + 1][..i] == buffer[..i];
        SwitchesAgree(buffer[i]);
        match BuildMeasurementMatrix(buffer[i])
        case None =>
        case Some(rd) =>
          Correct(rd.h, rd.z, Diagonal(rd.noise), rd);
      }
      assert buffer[..|buffer|] == buffer;
    }

    method UpdateBatch()
      requires Valid()
      modifies this`state, this`covariance
      ensures exists groups :: Grouping(buffer, config.threshold, groups)
                && Belief() == FusedGroups(old(Belief()), groups)
    {
      hide Sane; hide Fused; hide Stacked;
      ghost var e := Belief();
      var groups := Synchronize(buffer, config.threshold);
      for i := 0 to |groups|
        invariant Belief() == FusedGroups(e, groups[..i])
      {
        assert groups[..i + 1][..i] == groups[..i];
        var h, z, r := StackGroup(groups[i]);
        if |h.rows| != 0 {
          Correct(h, z, r, Stacked(groups[i]));
        }
      }
      assert groups[..|groups|] == groups;
      assert Grouping(buffer, config.threshold, groups);
    }

    /** The Kalman update itself, shared by the two modes. */
    method Correct(h: Mat, z: Vec, r: Mat, ghost rd: Reading)
      requires Sane(Belief()) && WellShaped(rd, |rd.z|)
      requires h == rd.h && z == rd.z && r == Diagonal(rd.noise)
      modifies this`state, this`covariance
      ensures Belief() == Fused(old(Belief()), rd)
    {
      DiagonalIsPositive(rd.noise);
      var y := Comb(1.0, z, -1.0, Apply(h, state));
      var k := Gain(covariance, h, r);
      state := Comb(1.0, state, 1.0, Apply(k, y));
      covariance := Symmetrized(Joseph(covariance, h, r, k));
    }
  }
}
