/** The alert manager: what its interleaved runs guarantee, two that go wrong, and the manager as
    an object whose calls are not interrupted. */
module AlertManager {
  import opened Options
  import opened AlertLifecycle

  // ---------------------------------------------------------------- results

  /** In every run, two consecutive raises of a fingerprint share their alert exactly when the
      second comes within the window; a new alert needs more than the window since the last hit. */
  lemma DedupIsExact(c: Config, states: seq<State>, steps: seq<Step>, i: nat, j: nat, n: nat)
    requires Run(c, states, steps) && n <= |steps| && Consecutive(states[n].raises, i, j)
    ensures var r := states[n].raises;
            r[j].alert == r[i].alert <==> r[j].now - r[i].now <= c.dedupWindow
  {
    EveryRunKeeps(c, states, steps, n);
    ConsecutiveFollow(c, states[n].raises, i, j);
  }

  /** Every raise is in the count of exactly one alert, and the index leads to the newest alert
      of its fingerprint. */
  lemma EveryRaiseIsCounted(c: Config, states: seq<State>, steps: seq<Step>, n: nat)
    requires Run(c, states, steps) && n <= |steps|
    ensures var s := states[n];
            && Total(s.alerts) == s.raised + s.deduplicated && |s.alerts| == s.raised
            && (forall a | 0 <= a < |s.alerts| :: s.alerts[a].count == Hits(s.raises, a))
            && Newest(s.alerts, s.fingerprints)
  {
    EveryRunKeeps(c, states, steps, n);
    hide Total, Hits;
  }

  /** Every status was reached from New by allowed transitions only, and the time stamps tell
      which alerts are closed. */
  lemma EveryStatusIsReached(c: Config, states: seq<State>, steps: seq<Step>, n: nat, a: nat)
    requires Run(c, states, steps) && n <= |steps| && a < |states[n].alerts|
    ensures var s := states[n]; Path(Of(s.grants, a), s.alerts[a].status) && Stamped(s.alerts[a])
  {
    EveryRunKeeps(c, states, steps, n);
  }

  /** Nothing leaves an absorbing state. */
  lemma AbsorbedForGood(c: Config, s: State, step: Step, a: nat)
    requires Known(s) && a < |s.alerts| && Absorbing(s.alerts[a].status)
    ensures a < |Next(c, s, step).alerts| && Next(c, s, step).alerts[a].status == s.alerts[a].status
  {
  }

  /** The resolved counter is the number of resolved alerts exactly when nobody resolved an
      alert twice; every repeat inflates it by one. */
  lemma ResolvedCounter(c: Config, states: seq<State>, steps: seq<Step>, n: nat)
    requires Run(c, states, steps) && n <= |steps| && states[n].owed == multiset{}
    ensures var s := states[n];
            && s.resolved == InStatus(s.alerts, Resolved) + Repeated(s.grants, Resolved)
            && (s.resolved == InStatus(s.alerts, Resolved) <==> Repeated(s.grants, Resolved) == 0)
  {
    hide Known, Deduplicates, Lives, InStatus, Repeated, Asked, Next;
    EveryRunKeeps(c, states, steps, n);
  }

  // ---------------------------------------------------------------- the escalator's race

  /** Grant n is the last one of alert a. */
  ghost predicate LastGrant(grants: seq<Grant>, a: nat, n: nat) {
    n < |grants| && grants[n].alert == a && forall m | n < m < |grants| :: grants[m].alert != a
  }

  /** Since grant number start, a caller acknowledged or investigated the alert, and nothing was
      granted for it after that. */
  ghost predicate TakenUp(grants: seq<Grant>, start: nat, a: nat) {
    exists n: nat :: start <= n && LastGrant(grants, a, n) && !grants[n].byEscalator
                     && (grants[n].to == Acknowledged || grants[n].to == Investigating)
  }

  /** Since grant number start, the alert was taken out of NEW. */
  ghost predicate LeftNew(grants: seq<Grant>, start: nat, a: nat) {
    exists n: nat :: start <= n < |grants| && grants[n].alert == a && grants[n].to != New
  }

  lemma OfSplit(grants: seq<Grant>, a: nat, st: Status)
    requires grants != [] && Path(Of(grants, a), st)
    ensures var k := |grants| - 1;
            if grants[k].alert == a then
              grants[k].to == st && Granted(grants[k].from, st) && Path(Of(grants[..k], a), grants[k].from)
            else Path(Of(grants[..k], a), st)
  {
    var k := |grants| - 1;
    if grants[k].alert == a {
      assert Of(grants, a)[..|Of(grants, a)| - 1] == Of(grants[..k], a);
    } else {
      assert Of(grants, a) == Of(grants[..k], a);
    }
  }

  /** The last grant of an alert tells its status. */
  lemma {:induction false} StatusIsLastGrant(grants: seq<Grant>, a: nat, st: Status)
    requires Path(Of(grants, a), st)
    ensures st != New ==> exists n: nat :: LastGrant(grants, a, n) && grants[n].to == st
    ensures forall n: nat | LastGrant(grants, a, n) :: grants[n].to == st
  {
    if grants != [] {
      var k := |grants| - 1;
      OfSplit(grants, a, st);
      if grants[k].alert == a {
        assert LastGrant(grants, a, k);
      } else {
        StatusIsLastGrant(grants[..k], a, st);
        hide Of, Path;
        assert forall n: nat :: LastGrant(grants, a, n) <==> LastGrant(grants[..k], a, n);
      }
    }
  }

  /** An alert is new as long as nothing else was granted. */
  lemma {:induction false} NewMeansNotMoved(grants: seq<Grant>, a: nat, st: Status)
    requires Path(Of(grants, a), st)
    ensures st != New <==> LeftNew(grants, 0, a)
  {
    if grants != [] {
      var k := |grants| - 1;
      OfSplit(grants, a, st);
      NewMeansNotMoved(grants[..k], a, if grants[k].alert == a then grants[k].from else st);
      hide Of, Path;
      LeftNewAppend(grants, a);
    }
  }

  lemma LeftNewAppend(grants: seq<Grant>, a: nat)
    requires grants != []
    ensures var k := |grants| - 1;
            LeftNew(grants, 0, a) <==> LeftNew(grants[..k], 0, a) || (grants[k].alert == a && grants[k].to != New)
  {
    var k := |grants| - 1;
    assert forall n: nat | n < k :: grants[..k][n] == grants[n];
    if LeftNew(grants[..k], 0, a) {
      var n: nat :| n < k && grants[..k][n].alert == a && grants[..k][n].to != New;
      assert grants[n].alert == a && grants[n].to != New;
    }
  }

  lemma StepGrows(c: Config, s: State, step: Step)
    requires Known(s)
    ensures s.grants <= Next(c, s, step).grants && |s.alerts| <= |Next(c, s, step).alerts|
  {
  }

  lemma {:induction false} GrantsGrow(c: Config, states: seq<State>, steps: seq<Step>, i: nat, j: nat)
    requires Run(c, states, steps) && i <= j <= |steps|
    ensures states[i].grants <= states[j].grants && |states[i].alerts| <= |states[j].alerts|
  {
    if i < j {
      GrantsGrow(c, states, steps, i, j - 1);
      EveryRunKeeps(c, states, steps, j - 1);
      StepGrows(c, states[j - 1], steps[j - 1]);
      hide Next;
    }
  }

  /** An alert that was new at some moment is not new any more exactly when a transition was
      granted in between. */
  lemma NewUntilLeftNew(c: Config, states: seq<State>, steps: seq<Step>, i: nat, j: nat, a: nat)
    requires Run(c, states, steps) && i <= j <= |steps|
    requires a < |states[i].alerts| && states[i].alerts[a].status == New
    ensures a < |states[j].alerts|
    ensures states[j].alerts[a].status != New <==> LeftNew(states[j].grants, |states[i].grants|, a)
  {
    GrantsGrow(c, states, steps, i, j);
    EveryStatusIsReached(c, states, steps, i, a);
    EveryStatusIsReached(c, states, steps, j, a);
    NewMeansNotMoved(states[i].grants, a, New);
    NewMeansNotMoved(states[j].grants, a, states[j].alerts[a].status);
    hide Run, Path, Of, Next;
    assert forall n: nat | n < |states[i].grants| :: states[i].grants[n] == states[j].grants[n];
  }

  /** A snapshot lists new alerts only. When the escalator comes to one of them, it moves an
      alert that is not new any more exactly when, since the snapshot, a caller's request
      acknowledged or investigated it and nothing else was granted for it after that. */
  lemma EscalatorOvertakesExactly(c: Config, states: seq<State>, steps: seq<Step>, i: nat, j: nat, a: nat)
    requires Run(c, states, steps) && i < j < |steps| && steps[i].Snapshot? && steps[j].EscalateOne?
    requires a < |states[i].alerts| && Stale(c, states[i].alerts[a], steps[i].now)
    requires steps[j].k < |states[j].stale| && states[j].stale[steps[j].k] == a
    ensures a < |states[j].alerts| && a < |states[j + 1].alerts|
    ensures var from, to := states[j].alerts[a].status, states[j + 1].alerts[a].status;
            && (to != from ==> to == Escalated)
            && (from != New <==> LeftNew(states[j].grants, |states[i].grants|, a))
            && (from != New && to != from <==> TakenUp(states[j].grants, |states[i].grants|, a))
  {
    NewUntilLeftNew(c, states, steps, i, j, a);
    EveryStatusIsReached(c, states, steps, j, a);
    EveryRunKeeps(c, states, steps, j);
    var s := states[j];
    var from := s.alerts[a].status;
    StatusIsLastGrant(s.grants, a, from);
    EscalationMoves(c, s, steps[j].k, steps[j].now);
    EscalatorOnlyEscalates(s);
    hide Run, Path, Of, Next, Known, Deduplicates, Lives, Tallies, Invariant;
    if from == Acknowledged || from == Investigating {
      var n: nat :| LastGrant(s.grants, a, n) && s.grants[n].to == from;
      var m: nat :| |states[i].grants| <= m < |s.grants| && s.grants[m].alert == a && s.grants[m].to != New;
      assert m <= n && s.grants[n] in s.grants;
    }
  }

  lemma EscalationMoves(c: Config, s: State, k: nat, now: real)
    requires Known(s) && k < |s.stale|
    ensures var a, s' := s.stale[k], Next(c, s, EscalateOne(k, now));
            && a < |s.alerts| == |s'.alerts|
            && s'.alerts[a].status == if Granted(s.alerts[a].status, Escalated) then Escalated else s.alerts[a].status
  {
  }

  lemma EscalatorOnlyEscalates(s: State)
    requires Lives(s)
    ensures forall g | g in s.grants && g.byEscalator :: g.to == Escalated
  {
  }

  // ---------------------------------------------------------------- the transition table

  /** From a status that is not absorbing an alert can go to every other one, except back to new
      and from escalated to acknowledged. */
  lemma AllowedExactly(from: Status, to: Status)
    ensures Allowed(from, to) <==>
              !Absorbing(from) && to != New && to != from && !(from == Escalated && to == Acknowledged)
  {
  }

  /** A granted transition stamps the alert: always with its update, once with its first
      acknowledgement, and with its resolution; what was raised stays as it was. */
  lemma TransitionStamps(s: State, a: nat, to: Status, now: real, byEscalator: bool)
    requires a < |s.alerts| && s.alerts[a].status != to && Allowed(s.alerts[a].status, to)
    ensures var x := s.alerts[a];
            var s' := Transitioned(s, a, to, now, byEscalator);
            && |s'.alerts| == |s.alerts|
            && var x' := s'.alerts[a];
               && x'.status == to && x'.updatedAt == now
               && (to == Acknowledged ==> x'.acknowledgedAt == if x.acknowledgedAt.None? then Some(now) else x.acknowledgedAt)
               && (to != Acknowledged ==> x'.acknowledgedAt == x.acknowledgedAt)
               && (Absorbing(to) ==> x'.resolvedAt == Some(now)) && (!Absorbing(to) ==> x'.resolvedAt == x.resolvedAt)
               && x'.fingerprint == x.fingerprint && x'.createdAt == x.createdAt && x'.count == x.count
               && forall b | 0 <= b < |s.alerts| && b != a :: s'.alerts[b] == s.alerts[b]
  {
  }

  // ---------------------------------------------------------------- which alerts are escalated

  /** The alert was new, and at least the escalation time old, when snapshot i was taken. */
  ghost predicate OldAt(c: Config, states: seq<State>, steps: seq<Step>, i: nat, a: nat)
    requires |states| == |steps| + 1
  {
    && i < |steps| && steps[i].Snapshot? && a < |states[i].alerts|
    && states[i].alerts[a].status == New && steps[i].now - states[i].alerts[a].createdAt >= c.escalationTime
  }

  /** A snapshot adds exactly the alerts that are new and old enough. */
  lemma SnapshotIsExact(c: Config, s: State, now: real, a: nat)
    requires Known(s)
    ensures a in Next(c, s, Snapshot(now)).stale <==>
              || a in s.stale
              || (a < |s.alerts| && s.alerts[a].status == New && now - s.alerts[a].createdAt >= c.escalationTime)
  {
  }

  /** What is listed after a step was listed before, or the step is a snapshot that lists it. */
  lemma ListedBefore(c: Config, s: State, step: Step, a: nat)
    requires Known(s) && a in Next(c, s, step).stale
    ensures a in s.stale || (step.Snapshot? && a in Next(c, s, Snapshot(step.now)).stale)
  {
  }

  lemma {:induction false} ListedIsOld(c: Config, states: seq<State>, steps: seq<Step>, n: nat, a: nat)
    requires Run(c, states, steps) && n <= |steps| && a in states[n].stale
    ensures exists i: nat :: i < n && OldAt(c, states, steps, i, a)
  {
    hide Next, OldAt, Deduplicates, Lives, Tallies, Known;
    if n > 0 {
      var s, step := states[n - 1], steps[n - 1];
      EveryRunKeeps(c, states, steps, n - 1);
      ListedBefore(c, s, step, a);
      if a in s.stale {
        ListedIsOld(c, states, steps, n - 1, a);
      } else {
        SnapshotIsExact(c, s, step.now, a);
        SnapshotIsOld(c, states, steps, n - 1, a);
      }
    }
  }

  lemma SnapshotIsOld(c: Config, states: seq<State>, steps: seq<Step>, i: nat, a: nat)
    requires |states| == |steps| + 1 && i < |steps| && steps[i].Snapshot? && a < |states[i].alerts|
    requires states[i].alerts[a].status == New && steps[i].now - states[i].alerts[a].createdAt >= c.escalationTime
    ensures OldAt(c, states, steps, i, a)
  {
  }

  lemma BirthIsFixed(c: Config, s: State, step: Step, a: nat)
    requires Known(s) && a < |s.alerts|
    ensures a < |Next(c, s, step).alerts| && Next(c, s, step).alerts[a].createdAt == s.alerts[a].createdAt
  {
  }

  lemma {:induction false} BirthStays(c: Config, states: seq<State>, steps: seq<Step>, i: nat, j: nat, a: nat)
    requires Run(c, states, steps) && i <= j <= |steps| && a < |states[i].alerts|
    ensures a < |states[j].alerts| && states[j].alerts[a].createdAt == states[i].alerts[a].createdAt
  {
    hide Next;
    if i < j {
      BirthStays(c, states, steps, i, j - 1, a);
      EveryRunKeeps(c, states, steps, j - 1);
      BirthIsFixed(c, states[j - 1], steps[j - 1], a);
    }
  }

  /** The escalator moves no alert that was younger than the escalation time at a snapshot
      before, in any run. */
  lemma NoYoungAlertIsEscalated(c: Config, states: seq<State>, steps: seq<Step>, j: nat)
    requires Run(c, states, steps) && j < |steps| && steps[j].EscalateOne? && steps[j].k < |states[j].stale|
    ensures var a := states[j].stale[steps[j].k];
            && a < |states[j].alerts|
            && exists i: nat :: i < j && OldAt(c, states, steps, i, a)
                                && steps[i].now - states[j].alerts[a].createdAt >= c.escalationTime
  {
    hide Next, Deduplicates, Lives, Tallies;
    var a := states[j].stale[steps[j].k];
    EveryRunKeeps(c, states, steps, j);
    ListedIsOld(c, states, steps, j, a);
    var i: nat :| i < j && OldAt(c, states, steps, i, a);
    BirthStays(c, states, steps, i, j, a);
  }

  // ---------------------------------------------------------------- concrete runs

  const RAISED := INITIAL.(
    alerts := [Alert(7, New, 0.0, 0.0, None, None, 1)], fingerprints := map[7 := Hit(0, 0.0)],
    raised := 1, raises := [Raise(7, 0.0, 0)])

  lemma RaisedFirst(c: Config)
    ensures Next(c, INITIAL, RaiseAlert(7, 0.0, 0.0)) == RAISED
  {
  }

  lemma SnapshotTakesIt(c: Config)
    ensures Next(c, RAISED, Snapshot(c.escalationTime)) == RAISED.(stale := [0])
  {
    var t := c.escalationTime;
    assert |RAISED.alerts| == 1 && RAISED.alerts[..0] == [] && Stale(c, RAISED.alerts[0], t);
    assert StaleIds(c, [], t) == [];
    assert StaleIds(c, RAISED.alerts, t) == [0];
  }

  ghost predicate Reachable(c: Config, s: State) {
    exists states: seq<State>, steps: seq<Step> :: Run(c, states, steps) && states[|steps|] == s
  }

  lemma ReachNext(c: Config, s: State, step: Step, s': State)
    requires Reachable(c, s) && Known(s) && Next(c, s, step) == s'
    ensures Reachable(c, s')
  {
    hide Next, Known;
    var states: seq<State>, steps: seq<Step> :| Run(c, states, steps) && states[|steps|] == s;
    assert Run(c, states + [s'], steps + [step]);
  }

  lemma RaisedIsReachable(c: Config)
    ensures Reachable(c, RAISED)
  {
    var states, steps: seq<Step> := [INITIAL], [];
    assert Run(c, states, steps) && states[|steps|] == INITIAL;
    assert Reachable(c, INITIAL);
    RaisedFirst(c);
    hide Next, Run;
    ReachNext(c, INITIAL, RaiseAlert(7, 0.0, 0.0), RAISED);
  }

  function AcknowledgedInTime(t: real): State {
    RAISED.(stale := [0], alerts := [Moved(RAISED.alerts[0], Acknowledged, t)],
            grants := [Grant(0, New, Acknowledged, false)])
  }

  lemma AcknowledgedIsReachable(c: Config)
    ensures Reachable(c, AcknowledgedInTime(c.escalationTime))
  {
    hide Reachable, StaleIds;
    RaisedIsReachable(c);
    SnapshotTakesIt(c);
    ReachNext(c, RAISED, Snapshot(c.escalationTime), RAISED.(stale := [0]));
    ReachNext(c, RAISED.(stale := [0]), Request(0, Acknowledged, c.escalationTime), AcknowledgedInTime(c.escalationTime));
  }

  /** An alert that an operator acknowledges after the snapshot is escalated all the same, and
      the escalator never adds to the escalated counter. */
  lemma EscalatorOvertakesOperator(c: Config)
    ensures exists s: State ::
              && Reachable(c, s) && |s.alerts| == 1 && s.alerts[0].status == Escalated && s.escalated == 0
              && s.grants == [Grant(0, New, Acknowledged, false), Grant(0, Acknowledged, Escalated, true)]
  {
    hide Reachable, StaleIds;
    AcknowledgedIsReachable(c);
    var s := AcknowledgedInTime(c.escalationTime);
    var s' := Next(c, s, EscalateOne(0, c.escalationTime));
    ReachNext(c, s, EscalateOne(0, c.escalationTime), s');
    assert s'.grants == [Grant(0, New, Acknowledged, false), Grant(0, Acknowledged, Escalated, true)];
  }

  /** Resolving one alert twice counts two resolved alerts. */
  lemma ResolvingTwiceCountsTwo(c: Config)
    ensures exists s: State :: Reachable(c, s) && s.resolved == 2 && |s.alerts| == 1
  {
    hide Reachable, StaleIds;
    var s2 := RAISED.(alerts := [Moved(RAISED.alerts[0], Resolved, 1.0)],
                      grants := [Grant(0, New, Resolved, false)], owed := multiset{Resolved});
    var s3 := s2.(resolved := 1, owed := multiset{});
    var s4 := s3.(grants := s3.grants + [Grant(0, Resolved, Resolved, false)], owed := multiset{Resolved});
    var s5 := s4.(resolved := 2, owed := multiset{});
    RaisedIsReachable(c);
    ReachNext(c, RAISED, Request(0, Resolved, 1.0), s2);
    ReachNext(c, s2, CountOwed(Resolved), s3);
    ReachNext(c, s3, Request(0, Resolved, 2.0), s4);
    ReachNext(c, s4, CountOwed(Resolved), s5);
  }

  /** A request and the update of its counter, with nothing in between. */
  ghost function Called(c: Config, s: State, a: nat, to: Status, now: real): State
    requires Known(s)
  {
    StepKnown(c, s, Request(a, to, now));
    Next(c, Next(c, s, Request(a, to, now)), CountOwed(to))
  }

  // ---------------------------------------------------------------- the class

  class AlertManager {
    const config: Config
    var alerts: seq<Alert>
    var fingerprints: map<nat, Hit>
    var raised: nat
    var deduplicated: nat
    var escalated: nat
    var resolved: nat
    var falsePositives: nat
    ghost var raises: seq<Raise>
    ghost var grants: seq<Grant>

    /** The state between two calls. */
    ghost function Abs(): State
      reads this
    {
      State(alerts, fingerprints, raised, deduplicated, escalated, resolved, falsePositives, raises, grants, [], multiset{})
    }

    constructor (config: Config)
      ensures this.config == config && Abs() == INITIAL
    {
      this.config := config;
      alerts, fingerprints, raises, grants := [], map[], [], [];
      raised, deduplicated, escalated, resolved, falsePositives := 0, 0, 0, 0, 0;
    }

    method RaiseAlert(fingerprint: nat, now: real, created: real) returns (a: nat)
      requires Known(Abs())
      modifies this
      ensures Abs() == Next(config, old(Abs()), Step.RaiseAlert(fingerprint, now, created)) && Known(Abs())
      ensures a == if Duplicate(config, old(Abs()), fingerprint, now) then old(fingerprints)[fingerprint].alert else |old(alerts)|
      ensures a < |alerts| && fingerprints[fingerprint] == Hit(a, now)
    {
      if fingerprint in fingerprints && now - fingerprints[fingerprint].at <= config.dedupWindow {
        a := fingerprints[fingerprint].alert;
        alerts := alerts[a := alerts[a].(count := alerts[a].count + 1, updatedAt := now)];
        deduplicated := deduplicated + 1;
      } else {
        a := |alerts|;
        alerts := alerts + [Alert(fingerprint, New, created, created, None, None, 1)];
        raised := raised + 1;
      }
      fingerprints := fingerprints[fingerprint := Hit(a, now)];
      raises := raises + [Raise(fingerprint, now, a)];
    }

    method Transition(a: nat, to: Status, now: real, ghost byEscalator: bool) returns (ok: bool)
      requires a < |alerts|
      modifies this`alerts, this`grants
      ensures Abs() == Transitioned(old(Abs()), a, to, now, byEscalator)
      ensures ok == Granted(old(alerts)[a].status, to)
    {
      var from := alerts[a].status;
      ok := from == to || Allowed(from, to);
      if ok { grants := grants + [Grant(a, from, to, byEscalator)]; }
      if from == to || !ok { return; }
      var alert := alerts[a].(status := to, updatedAt := now);
      if to == Acknowledged && alert.acknowledgedAt.None? { alert := alert.(acknowledgedAt := Some(now)); }
      if to == Resolved || to == FalsePositive { alert := alert.(resolvedAt := Some(now)); }
      alerts := alerts[a := alert];
    }

    method TransitionById(a: nat, to: Status, now: real) returns (ok: bool)
      requires Known(Abs())
      modifies this`alerts, this`grants
      ensures Abs() == Next(config, old(Abs()), Request(a, to, now)).(owed := multiset{})
      ensures ok == (a < |old(alerts)| && Granted(old(alerts)[a].status, to))
    {
      ok := false;
      if a < |alerts| { ok := Transition(a, to, now, false); }
    }

    method ResolveAlert(a: nat, now: real) returns (ok: bool)
      requires Known(Abs())
      modifies this`alerts, this`grants, this`resolved
      ensures Abs() == Called(config, old(Abs()), a, Resolved, now)
      ensures ok == (a < |old(alerts)| && Granted(old(alerts)[a].status, Resolved))
    {
      ok := TransitionById(a, Resolved, now);
      if ok { resolved := resolved + 1; }
    }

    method MarkFalsePositive(a: nat, now: real) returns (ok: bool)
      requires Known(Abs())
      modifies this`alerts, this`grants, this`falsePositives
      ensures Abs() == Called(config, old(Abs()), a, FalsePositive, now)
      ensures ok == (a < |old(alerts)| && Granted(old(alerts)[a].status, FalsePositive))
    {
      ok := TransitionById(a, FalsePositive, now);
      if ok { falsePositives := falsePositives + 1; }
    }

    method EscalateAlert(a: nat, now: real) returns (ok: bool)
      requires Known(Abs())
      modifies this`alerts, this`grants, this`escalated
      ensures Abs() == Called(config, old(Abs()), a, Escalated, now)
      ensures ok == (a < |old(alerts)| && Granted(old(alerts)[a].status, Escalated))
    {
      ok := TransitionById(a, Escalated, now);
      if ok { escalated := escalated + 1; }
    }

    /** An escalation pass that nobody interrupts escalates exactly the stale new alerts. */
    method EscalateStaleAlerts(now: real, later: real)
      modifies this`alerts, this`grants
      ensures |alerts| == |old(alerts)|
      ensures forall a | 0 <= a < |alerts| ::
                alerts[a] == if Stale(config, old(alerts)[a], now) then Moved(old(alerts)[a], Escalated, later)
                             else old(alerts)[a]
    {
      var stale: seq<nat> := [];
      var a := 0;
      while a < |alerts|
        invariant 0 <= a <= |alerts|
        invariant forall b: nat :: b in stale <==> b < a && Stale(config, alerts[b], now)
        invariant forall i, j | 0 <= i < j < |stale| :: stale[i] != stale[j]
      {
        if alerts[a].status == New && now - alerts[a].createdAt >= config.escalationTime { stale := stale + [a]; }
        a := a + 1;
      }
      var k := 0;
      while k < |stale|
        invariant 0 <= k <= |stale| && |alerts| == |old(alerts)|
        invariant forall b | 0 <= b < |alerts| ::
                    alerts[b] == if b in stale[..k] then Moved(old(alerts)[b], Escalated, later) else old(alerts)[b]
      {
        assert stale[k] in stale && stale[k] !in stale[..k];
        assert stale[..k + 1] == stale[..k] + [stale[k]];
        var _ := Transition(stale[k], Escalated, later, true);
        k := k + 1;
      }
      assert stale[..k] == stale;
    }
  }
}
