/** The alerts of the alert manager: deduplication by fingerprint, the alert lifecycle, and the escalator
    thread, whose snapshot of stale alerts is transitioned later under a new lock. Each step is
    one critical section; callers, escalators and clocks interleave in any way. */
module AlertLifecycle {
  import opened Options

  datatype Status = New | Acknowledged | Investigating | Escalated | Resolved | FalsePositive

  predicate Absorbing(s: Status) {
    s == Resolved || s == FalsePositive
  }

  predicate Allowed(from: Status, to: Status) {
    match from
    case New => to != New
    case Acknowledged => to == Investigating || Absorbing(to) || to == Escalated
    case Investigating => to == Acknowledged || Absorbing(to) || to == Escalated
    case Escalated => to == Investigating || Absorbing(to)
    case Resolved => false
    case FalsePositive => false
  }

  datatype Alert = Alert(
    fingerprint: nat, status: Status, createdAt: real, updatedAt: real,
    acknowledgedAt: Option<real>, resolvedAt: Option<real>, count: nat)

  /** Alert ids number the alerts in the order they were raised, so alert a is alerts[a]. */
  datatype Hit = Hit(alert: nat, at: real)

  datatype Config = Config(dedupWindow: real, escalationTime: real)

  /** One raise_alert call: its fingerprint, its clock reading, and the alert it returned. */
  datatype Raise = Raise(fingerprint: nat, now: real, alert: nat)

  /** One transition that was granted, a repeat of the current status included. */
  datatype Grant = Grant(alert: nat, from: Status, to: Status, byEscalator: bool)

  /** raises and grants are histories. stale is the escalators' unfinished snapshot, and owed
      the granted calls that did not reach their statistics counter yet. */
  datatype State = State(
    alerts: seq<Alert>, fingerprints: map<nat, Hit>, raised: nat, deduplicated: nat,
    escalated: nat, resolved: nat, falsePositives: nat,
    raises: seq<Raise>, grants: seq<Grant>, stale: seq<nat>, owed: multiset<Status>)

  const INITIAL := State([], map[], 0, 0, 0, 0, 0, [], [], [], multiset{})

  datatype Step =
    | RaiseAlert(fingerprint: nat, now: real, created: real)
    | Request(alert: nat, to: Status, now: real)
    | CountOwed(status: Status)
    | Snapshot(now: real)
    | EscalateOne(k: nat, now: real)

  // ---------------------------------------------------------------- steps

  predicate Duplicate(c: Config, s: State, fingerprint: nat, now: real) {
    fingerprint in s.fingerprints && now - s.fingerprints[fingerprint].at <= c.dedupWindow
  }

  function Absorb(s: State, fingerprint: nat, now: real): State
    requires fingerprint in s.fingerprints && s.fingerprints[fingerprint].alert < |s.alerts|
  {
    var a := s.fingerprints[fingerprint].alert;
    s.(alerts := s.alerts[a := s.alerts[a].(count := s.alerts[a].count + 1, updatedAt := now)],
       fingerprints := s.fingerprints[fingerprint := Hit(a, now)], deduplicated := s.deduplicated + 1,
       raises := s.raises + [Raise(fingerprint, now, a)])
  }

  function Open(s: State, fingerprint: nat, now: real, created: real): State {
    s.(alerts := s.alerts + [Alert(fingerprint, New, created, created, None, None, 1)],
       fingerprints := s.fingerprints[fingerprint := Hit(|s.alerts|, now)], raised := s.raised + 1,
       raises := s.raises + [Raise(fingerprint, now, |s.alerts|)])
  }

  function Moved(a: Alert, to: Status, now: real): Alert {
    a.(status := to, updatedAt := now,
       acknowledgedAt := if to == Acknowledged && a.acknowledgedAt.None? then Some(now) else a.acknowledgedAt,
       resolvedAt := if Absorbing(to) then Some(now) else a.resolvedAt)
  }

  predicate Granted(from: Status, to: Status) {
    from == to || Allowed(from, to)
  }

  function Transitioned(s: State, a: nat, to: Status, now: real, byEscalator: bool): State
    requires a < |s.alerts|
  {
    var from := s.alerts[a].status;
    if !Granted(from, to) then s
    else
      s.(alerts := if from == to then s.alerts else s.alerts[a := Moved(s.alerts[a], to, now)],
         grants := s.grants + [Grant(a, from, to, byEscalator)])
  }

  /** The statuses whose granted requests are counted. */
  predicate Counted(to: Status) {
    Absorbing(to) || to == Escalated
  }

  predicate Stale(c: Config, a: Alert, now: real) {
    a.status == New && now - a.createdAt >= c.escalationTime
  }

  function StaleIds(c: Config, alerts: seq<Alert>, now: real): (ids: seq<nat>)
    ensures forall a: nat :: a in ids <==> a < |alerts| && Stale(c, alerts[a], now)
  {
    if alerts == [] then []
    else
      var n := |alerts| - 1;
      assert forall a: nat | a < n :: alerts[..n][a] == alerts[a];
      StaleIds(c, alerts[..n], now) + if Stale(c, alerts[n], now) then [n] else []
  }

  predicate Known(s: State) {
    && (forall fp | fp in s.fingerprints :: s.fingerprints[fp].alert < |s.alerts|)
    && (forall k | 0 <= k < |s.stale| :: s.stale[k] < |s.alerts|)
  }

  function Next(c: Config, s: State, step: Step): State
    requires Known(s)
  {
    match step
    case RaiseAlert(fp, now, created) => if Duplicate(c, s, fp, now) then Absorb(s, fp, now) else Open(s, fp, now, created)
    case Request(a, to, now) =>
      if a >= |s.alerts| then s
      else
        var owed := if Counted(to) && Granted(s.alerts[a].status, to) then s.owed + multiset{to} else s.owed;
        Transitioned(s, a, to, now, false).(owed := owed)
    case CountOwed(st) =>
      if st !in s.owed then s
      else
        var s' := s.(owed := s.owed - multiset{st});
        (match st
         case Escalated => s'.(escalated := s.escalated + 1)
         case Resolved => s'.(resolved := s.resolved + 1)
         case FalsePositive => s'.(falsePositives := s.falsePositives + 1)
         case _ => s)
    case Snapshot(now) => s.(stale := s.stale + StaleIds(c, s.alerts, now))
    case EscalateOne(k, now) =>
      if k >= |s.stale| then s
      else Transitioned(s, s.stale[k], Escalated, now, true).(stale := s.stale[..k] + s.stale[k + 1..])
  }

  // ---------------------------------------------------------------- deduplication

  function Hits(raises: seq<Raise>, a: nat): nat {
    if raises == [] then 0
    else Hits(raises[..|raises| - 1], a) + if raises[|raises| - 1].alert == a then 1 else 0
  }

  function Total(alerts: seq<Alert>): nat {
    if alerts == [] then 0 else Total(alerts[..|alerts| - 1]) + alerts[|alerts| - 1].count
  }

  /** The index of the latest raise of a fingerprint. */
  function Last(raises: seq<Raise>, fp: nat): (i: Option<nat>)
    ensures i.Some? ==> i.value < |raises| && raises[i.value].fingerprint == fp
  {
    if raises == [] then None
    else
      var n := |raises| - 1;
      if raises[n].fingerprint == fp then Some(n) else Last(raises[..n], fp)
  }

  /** A raise is absorbed by the alert of the one before exactly when it comes within the window;
      otherwise it has a newer alert. */
  predicate Follows(c: Config, earlier: Raise, later: Raise) {
    if later.now - earlier.now <= c.dedupWindow then later.alert == earlier.alert else later.alert > earlier.alert
  }

  predicate DedupExact(c: Config, raises: seq<Raise>) {
    raises == []
    || var n := |raises| - 1;
       && DedupExact(c, raises[..n])
       && var i := Last(raises[..n], raises[n].fingerprint);
          i.Some? ==> Follows(c, raises[i.value], raises[n])
  }

  /** j is the next raise of the same fingerprint after i. */
  predicate Consecutive(raises: seq<Raise>, i: nat, j: nat) {
    && i < j < |raises| && raises[i].fingerprint == raises[j].fingerprint
    && forall k | i < k < j :: raises[k].fingerprint != raises[j].fingerprint
  }

  /** The index holds, for every fingerprint raised, its latest raise. */
  ghost predicate Indexed(fingerprints: map<nat, Hit>, raises: seq<Raise>) {
    forall fp: nat ::
      match Last(raises, fp)
      case None => fp !in fingerprints
      case Some(i) => fp in fingerprints && fingerprints[fp] == Hit(raises[i].alert, raises[i].now)
  }

  /** It points to the newest alert of the fingerprint. */
  ghost predicate Newest(alerts: seq<Alert>, fingerprints: map<nat, Hit>) {
    && (forall fp | fp in fingerprints ::
          fingerprints[fp].alert < |alerts| && alerts[fingerprints[fp].alert].fingerprint == fp)
    && (forall a | 0 <= a < |alerts| ::
          alerts[a].fingerprint in fingerprints && a <= fingerprints[alerts[a].fingerprint].alert)
  }

  /** Each alert counts the raises it absorbed and the one that opened it. */
  ghost predicate Accounted(alerts: seq<Alert>, raises: seq<Raise>) {
    && (forall r | r in raises :: r.alert < |alerts|)
    && (forall a | 0 <= a < |alerts| :: alerts[a].count == Hits(raises, a))
    && Total(alerts) == |raises|
  }

  // ---------------------------------------------------------------- lifecycle

  function Of(grants: seq<Grant>, a: nat): seq<Grant> {
    if grants == [] then []
    else
      var g := grants[|grants| - 1];
      Of(grants[..|grants| - 1], a) + if g.alert == a then [g] else []
  }

  /** The grants lead from New to st, each by an allowed transition or by none. */
  predicate Path(grants: seq<Grant>, st: Status) {
    if grants == [] then st == New
    else
      var g := grants[|grants| - 1];
      g.to == st && Granted(g.from, g.to) && Path(grants[..|grants| - 1], g.from)
  }

  ghost predicate Lifecycle(alerts: seq<Alert>, grants: seq<Grant>) {
    && (forall a | 0 <= a < |alerts| :: Path(Of(grants, a), alerts[a].status))
    && (forall g | g in grants :: g.alert < |alerts| && (g.byEscalator ==> g.to == Escalated))
  }

  /** resolved_at is set exactly in the two absorbing states, and acknowledged_at never before
      the alert left New and always once it is acknowledged. */
  ghost predicate Stamped(a: Alert) {
    && (a.resolvedAt.Some? <==> Absorbing(a.status))
    && (a.status == New ==> a.acknowledgedAt.None?)
    && (a.status == Acknowledged ==> a.acknowledgedAt.Some?)
  }

  ghost predicate AllStamped(alerts: seq<Alert>) {
    forall a | 0 <= a < |alerts| :: Stamped(alerts[a])
  }

  // ---------------------------------------------------------------- statistics

  /** The grants to st that callers asked for. */
  function Asked(grants: seq<Grant>, st: Status): nat {
    if grants == [] then 0
    else
      var g := grants[|grants| - 1];
      Asked(grants[..|grants| - 1], st) + if g.to == st && !g.byEscalator then 1 else 0
  }

  /** The grants to st that left the alert as it was. */
  function Repeated(grants: seq<Grant>, st: Status): nat {
    if grants == [] then 0
    else
      var g := grants[|grants| - 1];
      Repeated(grants[..|grants| - 1], st) + if g.to == st && g.from == st then 1 else 0
  }

  function InStatus(alerts: seq<Alert>, st: Status): nat {
    if alerts == [] then 0
    else InStatus(alerts[..|alerts| - 1], st) + if alerts[|alerts| - 1].status == st then 1 else 0
  }

  function Counter(s: State, st: Status): nat {
    match st
    case Escalated => s.escalated
    case Resolved => s.resolved
    case FalsePositive => s.falsePositives
    case _ => 0
  }

  /** A counter and what it is still owed make up the requests granted. */
  ghost predicate StatsCount(s: State) {
    forall st | Counted(st) :: Counter(s, st) + s.owed[st] == Asked(s.grants, st)
  }

  /** In an absorbing state sits every alert that was granted it, repeats left out. */
  ghost predicate Settled(alerts: seq<Alert>, grants: seq<Grant>, st: Status) {
    Asked(grants, st) == InStatus(alerts, st) + Repeated(grants, st)
  }

  // ---------------------------------------------------------------- deduplication is kept

  lemma DedupAppend(c: Config, fingerprints: map<nat, Hit>, raises: seq<Raise>, r: Raise)
    requires DedupExact(c, raises) && Indexed(fingerprints, raises)
    requires r.fingerprint in fingerprints ==>
               var hit := fingerprints[r.fingerprint]; Follows(c, Raise(r.fingerprint, hit.at, hit.alert), r)
    ensures DedupExact(c, raises + [r])
  {
  }

  lemma IndexedAppend(fingerprints: map<nat, Hit>, raises: seq<Raise>, r: Raise)
    requires Indexed(fingerprints, raises)
    ensures Indexed(fingerprints[r.fingerprint := Hit(r.alert, r.now)], raises + [r])
  {
  }

  lemma {:induction false} LastIs(raises: seq<Raise>, i: nat)
    requires i < |raises| && forall k | i < k < |raises| :: raises[k].fingerprint != raises[i].fingerprint
    ensures Last(raises, raises[i].fingerprint) == Some(i)
  {
    if i < |raises| - 1 { LastIs(raises[..|raises| - 1], i); }
  }

  lemma {:induction false} ConsecutiveFollow(c: Config, raises: seq<Raise>, i: nat, j: nat)
    requires DedupExact(c, raises) && Consecutive(raises, i, j)
    ensures Follows(c, raises[i], raises[j])
  {
    var n := |raises| - 1;
    if j < n {
      ConsecutiveFollow(c, raises[..n], i, j);
    } else {
      assert forall k | 0 <= k < n :: raises[..n][k] == raises[k];
      LastIs(raises[..n], i);
    }
  }

  lemma HitsAppend(raises: seq<Raise>, r: Raise, a: nat)
    ensures Hits(raises + [r], a) == Hits(raises, a) + if r.alert == a then 1 else 0
  {
  }

  lemma {:induction false} NoHits(raises: seq<Raise>, a: nat)
    requires forall r | r in raises :: r.alert < a
    ensures Hits(raises, a) == 0
  {
    if raises != [] {
      assert raises[|raises| - 1] in raises;
      NoHits(raises[..|raises| - 1], a);
    }
  }

  lemma {:induction false} TotalUpdate(alerts: seq<Alert>, a: nat, x: Alert)
    requires a < |alerts|
    ensures Total(alerts[a := x]) == Total(alerts) - alerts[a].count + x.count
  {
    var n := |alerts| - 1;
    if a == n {
      assert alerts[a := x][..n] == alerts[..n];
    } else {
      TotalUpdate(alerts[..n], a, x);
      assert alerts[a := x][..n] == alerts[..n][a := x];
    }
  }

  lemma TotalAppend(alerts: seq<Alert>, x: Alert)
    ensures Total(alerts + [x]) == Total(alerts) + x.count
  {
  }

  lemma AccountedAbsorb(alerts: seq<Alert>, raises: seq<Raise>, r: Raise, x: Alert)
    requires Accounted(alerts, raises) && r.alert < |alerts| && x.count == alerts[r.alert].count + 1
    ensures Accounted(alerts[r.alert := x], raises + [r])
  {
    TotalUpdate(alerts, r.alert, x);
    forall b: nat { HitsAppend(raises, r, b); }
    hide Hits, Total;
  }

  lemma AccountedOpen(alerts: seq<Alert>, raises: seq<Raise>, r: Raise, x: Alert)
    requires Accounted(alerts, raises) && r.alert == |alerts| && x.count == 1
    ensures Accounted(alerts + [x], raises + [r])
  {
    TotalAppend(alerts, x);
    NoHits(raises, r.alert);
    forall b: nat { HitsAppend(raises, r, b); }
    hide Hits, Total;
  }

  lemma AccountedMove(alerts: seq<Alert>, raises: seq<Raise>, a: nat, x: Alert)
    requires Accounted(alerts, raises) && a < |alerts| && x.count == alerts[a].count
    ensures Accounted(alerts[a := x], raises)
  {
    TotalUpdate(alerts, a, x);
    hide Hits, Total;
  }

  ghost predicate Deduplicates(c: Config, s: State) {
    && DedupExact(c, s.raises) && Indexed(s.fingerprints, s.raises) && Newest(s.alerts, s.fingerprints)
    && Accounted(s.alerts, s.raises) && |s.alerts| == s.raised && |s.raises| == s.raised + s.deduplicated
  }

  lemma AbsorbDeduplicates(c: Config, s: State, fp: nat, now: real)
    requires Deduplicates(c, s) && Duplicate(c, s, fp, now)
    ensures Deduplicates(c, Absorb(s, fp, now))
  {
    hide DedupExact, Indexed, Accounted;
    var a := s.fingerprints[fp].alert;
    var r := Raise(fp, now, a);
    DedupAppend(c, s.fingerprints, s.raises, r);
    IndexedAppend(s.fingerprints, s.raises, r);
    AccountedAbsorb(s.alerts, s.raises, r, Absorb(s, fp, now).alerts[a]);
  }

  lemma OpenDeduplicates(c: Config, s: State, fp: nat, now: real, created: real)
    requires Deduplicates(c, s) && !Duplicate(c, s, fp, now)
    ensures Deduplicates(c, Open(s, fp, now, created))
  {
    hide DedupExact, Indexed, Accounted;
    var a := |s.alerts|;
    var r := Raise(fp, now, a);
    DedupAppend(c, s.fingerprints, s.raises, r);
    IndexedAppend(s.fingerprints, s.raises, r);
    AccountedOpen(s.alerts, s.raises, r, Open(s, fp, now, created).alerts[a]);
  }

  lemma TransitionDeduplicates(c: Config, s: State, a: nat, to: Status, now: real, byEscalator: bool)
    requires Deduplicates(c, s) && a < |s.alerts|
    ensures Deduplicates(c, Transitioned(s, a, to, now, byEscalator))
  {
    hide DedupExact, Indexed, Accounted;
    AccountedMove(s.alerts, s.raises, a, Moved(s.alerts[a], to, now));
  }

  // ---------------------------------------------------------------- the lifecycle is kept

  lemma OfAppend(grants: seq<Grant>, g: Grant, a: nat)
    ensures Of(grants + [g], a) == Of(grants, a) + if g.alert == a then [g] else []
  {
  }

  lemma {:induction false} NoneOf(grants: seq<Grant>, a: nat)
    requires forall g | g in grants :: g.alert < a
    ensures Of(grants, a) == []
  {
    if grants != [] {
      assert grants[|grants| - 1] in grants;
      NoneOf(grants[..|grants| - 1], a);
    }
  }

  lemma PathAppend(grants: seq<Grant>, g: Grant)
    requires Path(grants, g.from) && Granted(g.from, g.to)
    ensures Path(grants + [g], g.to)
  {
  }

  ghost predicate Lives(s: State) {
    Lifecycle(s.alerts, s.grants) && AllStamped(s.alerts)
  }

  lemma LifecycleMove(alerts: seq<Alert>, grants: seq<Grant>, g: Grant, x: Alert)
    requires Lifecycle(alerts, grants) && g.alert < |alerts| && g.from == alerts[g.alert].status
    requires Granted(g.from, g.to) && x.status == g.to && (g.byEscalator ==> g.to == Escalated)
    ensures Lifecycle(alerts[g.alert := x], grants + [g])
  {
    PathAppend(Of(grants, g.alert), g);
    var after := alerts[g.alert := x];
    forall b: nat | b < |after| ensures Path(Of(grants + [g], b), after[b].status) {
      OfAppend(grants, g, b);
      hide Of, Path;
      if b != g.alert { assert Of(grants + [g], b) == Of(grants, b); }
    }
  }

  lemma LifecycleOpen(alerts: seq<Alert>, grants: seq<Grant>, x: Alert)
    requires Lifecycle(alerts, grants) && x.status == New
    ensures Lifecycle(alerts + [x], grants)
  {
    NoneOf(grants, |alerts|);
    assert Path([], New);
    hide Of, Path;
  }

  lemma LifecycleAbsorb(alerts: seq<Alert>, grants: seq<Grant>, a: nat, x: Alert)
    requires Lifecycle(alerts, grants) && a < |alerts| && x.status == alerts[a].status
    ensures Lifecycle(alerts[a := x], grants)
  {
  }

  lemma RaiseLives(c: Config, s: State, fp: nat, now: real, created: real)
    requires Lives(s) && Known(s)
    ensures Lives(Next(c, s, RaiseAlert(fp, now, created)))
  {
    hide Lifecycle;
    if Duplicate(c, s, fp, now) {
      var a := s.fingerprints[fp].alert;
      LifecycleAbsorb(s.alerts, s.grants, a, Absorb(s, fp, now).alerts[a]);
    } else {
      LifecycleOpen(s.alerts, s.grants, Open(s, fp, now, created).alerts[|s.alerts|]);
    }
  }

  lemma TransitionLives(s: State, a: nat, to: Status, now: real, byEscalator: bool)
    requires Lives(s) && a < |s.alerts| && (byEscalator ==> to == Escalated)
    ensures Lives(Transitioned(s, a, to, now, byEscalator))
  {
    hide Lifecycle;
    var g := Grant(a, s.alerts[a].status, to, byEscalator);
    if Granted(g.from, to) {
      var x := if g.from == to then s.alerts[a] else Moved(s.alerts[a], to, now);
      LifecycleMove(s.alerts, s.grants, g, x);
      assert s.alerts[a := s.alerts[a]] == s.alerts;
    }
  }

  // ---------------------------------------------------------------- the statistics are kept

  lemma AskedAppend(grants: seq<Grant>, g: Grant, st: Status)
    ensures Asked(grants + [g], st) == Asked(grants, st) + if g.to == st && !g.byEscalator then 1 else 0
    ensures Repeated(grants + [g], st) == Repeated(grants, st) + if g.to == st && g.from == st then 1 else 0
  {
  }

  lemma {:induction false} InStatusUpdate(alerts: seq<Alert>, a: nat, x: Alert, st: Status)
    requires a < |alerts|
    ensures InStatus(alerts[a := x], st) + (if alerts[a].status == st then 1 else 0)
         == InStatus(alerts, st) + (if x.status == st then 1 else 0)
  {
    var n := |alerts| - 1;
    if a == n {
      assert alerts[a := x][..n] == alerts[..n];
    } else {
      InStatusUpdate(alerts[..n], a, x, st);
      assert alerts[a := x][..n] == alerts[..n][a := x];
    }
  }

  lemma InStatusAppend(alerts: seq<Alert>, x: Alert, st: Status)
    ensures InStatus(alerts + [x], st) == InStatus(alerts, st) + if x.status == st then 1 else 0
  {
  }

  ghost predicate Tallies(s: State) {
    StatsCount(s) && Settled(s.alerts, s.grants, Resolved) && Settled(s.alerts, s.grants, FalsePositive)
  }

  lemma RaiseSettled(c: Config, s: State, fp: nat, now: real, created: real, st: Status)
    requires Settled(s.alerts, s.grants, st) && Known(s) && st != New
    ensures var s' := Next(c, s, RaiseAlert(fp, now, created)); Settled(s'.alerts, s'.grants, st)
  {
    if Duplicate(c, s, fp, now) {
      var a := s.fingerprints[fp].alert;
      InStatusUpdate(s.alerts, a, Absorb(s, fp, now).alerts[a], st);
    } else {
      InStatusAppend(s.alerts, Open(s, fp, now, created).alerts[|s.alerts|], st);
    }
    hide InStatus, Asked, Repeated;
  }

  lemma TransitionSettled(s: State, a: nat, to: Status, now: real, byEscalator: bool, st: Status)
    requires Settled(s.alerts, s.grants, st) && a < |s.alerts| && Absorbing(st) && (byEscalator ==> to == Escalated)
    ensures var s' := Transitioned(s, a, to, now, byEscalator); Settled(s'.alerts, s'.grants, st)
  {
    AskedAppend(s.grants, Grant(a, s.alerts[a].status, to, byEscalator), st);
    InStatusUpdate(s.alerts, a, Moved(s.alerts[a], to, now), st);
    hide InStatus, Asked, Repeated;
  }

  lemma TransitionAsks(s: State, a: nat, to: Status, now: real, byEscalator: bool, st: Status)
    requires a < |s.alerts|
    ensures Asked(Transitioned(s, a, to, now, byEscalator).grants, st)
         == Asked(s.grants, st) + if to == st && !byEscalator && Granted(s.alerts[a].status, to) then 1 else 0
    ensures forall owed, stale ::
      Counter(Transitioned(s, a, to, now, byEscalator).(owed := owed, stale := stale), st) == Counter(s, st)
  {
  }

  lemma RequestOwes(c: Config, s: State, a: nat, to: Status, now: real, st: Status)
    requires Known(s) && a < |s.alerts| && Counted(st)
    ensures var s' := Next(c, s, Request(a, to, now));
            && s'.owed[st] == s.owed[st] + (if to == st && Granted(s.alerts[a].status, to) then 1 else 0)
            && s'.grants == Transitioned(s, a, to, now, false).grants && Counter(s', st) == Counter(s, st)
  {
  }

  lemma RequestCounts(c: Config, s: State, a: nat, to: Status, now: real)
    requires StatsCount(s) && Known(s) && a < |s.alerts|
    ensures StatsCount(Next(c, s, Request(a, to, now)))
  {
    hide Asked, Granted, Transitioned, Counter, Next, Known;
    var s' := Next(c, s, Request(a, to, now));
    forall st | Counted(st) ensures Counter(s', st) + s'.owed[st] == Asked(s'.grants, st) {
      TransitionAsks(s, a, to, now, false, st);
      RequestOwes(c, s, a, to, now, st);
    }
  }

  lemma EscalateCounts(c: Config, s: State, k: nat, now: real)
    requires StatsCount(s) && Known(s) && k < |s.stale|
    ensures StatsCount(Next(c, s, EscalateOne(k, now)))
  {
    var s' := Next(c, s, EscalateOne(k, now));
    forall st | Counted(st) ensures Counter(s', st) + s'.owed[st] == Asked(s'.grants, st) {
      TransitionAsks(s, s.stale[k], Escalated, now, true, st);
      hide Asked, Granted;
    }
  }

  lemma OwedCounts(c: Config, s: State, st: Status)
    requires StatsCount(s) && Known(s)
    ensures StatsCount(Next(c, s, CountOwed(st)))
  {
    hide Asked;
  }

  lemma StepCounts(c: Config, s: State, step: Step)
    requires StatsCount(s) && Known(s)
    ensures StatsCount(Next(c, s, step))
  {
    hide Asked, Repeated;
    match step
    case Request(a, to, now) => if a < |s.alerts| { RequestCounts(c, s, a, to, now); hide StatsCount; }
    case EscalateOne(k, now) => if k < |s.stale| { EscalateCounts(c, s, k, now); hide StatsCount; }
    case CountOwed(st) => OwedCounts(c, s, st); hide StatsCount;
    case _ =>
  }

  lemma StepTallies(c: Config, s: State, step: Step)
    requires Tallies(s) && Known(s)
    ensures Tallies(Next(c, s, step))
  {
    StepCounts(c, s, step);
    hide StatsCount, Settled;
    match step
    case RaiseAlert(fp, now, created) =>
      RaiseSettled(c, s, fp, now, created, Resolved);
      RaiseSettled(c, s, fp, now, created, FalsePositive);
    case Request(a, to, now) =>
      if a < |s.alerts| {
        TransitionSettled(s, a, to, now, false, Resolved);
        TransitionSettled(s, a, to, now, false, FalsePositive);
      }
    case EscalateOne(k, now) =>
      if k < |s.stale| {
        TransitionSettled(s, s.stale[k], Escalated, now, true, Resolved);
        TransitionSettled(s, s.stale[k], Escalated, now, true, FalsePositive);
      }
    case _ =>
  }

  // ---------------------------------------------------------------- every run

  ghost predicate Invariant(c: Config, s: State) {
    Known(s) && Deduplicates(c, s) && Lives(s) && Tallies(s)
  }

  lemma StepKnown(c: Config, s: State, step: Step)
    requires Known(s)
    ensures Known(Next(c, s, step))
  {
    hide Moved, Granted, Counted;
    match step
    case Snapshot(now) =>
      var ids := StaleIds(c, s.alerts, now);
      assert forall k | 0 <= k < |ids| :: ids[k] in ids;
    case _ =>
  }

  lemma StepDeduplicates(c: Config, s: State, step: Step)
    requires Known(s) && Deduplicates(c, s)
    ensures Deduplicates(c, Next(c, s, step))
  {
    hide DedupExact, Indexed, Newest, Accounted;
    match step
    case RaiseAlert(fp, now, created) =>
      if Duplicate(c, s, fp, now) { AbsorbDeduplicates(c, s, fp, now); } else { OpenDeduplicates(c, s, fp, now, created); }
    case Request(a, to, now) => if a < |s.alerts| { TransitionDeduplicates(c, s, a, to, now, false); }
    case EscalateOne(k, now) => if k < |s.stale| { TransitionDeduplicates(c, s, s.stale[k], Escalated, now, true); }
    case _ =>
  }

  lemma StepLives(c: Config, s: State, step: Step)
    requires Known(s) && Lives(s)
    ensures Lives(Next(c, s, step))
  {
    hide Lifecycle, AllStamped;
    match step
    case RaiseAlert(fp, now, created) => RaiseLives(c, s, fp, now, created);
    case Request(a, to, now) => if a < |s.alerts| { TransitionLives(s, a, to, now, false); }
    case EscalateOne(k, now) => if k < |s.stale| { TransitionLives(s, s.stale[k], Escalated, now, true); }
    case _ =>
  }

  /** A run from the start; Next is defined on states whose ids are known, which every run keeps. */
  ghost predicate Run(c: Config, states: seq<State>, steps: seq<Step>) {
    && |states| == |steps| + 1 && states[0] == INITIAL
    && forall i | 0 <= i < |steps| :: Known(states[i]) ==> states[i + 1] == Next(c, states[i], steps[i])
  }

  /** The invariant holds after every interleaving of callers and escalators. */
  lemma {:induction false} EveryRunKeeps(c: Config, states: seq<State>, steps: seq<Step>, i: nat)
    requires Run(c, states, steps) && i <= |steps|
    ensures Invariant(c, states[i])
  {
    if i > 0 {
      EveryRunKeeps(c, states, steps, i - 1);
      hide Next, Deduplicates, Lives, Tallies, Known;
      var s, step := states[i - 1], steps[i - 1];
      StepKnown(c, s, step);
      StepDeduplicates(c, s, step);
      StepLives(c, s, step);
      StepTallies(c, s, step);
    }
  }
}
