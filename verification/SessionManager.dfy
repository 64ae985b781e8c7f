/** The in-memory session registry: a map of sessions by id and, for every user, the set of
    that user's ids. Session ids are drawn fresh; clock readings are parameters. */
module SessionManager {
  import opened Options
  import opened IdLists

  datatype Session = Session(user: nat, createdAt: int, expiresAt: int, lastActivity: int, revoked: bool)

  datatype Config = Config(maxSessions: int, ttl: int, idleTimeout: int)

  datatype Registry = Registry(sessions: map<nat, Session>, byUser: map<nat, set<nat>>)

  // ---------------------------------------------------------------- what holds

  function IdsOf(s: Registry, user: nat): set<nat> {
    if user in s.byUser then s.byUser[user] else {}
  }

  /** The two indexes agree exactly, and no user keeps an empty set. */
  ghost predicate Agrees(s: Registry) {
    && (forall id | id in s.sessions :: id in IdsOf(s, s.sessions[id].user))
    && (forall user | user in s.byUser :: s.byUser[user] != {})
    && (forall user, id | user in s.byUser && id in s.byUser[user] ::
          id in s.sessions && s.sessions[id].user == user)
  }

  /** A cap below one still leaves the session just created. */
  function Cap(c: Config): nat {
    if c.maxSessions > 1 then c.maxSessions else 1
  }

  ghost predicate Capped(c: Config, s: Registry) {
    forall user | user in s.byUser :: |s.byUser[user]| <= Cap(c)
  }

  ghost predicate NoneRevoked(s: Registry) {
    forall id | id in s.sessions :: !s.sessions[id].revoked
  }

  ghost predicate Valid(c: Config, s: Registry) {
    Agrees(s) && Capped(c, s) && NoneRevoked(s)
  }

  predicate Expired(session: Session, now: int) {
    now >= session.expiresAt || session.revoked
  }

  predicate Idle(c: Config, session: Session, now: int) {
    now - session.lastActivity >= c.idleTimeout
  }

  // ---------------------------------------------------------------- operations

  /** The registry without some sessions, and without the users that lose their last one. */
  function Without(s: Registry, ids: set<nat>): Registry {
    Registry(s.sessions - ids,
             map user | user in s.byUser && s.byUser[user] - ids != {} :: s.byUser[user] - ids)
  }

  function With(s: Registry, id: nat, session: Session): Registry {
    Registry(s.sessions[id := session], s.byUser[session.user := IdsOf(s, session.user) + {id}])
  }

  /** How many sessions have to go before one more fits. */
  function Excess(c: Config, n: nat): nat {
    if n < c.maxSessions then 0
    else if n - c.maxSessions + 1 > n then n
    else n - c.maxSessions + 1
  }

  /** The sessions evicted for the cap: as many as needed, none newer than a survivor. */
  ghost predicate OldestOf(c: Config, s: Registry, user: nat, victims: set<nat>) {
    && victims <= IdsOf(s, user) <= s.sessions.Keys && |victims| == Excess(c, |IdsOf(s, user)|)
    && forall v, k | v in victims && k in IdsOf(s, user) - victims ::
         s.sessions[v].createdAt <= s.sessions[k].createdAt
  }

  function NewSession(c: Config, user: nat, now: int, ttlOverride: Option<int>): Session {
    var ttl := if ttlOverride.Some? && ttlOverride.value != 0 then ttlOverride.value else c.ttl;
    Session(user, now, now + ttl, now, false)
  }

  datatype Step =
    | Create(id: nat, session: Session, victims: set<nat>)
    | Touch(id: nat, now: int)
    | Evict(id: nat)

  /** used holds every id ever drawn. Eviction covers expiry, idling, logout and cleanup, which
      differ only in when they evict. */
  ghost predicate Next(c: Config, s: Registry, used: set<nat>, step: Step, s': Registry, used': set<nat>) {
    match step
    case Create(id, session, victims) =>
      && id !in used && used' == used + {id} && !session.revoked
      && OldestOf(c, s, session.user, victims) && s' == With(Without(s, victims), id, session)
    case Touch(id, now) =>
      used' == used && id in s.sessions && s' == s.(sessions := s.sessions[id := s.sessions[id].(lastActivity := now)])
    case Evict(id) => used' == used && s' == Without(s, {id})
  }

  lemma WithoutAgrees(s: Registry, ids: set<nat>)
    requires Agrees(s)
    ensures Agrees(Without(s, ids)) && Without(s, ids).sessions == s.sessions - ids
  {
  }

  lemma WithoutIds(s: Registry, ids: set<nat>, user: nat)
    ensures IdsOf(Without(s, ids), user) == IdsOf(s, user) - ids
  {
  }

  lemma WithoutNone(s: Registry)
    requires Agrees(s)
    ensures Without(s, {}) == s
  {
    assert forall user | user in s.byUser :: s.byUser[user] - {} == s.byUser[user];
  }

  lemma WithoutMore(s: Registry, ids: set<nat>, id: nat)
    ensures Without(Without(s, ids), {id}) == Without(s, ids + {id})
  {
    assert forall user | user in s.byUser :: s.byUser[user] - ids - {id} == s.byUser[user] - (ids + {id});
  }

  /** The first few in order of creation are not newer than the others. */
  lemma FirstAreOldest(s: Registry, ids: set<nat>, order: seq<nat>, n: nat)
    requires ids <= s.sessions.Keys && n <= |order| && forall id :: id in order <==> id in ids
    requires forall i, j | 0 <= i < j < |order| ::
               order[i] != order[j] && order[i] in s.sessions && order[j] in s.sessions
               && s.sessions[order[i]].createdAt <= s.sessions[order[j]].createdAt
    ensures var victims := Elements(order[..n]);
            && victims <= ids && |victims| == n
            && forall v, k | v in victims && k in ids - victims :: s.sessions[v].createdAt <= s.sessions[k].createdAt
  {
    var victims := Elements(order[..n]);
    ElementsCount(order[..n]);
    forall v | v in victims ensures v in ids { assert v in order[..n]; }
    forall v, k | v in victims && k in ids - victims ensures s.sessions[v].createdAt <= s.sessions[k].createdAt {
      var i :| 0 <= i < n && order[i] == v;
      var j :| 0 <= j < |order| && order[j] == k;
      assert k !in order[..n];
      assert forall i | 0 <= i < n :: order[i] in order[..n];
    }
  }

  /** The sessions that are expired or idle. */
  function Over(c: Config, s: Registry, now: int): set<nat> {
    set id | id in s.sessions && (Expired(s.sessions[id], now) || Idle(c, s.sessions[id], now))
  }

  ghost predicate Lists(ids: seq<nat>, s: Registry) {
    Distinct(ids) && Elements(ids) == s.sessions.Keys
  }

  /** The sessions among the first k ids that are expired or idle. */
  ghost function OverIn(c: Config, s: Registry, now: int, ids: seq<nat>, k: nat): set<nat>
    requires k <= |ids|
  {
    Over(c, s, now) * Elements(ids[..k])
  }

  ghost function OverCount(c: Config, s: Registry, now: int, ids: seq<nat>, k: nat): nat
    requires k <= |ids|
  {
    |OverIn(c, s, now, ids, k)|
  }

  lemma OverNext(c: Config, s: Registry, now: int, ids: seq<nat>, k: nat)
    requires k < |ids| && Lists(ids, s)
    ensures ids[k] in s.sessions && ids[k] !in OverIn(c, s, now, ids, k)
    ensures var over := Expired(s.sessions[ids[k]], now) || Idle(c, s.sessions[ids[k]], now);
            && OverIn(c, s, now, ids, k + 1) == OverIn(c, s, now, ids, k) + (if over then {ids[k]} else {})
            && |OverIn(c, s, now, ids, k + 1)| == |OverIn(c, s, now, ids, k)| + (if over then 1 else 0)
  {
  }

  predicate IsOver(c: Config, s: Registry, now: int, id: nat) {
    id in s.sessions && (Expired(s.sessions[id], now) || Idle(c, s.sessions[id], now))
  }

  /** One turn of the cleanup loop, on the registry that the turns before have left. */
  lemma OverTurn(c: Config, s: Registry, now: int, ids: seq<nat>, k: nat)
    requires k < |ids| && Lists(ids, s) && Valid(c, s)
    ensures var t := Without(s, OverIn(c, s, now, ids, k));
            && (if IsOver(c, t, now, ids[k]) then Without(t, {ids[k]}) else t) == Without(s, OverIn(c, s, now, ids, k + 1))
            && OverCount(c, s, now, ids, k + 1) == OverCount(c, s, now, ids, k) + if IsOver(c, t, now, ids[k]) then 1 else 0
  {
    var t := Without(s, OverIn(c, s, now, ids, k));
    OverNext(c, s, now, ids, k);
    WithoutValid(c, s, OverIn(c, s, now, ids, k));
    WithoutMore(s, OverIn(c, s, now, ids, k), ids[k]);
    hide Without, Valid, Elements, Over, OverIn, Distinct;
    assert ids[k] in t.sessions && t.sessions[ids[k]] == s.sessions[ids[k]];
  }

  lemma OverEnds(c: Config, s: Registry, now: int, ids: seq<nat>)
    requires Lists(ids, s) && Agrees(s)
    ensures Without(s, OverIn(c, s, now, ids, 0)) == s && OverCount(c, s, now, ids, 0) == 0
    ensures OverIn(c, s, now, ids, |ids|) == Over(c, s, now) && OverCount(c, s, now, ids, |ids|) == |Over(c, s, now)|
  {
    assert ids[..|ids|] == ids;
    assert OverIn(c, s, now, ids, 0) == {};
    WithoutNone(s);
  }

  lemma WithAgrees(s: Registry, id: nat, session: Session)
    requires Agrees(s) && id !in s.sessions
    ensures Agrees(With(s, id, session))
  {
  }

  lemma WithoutValid(c: Config, s: Registry, ids: set<nat>)
    requires Valid(c, s)
    ensures Valid(c, Without(s, ids)) && Without(s, ids).sessions == s.sessions - ids && Agrees(Without(s, ids))
  {
  }

  lemma Subset(a: set<nat>, b: set<nat>)
    requires a <= b
    ensures |a| <= |b| && |b - a| == |b| - |a|
  {
  }

  lemma WithValid(c: Config, s: Registry, id: nat, session: Session)
    requires Valid(c, s) && id !in s.sessions && !session.revoked && |IdsOf(s, session.user)| < Cap(c)
    ensures Valid(c, With(s, id, session))
  {
    WithAgrees(s, id, session);
    hide Agrees;
  }

  /** Registering a session, as the two updates it takes. */
  lemma WithMeans(s: Registry, id: nat, session: Session)
    ensures With(s, id, session)
         == Registry(s.sessions[id := session],
                     s.byUser[session.user := (if session.user in s.byUser then s.byUser[session.user] else {}) + {id}])
  {
  }

  lemma CreateValid(c: Config, s: Registry, id: nat, session: Session, victims: set<nat>)
    requires Valid(c, s) && id !in s.sessions && !session.revoked && OldestOf(c, s, session.user, victims)
    ensures Valid(c, With(Without(s, victims), id, session))
  {
    var ids := IdsOf(s, session.user);
    assert victims <= ids && |victims| == Excess(c, |ids|);
    assert |ids| <= Cap(c);
    assert id !in Without(s, victims).sessions;
    Subset(victims, ids);
    WithoutValid(c, s, victims);
    WithoutIds(s, victims, session.user);
    hide Valid, Agrees, OldestOf, Without, IdsOf, With;
    WithValid(c, Without(s, victims), id, session);
  }

  lemma StepValid(c: Config, s: Registry, used: set<nat>, step: Step, s': Registry, used': set<nat>)
    requires Valid(c, s) && s.sessions.Keys <= used && Next(c, s, used, step, s', used')
    ensures Valid(c, s') && s'.sessions.Keys <= used'
  {
    match step
    case Create(id, session, victims) => CreateValid(c, s, id, session, victims);
    case Touch(_, _) =>
    case Evict(id) => WithoutValid(c, s, {id});
  }

  ghost predicate Run(c: Config, states: seq<Registry>, used: seq<set<nat>>, steps: seq<Step>) {
    && |states| == |used| == |steps| + 1 && states[0] == Registry(map[], map[]) && used[0] == {}
    && forall i | 0 <= i < |steps| :: Next(c, states[i], used[i], steps[i], states[i + 1], used[i + 1])
  }

  /** In every reachable state the indexes agree, nobody exceeds the cap and no revoked session
      is left. */
  lemma {:induction false} EveryRunIsValid(c: Config, states: seq<Registry>, used: seq<set<nat>>, steps: seq<Step>, i: nat)
    requires Run(c, states, used, steps) && i <= |steps|
    ensures Valid(c, states[i]) && states[i].sessions.Keys <= used[i]
  {
    if i > 0 {
      EveryRunIsValid(c, states, used, steps, i - 1);
      StepValid(c, states[i - 1], used[i - 1], steps[i - 1], states[i], used[i]);
    }
  }

  /** A session that has left the registry never comes back. */
  lemma {:induction false} GoneForGood(c: Config, states: seq<Registry>, used: seq<set<nat>>, steps: seq<Step>,
                                       i: nat, j: nat, id: nat)
    requires Run(c, states, used, steps) && i <= j <= |steps| && id in used[i] && id !in states[i].sessions
    ensures id in used[j] && id !in states[j].sessions
  {
    if i < j {
      GoneForGood(c, states, used, steps, i, j - 1, id);
      assert Next(c, states[j - 1], used[j - 1], steps[j - 1], states[j], used[j]);
    }
  }

  /** What creation fixes: a session ends its lifetime after the creation, the default one where
      none or zero is asked for, and it is idle for a full timeout after its last activity. */
  lemma LivesForItsLifetime(c: Config, user: nat, now: int, ttlOverride: Option<int>, t: int)
    ensures var s := NewSession(c, user, now, ttlOverride);
            && s.user == user && s.createdAt == s.lastActivity == now
            && (ttlOverride == None || ttlOverride == Some(0) ==> (Expired(s, t) <==> t - now >= c.ttl))
            && (ttlOverride.Some? && ttlOverride.value != 0 ==> (Expired(s, t) <==> t - now >= ttlOverride.value))
            && (Idle(c, s, t) <==> t - now >= c.idleTimeout)
  {
  }

  /** Over every run, nothing but its last activity ever changes in a session: no use of it
      extends its lifetime. */
  lemma {:induction false} LifetimeIsFixed(c: Config, states: seq<Registry>, used: seq<set<nat>>, steps: seq<Step>,
                                           i: nat, j: nat, id: nat)
    requires Run(c, states, used, steps) && i <= j <= |steps|
    requires id in states[i].sessions && id in states[j].sessions
    ensures states[j].sessions[id] == states[i].sessions[id].(lastActivity := states[j].sessions[id].lastActivity)
  {
    hide Next, Valid;
    if i < j {
      EveryRunIsValid(c, states, used, steps, i);
      EveryRunIsValid(c, states, used, steps, j - 1);
      UsedGrows(c, states, used, steps, i, j - 1);
      if id in states[j - 1].sessions {
        LifetimeIsFixed(c, states, used, steps, i, j - 1, id);
        StepKeepsSessions(c, states[j - 1], used[j - 1], steps[j - 1], states[j], used[j], id);
      } else {
        GoneForGood(c, states, used, steps, j - 1, j, id);
      }
    }
  }

  lemma StepKeepsSessions(c: Config, s: Registry, used: set<nat>, step: Step, s': Registry, used': set<nat>, id: nat)
    requires Next(c, s, used, step, s', used') && s.sessions.Keys <= used && id in s.sessions && id in s'.sessions
    ensures s'.sessions[id] == s.sessions[id].(lastActivity := s'.sessions[id].lastActivity)
  {
  }

  lemma {:induction false} UsedGrows(c: Config, states: seq<Registry>, used: seq<set<nat>>, steps: seq<Step>, i: nat, j: nat)
    requires Run(c, states, used, steps) && i <= j <= |steps|
    ensures used[i] <= used[j]
  {
    if i < j {
      UsedGrows(c, states, used, steps, i, j - 1);
      assert Next(c, states[j - 1], used[j - 1], steps[j - 1], states[j], used[j]);
    }
  }

  lemma IdsAreTheUsers(s: Registry, user: nat)
    requires Agrees(s)
    ensures forall id :: id in IdsOf(s, user) <==> id in s.sessions && s.sessions[id].user == user
  {
  }

  /** Creating a session evicts nobody else's, */
  lemma CreateKeepsOthers(c: Config, s: Registry, id: nat, session: Session, victims: set<nat>, k: nat)
    requires Valid(c, s) && id !in s.sessions && OldestOf(c, s, session.user, victims)
    requires k in s.sessions && s.sessions[k].user != session.user
    ensures var s' := With(Without(s, victims), id, session).sessions; k in s' && s'[k] == s.sessions[k]
  {
  }

  /** and of the same user's none that is newer than one it keeps. */
  lemma CreateEvictsOldest(c: Config, s: Registry, id: nat, session: Session, victims: set<nat>, v: nat, k: nat)
    requires Valid(c, s) && id !in s.sessions && OldestOf(c, s, session.user, victims)
    requires v in s.sessions && v !in With(Without(s, victims), id, session).sessions
    requires k in s.sessions && k in With(Without(s, victims), id, session).sessions
    requires s.sessions[k].user == session.user
    ensures s.sessions[v].user == session.user && s.sessions[v].createdAt <= s.sessions[k].createdAt
    ensures |IdsOf(s, session.user)| >= c.maxSessions
  {
  }

  /** After a creation the user's sessions respect the configured cap exactly if the cap is at
      least one: the session just created always stays. */
  lemma CapIsKeptExactly(c: Config, s: Registry, id: nat, session: Session, victims: set<nat>)
    requires Valid(c, s) && id !in s.sessions && OldestOf(c, s, session.user, victims)
    ensures var ids := IdsOf(With(Without(s, victims), id, session), session.user);
            && id in ids
            && (|ids| <= c.maxSessions <==> c.maxSessions >= 1)
            && (c.maxSessions < 1 ==> ids == {id})
  {
    var ids := IdsOf(s, session.user);
    WithoutIds(s, victims, session.user);
    Subset(victims, ids);
    assert ids - victims == {} || |ids - victims| > 0;
    assert id !in ids;
    hide Without, Agrees;
  }

  // ---------------------------------------------------------------- the class

  class SessionManager {
    const config: Config
    var sessions: map<nat, Session>
    var byUser: map<nat, set<nat>>

    ghost function Abs(): Registry
      reads this
    {
      Registry(sessions, byUser)
    }

    constructor (config: Config)
      ensures this.config == config && Abs() == Registry(map[], map[]) && Valid(config, Abs())
    {
      this.config, sessions, byUser := config, map[], map[];
    }

    method Evict(id: nat)
      requires Agrees(Abs())
      modifies this`sessions, this`byUser
      ensures Abs() == Without(old(Abs()), {id})
    {
      if id !in sessions {
        assert forall user | user in byUser :: byUser[user] - {id} == byUser[user];
        return;
      }
      var user := sessions[id].user;
      assert forall other | other in byUser && other != user :: byUser[other] - {id} == byUser[other];
      sessions := sessions - {id};
      if user in byUser {
        byUser := byUser[user := byUser[user] - {id}];
        if byUser[user] == {} { byUser := byUser - {user}; }
      }
    }

    /** The ids in order of creation. */
    method OldestFirst(ids: set<nat>) returns (order: seq<nat>)
      requires ids <= sessions.Keys
      ensures |order| == |ids| && forall id :: id in order <==> id in ids
      ensures forall i, j | 0 <= i < j < |order| ::
                order[i] != order[j] && sessions[order[i]].createdAt <= sessions[order[j]].createdAt
    {
      order := [];
      var rest := ids;
      while rest != {}
        invariant rest <= ids && |order| + |rest| == |ids|
        invariant forall id :: id in order <==> id in ids - rest
        invariant forall i | 0 <= i < |order| :: order[i] in sessions
        invariant forall i, j | 0 <= i < j < |order| ::
                    order[i] != order[j] && sessions[order[i]].createdAt <= sessions[order[j]].createdAt
        invariant forall i, id | 0 <= i < |order| && id in rest ::
                    sessions[order[i]].createdAt <= sessions[id].createdAt
        decreases rest
      {
        var first := Oldest(rest);
        assert forall i | 0 <= i < |order| :: order[i] in order;
        order := order + [first];
        rest := rest - {first};
      }
    }

    method EvictEach(ids: seq<nat>)
      requires Agrees(Abs())
      modifies this`sessions, this`byUser
      ensures Abs() == Without(old(Abs()), Elements(ids))
    {
      ghost var s := Abs();
      WithoutNone(s);
      assert Elements(ids[..0]) == {};
      hide Without, Agrees;
      for k := 0 to |ids|
        invariant Abs() == Without(s, Elements(ids[..k]))
      {
        WithoutAgrees(s, Elements(ids[..k]));
        WithoutMore(s, Elements(ids[..k]), ids[k]);
        ElementsNext(ids, k);
        Evict(ids[k]);
      }
      assert ids[..|ids|] == ids;
    }

    /** Makes room for one more session of the user. */
    method EnforceMaxSessions(user: nat) returns (ghost victims: set<nat>)
      requires Agrees(Abs())
      modifies this`sessions, this`byUser
      ensures OldestOf(config, old(Abs()), user, victims) && Abs() == Without(old(Abs()), victims)
    {
      ghost var s := Abs();
      var ids := if user in byUser then byUser[user] else {};
      victims := {};
      WithoutNone(s);
      IdsAreTheUsers(s, user);
      assert ids == IdsOf(s, user);
      hide Without, Agrees, IdsOf;
      if |ids| < config.maxSessions { return; }
      var order := OldestFirst(ids);
      var excess := |order| - config.maxSessions + 1;
      var n := if excess > |order| then |order| else excess;
      victims := Elements(order[..n]);
      FirstAreOldest(s, ids, order, n);
      EvictEach(order[..n]);
    }

    method CreateSession(user: nat, now: int, ttlOverride: Option<int>, id: nat) returns (session: Session, ghost victims: set<nat>)
      requires Valid(config, Abs()) && id !in sessions
      modifies this`sessions, this`byUser
      ensures Valid(config, Abs()) && session == NewSession(config, user, now, ttlOverride)
      ensures OldestOf(config, old(Abs()), user, victims)
      ensures Abs() == With(Without(old(Abs()), victims), id, session)
    {
      hide Without, With, IdsOf, Agrees, OldestOf, Capped, NoneRevoked;
      ghost var s := Abs();
      var ttl := config.ttl;
      if ttlOverride.Some? && ttlOverride.value != 0 { ttl := ttlOverride.value; }
      session := Session(user, now, now + ttl, now, false);
      victims := EnforceMaxSessions(user);
      CreateValid(config, s, id, session, victims);
      WithMeans(Abs(), id, session);
      sessions := sessions[id := session];
      byUser := byUser[user := (if user in byUser then byUser[user] else {}) + {id}];
    }

    /** A session is handed out only if it is registered, not revoked, not expired and not idle;
        one that is not handed out is not registered any more. The three clock readings are
        those of the expiry test, the idle test and the touch. */
    method GetSession(id: nat, touch: bool, atExpiry: int, atIdle: int, atTouch: int) returns (r: Option<Session>)
      requires Valid(config, Abs())
      modifies this`sessions, this`byUser
      ensures Valid(config, Abs())
      ensures r.Some? <==> id in old(sessions) && !Expired(old(sessions)[id], atExpiry) && !Idle(config, old(sessions)[id], atIdle)
      ensures r.Some? ==> r.value == (if touch then old(sessions)[id].(lastActivity := atTouch) else old(sessions)[id])
      ensures r.Some? ==> Abs() == old(Abs()).(sessions := old(sessions)[id := r.value]) && !r.value.revoked
      ensures r.None? ==> Abs() == Without(old(Abs()), {id})
    {
      ghost var s := Abs();
      WithoutValid(config, s, {id});
      r := None;
      if id !in sessions { Evict(id); return; }
      var session := sessions[id];
      if Expired(session, atExpiry) || Idle(config, session, atIdle) { Evict(id); return; }
      if touch { session := session.(lastActivity := atTouch); }
      sessions := sessions[id := session];
      r := Some(session);
    }

    method DestroySession(id: nat) returns (destroyed: bool)
      requires Valid(config, Abs())
      modifies this`sessions, this`byUser
      ensures Valid(config, Abs()) && destroyed == (id in old(sessions)) && Abs() == Without(old(Abs()), {id})
    {
      WithoutValid(config, Abs(), {id});
      destroyed := id in sessions;
      Evict(id);
    }

    method DestroyEach(ids: seq<nat>)
      requires Valid(config, Abs())
      modifies this`sessions, this`byUser
      ensures Valid(config, Abs()) && Abs() == Without(old(Abs()), Elements(ids))
    {
      ghost var s := Abs();
      WithoutNone(s);
      assert Elements(ids[..0]) == {};
      hide Without, Valid, Elements;
      for k := 0 to |ids|
        invariant Valid(config, Abs()) && Abs() == Without(s, Elements(ids[..k]))
      {
        WithoutMore(s, Elements(ids[..k]), ids[k]);
        ElementsNext(ids, k);
        var _ := DestroySession(ids[k]);
      }
      assert ids[..|ids|] == ids;
    }

    /** Ends every session of the user and no other. */
    method DestroyAllForUser(user: nat) returns (n: nat)
      requires Valid(config, Abs())
      modifies this`sessions, this`byUser
      ensures Valid(config, Abs()) && IdsOf(Abs(), user) == {}
      ensures n == |IdsOf(old(Abs()), user)| && Abs() == Without(old(Abs()), IdsOf(old(Abs()), user))
    {
      var ids := ListOf(if user in byUser then byUser[user] else {});
      WithoutIds(Abs(), Elements(ids), user);
      DestroyEach(ids);
      n := |ids|;
    }

    /** Evicts exactly the sessions that are expired or idle. */
    method CleanupExpired(now: int) returns (evicted: nat)
      requires Valid(config, Abs())
      modifies this`sessions, this`byUser
      ensures Valid(config, Abs()) && Abs() == Without(old(Abs()), Over(config, old(Abs()), now))
      ensures evicted == |Over(config, old(Abs()), now)|
    {
      ghost var s := Abs();
      evicted := 0;
      var ids := ListOf(sessions.Keys);
      assert Lists(ids, s);
      OverEnds(config, s, now, ids);
      hide Without, Valid, Lists, OverIn, OverCount, IsOver;
      for k := 0 to |ids|
        invariant Valid(config, Abs()) && Abs() == Without(s, OverIn(config, s, now, ids, k))
        invariant evicted == OverCount(config, s, now, ids, k)
      {
        OverTurn(config, s, now, ids, k);
        var n := CheckOne(ids[k], now);
        evicted := evicted + n;
      }
    }

    method CheckOne(id: nat, now: int) returns (n: nat)
      requires Valid(config, Abs())
      modifies this`sessions, this`byUser
      ensures Valid(config, Abs())
      ensures Abs() == if IsOver(config, old(Abs()), now, id) then Without(old(Abs()), {id}) else old(Abs())
      ensures n == if IsOver(config, old(Abs()), now, id) then 1 else 0
    {
      n := 0;
      if id in sessions && (Expired(sessions[id], now) || Idle(config, sessions[id], now)) {
        WithoutValid(config, Abs(), {id});
        Evict(id);
        n := 1;
      }
    }

    method Oldest(ids: set<nat>) returns (first: nat)
      requires ids != {} && ids <= sessions.Keys
      ensures first in ids && forall id | id in ids :: sessions[first].createdAt <= sessions[id].createdAt
    {
      first :| first in ids;
      var rest := ids - {first};
      while rest != {}
        invariant rest <= ids && first in ids
        invariant forall id | id in ids - rest :: sessions[first].createdAt <= sessions[id].createdAt
        decreases rest
      {
        var id :| id in rest;
        if sessions[id].createdAt < sessions[first].createdAt { first := id; }
        rest := rest - {id};
      }
    }
  }
}
