/** The radar track lifecycle. Positions and covariances are not modelled: the distances after
    prediction, and whether an innovation covariance can be inverted, are parameters. */
module RadarTracker {
  import opened Angles
  import opened RadarAssociation

  datatype TrackState = Tentative | Confirmed | Coasting | Lost

  datatype Track = Track(id: nat, age: int, hits: int, missStreak: int, lastTimestamp: real, state: TrackState)

  type Tracks = map<nat, Track>

  datatype Config = Config(minHits: int, maxCoasting: int, threshold: real, maxRange: real, maxAzimuth: real)

  datatype Detection = Detection(range: real, azimuth: real, elevation: real, rangeRate: real, snr: real, timestamp: real)

  // ---------------------------------------------------------------- one track

  function Aged(t: Track, dt: real): Track {
    if dt <= 0.0 then t else t.(age := t.age + 1, lastTimestamp := t.lastTimestamp + dt)
  }

  /** Bookkeeping of a matched track. */
  function Hit(c: Config, t: Track, timestamp: real): Track {
    var hits := t.hits + 1;
    var state := if t.state == Tentative && hits >= c.minHits then Confirmed
                 else if t.state == Coasting then Confirmed else t.state;
    t.(hits := hits, missStreak := 0, lastTimestamp := timestamp, state := state)
  }

  datatype Verdict = Keep(track: Track) | Delete

  function Managed(c: Config, t: Track): Verdict {
    match t.state
    case Tentative => if t.missStreak > 2 then Delete else Keep(t)
    case Confirmed => Keep(if t.missStreak > 0 then t.(state := Coasting) else t)
    case Coasting => if t.missStreak > c.maxCoasting then Delete else Keep(t)
    case Lost => Delete
  }

  function NewTrack(id: nat, timestamp: real): Track {
    Track(id, 0, 1, 0, timestamp, Tentative)
  }

  // ---------------------------------------------------------------- one call of process

  /** A track and the detection it is paired with. */
  datatype Link = Link(id: nat, det: nat)

  ghost predicate OneToOneLinks(links: seq<Link>) {
    forall i, j | 0 <= i < j < |links| :: links[i].id != links[j].id && links[i].det != links[j].det
  }

  /** What one call works with, besides the tracks: the valid detections, the time step, and
      which tracks have an invertible innovation covariance. */
  datatype Frame = Frame(dets: seq<Detection>, timestamp: real, dt: real, solvable: nat -> bool)

  ghost predicate ValidLinks(f: Frame, tracks: Tracks, links: seq<Link>) {
    OneToOneLinks(links) && forall k | 0 <= k < |links| :: links[k].id in tracks && links[k].det < |f.dets|
  }

  /** u is what the update makes of the aged track a: a hit if it is linked and solvable. */
  ghost predicate Matched(c: Config, dets: seq<Detection>, links: seq<Link>, solvable: nat -> bool, a: Track, id: nat, u: Track)
    requires forall k | 0 <= k < |links| :: links[k].det < |dets|
  {
    && (forall k | 0 <= k < |links| && links[k].id == id && solvable(id) :: u == Hit(c, a, dets[links[k].det].timestamp))
    && (!HasLink(links, id) || !solvable(id) ==> u == a)
  }

  ghost predicate Followed(c: Config, f: Frame, links: seq<Link>, t: Track, id: nat, u: Track)
    requires forall k | 0 <= k < |links| :: links[k].det < |f.dets|
  {
    Matched(c, f.dets, links, f.solvable, Aged(t, f.dt), id, u)
  }

  ghost predicate HasLink(links: seq<Link>, id: nat) {
    exists k :: 0 <= k < |links| && links[k].id == id
  }

  ghost predicate Taken(links: seq<Link>, d: nat) {
    exists k :: 0 <= k < |links| && links[k].det == d
  }

  /** The number of detections below n that no track took. */
  ghost function Fresh(links: seq<Link>, n: nat): (r: nat) {
    if n == 0 then 0 else Fresh(links, n - 1) + if Taken(links, n - 1) then 0 else 1
  }

  /** An old track after the whole call. */
  ghost predicate Survives(c: Config, f: Frame, links: seq<Link>, t: Track, id: nat, tracks': Tracks)
    requires forall k | 0 <= k < |links| :: links[k].det < |f.dets|
  {
    exists u :: Followed(c, f, links, t, id, u)
      && match Managed(c, u)
         case Keep(v) => id in tracks' && tracks'[id] == v
         case Delete => id !in tracks'
  }

  ghost predicate ProcessStep(c: Config, f: Frame, links: seq<Link>, s: State, s': State) {
    && ValidLinks(f, s.tracks, links)
    && s'.next == s.next + Fresh(links, |f.dets|)
    && (forall id | id in s.tracks && !(s.next <= id < s'.next) :: Survives(c, f, links, s.tracks[id], id, s'.tracks))
    && (forall id | s.next <= id < s'.next :: id in s'.tracks && s'.tracks[id] == NewTrack(id, f.timestamp))
    && (forall id | id in s'.tracks :: id in s.tracks || s.next <= id < s'.next)
  }

  // ---------------------------------------------------------------- runs

  datatype State = State(tracks: Tracks, next: nat)

  /** The tracks of every reachable state: ids are the numbers handed out so far, no track has
      ever missed, and confirmation is decided by the number of hits alone. */
  ghost predicate Kept(c: Config, s: State) {
    && (forall id :: id in s.tracks <==> 0 <= id < s.next)
    && (forall id | id in s.tracks ::
          var t := s.tracks[id];
          && t.id == id && t.hits >= 1 && t.missStreak == 0
          && t.state == if t.hits >= 2 && t.hits >= c.minHits then Confirmed else Tentative)
  }

  /** One call keeps this; every track stays, with at most one more hit. Because a miss is
      never counted, no track ever coasts or is deleted. */
  lemma StepKeeps(c: Config, f: Frame, links: seq<Link>, s: State, s': State)
    requires Kept(c, s) && ProcessStep(c, f, links, s, s')
    ensures Kept(c, s')
    ensures forall id | id in s.tracks ::
              && id in s'.tracks
              && s'.tracks[id].hits == s.tracks[id].hits + if HasLink(links, id) && f.solvable(id) then 1 else 0
  {
    forall id | id in s.tracks
      ensures id in s'.tracks && s'.tracks[id].id == id && s'.tracks[id].missStreak == 0
      ensures s'.tracks[id].hits == s.tracks[id].hits + if HasLink(links, id) && f.solvable(id) then 1 else 0
      ensures s'.tracks[id].state == if s'.tracks[id].hits >= 2 && s'.tracks[id].hits >= c.minHits then Confirmed else Tentative
    {
      assert Survives(c, f, links, s.tracks[id], id, s'.tracks);
    }
  }

  /** What a call does to the clock of a track: a matched one takes the time of its detection,
      any other moves on by a positive time step; its age counts the frames with such a step. */
  lemma StepKeepsTime(c: Config, f: Frame, links: seq<Link>, s: State, s': State, id: nat)
    requires Kept(c, s) && ProcessStep(c, f, links, s, s') && id in s.tracks
    ensures id in s'.tracks
    ensures s'.tracks[id].age == s.tracks[id].age + if f.dt > 0.0 then 1 else 0
    ensures forall k | 0 <= k < |links| && links[k].id == id && f.solvable(id) ::
              s'.tracks[id].lastTimestamp == f.dets[links[k].det].timestamp
    ensures !HasLink(links, id) || !f.solvable(id) ==>
              s'.tracks[id].lastTimestamp == s.tracks[id].lastTimestamp + if f.dt > 0.0 then f.dt else 0.0
  {
    StepKeeps(c, f, links, s, s');
    assert Survives(c, f, links, s.tracks[id], id, s'.tracks);
  }

  ghost predicate Run(c: Config, states: seq<State>, frames: seq<Frame>, links: seq<seq<Link>>) {
    && |states| == |frames| + 1 && |links| == |frames|
    && states[0] == State(map[], 0)
    && forall i | 0 <= i < |frames| :: ProcessStep(c, frames[i], links[i], states[i], states[i + 1])
  }

  lemma InitiallyKept(c: Config)
    ensures Kept(c, State(map[], 0))
  {}

  lemma {:induction false} EveryRunKeeps(c: Config, states: seq<State>, frames: seq<Frame>, links: seq<seq<Link>>, i: nat)
    requires Run(c, states, frames, links) && i < |states|
    ensures Kept(c, states[i])
  {
    InitiallyKept(c);
    hide Kept, ProcessStep;
    if i > 0 {
      EveryRunKeeps(c, states, frames, links, i - 1);
      StepKeeps(c, frames[i - 1], links[i - 1], states[i - 1], states[i]);
    }
  }

  // ---------------------------------------------------------------- conservation

  /** The hits of tracks 0..n-1. */
  ghost function TotalHits(tracks: Tracks, n: nat): int
    requires forall id | 0 <= id < n :: id in tracks
  {
    if n == 0 then 0 else TotalHits(tracks, n - 1) + tracks[n - 1].hits
  }

  /** The links whose track could not be updated. */
  ghost function Skipped(links: seq<Link>, solvable: nat -> bool): (r: nat)
    ensures r <= |links|
  {
    if links == [] then 0
    else Skipped(links[..|links| - 1], solvable) + if solvable(links[|links| - 1].id) then 0 else 1
  }

  /** The tracks 0..n-1 that are linked and solvable. */
  ghost function Gains(links: seq<Link>, solvable: nat -> bool, n: nat): int {
    if n == 0 then 0
    else Gains(links, solvable, n - 1) + if HasLink(links, n - 1) && solvable(n - 1) then 1 else 0
  }

  lemma {:induction false} GainOfOne(links: seq<Link>, l: Link, solvable: nat -> bool, n: nat)
    requires !HasLink(links, l.id)
    ensures Gains(links + [l], solvable, n)
            == Gains(links, solvable, n) + if 0 <= l.id < n && solvable(l.id) then 1 else 0
  {
    if n > 0 {
      GainOfOne(links, l, solvable, n - 1);
      LinkGrows(links, l, n - 1, 0);
    }
  }

  lemma LinkGrows(links: seq<Link>, l: Link, id: nat, d: nat)
    ensures HasLink(links + [l], id) <==> HasLink(links, id) || l.id == id
    ensures Taken(links + [l], d) <==> Taken(links, d) || l.det == d
  {
    var more := links + [l];
    assert more[|links|] == l && forall k | 0 <= k < |links| :: more[k] == links[k];
    if HasLink(links, id) { var k :| 0 <= k < |links| && links[k].id == id; assert more[k].id == id; }
    if Taken(links, d) { var k :| 0 <= k < |links| && links[k].det == d; assert more[k].det == d; }
  }

  lemma {:induction false} NoGains(solvable: nat -> bool, n: nat)
    ensures Gains([], solvable, n) == 0
  {
    if n > 0 { NoGains(solvable, n - 1); }
  }

  lemma {:induction false} GainsAreLinks(links: seq<Link>, solvable: nat -> bool, n: nat)
    requires OneToOneLinks(links) && forall k | 0 <= k < |links| :: 0 <= links[k].id < n
    ensures Gains(links, solvable, n) == |links| - Skipped(links, solvable)
  {
    if links == [] {
      NoGains(solvable, n);
    } else {
      var m := |links| - 1;
      GainsAreLinks(links[..m], solvable, n);
      GainOfOne(links[..m], links[m], solvable, n);
      assert links == links[..m] + [links[m]];
    }
  }

  lemma {:induction false} FreshOfOne(links: seq<Link>, l: Link, n: nat)
    requires !Taken(links, l.det)
    ensures Fresh(links + [l], n) == Fresh(links, n) - if l.det < n then 1 else 0
  {
    if n > 0 {
      FreshOfOne(links, l, n - 1);
      LinkGrows(links, l, 0, n - 1);
    }
  }

  lemma {:induction false} AllFresh(n: nat)
    ensures Fresh([], n) == n
  {
    if n > 0 { AllFresh(n - 1); }
  }

  /** Every detection is linked to exactly one track or starts exactly one track. */
  lemma {:induction false} DetectionsAreShared(links: seq<Link>, n: nat)
    requires OneToOneLinks(links) && forall k | 0 <= k < |links| :: links[k].det < n
    ensures |links| + Fresh(links, n) == n
  {
    if links == [] {
      AllFresh(n);
    } else {
      var m := |links| - 1;
      DetectionsAreShared(links[..m], n);
      FreshOfOne(links[..m], links[m], n);
      assert links == links[..m] + [links[m]];
    }
  }

  /** Old tracks below next gain what their links give them, and new tracks start with one hit. */
  ghost predicate HitsFollow(tracks: Tracks, next: nat, tracks': Tracks, links: seq<Link>, solvable: nat -> bool, n: nat) {
    forall id | 0 <= id < n ::
      && id in tracks'
      && if id < next then
           id in tracks && tracks'[id].hits == tracks[id].hits + if HasLink(links, id) && solvable(id) then 1 else 0
         else tracks'[id].hits == 1
  }

  lemma {:induction false} HitsGrow(tracks: Tracks, next: nat, tracks': Tracks, links: seq<Link>, solvable: nat -> bool, n: nat)
    requires (forall id | 0 <= id < next :: id in tracks)
    requires HitsFollow(tracks, next, tracks', links, solvable, n)
    ensures TotalHits(tracks', n)
            == if n <= next then TotalHits(tracks, n) + Gains(links, solvable, n)
               else TotalHits(tracks, next) + Gains(links, solvable, next) + (n - next)
  {
    hide HasLink;
    if n > 0 {
      HitsGrow(tracks, next, tracks', links, solvable, n - 1);
    }
  }

  /** Hits are conserved: one call adds exactly one hit per valid detection, except for links
      whose track could not be updated. */
  lemma HitsAreConserved(c: Config, f: Frame, links: seq<Link>, s: State, s': State)
    requires Kept(c, s) && ProcessStep(c, f, links, s, s')
    ensures Kept(c, s')
    ensures TotalHits(s'.tracks, s'.next) == TotalHits(s.tracks, s.next) + |f.dets| - Skipped(links, f.solvable)
  {
    hide HasLink, Survives, TotalHits, Gains, Fresh, Skipped;
    StepKeeps(c, f, links, s, s');
    HitsGrow(s.tracks, s.next, s'.tracks, links, f.solvable, s'.next);
    assert s.next == s'.next ==> TotalHits(s'.tracks, s'.next) == TotalHits(s.tracks, s.next) + Gains(links, f.solvable, s.next);
    GainsAreLinks(links, f.solvable, s.next);
    DetectionsAreShared(links, |f.dets|);
  }

  // ---------------------------------------------------------------- inputs of a call

  /** What the filter lets through. */
  predicate Usable(c: Config, d: Detection) {
    && 0.5 <= d.range <= c.maxRange && Magnitude(d.azimuth) <= c.maxAzimuth
    && Magnitude(d.elevation) <= M_PI / 4.0 && Magnitude(d.rangeRate) <= 100.0 && d.snr >= 3.0
  }

  /** The ranges of the filter, both sides of the angles and of the range rate included. */
  lemma UsableRanges(c: Config, d: Detection)
    ensures Usable(c, d) <==>
              && d.range >= 0.5 && d.range <= c.maxRange && d.snr >= 3.0
              && -c.maxAzimuth <= d.azimuth <= c.maxAzimuth && -100.0 <= d.rangeRate <= 100.0
              && -M_PI <= 4.0 * d.elevation <= M_PI
  {
  }

  function Usables(c: Config, dets: seq<Detection>): (r: seq<Detection>)
    ensures forall d :: d in r <==> d in dets && Usable(c, d)
  {
    if dets == [] then []
    else
      var n := |dets| - 1;
      assert dets == dets[..n] + [dets[n]];
      Usables(c, dets[..n]) + if Usable(c, dets[n]) then [dets[n]] else []
  }

  /** The time step: from the timestamp of an arbitrary track, kept within [0, 1]. */
  ghost predicate TimeStep(tracks: Tracks, timestamp: real, dt: real) {
    if tracks == map[] then dt == 0.0
    else exists id :: id in tracks && dt == Clamped(timestamp - tracks[id].lastTimestamp)
  }

  function Clamped(d: real): (r: real)
    ensures 0.0 <= r <= 1.0 && (0.0 <= d <= 1.0 ==> r == d) && (r < d ==> r == 1.0) && (r > d ==> r == 0.0)
  {
    if d < 0.0 then 0.0 else if d > 1.0 then 1.0 else d
  }
}
