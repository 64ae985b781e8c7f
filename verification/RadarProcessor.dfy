/** The radar pipeline as an object: the track map and the id counter, updated in place. */
module RadarProcessor {
  import opened RadarAssociation
  import opened RadarTracker
  import opened Sorting

  /** links are a stable matching, inside the gate, of the tracks that are not lost (listed in
      some order ids) with the detections. */
  ghost predicate Association(c: Config, tracks: Tracks, dets: nat, distance: (nat, nat) -> real,
                              ids: seq<nat>, candidates: seq<Pair>, chosen: seq<Pair>, links: seq<Link>)
  {
    && (forall id :: id in ids <==> id in tracks)
    && (forall i, j | 0 <= i < j < |ids| :: ids[i] != ids[j])
    && (forall p :: p in candidates <==> InGate(c, tracks, dets, distance, ids, p))
    && StableMatching(candidates, chosen)
    && |links| == |chosen|
    && (forall k | 0 <= k < |chosen| :: chosen[k].track < |ids| && links[k] == Link(ids[chosen[k].track], chosen[k].det))
  }

  ghost predicate InGate(c: Config, tracks: Tracks, dets: nat, distance: (nat, nat) -> real, ids: seq<nat>, p: Pair) {
    && p.track < |ids| && p.det < dets
    && ids[p.track] in tracks && tracks[ids[p.track]].state != Lost
    && p.distance == distance(ids[p.track], p.det) < c.threshold
  }

  ghost predicate ById(ts: seq<Track>) {
    forall i, j | 0 <= i < j < |ts| :: ts[i].id < ts[j].id
  }

  /** The confirmed tracks, in order of their ids. */
  ghost predicate ConfirmedList(tracks: Tracks, ts: seq<Track>) {
    ById(ts) && forall t :: t in ts <==> t.id in tracks && tracks[t.id] == t && t.state == Confirmed
  }

  /** The tracks with one of these ids that are confirmed, in any order. */
  ghost predicate ConfirmedAmong(tracks: Tracks, ids: set<nat>, ts: seq<Track>) {
    && (forall t :: t in ts <==> t.id in tracks && t.id in ids && tracks[t.id] == t && t.state == Confirmed)
    && forall i, j | 0 <= i < j < |ts| :: ts[i].id != ts[j].id
  }

  lemma SortedAreListed(tracks: Tracks, ts: seq<Track>, sorted: seq<Track>)
    requires ConfirmedAmong(tracks, tracks.Keys, ts) && multiset(sorted) == multiset(ts)
    requires SortedBy((t: Track) => t.id as real, sorted)
    ensures ConfirmedList(tracks, sorted)
  {
    SortKeepsDistinct((t: Track) => t.id as real, ts, sorted);
    assert forall t :: t in sorted <==> t in multiset(sorted);
  }

  lemma LinksAreValid(c: Config, f: Frame, tracks: Tracks, distance: (nat, nat) -> real,
                      ids: seq<nat>, candidates: seq<Pair>, chosen: seq<Pair>, links: seq<Link>)
    requires Association(c, tracks, |f.dets|, distance, ids, candidates, chosen, links)
    ensures ValidLinks(f, tracks, links)
  {
  }

  /** Matching one more link leaves the tracks of the others alone. */
  lemma MatchedStep(c: Config, dets: seq<Detection>, links: seq<Link>, i: nat, solvable: nat -> bool, a: Track, id: nat, u: Track)
    requires OneToOneLinks(links) && i < |links| && forall k | 0 <= k < |links| :: links[k].det < |dets|
    requires Matched(c, dets, links[..i], solvable, a, id, u)
    ensures Matched(c, dets, links[..i] + [links[i]], solvable, a, id,
                    if id == links[i].id && solvable(id) then Hit(c, u, dets[links[i].det].timestamp) else u)
  {
    LinkGrows(links[..i], links[i], id, 0);
  }

  /** The lifecycle pass has seen t: it is now u, and marked for deletion or not. */
  ghost predicate Decided(c: Config, t: Track, u: Track, deleted: bool) {
    match Managed(c, t)
    case Keep(v) => u == v && !deleted
    case Delete => deleted
  }

  ghost predicate MatchedAll(c: Config, dets: seq<Detection>, links: seq<Link>, solvable: nat -> bool, before: Tracks, after: Tracks)
    requires forall k | 0 <= k < |links| :: links[k].det < |dets|
  {
    after.Keys == before.Keys && forall id | id in after :: Matched(c, dets, links, solvable, before[id], id, after[id])
  }

  lemma MatchedAllStep(c: Config, dets: seq<Detection>, links: seq<Link>, i: nat, solvable: nat -> bool, before: Tracks, after: Tracks)
    requires OneToOneLinks(links) && i < |links| && forall k | 0 <= k < |links| :: links[k].det < |dets|
    requires MatchedAll(c, dets, links[..i], solvable, before, after)
    ensures var l := links[i];
            MatchedAll(c, dets, links[..i] + [l], solvable, before,
                       if l.id in after && solvable(l.id) then after[l.id := Hit(c, after[l.id], dets[l.det].timestamp)] else after)
  {
    hide Matched, OneToOneLinks;
    forall id | id in after
      ensures Matched(c, dets, links[..i] + [links[i]], solvable, before[id], id,
                      if id == links[i].id && solvable(id) then Hit(c, after[id], dets[links[i].det].timestamp) else after[id])
    {
      MatchedStep(c, dets, links, i, solvable, before[id], id, after[id]);
    }
  }

  class RadarProcessor {
    var tracks: Tracks
    var nextTrackId: nat
    const config: Config

    ghost function Abs(): State
      reads this
    {
      State(tracks, nextTrackId)
    }

    constructor (c: Config)
      ensures Abs() == State(map[], 0) && config == c
    {
      tracks, nextTrackId, config := map[], 0, c;
    }

    method Filter(detections: seq<Detection>) returns (r: seq<Detection>)
      ensures r == Usables(config, detections)
    {
      r := [];
      for i := 0 to |detections|
        invariant r == Usables(config, detections[..i])
      {
        assert detections[..i + 1][..i] == detections[..i];
        if Usable(config, detections[i]) { r := r + [detections[i]]; }
      }
      assert detections[..|detections|] == detections;
    }

    method PredictTracks(dt: real)
      modifies this`tracks
      ensures tracks == map id | id in old(tracks) :: Aged(old(tracks)[id], dt)
    {
      if dt <= 0.0 { return; }
      var rest := tracks.Keys;
      while rest != {}
        invariant rest <= tracks.Keys == old(tracks.Keys)
        invariant forall id | id in tracks :: tracks[id] == if id in rest then old(tracks)[id] else Aged(old(tracks)[id], dt)
        decreases rest
      {
        var id: nat :| id in rest;
        tracks := tracks[id := Aged(tracks[id], dt)];
        rest := rest - {id};
      }
    }

    method AssociateDetections(dets: nat, distance: (nat, nat) -> real)
      returns (links: seq<Link>, ids: seq<nat>, candidates: seq<Pair>, chosen: seq<Pair>)
      ensures Association(config, tracks, dets, distance, ids, candidates, chosen, links)
    {
      var order: seq<nat> := [];
      var rest := tracks.Keys;
      while rest != {}
        invariant rest <= tracks.Keys
        invariant forall id :: id in order <==> id in tracks && id !in rest
        invariant forall i, j | 0 <= i < j < |order| :: order[i] != order[j]
        decreases rest
      {
        var id: nat :| id in rest;
        order := order + [id];
        rest := rest - {id};
      }
      var live := seq(|order|, i requires 0 <= i < |order| reads this => order[i] in tracks && tracks[order[i]].state != Lost);
      var far := (t: nat, d: nat) => if t < |order| then distance(order[t], d) else 0.0;
      var pairs;
      pairs, candidates := Associate(live, dets, far, config.threshold);
      ids, chosen := order, pairs;
      forall p | p in pairs ensures p.track < |order| { assert p in candidates; }
      links := seq(|pairs|, k requires 0 <= k < |pairs| => Link(if pairs[k].track < |order| then order[pairs[k].track] else 0, pairs[k].det));
    }

    method UpdateTracks(dets: seq<Detection>, links: seq<Link>, solvable: nat -> bool)
      requires OneToOneLinks(links) && forall k | 0 <= k < |links| :: links[k].det < |dets|
      modifies this`tracks
      ensures MatchedAll(config, dets, links, solvable, old(tracks), tracks)
    {
      for i := 0 to |links|
        invariant MatchedAll(config, dets, links[..i], solvable, old(tracks), tracks)
      {
        var l := links[i];
        MatchedAllStep(config, dets, links, i, solvable, old(tracks), tracks);
        assert links[..i + 1] == links[..i] + [l];
        hide MatchedAll;
        if l.id in tracks && solvable(l.id) {
          tracks := tracks[l.id := Hit(config, tracks[l.id], dets[l.det].timestamp)];
        }
      }
      assert links[..|links|] == links;
    }

    method ManageTracks()
      modifies this`tracks
      ensures forall id :: id in tracks <==> id in old(tracks) && Managed(config, old(tracks)[id]).Keep?
      ensures forall id | id in tracks :: tracks[id] == Managed(config, old(tracks)[id]).track
    {
      ghost var before := tracks;
      var toDelete: seq<nat> := [];
      var rest := tracks.Keys;
      while rest != {}
        invariant rest <= tracks.Keys == before.Keys
        invariant forall id | id in rest :: tracks[id] == before[id]
        invariant forall id | id in before && id !in rest :: Decided(config, before[id], tracks[id], id in toDelete)
        invariant forall id | id in toDelete :: id in before && id !in rest
        decreases rest
      {
        var id: nat :| id in rest;
        var t := tracks[id];
        rest := rest - {id};
        match t.state
        {
          case Tentative =>
            if t.missStreak > 2 { toDelete := toDelete + [id]; }
          case Confirmed =>
            if t.missStreak > 0 { tracks := tracks[id := t.(state := Coasting)]; }
          case Coasting =>
            if t.missStreak > config.maxCoasting {
              tracks := tracks[id := t.(state := Lost)];
              toDelete := toDelete + [id];
            }
          case Lost =>
            toDelete := toDelete + [id];
        }
      }
      ghost var decided := tracks;
      for i := 0 to |toDelete|
        invariant forall id :: id in tracks <==> id in decided && id !in toDelete[..i]
        invariant forall id | id in tracks :: tracks[id] == decided[id]
      {
        tracks := tracks - {toDelete[i]};
      }
      assert toDelete[..|toDelete|] == toDelete;
    }

    method InitializeTracks(dets: nat, links: seq<Link>, timestamp: real)
      modifies this
      ensures nextTrackId == old(nextTrackId) + Fresh(links, dets)
      ensures forall id :: id in tracks <==> id in old(tracks) || old(nextTrackId) <= id < nextTrackId
      ensures forall id | id in tracks ::
                tracks[id] == if old(nextTrackId) <= id < nextTrackId then NewTrack(id, timestamp) else old(tracks)[id]
    {
      var associated: set<nat> := {};
      for k := 0 to |links|
        invariant forall d :: d in associated <==> exists j :: 0 <= j < k && links[j].det == d
      {
        associated := associated + {links[k].det};
      }
      for d := 0 to dets
        invariant nextTrackId == old(nextTrackId) + Fresh(links, d)
        invariant forall id :: id in tracks <==> id in old(tracks) || old(nextTrackId) <= id < nextTrackId
        invariant forall id | id in tracks ::
                    tracks[id] == if old(nextTrackId) <= id < nextTrackId then NewTrack(id, timestamp) else old(tracks)[id]
      {
        if d !in associated {
          tracks := tracks[nextTrackId := NewTrack(nextTrackId, timestamp)];
          nextTrackId := nextTrackId + 1;
        }
      }
    }

    method GetConfirmedTracks() returns (confirmed: seq<Track>)
      requires forall id | id in tracks :: tracks[id].id == id
      ensures ConfirmedList(tracks, confirmed)
    {
      var found: seq<Track> := [];
      var rest := tracks.Keys;
      while rest != {}
        invariant rest <= tracks.Keys && ConfirmedAmong(tracks, tracks.Keys - rest, found)
        decreases rest
      {
        var id: nat :| id in rest;
        if tracks[id].state == Confirmed {
          assert forall t | t in found :: t.id != id;
          found := found + [tracks[id]];
        }
        rest := rest - {id};
      }
      confirmed := Sort((t: Track) => t.id as real, found);
      SortedAreListed(tracks, found, confirmed);
    }

    /** Prediction, association, update, lifecycle and new tracks, for the valid detections. */
    method Phases(dets: seq<Detection>, timestamp: real, dt: real, distance: (nat, nat) -> real, solvable: nat -> bool)
      returns (ghost links: seq<Link>, ghost ids: seq<nat>, ghost candidates: seq<Pair>, ghost chosen: seq<Pair>)
      requires Kept(config, Abs())
      modifies this
      ensures ProcessStep(config, Frame(dets, timestamp, dt, solvable), links, old(Abs()), Abs())
      ensures Association(config, old(tracks), |dets|, distance, ids, candidates, chosen, links)
    {
      hide MatchedAll, Managed, Aged, Association, ProcessStep, Fresh, OneToOneLinks;
      ghost var s, f := Abs(), Frame(dets, timestamp, dt, solvable);
      PredictTracks(dt);
      ghost var aged := tracks;
      var ls;
      ls, ids, candidates, chosen := AssociateDetections(|dets|, distance);
      links := ls;
      AgingKeepsAssociation(config, f, s.tracks, aged, distance, ids, candidates, chosen, links);
      LinksAreValid(config, f, s.tracks, distance, ids, candidates, chosen, links);
      UpdateTracks(dets, ls, solvable);
      ghost var followed := tracks;
      ManageTracks();
      ghost var managed := tracks;
      InitializeTracks(|dets|, ls, timestamp);
      PhasesAreAStep(config, f, links, s, aged, followed, managed, Abs());
    }

    /** One radar frame. The distances are those after prediction, by track id and index of
        the valid detection. */
    method Process(detections: seq<Detection>, timestamp: real, distance: (nat, nat) -> real, solvable: nat -> bool)
      returns (confirmed: seq<Track>, ghost f: Frame, ghost links: seq<Link>,
               ghost ids: seq<nat>, ghost candidates: seq<Pair>, ghost chosen: seq<Pair>)
      requires Kept(config, Abs())
      modifies this
      ensures Kept(config, Abs()) && ProcessStep(config, f, links, old(Abs()), Abs())
      ensures f.dets == Usables(config, detections) && f.timestamp == timestamp && f.solvable == solvable
      ensures TimeStep(old(tracks), timestamp, f.dt)
      ensures Association(config, old(tracks), |f.dets|, distance, ids, candidates, chosen, links)
      ensures ConfirmedList(tracks, confirmed)
    {
      hide Association, ConfirmedList, ProcessStep, Usables;
      ghost var s := Abs();
      var dets := Filter(detections);
      var dt := 0.0;
      if tracks != map[] {
        var id: nat :| id in tracks;
        dt := Clamped(timestamp - tracks[id].lastTimestamp);
      }
      f := Frame(dets, timestamp, dt, solvable);
      links, ids, candidates, chosen := Phases(dets, timestamp, dt, distance, solvable);
      StepKeeps(config, f, links, s, Abs());
      confirmed := GetConfirmedTracks();
    }
  }

  lemma AgingKeepsAssociation(c: Config, f: Frame, before: Tracks, aged: Tracks, distance: (nat, nat) -> real,
                              ids: seq<nat>, candidates: seq<Pair>, chosen: seq<Pair>, links: seq<Link>)
    requires aged == map id | id in before :: Aged(before[id], f.dt)
    requires Association(c, aged, |f.dets|, distance, ids, candidates, chosen, links)
    ensures Association(c, before, |f.dets|, distance, ids, candidates, chosen, links)
  {
  }

  /** The phases of a call, put together. */
  lemma PhasesAreAStep(c: Config, f: Frame, links: seq<Link>, s: State, aged: Tracks, followed: Tracks, managed: Tracks, s': State)
    requires Kept(c, s) && ValidLinks(f, s.tracks, links)
    requires aged == map id | id in s.tracks :: Aged(s.tracks[id], f.dt)
    requires MatchedAll(c, f.dets, links, f.solvable, aged, followed)
    requires forall id :: id in managed <==> id in followed && Managed(c, followed[id]).Keep?
    requires forall id | id in managed :: managed[id] == Managed(c, followed[id]).track
    requires s'.next == s.next + Fresh(links, |f.dets|)
    requires forall id :: id in s'.tracks <==> id in managed || s.next <= id < s'.next
    requires forall id | id in s'.tracks ::
               s'.tracks[id] == if s.next <= id < s'.next then NewTrack(id, f.timestamp) else managed[id]
    ensures ProcessStep(c, f, links, s, s')
  {
    forall id | id in s.tracks ensures Survives(c, f, links, s.tracks[id], id, s'.tracks) {
      assert Followed(c, f, links, s.tracks[id], id, followed[id]);
    }
  }
}
