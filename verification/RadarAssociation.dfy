/** Greedy nearest-neighbour association of radar tracks with detections inside a gate. */
module RadarAssociation {
  import opened Sorting

  /** One candidate pairing: track index, detection index, and their distance. */
  datatype Pair = Pair(distance: real, track: nat, det: nat)

  predicate Conflict(a: Pair, b: Pair) {
    a.track == b.track || a.det == b.det
  }

  ghost predicate OneToOne(ps: seq<Pair>) {
    forall i, j | 0 <= i < j < |ps| :: !Conflict(ps[i], ps[j])
  }

  /** Every candidate conflicts with, or is, a chosen pair that is no farther apart. */
  ghost predicate Stable(candidates: seq<Pair>, chosen: seq<Pair>) {
    forall c | c in candidates :: exists k :: 0 <= k < |chosen| && Conflict(chosen[k], c) && chosen[k].distance <= c.distance
  }

  ghost predicate StableMatching(candidates: seq<Pair>, chosen: seq<Pair>) {
    && OneToOne(chosen) && Stable(candidates, chosen)
    && forall p | p in chosen :: p in candidates
  }

  // ---------------------------------------------------------------- half of the maximum

  /** The entries of m whose track is used in chosen, or else whose detection is. */
  ghost function Sharing(m: seq<Pair>, chosen: seq<Pair>, byTrack: bool): (r: seq<Pair>)
    ensures |r| <= |m|
    ensures forall p :: p in r <==> p in m && Shares(p, chosen, byTrack)
  {
    if m == [] then []
    else
      var n := |m| - 1;
      var r := Sharing(m[..n], chosen, byTrack);
      assert m == m[..n] + [m[n]];
      if Shares(m[n], chosen, byTrack) then r + [m[n]] else r
  }

  ghost predicate Shares(p: Pair, chosen: seq<Pair>, byTrack: bool) {
    exists k :: 0 <= k < |chosen| && if byTrack then chosen[k].track == p.track else chosen[k].det == p.det
  }

  lemma {:induction false} SharingIsOneToOne(m: seq<Pair>, chosen: seq<Pair>, byTrack: bool)
    requires OneToOne(m)
    ensures OneToOne(Sharing(m, chosen, byTrack))
  {
    if m != [] {
      var n := |m| - 1;
      SharingIsOneToOne(m[..n], chosen, byTrack);
      var r := Sharing(m[..n], chosen, byTrack);
      forall i | 0 <= i < |r| ensures !Conflict(r[i], m[n]) {
        assert r[i] in m[..n];
      }
    }
  }

  /** A one-to-one set of pairs that each share the track (or detection) of a chosen pair is
      no larger than the chosen set. */
  lemma {:induction false} SharingIsSmall(r: seq<Pair>, chosen: seq<Pair>, byTrack: bool)
    requires OneToOne(r) && forall i | 0 <= i < |r| :: Shares(r[i], chosen, byTrack)
    ensures |r| <= |chosen|
    decreases |r|
  {
    if r != [] {
      var p := r[|r| - 1];
      var k :| 0 <= k < |chosen| && if byTrack then chosen[k].track == p.track else chosen[k].det == p.det;
      var rest, left := r[..|r| - 1], chosen[..k] + chosen[k + 1..];
      forall i | 0 <= i < |rest| ensures Shares(rest[i], left, byTrack) {
        assert !Conflict(r[i], p) && Shares(r[i], chosen, byTrack);
        var j :| 0 <= j < |chosen| && if byTrack then chosen[j].track == r[i].track else chosen[j].det == r[i].det;
        assert left[if j < k then j else j - 1] == chosen[j];
      }
      SharingIsSmall(rest, left, byTrack);
    }
  }

  lemma {:induction false} SplitBound(m: seq<Pair>, chosen: seq<Pair>)
    requires forall p | p in m :: Shares(p, chosen, true) || Shares(p, chosen, false)
    ensures |m| <= |Sharing(m, chosen, true)| + |Sharing(m, chosen, false)|
  {
    if m != [] {
      var n := |m| - 1;
      assert m == m[..n] + [m[n]];
      SplitBound(m[..n], chosen);
    }
  }

  /** No one-to-one set of candidates has more than twice as many pairs as a stable matching. */
  lemma AtLeastHalf(candidates: seq<Pair>, chosen: seq<Pair>, m: seq<Pair>)
    requires StableMatching(candidates, chosen)
    requires OneToOne(m) && forall p | p in m :: p in candidates
    ensures |m| <= 2 * |chosen|
  {
    forall p | p in m ensures Shares(p, chosen, true) || Shares(p, chosen, false) {
      var k :| 0 <= k < |chosen| && Conflict(chosen[k], p);
    }
    SplitBound(m, chosen);
    SharingIsOneToOne(m, chosen, true);
    SharingIsOneToOne(m, chosen, false);
    SharingIsSmall(Sharing(m, chosen, true), chosen, true);
    SharingIsSmall(Sharing(m, chosen, false), chosen, false);
  }

  // ---------------------------------------------------------------- uniqueness

  ghost predicate DistinctDistances(candidates: seq<Pair>) {
    forall c, d | c in candidates && d in candidates && c.distance == d.distance :: c == d
  }

  /** The candidates strictly closer than d. */
  ghost function Closer(candidates: seq<Pair>, d: real): set<Pair> {
    set c | c in candidates && c.distance < d
  }

  lemma CloserShrinks(candidates: seq<Pair>, f: Pair, e: Pair)
    requires f in candidates && f.distance < e.distance
    ensures Closer(candidates, f.distance) < Closer(candidates, e.distance)
  {
    assert f in Closer(candidates, e.distance) && f !in Closer(candidates, f.distance);
  }

  lemma ConflictingMembers(a: seq<Pair>, f: Pair, e: Pair)
    requires OneToOne(a) && f in a && e in a && Conflict(f, e)
    ensures f == e
  {
  }

  lemma {:induction false} ChosenInBoth(candidates: seq<Pair>, a: seq<Pair>, b: seq<Pair>, e: Pair)
    requires DistinctDistances(candidates)
    requires StableMatching(candidates, a) && StableMatching(candidates, b)
    requires e in a
    ensures e in b
    decreases Closer(candidates, e.distance)
  {
    hide Closer, OneToOne;
    assert e in candidates;
    var k :| 0 <= k < |b| && Conflict(b[k], e) && b[k].distance <= e.distance;
    var f := b[k];
    assert f in b && f in candidates;
    assert f.distance == e.distance ==> f == e;
    if f.distance < e.distance {
      hide DistinctDistances, Stable;
      CloserShrinks(candidates, f, e);
      ChosenInBoth(candidates, b, a, f);
      ConflictingMembers(a, f, e);
    }
  }

  /** When all distances differ, there is only one stable matching: the association does not
      depend on how the sort orders its input. */
  lemma StableMatchingIsUnique(candidates: seq<Pair>, a: seq<Pair>, b: seq<Pair>)
    requires DistinctDistances(candidates)
    requires StableMatching(candidates, a) && StableMatching(candidates, b)
    ensures forall e :: e in a <==> e in b
  {
    forall e | e in a ensures e in b { ChosenInBoth(candidates, a, b, e); }
    forall e | e in b ensures e in a { ChosenInBoth(candidates, b, a, e); }
  }

  // ---------------------------------------------------------------- the algorithm

  ghost predicate SortedByDistance(s: seq<Pair>) {
    forall i, j | 0 <= i < j < |s| :: s[i].distance <= s[j].distance
  }

  method SortByDistance(candidates: seq<Pair>) returns (sorted: seq<Pair>)
    ensures SortedByDistance(sorted) && forall c :: c in sorted <==> c in candidates
  {
    sorted := Sort((p: Pair) => p.distance, candidates);
    assert forall c :: c in sorted <==> c in multiset(sorted);
  }

  /** The pairs inside the gate: tracks that are not lost, closer than the threshold. */
  ghost predicate Gated(c: Pair, live: seq<bool>, dets: nat, distance: (nat, nat) -> real, threshold: real) {
    c.track < |live| && live[c.track] && c.det < dets && c.distance == distance(c.track, c.det) && c.distance < threshold
  }

  method Candidates(live: seq<bool>, dets: nat, distance: (nat, nat) -> real, threshold: real)
    returns (cs: seq<Pair>)
    ensures forall c :: c in cs <==> Gated(c, live, dets, distance, threshold)
  {
    cs := [];
    for t := 0 to |live|
      invariant forall c :: c in cs <==> Gated(c, live, dets, distance, threshold) && c.track < t
    {
      if !live[t] { continue; }
      for d := 0 to dets
        invariant forall c :: c in cs <==> Gated(c, live, dets, distance, threshold) && (c.track < t || (c.track == t && c.det < d))
      {
        var x := distance(t, d);
        if x < threshold {
          cs := cs + [Pair(x, t, d)];
        }
      }
    }
  }

  /** Closest pairs first, skipping tracks and detections already matched. */
  method Greedy(sorted: seq<Pair>, tracks: nat, dets: nat) returns (chosen: seq<Pair>)
    requires SortedByDistance(sorted) && forall c | c in sorted :: c.track < tracks && c.det < dets
    ensures StableMatching(sorted, chosen)
  {
    var trackMatched := new bool[tracks](_ => false);
    var detMatched := new bool[dets](_ => false);
    chosen := [];
    for i := 0 to |sorted|
      invariant forall t | 0 <= t < tracks :: trackMatched[t] <==> UsesTrack(chosen, t)
      invariant forall d | 0 <= d < dets :: detMatched[d] <==> UsesDet(chosen, d)
      invariant StableMatching(sorted[..i], chosen)
    {
      hide StableMatching, UsesTrack, UsesDet;
      var c := sorted[i];
      assert c in sorted;
      assert sorted[..i + 1] == sorted[..i] + [c];
      GreedyStep(sorted, i, chosen);
      if trackMatched[c.track] || detMatched[c.det] {
        continue;
      }
      chosen := chosen + [c];
      trackMatched[c.track] := true;
      detMatched[c.det] := true;
    }
    assert sorted[..|sorted|] == sorted;
  }

  ghost predicate UsesTrack(chosen: seq<Pair>, t: nat) {
    exists k :: 0 <= k < |chosen| && chosen[k].track == t
  }

  ghost predicate UsesDet(chosen: seq<Pair>, d: nat) {
    exists k :: 0 <= k < |chosen| && chosen[k].det == d
  }

  /** Skipping a pair whose track or detection is used, and taking any other, keep the
      matching stable for the pairs read so far. */
  lemma GreedyStep(sorted: seq<Pair>, i: nat, chosen: seq<Pair>)
    requires SortedByDistance(sorted) && i < |sorted| && StableMatching(sorted[..i], chosen)
    ensures var c := sorted[i];
            if UsesTrack(chosen, c.track) || UsesDet(chosen, c.det)
            then StableMatching(sorted[..i] + [c], chosen)
            else StableMatching(sorted[..i] + [c], chosen + [c])
    ensures forall t :: UsesTrack(chosen + [sorted[i]], t) <==> UsesTrack(chosen, t) || t == sorted[i].track
    ensures forall d :: UsesDet(chosen + [sorted[i]], d) <==> UsesDet(chosen, d) || d == sorted[i].det
  {
    hide StableMatching, SortedByDistance, UsesTrack, UsesDet;
    var c := sorted[i];
    UsesGrow(chosen, c);
    if UsesTrack(chosen, c.track) || UsesDet(chosen, c.det) {
      SkipKeepsStable(sorted, i, chosen);
    } else {
      TakeKeepsStable(sorted[..i], chosen, c);
    }
  }

  lemma SkipKeepsStable(sorted: seq<Pair>, i: nat, chosen: seq<Pair>)
    requires SortedByDistance(sorted) && i < |sorted| && StableMatching(sorted[..i], chosen)
    requires UsesTrack(chosen, sorted[i].track) || UsesDet(chosen, sorted[i].det)
    ensures StableMatching(sorted[..i] + [sorted[i]], chosen)
  {
    var c := sorted[i];
    var k: nat :| k < |chosen| && Conflict(chosen[k], c);
    assert chosen[k] in chosen && chosen[k] in sorted[..i];
    assert chosen[k].distance <= c.distance;
    hide SortedByDistance, UsesTrack, UsesDet, OneToOne;
    SkipIsStable(sorted[..i], chosen, c, k);
    hide Stable;
  }

  lemma SkipIsStable(prefix: seq<Pair>, chosen: seq<Pair>, c: Pair, k: nat)
    requires Stable(prefix, chosen) && k < |chosen| && Conflict(chosen[k], c) && chosen[k].distance <= c.distance
    ensures Stable(prefix + [c], chosen)
  {
    forall p | p in prefix + [c]
      ensures exists m :: 0 <= m < |chosen| && Conflict(chosen[m], p) && chosen[m].distance <= p.distance
    {
      if p in prefix {
        var m :| 0 <= m < |chosen| && Conflict(chosen[m], p) && chosen[m].distance <= p.distance;
      } else {
        assert p == c;
      }
    }
  }

  lemma TakeKeepsStable(prefix: seq<Pair>, chosen: seq<Pair>, c: Pair)
    requires StableMatching(prefix, chosen) && !UsesTrack(chosen, c.track) && !UsesDet(chosen, c.det)
    ensures StableMatching(prefix + [c], chosen + [c])
  {
    StableGrows(prefix, chosen, c);
    hide Stable;
  }

  lemma UsesGrow(chosen: seq<Pair>, c: Pair)
    ensures forall t :: UsesTrack(chosen + [c], t) <==> UsesTrack(chosen, t) || t == c.track
    ensures forall d :: UsesDet(chosen + [c], d) <==> UsesDet(chosen, d) || d == c.det
  {
    var more := chosen + [c];
    forall t | UsesTrack(chosen, t) || t == c.track ensures UsesTrack(more, t) {
      if t == c.track { assert more[|chosen|].track == t; }
      else { var k :| 0 <= k < |chosen| && chosen[k].track == t; assert more[k].track == t; }
    }
    forall d | UsesDet(chosen, d) || d == c.det ensures UsesDet(more, d) {
      if d == c.det { assert more[|chosen|].det == d; }
      else { var k :| 0 <= k < |chosen| && chosen[k].det == d; assert more[k].det == d; }
    }
  }

  lemma StableGrows(prefix: seq<Pair>, chosen: seq<Pair>, c: Pair)
    requires Stable(prefix, chosen)
    ensures Stable(prefix + [c], chosen + [c])
  {
    forall p | p in prefix + [c]
      ensures exists k :: 0 <= k < |chosen + [c]| && Conflict((chosen + [c])[k], p) && (chosen + [c])[k].distance <= p.distance
    {
      if p in prefix {
        var k :| 0 <= k < |chosen| && Conflict(chosen[k], p) && chosen[k].distance <= p.distance;
        assert (chosen + [c])[k] == chosen[k];
      } else {
        assert (chosen + [c])[|chosen|] == p;
      }
    }
  }

  method Associate(live: seq<bool>, dets: nat, distance: (nat, nat) -> real, threshold: real)
    returns (chosen: seq<Pair>, candidates: seq<Pair>)
    ensures forall c :: c in candidates <==> Gated(c, live, dets, distance, threshold)
    ensures StableMatching(candidates, chosen)
  {
    candidates := Candidates(live, dets, distance, threshold);
    var sorted := SortByDistance(candidates);
    chosen := Greedy(sorted, |live|, dets);
  }

  /** In terms of the distances themselves: only tracks that are not lost are linked, inside the
      gate, and every such pair inside the gate is linked or beaten by one that is no farther. */
  lemma AssociationMeans(live: seq<bool>, dets: nat, distance: (nat, nat) -> real, threshold: real,
                         candidates: seq<Pair>, chosen: seq<Pair>)
    requires forall c :: c in candidates <==> Gated(c, live, dets, distance, threshold)
    requires StableMatching(candidates, chosen)
    ensures forall p | p in chosen ::
              p.track < |live| && live[p.track] && p.det < dets && distance(p.track, p.det) == p.distance < threshold
    ensures forall t: nat, d: nat | t < |live| && live[t] && d < dets && distance(t, d) < threshold ::
              exists p :: p in chosen && (p.track == t || p.det == d) && distance(p.track, p.det) <= distance(t, d)
  {
    forall t: nat, d: nat | t < |live| && live[t] && d < dets && distance(t, d) < threshold
      ensures exists p :: p in chosen && (p.track == t || p.det == d) && distance(p.track, p.det) <= distance(t, d)
    {
      var c := Pair(distance(t, d), t, d);
      assert c in candidates;
      var k :| 0 <= k < |chosen| && Conflict(chosen[k], c) && chosen[k].distance <= c.distance;
      assert chosen[k] in candidates;
    }
  }
}
