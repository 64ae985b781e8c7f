/** Sensor measurements, and their grouping in time for batch fusion. */
module Measurements {
  import opened Sorting

  /** Other stands for an enumeration value outside the six known sensors. */
  datatype SensorType = Lidar | Radar | Camera | Gps | Imu | Ultrasonic | Other

  datatype Measurement = Measurement(sensor: SensorType, timestamp: real, data: seq<real>, covariance: Entries9)

  type Entries9 = s: seq<real> | |s| == 9
    witness [0.0, 0.0, 0.0, 0.0, 0.0, 0.0, 0.0, 0.0, 0.0]

  type Group = seq<Measurement>

  // ---------------------------------------------------------------- groupings

  ghost function Flatten(groups: seq<Group>): seq<Measurement> {
    if groups == [] then [] else Flatten(groups[..|groups| - 1]) + groups[|groups| - 1]
  }

  ghost predicate SpanAtMost(g: Group, threshold: real) {
    forall i, j | 0 <= i < |g| && 0 <= j < |g| :: g[i].timestamp - g[j].timestamp <= threshold
  }

  /** groups distribute the buffer over non-empty groups that each span at most threshold. */
  ghost predicate Partition(buffer: seq<Measurement>, groups: seq<Group>, threshold: real) {
    && multiset(Flatten(groups)) == multiset(buffer)
    && forall i | 0 <= i < |groups| :: groups[i] != [] && SpanAtMost(groups[i], threshold)
  }

  ghost predicate Sorted(s: seq<Measurement>) {
    forall i, j | 0 <= i < j < |s| :: s[i].timestamp <= s[j].timestamp
  }

  /** Groups start in time order, any two of them more than threshold apart. */
  ghost predicate HeadsApart(groups: seq<Group>, threshold: real) {
    forall i, j | 0 <= i < j < |groups| && groups[i] != [] && groups[j] != [] ::
      && groups[j][0].timestamp - groups[i][0].timestamp > threshold
      && groups[j][0].timestamp >= groups[i][0].timestamp
  }

  lemma {:induction false} MemberOfSome(groups: seq<Group>, m: Measurement)
    ensures m in Flatten(groups) <==> exists i :: 0 <= i < |groups| && m in groups[i]
  {
    if groups != [] {
      var n := |groups| - 1;
      MemberOfSome(groups[..n], m);
      assert forall i | 0 <= i < n :: groups[..n][i] == groups[i];
    }
  }

  /** Distinct numbers below m are at most m many. */
  lemma {:induction false} Pigeonhole(f: seq<nat>, m: nat)
    requires forall i | 0 <= i < |f| :: f[i] < m
    requires forall i, j | 0 <= i < j < |f| :: f[i] != f[j]
    ensures |f| <= m
    decreases m
  {
    assert |f| > 0 ==> f[0] < m;
    if p :| 0 <= p < |f| && f[p] == m - 1 {
      var g := f[..p] + f[p + 1..];
      assert forall i | 0 <= i < |g| :: g[i] == f[if i < p then i else i + 1];
      Pigeonhole(g, m - 1);
    } else if m > 0 {
      assert forall i | 0 <= i < |f| :: f[i] != m - 1;
      Pigeonhole(f, m - 1);
    }
  }

  /** For every group, the part of another partition that holds its first member. */
  lemma Hosts(buffer: seq<Measurement>, groups: seq<Group>, other: seq<Group>, threshold: real)
    returns (f: seq<nat>)
    requires Partition(buffer, groups, threshold) && Partition(buffer, other, threshold)
    ensures |f| == |groups|
    ensures forall i | 0 <= i < |groups| :: f[i] < |other| && groups[i][0] in other[f[i]]
  {
    f := [];
    for n := 0 to |groups|
      invariant |f| == n
      invariant forall i | 0 <= i < n :: f[i] < |other| && groups[i][0] in other[f[i]]
    {
      var head := groups[n][0];
      MemberOfSome(groups, head);
      assert head in multiset(Flatten(groups)) && head in multiset(Flatten(other));
      MemberOfSome(other, head);
      var k: nat :| k < |other| && head in other[k];
      f := f + [k];
    }
  }

  /** Groups whose heads are further apart than the threshold are as few as possible: no
      distribution of the same buffer with the same span limit has fewer. */
  lemma FewestGroups(buffer: seq<Measurement>, groups: seq<Group>, other: seq<Group>, threshold: real)
    requires Partition(buffer, groups, threshold) && HeadsApart(groups, threshold)
    requires Partition(buffer, other, threshold)
    ensures |groups| <= |other|
  {
    var f := Hosts(buffer, groups, other, threshold);
    Pigeonhole(f, |other|);
  }

  // ---------------------------------------------------------------- the algorithm

  method SortByTime(buffer: seq<Measurement>) returns (sorted: seq<Measurement>)
    ensures multiset(sorted) == multiset(buffer) && Sorted(sorted)
  {
    sorted := Sort((m: Measurement) => m.timestamp, buffer);
  }

  /** A group of the algorithm: sorted, and a single measurement or within the threshold. */
  ghost predicate Tight(g: Group, threshold: real) {
    && g != [] && Sorted(g)
    && (|g| == 1 || g[|g| - 1].timestamp - g[0].timestamp <= threshold)
  }

  lemma TightSpan(g: Group, threshold: real)
    requires Tight(g, threshold) && threshold >= 0.0
    ensures SpanAtMost(g, threshold)
  {
  }

  /** Greedy grouping: a group takes every measurement within threshold of its first one. */
  method Synchronize(buffer: seq<Measurement>, threshold: real) returns (groups: seq<Group>)
    ensures multiset(Flatten(groups)) == multiset(buffer) && Sorted(Flatten(groups))
    ensures forall i | 0 <= i < |groups| :: Tight(groups[i], threshold)
    ensures HeadsApart(groups, threshold)
    ensures Partition(buffer, groups, threshold) <==> threshold >= 0.0 || buffer == []
  {
    if buffer == [] { return []; }
    var sorted := SortByTime(buffer);
    assert |sorted| == |multiset(sorted)| == |multiset(buffer)| == |buffer|;
    groups := [];
    var current := [sorted[0]];
    for i := 1 to |sorted|
      invariant Flatten(groups + [current]) == sorted[..i]
      invariant forall k | 0 <= k < |groups| :: Tight(groups[k], threshold)
      invariant Tight(current, threshold) && HeadsApart(groups + [current], threshold)
    {
      var next := sorted[i];
      assert sorted[..i + 1] == sorted[..i] + [next];
      AppendNext(groups, current, next);
      assert Sorted(Flatten(groups + [current]) + [next]);
      HeadsStep(groups, current, next, threshold);
      if next.timestamp - current[0].timestamp <= threshold {
        current := current + [next];
      } else {
        groups := groups + [current];
        current := [next];
      }
    }
    groups := groups + [current];
    assert sorted[..|sorted|] == sorted;
    SpansHold(groups, threshold);
  }

  /** Reading one more measurement of a sorted buffer into the current group, or a new one. */
  lemma AppendNext(groups: seq<Group>, current: Group, next: Measurement)
    requires current != [] && Sorted(current)
    ensures Flatten(groups + [current + [next]]) == Flatten(groups + [current]) + [next]
    ensures Flatten(groups + [current] + [[next]]) == Flatten(groups + [current]) + [next]
    ensures Sorted(Flatten(groups + [current]) + [next]) ==>
              Sorted(current + [next]) && current[0].timestamp <= next.timestamp
  {
    hide Sorted;
    assert (groups + [current])[..|groups|] == groups;
    assert (groups + [current + [next]])[..|groups|] == groups;
    assert (groups + [current] + [[next]])[..|groups| + 1] == groups + [current];
    var f := Flatten(groups);
    assert Flatten(groups + [current]) + [next] == f + (current + [next]);
    if Sorted(Flatten(groups + [current]) + [next]) { TailIsSorted(f, current, next); }
  }

  lemma TailIsSorted(f: seq<Measurement>, current: Group, next: Measurement)
    requires current != [] && Sorted(f + (current + [next]))
    ensures Sorted(current + [next]) && current[0].timestamp <= next.timestamp
  {
    var s := f + (current + [next]);
    assert forall k | 0 <= k <= |current| :: (current + [next])[k] == s[|f| + k];
    assert s[|f|] == current[0] && s[|f| + |current|] == next;
  }

  lemma SpansHold(groups: seq<Group>, threshold: real)
    requires |groups| > 0 && forall i | 0 <= i < |groups| :: Tight(groups[i], threshold)
    ensures (forall i | 0 <= i < |groups| :: SpanAtMost(groups[i], threshold)) <==> threshold >= 0.0
  {
    if threshold >= 0.0 {
      forall i | 0 <= i < |groups| ensures SpanAtMost(groups[i], threshold) { TightSpan(groups[i], threshold); }
    } else {
      var m := groups[0][0];
      assert m.timestamp - m.timestamp > threshold;
    }
  }

  lemma HeadsStep(groups: seq<Group>, current: Group, next: Measurement, threshold: real)
    requires HeadsApart(groups + [current], threshold) && current != []
    requires forall i | 0 <= i < |groups| :: groups[i] != []
    requires current[0].timestamp <= next.timestamp
    ensures HeadsApart(groups + [current + [next]], threshold)
    ensures next.timestamp - current[0].timestamp > threshold ==> HeadsApart(groups + [current] + [[next]], threshold)
  {
    var g := groups + [current];
    assert forall i | 0 <= i < |groups| :: g[i] == groups[i] && g[|groups|] == current;
  }
}
