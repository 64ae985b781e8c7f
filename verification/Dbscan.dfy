/** DBSCAN over a point cloud: an outer scan, and a breadth-first expansion of each cluster
    over a work queue that may hold a point several times. */
module Dbscan {
  import opened DensityGraph
  import opened Points

  const UNVISITED := 0
  const NOISE := -1

  // ---------------------------------------------------------------- neighbourhood queries

  /** The indices below n of the points near point idx. */
  ghost function Region(cloud: seq<Point3D>, idx: nat, eps: real, n: nat): set<nat>
    requires idx < |cloud| && n <= |cloud|
  {
    set j: nat | j < n && Near(cloud[j], cloud[idx], eps)
  }

  ghost function GraphOf(cloud: seq<Point3D>, eps: real): Graph {
    seq(|cloud|, i requires 0 <= i < |cloud| => Region(cloud, i, eps, |cloud|))
  }

  lemma GraphIsWellFormed(cloud: seq<Point3D>, eps: real)
    ensures WellFormed(GraphOf(cloud, eps))
  {
  }

  method RegionQuery(cloud: seq<Point3D>, idx: nat, eps: real) returns (neighbors: seq<nat>)
    requires idx < |cloud|
    ensures |neighbors| == |GraphOf(cloud, eps)[idx]|
    ensures forall j :: j in neighbors <==> j in GraphOf(cloud, eps)[idx]
  {
    neighbors := [];
    for i := 0 to |cloud|
      invariant |neighbors| == |Region(cloud, idx, eps, i)|
      invariant forall j :: j in neighbors <==> j in Region(cloud, idx, eps, i)
    {
      if Near(cloud[i], cloud[idx], eps) {
        neighbors := neighbors + [i];
        assert Region(cloud, idx, eps, i + 1) == Region(cloud, idx, eps, i) + {i};
      } else {
        assert Region(cloud, idx, eps, i + 1) == Region(cloud, idx, eps, i);
      }
    }
  }

  // ---------------------------------------------------------------- clusters in space

  /** A point is core when it has the minimum of points within reach, itself included; so with a
      minimum of one there is no noise. */
  lemma CoreExactly(cloud: seq<Point3D>, eps: real, minPts: int, i: nat)
    requires i < |cloud|
    ensures Core(GraphOf(cloud, eps), minPts, i) <==> |set j: nat | j < |cloud| && Near(cloud[j], cloud[i], eps)| >= minPts
    ensures minPts <= 1 ==> Core(GraphOf(cloud, eps), minPts, i)
  {
    GraphIsWellFormed(cloud, eps);
    var g := GraphOf(cloud, eps);
    assert g[i] == set j: nat | j < |cloud| && Near(cloud[j], cloud[i], eps);
    assert i in g[i] && |g[i]| > 0;
  }

  /** Each point of the chain is at most eps from the one before, along every axis. */
  ghost predicate SmallSteps(cloud: seq<Point3D>, eps: real, p: seq<nat>) {
    && (forall k | 0 <= k < |p| :: p[k] < |cloud|)
    && forall k | 0 < k < |p| ::
         var u, v := cloud[p[k]], cloud[p[k - 1]];
         -eps <= u.x - v.x <= eps && -eps <= u.y - v.y <= eps && -eps <= u.z - v.z <= eps
  }

  /** Core points of one cluster are joined by a chain of core points in small steps. */
  ghost predicate JoinedInSpace(cloud: seq<Point3D>, eps: real, minPts: int, labels: seq<int>)
    requires |labels| == |cloud|
  {
    forall i: nat, j: nat | i < |cloud| && j < |cloud| && labels[i] == labels[j]
        && Core(GraphOf(cloud, eps), minPts, i) && Core(GraphOf(cloud, eps), minPts, j) ::
      exists p :: Chain(GraphOf(cloud, eps), minPts, p, i, j) && SmallSteps(cloud, eps, p)
  }

  lemma ChainHasSmallSteps(cloud: seq<Point3D>, eps: real, minPts: int, p: seq<nat>, i: nat, j: nat)
    requires eps >= 0.0 && Chain(GraphOf(cloud, eps), minPts, p, i, j)
    ensures SmallSteps(cloud, eps, p)
  {
    var g := GraphOf(cloud, eps);
    forall k | 0 <= k < |p| ensures p[k] < |cloud| { assert Core(g, minPts, p[k]); }
    forall k | 0 < k < |p|
      ensures var u, v := cloud[p[k]], cloud[p[k - 1]];
              -eps <= u.x - v.x <= eps && -eps <= u.y - v.y <= eps && -eps <= u.z - v.z <= eps
    {
      assert p[k] in g[p[k - 1]];
      NearOnAxes(cloud[p[k]], cloud[p[k - 1]], eps);
    }
  }

  lemma ClustersAreJoined(cloud: seq<Point3D>, eps: real, minPts: int, labels: seq<int>, k: nat)
    requires eps >= 0.0 && Clustering(GraphOf(cloud, eps), minPts, labels, k)
    ensures |labels| == |cloud| && JoinedInSpace(cloud, eps, minPts, labels)
  {
    var g := GraphOf(cloud, eps);
    forall i: nat, j: nat | i < |cloud| && j < |cloud| && labels[i] == labels[j] && Core(g, minPts, i) && Core(g, minPts, j)
      ensures exists p :: Chain(g, minPts, p, i, j) && SmallSteps(cloud, eps, p)
    {
      assert Linked(g, minPts, i, j);
      var p :| Chain(g, minPts, p, i, j);
      ChainHasSmallSteps(cloud, eps, minPts, p, i, j);
    }
  }

  /** A chain cannot jump a gap wider than eps between two parallel planes. */
  lemma {:induction false} ChainStaysBelow(cloud: seq<Point3D>, eps: real, minPts: int, p: seq<nat>, i: nat, j: nat,
                                           a: real, b: real, c: real, h: real)
    requires eps >= 0.0 && SquaredLength(a, b, c) <= 1.0 && Chain(GraphOf(cloud, eps), minPts, p, i, j)
    requires forall q | q in cloud :: Height(q, a, b, c) <= h || Height(q, a, b, c) > h + eps
    requires i < |cloud| && Height(cloud[i], a, b, c) <= h
    ensures j < |cloud| && Height(cloud[j], a, b, c) <= h
    decreases |p|
  {
    var g := GraphOf(cloud, eps);
    if |p| > 1 {
      assert Core(g, minPts, p[1]) && p[1] in g[p[0]];
      NearHeights(cloud[p[1]], cloud[p[0]], eps, a, b, c);
      assert cloud[p[1]] in cloud;
      assert Chain(g, minPts, p[1..], p[1], j);
      hide Height, SquaredLength, GraphOf;
      ChainStaysBelow(cloud, eps, minPts, p[1..], p[1], j, a, b, c, h);
    }
  }

  /** So no cluster reaches across such a gap. */
  lemma GapSeparates(cloud: seq<Point3D>, eps: real, minPts: int, labels: seq<int>, k: nat, i: nat, j: nat,
                     a: real, b: real, c: real, h: real)
    requires eps >= 0.0 && SquaredLength(a, b, c) <= 1.0 && Clustering(GraphOf(cloud, eps), minPts, labels, k)
    requires forall q | q in cloud :: Height(q, a, b, c) <= h || Height(q, a, b, c) > h + eps
    requires i < |cloud| && j < |cloud| && Height(cloud[i], a, b, c) <= h < Height(cloud[j], a, b, c)
    requires Core(GraphOf(cloud, eps), minPts, i) && Core(GraphOf(cloud, eps), minPts, j)
    ensures |labels| == |cloud| && labels[i] != labels[j]
  {
    var g := GraphOf(cloud, eps);
    if labels[i] == labels[j] {
      assert Linked(g, minPts, i, j);
      var p :| Chain(g, minPts, p, i, j);
      ChainStaysBelow(cloud, eps, minPts, p, i, j, a, b, c, h);
    }
  }

  // ---------------------------------------------------------------- invariants

  /** Facts that hold of the labels at every moment: k clusters so far, opened by the core
      points seeds, in increasing index order. Only non-core points are ever noise. */
  ghost predicate Sound(g: Graph, minPts: int, labels: seq<int>, seeds: seq<nat>) {
    && |labels| == |g|
    && (forall i | 0 <= i < |g| :: -1 <= labels[i] <= |seeds|)
    && (forall i | 0 <= i < |g| && labels[i] == NOISE :: !Core(g, minPts, i))
    && (forall c | 0 <= c < |seeds| :: Opened(g, minPts, labels, c + 1, seeds[c]))
    && (forall c, d | 0 <= c < d < |seeds| :: seeds[c] < seeds[d])
    && (forall i | 0 <= i < |g| && !Core(g, minPts, i) && labels[i] > 0 ::
          SeesCoreWith(g, minPts, labels, i, labels[i]))
  }

  /** Core point s is the first of cluster c, and linked with all of its core points. */
  ghost predicate Opened(g: Graph, minPts: int, labels: seq<int>, c: int, s: nat)
    requires |labels| == |g|
  {
    && Core(g, minPts, s) && labels[s] == c
    && forall i | Core(g, minPts, i) && labels[i] == c :: s <= i && Linked(g, minPts, s, i)
  }

  /** Every neighbour of a core point of clusters 1..k has been claimed, by that cluster or an
      earlier one; the core ones by the same cluster. */
  ghost predicate Closed(g: Graph, minPts: int, labels: seq<int>, k: int)
    requires |labels| == |g|
  {
    forall i, j | Core(g, minPts, i) && 0 < labels[i] <= k && j in g[i] && j < |g| ::
      0 < labels[j] <= labels[i] && (Core(g, minPts, j) ==> labels[j] == labels[i])
  }

  ghost predicate Scanned(labels: seq<int>, n: nat) {
    forall j | 0 <= j < n && j < |labels| :: labels[j] != UNVISITED
  }

  /** While cluster k grows: its unclaimed neighbours are all queued, and whatever is queued
      is a neighbour of one of its core points. */
  ghost predicate Frontier(g: Graph, minPts: int, labels: seq<int>, k: int, queue: seq<nat>)
    requires |labels| == |g|
  {
    && (forall i, j | Core(g, minPts, i) && labels[i] == k && j in g[i] && j < |g| ::
          labels[j] > 0 || j in queue)
    && (forall q | q in queue :: q < |g| && SeesCoreWith(g, minPts, labels, q, k))
  }

  ghost predicate Growing(g: Graph, minPts: int, labels: seq<int>, seeds: seq<nat>, queue: seq<nat>)
  {
    && |seeds| > 0
    && Sound(g, minPts, labels, seeds)
    && Closed(g, minPts, labels, |seeds| - 1)
    && Scanned(labels, seeds[|seeds| - 1])
    && Frontier(g, minPts, labels, |seeds|, queue)
  }

  /** The outer scan has reached index n. */
  ghost predicate Reached(g: Graph, minPts: int, labels: seq<int>, seeds: seq<nat>, n: nat) {
    && Sound(g, minPts, labels, seeds) && Closed(g, minPts, labels, |seeds|) && Scanned(labels, n)
    && forall c | 0 <= c < |seeds| :: seeds[c] < n
  }

  ghost function Unvisited(labels: seq<int>): set<int> {
    set j | 0 <= j < |labels| && labels[j] == UNVISITED
  }

  // ---------------------------------------------------------------- one lemma per step

  /** Relabelling an unclaimed point hides no claimed core point. */
  lemma StillSees(g: Graph, minPts: int, labels: seq<int>, x: nat, v: int, b: nat, c: int)
    requires |labels| == |g| && x < |g| && b < |g| && labels[x] <= 0 < c
    requires SeesCoreWith(g, minPts, labels, b, c)
    ensures SeesCoreWith(g, minPts, labels[x := v], b, c)
  {
  }

  lemma MarkNoise(g: Graph, minPts: int, labels: seq<int>, seeds: seq<nat>, i: nat)
    requires WellFormed(g) && Reached(g, minPts, labels, seeds, i)
    requires i < |g| && labels[i] == UNVISITED && !Core(g, minPts, i)
    ensures Reached(g, minPts, labels[i := NOISE], seeds, i + 1)
  {
  }

  lemma SkipVisited(g: Graph, minPts: int, labels: seq<int>, seeds: seq<nat>, i: nat)
    requires Reached(g, minPts, labels, seeds, i) && i < |labels| && labels[i] != UNVISITED
    ensures Reached(g, minPts, labels, seeds, i + 1)
  {
  }

  lemma OpenCluster(g: Graph, minPts: int, labels: seq<int>, seeds: seq<nat>, i: nat, queue: seq<nat>)
    requires WellFormed(g) && Reached(g, minPts, labels, seeds, i)
    requires i < |g| && labels[i] == UNVISITED && Core(g, minPts, i)
    requires forall j :: j in queue <==> j in g[i] && j != i
    ensures Growing(g, minPts, labels[i := |seeds| + 1], seeds + [i], queue)
  {
    var l', s' := labels[i := |seeds| + 1], seeds + [i];
    assert Sound(g, minPts, l', s') by {
      LinkedRefl(g, minPts, i);
      forall b | 0 <= b < |g| && !Core(g, minPts, b) && l'[b] > 0
        ensures SeesCoreWith(g, minPts, l', b, l'[b])
      {
        StillSees(g, minPts, labels, i, |s'|, b, l'[b]);
      }
    }
    assert Frontier(g, minPts, l', |s'|, queue) by {
      forall q | q in queue ensures q < |g| && SeesCoreWith(g, minPts, l', q, |s'|) {
        assert i in g[q];
      }
    }
  }

  /** A queued point that is claimed already, by this cluster or an earlier one, is dropped. */
  lemma DropClaimed(g: Graph, minPts: int, labels: seq<int>, seeds: seq<nat>, queue: seq<nat>)
    requires Growing(g, minPts, labels, seeds, queue)
    requires |queue| > 0 && queue[0] < |labels| && labels[queue[0]] > 0
    ensures Growing(g, minPts, labels, seeds, queue[1..])
  {
  }

  /** A claimed point joins the growing cluster soundly: it sees a core point of the cluster. */
  lemma ClaimIsSound(g: Graph, minPts: int, labels: seq<int>, seeds: seq<nat>, curr: nat)
    requires WellFormed(g) && |seeds| > 0 && Sound(g, minPts, labels, seeds)
    requires Scanned(labels, seeds[|seeds| - 1])
    requires curr < |g| && SeesCoreWith(g, minPts, labels, curr, |seeds|)
    requires labels[curr] == UNVISITED || (labels[curr] == NOISE && !Core(g, minPts, curr))
    ensures Sound(g, minPts, labels[curr := |seeds|], seeds)
  {
    var k, l' := |seeds|, labels[curr := |seeds|];
    var via: nat :| via in g[curr] && Core(g, minPts, via) && labels[via] == k;
    assert Opened(g, minPts, labels, k, seeds[k - 1]);
    if Core(g, minPts, curr) {
      LinkedStep(g, minPts, seeds[k - 1], via, curr);
    }
    forall c | 0 <= c < |seeds| ensures Opened(g, minPts, l', c + 1, seeds[c]) {
      assert Opened(g, minPts, labels, c + 1, seeds[c]);
    }
    forall b | 0 <= b < |g| && !Core(g, minPts, b) && l'[b] > 0
      ensures SeesCoreWith(g, minPts, l', b, l'[b])
    {
      if b == curr { StillSees(g, minPts, labels, curr, k, b, k); }
      else { StillSees(g, minPts, labels, curr, k, b, labels[b]); }
    }
  }

  lemma ClaimKeepsFrontier(g: Graph, minPts: int, labels: seq<int>, k: nat, queue: seq<nat>, more: seq<nat>)
    requires WellFormed(g) && |labels| == |g| && k > 0 && Frontier(g, minPts, labels, k, queue)
    requires |queue| > 0 && queue[0] < |g| && labels[queue[0]] <= 0
    requires Brought(g, minPts, labels[queue[0] := k], queue[0], more)
    ensures Frontier(g, minPts, labels[queue[0] := k], k, queue[1..] + more)
  {
    var curr, l', q' := queue[0], labels[queue[0] := k], queue[1..] + more;
    assert forall j | j in queue :: j == curr || j in queue[1..];
    forall q | q in q' ensures q < |g| && SeesCoreWith(g, minPts, l', q, k) {
      if q in queue {
        StillSees(g, minPts, labels, curr, k, q, k);
      } else {
        assert q in more && curr in g[q] && l'[curr] == k;
      }
    }
  }

  /** What claiming curr adds to the queue: the unclaimed neighbours of a core point. */
  ghost predicate Brought(g: Graph, minPts: int, labels: seq<int>, curr: nat, more: seq<nat>)
    requires |labels| == |g| && curr < |g|
  {
    if Core(g, minPts, curr)
    then forall j :: j in more <==> j in g[curr] && j < |g| && labels[j] <= 0
    else more == []
  }

  /** Claiming the front of the queue for the growing cluster; a core point brings its
      unclaimed neighbours into the queue. A former noise point is not core. */
  lemma ClaimFront(g: Graph, minPts: int, labels: seq<int>, seeds: seq<nat>, queue: seq<nat>, more: seq<nat>)
    requires WellFormed(g) && Growing(g, minPts, labels, seeds, queue)
    requires |queue| > 0 && queue[0] < |labels| && labels[queue[0]] <= 0
    requires Brought(g, minPts, labels[queue[0] := |seeds|], queue[0], more)
    ensures Growing(g, minPts, labels[queue[0] := |seeds|], seeds, queue[1..] + more)
  {
    ClaimIsSound(g, minPts, labels, seeds, queue[0]);
    ClaimKeepsFrontier(g, minPts, labels, |seeds|, queue, more);
  }

  /** When the queue is empty the cluster is complete. */
  lemma FinishCluster(g: Graph, minPts: int, labels: seq<int>, seeds: seq<nat>)
    requires WellFormed(g) && Growing(g, minPts, labels, seeds, [])
    ensures Reached(g, minPts, labels, seeds, seeds[|seeds| - 1] + 1)
  {
  }

  lemma {:induction false} ChainKeepsLabel(g: Graph, minPts: int, labels: seq<int>, k: int, p: seq<nat>, a: nat, b: nat)
    requires |labels| == |g| && WellFormed(g) && Closed(g, minPts, labels, k)
    requires Chain(g, minPts, p, a, b) && 0 < labels[a] <= k
    ensures Core(g, minPts, b) && labels[b] == labels[a]
    decreases |p|
  {
    assert Core(g, minPts, p[0]);
    if |p| > 1 {
      assert p[1] in g[p[0]] && Core(g, minPts, p[1]);
      ChainKeepsLabel(g, minPts, labels, k, p[1..], p[1], b);
    }
  }

  /** When the scan is over, the invariants add up to the meaning of the labels. */
  lemma ScanComplete(g: Graph, minPts: int, labels: seq<int>, seeds: seq<nat>)
    requires WellFormed(g) && Reached(g, minPts, labels, seeds, |g|)
    ensures Clustering(g, minPts, labels, |seeds|)
  {
    forall i, j | Core(g, minPts, i) && Core(g, minPts, j)
      ensures labels[i] == labels[j] <==> Linked(g, minPts, i, j)
    {
      if labels[i] == labels[j] {
        var s := seeds[labels[i] - 1];
        LinkedSym(g, minPts, s, i);
        LinkedTrans(g, minPts, i, s, j);
      }
      if Linked(g, minPts, i, j) {
        var p :| Chain(g, minPts, p, i, j);
        ChainKeepsLabel(g, minPts, labels, |seeds|, p, i, j);
      }
    }
    forall c | 1 <= c <= |seeds| ensures HasCore(g, minPts, labels, c, |g|) {
      assert labels[seeds[c - 1]] == c;
    }
    forall i, c | Core(g, minPts, i) && 1 <= c < labels[i] ensures HasCore(g, minPts, labels, c, i) {
      assert labels[seeds[c - 1]] == c && seeds[c - 1] < seeds[labels[i] - 1] <= i;
    }
    forall i | 0 <= i < |g|
      ensures labels[i] == -1 <==> !Core(g, minPts, i) && !SeesCore(g, minPts, i)
    {
      assert forall j | j in g[i] :: i in g[j];
    }
    forall i, j | 0 <= i < |g| && !Core(g, minPts, i) && j in g[i] && Core(g, minPts, j)
      ensures labels[i] <= labels[j]
    {
      assert i in g[j];
    }
  }

  // ---------------------------------------------------------------- the algorithm

  method Cluster(cloud: seq<Point3D>, eps: real, minPts: int) returns (labels: array<int>, clusterId: nat)
    ensures fresh(labels)
    ensures Clustering(GraphOf(cloud, eps), minPts, labels[..], clusterId)
    ensures labels.Length == |cloud| && (eps >= 0.0 ==> JoinedInSpace(cloud, eps, minPts, labels[..]))
  {
    ghost var g := GraphOf(cloud, eps);
    GraphIsWellFormed(cloud, eps);
    assert |g| == |cloud|;
    labels := new int[|cloud|](_ => UNVISITED);
    clusterId := 0;
    ghost var seeds: seq<nat> := [];
    assert Reached(g, minPts, labels[..], seeds, 0);
    hide GraphOf, WellFormed, Reached, Growing, Clustering, JoinedInSpace;
    for i := 0 to |cloud|
      invariant clusterId == |seeds| && fresh(labels) && labels.Length == |cloud|
      invariant Reached(g, minPts, labels[..], seeds, i)
    {
      ghost var before := labels[..];
      if labels[i] != UNVISITED {
        SkipVisited(g, minPts, before, seeds, i);
        continue;
      }
      var neighbors := RegionQuery(cloud, i, eps);
      if |neighbors| < minPts {
        MarkNoise(g, minPts, before, seeds, i);
        labels[i] := NOISE;
        assert labels[..] == before[i := NOISE];
        continue;
      }
      clusterId := clusterId + 1;
      labels[i] := clusterId;
      var queue := Others(neighbors, i);
      assert labels[..] == before[i := clusterId];
      OpenCluster(g, minPts, before, seeds, i, queue);
      seeds := seeds + [i];
      Expand(cloud, eps, minPts, labels, clusterId, queue, seeds);
      FinishCluster(g, minPts, labels[..], seeds);
    }
    ScanComplete(g, minPts, labels[..], seeds);
    if eps >= 0.0 { ClustersAreJoined(cloud, eps, minPts, labels[..], clusterId); }
  }

  /** The neighbours that the queue of a new cluster starts with. */
  method Others(neighbors: seq<nat>, i: nat) returns (queue: seq<nat>)
    ensures forall j :: j in queue <==> j in neighbors && j != i
  {
    queue := [];
    for m := 0 to |neighbors|
      invariant forall j :: j in queue <==> j in neighbors[..m] && j != i
    {
      if neighbors[m] != i { queue := queue + [neighbors[m]]; }
    }
    assert neighbors[..|neighbors|] == neighbors;
  }

  /** What a newly claimed point adds to the queue: nothing if it is not core, otherwise
      its neighbours that are still unvisited or noise. */
  method Bring(cloud: seq<Point3D>, eps: real, minPts: int, labels: array<int>, curr: nat) returns (more: seq<nat>)
    requires labels.Length == |cloud| && curr < |cloud|
    requires forall j | 0 <= j < labels.Length :: labels[j] >= NOISE
    ensures Brought(GraphOf(cloud, eps), minPts, labels[..], curr, more)
  {
    more := [];
    var neighbors := RegionQuery(cloud, curr, eps);
    if |neighbors| >= minPts {
      for m := 0 to |neighbors|
        invariant forall j :: j in more <==> j in neighbors[..m] && j < labels.Length && labels[j] <= 0
      {
        var nb := neighbors[m];
        assert nb in neighbors;
        if labels[nb] == UNVISITED || labels[nb] == NOISE {
          more := more + [nb];
        }
      }
      assert neighbors[..|neighbors|] == neighbors;
    }
  }

  /** What the loop may rely on when it takes the front of the queue. */
  lemma FrontOf(g: Graph, minPts: int, labels: seq<int>, seeds: seq<nat>, queue: seq<nat>)
    requires Growing(g, minPts, labels, seeds, queue) && queue != []
    ensures |labels| == |g| && queue[0] < |g| && forall j | 0 <= j < |labels| :: labels[j] >= NOISE
    ensures labels[queue[0]] == NOISE ==> Brought(g, minPts, labels[queue[0] := |seeds|], queue[0], [])
  {
    assert queue[0] in queue;
  }

  /** The breadth-first expansion: drains the queue into cluster clusterId. */
  method Expand(cloud: seq<Point3D>, eps: real, minPts: int, labels: array<int>, clusterId: nat,
                seedQueue: seq<nat>, ghost seeds: seq<nat>)
    requires labels.Length == |cloud| && clusterId == |seeds|
    requires Growing(GraphOf(cloud, eps), minPts, labels[..], seeds, seedQueue)
    modifies labels
    ensures Growing(GraphOf(cloud, eps), minPts, labels[..], seeds, [])
  {
    ghost var g := GraphOf(cloud, eps);
    GraphIsWellFormed(cloud, eps);
    assert |g| == |cloud|;
    hide GraphOf, WellFormed, Growing, Brought;
    var queue := seedQueue;
    while queue != []
      invariant Growing(g, minPts, labels[..], seeds, queue)
      decreases Unvisited(labels[..]), |queue|
    {
      ghost var before, pending := labels[..], queue;
      FrontOf(g, minPts, before, seeds, pending);
      var curr := queue[0];
      queue := queue[1..];
      if labels[curr] > 0 { DropClaimed(g, minPts, before, seeds, pending); }
      if labels[curr] == NOISE {
        labels[curr] := clusterId;
        ClaimFront(g, minPts, before, seeds, pending, []);
        assert queue + [] == queue && labels[..] == before[curr := clusterId];
        assert Unvisited(labels[..]) == Unvisited(before);
      }
      if labels[curr] != UNVISITED {
        continue;
      }
      labels[curr] := clusterId;
      assert labels[..] == before[curr := clusterId];
      var more := Bring(cloud, eps, minPts, labels, curr);
      ClaimFront(g, minPts, before, seeds, pending, more);
      queue := queue + more;
      assert curr in Unvisited(before) && curr !in Unvisited(labels[..]);
      assert Unvisited(labels[..]) <= Unvisited(before);
    }
  }
}
