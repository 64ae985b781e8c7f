/** The neighbourhood graph that DBSCAN explores, and what its labels mean.

    A graph gives, for every point, the set of points within the search radius. A point is
    "core" when it has at least minPts neighbours, itself included. */
module DensityGraph {

  type Graph = seq<set<nat>>

  ghost predicate WellFormed(g: Graph) {
    && (forall i, j | 0 <= i < |g| && j in g[i] :: j < |g|)
    && (forall i | 0 <= i < |g| :: i in g[i])
    && (forall i, j | 0 <= i < |g| && 0 <= j < |g| :: j in g[i] ==> i in g[j])
  }

  predicate Core(g: Graph, minPts: int, i: int) {
    0 <= i < |g| && |g[i]| >= minPts
  }

  /** p is a chain of core points from a to b, each a neighbour of the next. */
  ghost predicate Chain(g: Graph, minPts: int, p: seq<nat>, a: nat, b: nat) {
    && |p| > 0 && p[0] == a && p[|p| - 1] == b
    && (forall k | 0 <= k < |p| :: Core(g, minPts, p[k]))
    && (forall k | 0 < k < |p| :: p[k] in g[p[k - 1]])
  }

  ghost predicate Linked(g: Graph, minPts: int, a: nat, b: nat) {
    exists p :: Chain(g, minPts, p, a, b)
  }

  lemma LinkedRefl(g: Graph, minPts: int, a: nat)
    requires Core(g, minPts, a)
    ensures Linked(g, minPts, a, a)
  {
    assert Chain(g, minPts, [a], a, a);
  }

  lemma LinkedStep(g: Graph, minPts: int, a: nat, b: nat, c: nat)
    requires Linked(g, minPts, a, b) && Core(g, minPts, c) && c in g[b]
    ensures Linked(g, minPts, a, c)
  {
    var p :| Chain(g, minPts, p, a, b);
    assert Chain(g, minPts, p + [c], a, c);
  }

  lemma LinkedTrans(g: Graph, minPts: int, a: nat, b: nat, c: nat)
    requires Linked(g, minPts, a, b) && Linked(g, minPts, b, c)
    ensures Linked(g, minPts, a, c)
  {
    var p :| Chain(g, minPts, p, a, b);
    var q :| Chain(g, minPts, q, b, c);
    var r := p + q[1..];
    assert forall k | 0 < k < |r| :: r[k] in g[r[k - 1]] by {
      forall k | 0 < k < |r| ensures r[k] in g[r[k - 1]] {
        if k >= |p| {
          assert r[k] == q[k - |p| + 1];
          assert r[k - 1] == q[k - |p|];
        }
      }
    }
    assert Chain(g, minPts, r, a, c);
  }

  function Reversed(p: seq<nat>): (r: seq<nat>)
    ensures |r| == |p| && forall k | 0 <= k < |p| :: r[k] == p[|p| - 1 - k]
  {
    seq(|p|, k requires 0 <= k < |p| => p[|p| - 1 - k])
  }

  lemma LinkedSym(g: Graph, minPts: int, a: nat, b: nat)
    requires WellFormed(g) && Linked(g, minPts, a, b)
    ensures Linked(g, minPts, b, a)
  {
    var p :| Chain(g, minPts, p, a, b);
    var r := Reversed(p);
    forall k | 0 < k < |r| ensures r[k] in g[r[k - 1]] {
      var m := |p| - k;
      assert p[m] in g[p[m - 1]];
      assert Core(g, minPts, p[m]) && Core(g, minPts, p[m - 1]);
    }
    assert Chain(g, minPts, r, b, a);
  }

  /** What a finished DBSCAN labelling of g says, with clusters 1..k and noise -1. */
  ghost predicate Clustering(g: Graph, minPts: int, labels: seq<int>, k: nat) {
    && |labels| == |g|
    // every point is noise or in one of the clusters 1..k, and every cluster has a core point
    && (forall i | 0 <= i < |g| :: labels[i] == -1 || 1 <= labels[i] <= k)
    && (forall c | 1 <= c <= k :: HasCore(g, minPts, labels, c, |g|))
    // core points share a label exactly when a chain of core points joins them
    && (forall i, j | Core(g, minPts, i) && Core(g, minPts, j) ::
          labels[i] == labels[j] <==> Linked(g, minPts, i, j))
    // noise is exactly the points that are not core and see no core point
    && (forall i | 0 <= i < |g| ::
          labels[i] == -1 <==> !Core(g, minPts, i) && !SeesCore(g, minPts, i))
    // a border point carries the least label among the core points it sees
    && (forall i | 0 <= i < |g| && !Core(g, minPts, i) && labels[i] > 0 ::
          SeesCoreWith(g, minPts, labels, i, labels[i]))
    && (forall i, j | 0 <= i < |g| && !Core(g, minPts, i) && j in g[i] && Core(g, minPts, j) ::
          labels[i] <= labels[j])
    // clusters are numbered in the order of their first core point
    && (forall i, c | Core(g, minPts, i) && 1 <= c < labels[i] :: HasCore(g, minPts, labels, c, i))
  }

  /** Some core point before index n carries label c. */
  ghost predicate HasCore(g: Graph, minPts: int, labels: seq<int>, c: int, n: int) {
    exists i | 0 <= i < n && i < |labels| :: Core(g, minPts, i) && labels[i] == c
  }

  ghost predicate SeesCore(g: Graph, minPts: int, i: int)
    requires 0 <= i < |g|
  {
    exists j | j in g[i] :: Core(g, minPts, j)
  }

  ghost predicate SeesCoreWith(g: Graph, minPts: int, labels: seq<int>, i: int, c: int)
    requires 0 <= i < |g| && |labels| == |g|
  {
    exists j | j in g[i] :: Core(g, minPts, j) && labels[j] == c
  }

  /** The conditions above leave no freedom: a cloud has exactly one such labelling. */
  lemma ClusteringIsUnique(g: Graph, minPts: int, l1: seq<int>, k1: nat, l2: seq<int>, k2: nat)
    requires WellFormed(g)
    requires Clustering(g, minPts, l1, k1) && Clustering(g, minPts, l2, k2)
    ensures l1 == l2 && k1 == k2
  {
    CoreLabelsAgree(g, minPts, l1, k1, l2, k2, |g|);
    forall i | 0 <= i < |g| ensures l1[i] == l2[i] {
      if !Core(g, minPts, i) && l1[i] > 0 {
        BorderAtMost(g, minPts, l1, k1, l2, k2, i);
        BorderAtMost(g, minPts, l2, k2, l1, k1, i);
      }
    }
    assert k1 > 0 ==> HasCore(g, minPts, l1, k1, |g|);
    assert k2 > 0 ==> HasCore(g, minPts, l2, k2, |g|);
  }

  lemma BorderAtMost(g: Graph, minPts: int, l1: seq<int>, k1: nat, l2: seq<int>, k2: nat, i: nat)
    requires WellFormed(g) && i < |g| && !Core(g, minPts, i)
    requires Clustering(g, minPts, l1, k1) && Clustering(g, minPts, l2, k2)
    requires forall j | Core(g, minPts, j) :: l1[j] == l2[j]
    requires l1[i] > 0
    ensures l2[i] <= l1[i]
  {
  }

  lemma {:induction false} CoreLabelsAgree(g: Graph, minPts: int, l1: seq<int>, k1: nat, l2: seq<int>, k2: nat, n: nat)
    requires WellFormed(g) && n <= |g|
    requires Clustering(g, minPts, l1, k1) && Clustering(g, minPts, l2, k2)
    ensures forall i | 0 <= i < n && Core(g, minPts, i) :: l1[i] == l2[i]
  {
    if n > 0 {
      var i := n - 1;
      CoreLabelsAgree(g, minPts, l1, k1, l2, k2, i);
      if Core(g, minPts, i) {
        if j: nat :| 0 <= j < i && Core(g, minPts, j) && l1[j] == l1[i] {
          assert Linked(g, minPts, j, i);
        } else {
          // i opens its cluster in both labellings: each number is the least one unused before i
          assert l1[i] < l2[i] ==> HasCore(g, minPts, l2, l1[i], i);
          assert l2[i] < l1[i] ==> HasCore(g, minPts, l1, l2[i], i);
          assert forall j | 0 <= j < i && Core(g, minPts, j) :: !Linked(g, minPts, j, i);
        }
      }
    }
  }
}
