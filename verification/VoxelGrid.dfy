/** Voxel-grid downsampling: one centroid per occupied voxel, in the iteration order of an
    unordered map, which is arbitrary. */
module VoxelGrid {
  import opened Points

  datatype VoxelKey = VoxelKey(x: int, y: int, z: int)

  function KeyOf(p: Point3D, size: real): VoxelKey
    requires size != 0.0
  {
    VoxelKey((p.x / size).Floor, (p.y / size).Floor, (p.z / size).Floor)
  }

  function Add(p: Point3D, q: Point3D): Point3D {
    Point3D(p.x + q.x, p.y + q.y, p.z + q.z, p.intensity + q.intensity)
  }

  const ORIGIN := Point3D(0.0, 0.0, 0.0, 0.0)

  function Sum(pts: seq<Point3D>): Point3D {
    if pts == [] then ORIGIN else Add(Sum(pts[..|pts| - 1]), pts[|pts| - 1])
  }

  function Scale(p: Point3D, n: real): Point3D
    requires n != 0.0
  {
    Point3D(p.x / n, p.y / n, p.z / n, p.intensity / n)
  }

  function Centroid(pts: seq<Point3D>): Point3D
    requires pts != []
  {
    Scale(Sum(pts), |pts| as real)
  }

  /** The points of the cloud in voxel k, in cloud order. */
  function PointsIn(cloud: seq<Point3D>, size: real, k: VoxelKey): (r: seq<Point3D>)
    requires size != 0.0
    ensures forall p | p in r :: p in cloud && KeyOf(p, size) == k
    ensures r != [] <==> exists p :: p in cloud && KeyOf(p, size) == k
  {
    if cloud == [] then []
    else
      var n := |cloud| - 1;
      var r := PointsIn(cloud[..n], size, k);
      assert cloud == cloud[..n] + [cloud[n]];
      if KeyOf(cloud[n], size) == k then r + [cloud[n]] else r
  }

  /** out holds the centroid of every occupied voxel exactly once, listed in the order keys. */
  ghost predicate Listed(cloud: seq<Point3D>, size: real, keys: seq<VoxelKey>, out: seq<Point3D>)
    requires size != 0.0
  {
    && |out| == |keys|
    && (forall i, j | 0 <= i < j < |keys| :: keys[i] != keys[j])
    && (forall p | p in cloud :: KeyOf(p, size) in keys)
    && (forall i | 0 <= i < |keys| ::
          var pts := PointsIn(cloud, size, keys[i]);
          pts != [] && out[i] == Centroid(pts))
  }

  ghost predicate Downsampled(cloud: seq<Point3D>, size: real, out: seq<Point3D>)
    requires size != 0.0
  {
    exists keys :: Listed(cloud, size, keys, out)
  }

  // ---------------------------------------------------------------- what voxels and centroids are

  lemma FloorOfQuotient(x: real, size: real, k: int)
    requires size > 0.0
    ensures (x / size).Floor == k <==> k as real * size <= x < (k as real + 1.0) * size
  {
    var q := x / size;
    assert q * size == x;
    assert (q - k as real) * size == x - k as real * size;
    assert (q - (k as real + 1.0)) * size == x - (k as real + 1.0) * size;
    SignOfFactor(q - k as real, size);
    SignOfFactor(q - (k as real + 1.0), size);
    if q - k as real < 0.0 { SignOfProduct(k as real - q, size); }
    if q - (k as real + 1.0) >= 0.0 { SignOfProduct(q - (k as real + 1.0), size); }
  }

  lemma SignOfProduct(a: real, n: real)
    requires n > 0.0 && a >= 0.0
    ensures a * n >= 0.0 && (a > 0.0 ==> a * n > 0.0)
  {
  }

  /** A voxel is a half-open cube with edges of the voxel size. */
  lemma VoxelIsCube(p: Point3D, size: real, k: VoxelKey)
    requires size > 0.0
    ensures KeyOf(p, size) == k <==>
              && k.x as real * size <= p.x < (k.x as real + 1.0) * size
              && k.y as real * size <= p.y < (k.y as real + 1.0) * size
              && k.z as real * size <= p.z < (k.z as real + 1.0) * size
  {
    FloorOfQuotient(p.x, size, k.x);
    FloorOfQuotient(p.y, size, k.y);
    FloorOfQuotient(p.z, size, k.z);
  }

  /** The sum of a value over the points. */
  ghost function Total(pts: seq<Point3D>, f: Point3D -> real): real {
    if pts == [] then 0.0 else f(pts[0]) + Total(pts[1..], f)
  }

  lemma {:induction false} TotalAppend(pts: seq<Point3D>, p: Point3D, f: Point3D -> real)
    ensures Total(pts + [p], f) == Total(pts, f) + f(p)
  {
    if pts == [] {
      assert pts + [p] == [p];
    } else {
      assert (pts + [p])[1..] == pts[1..] + [p];
      TotalAppend(pts[1..], p, f);
    }
  }

  lemma {:induction false} SumIsTotal(pts: seq<Point3D>)
    ensures Sum(pts).x == Total(pts, (p: Point3D) => p.x) && Sum(pts).y == Total(pts, (p: Point3D) => p.y)
    ensures Sum(pts).z == Total(pts, (p: Point3D) => p.z)
    ensures Sum(pts).intensity == Total(pts, (p: Point3D) => p.intensity)
  {
    if pts != [] {
      var n := |pts| - 1;
      SumIsTotal(pts[..n]);
      assert pts == pts[..n] + [pts[n]];
      TotalAppend(pts[..n], pts[n], (p: Point3D) => p.x);
      TotalAppend(pts[..n], pts[n], (p: Point3D) => p.y);
      TotalAppend(pts[..n], pts[n], (p: Point3D) => p.z);
      TotalAppend(pts[..n], pts[n], (p: Point3D) => p.intensity);
    }
  }

  /** Coordinate by coordinate, and for the intensity, the centroid is the mean. */
  lemma CentroidIsMean(pts: seq<Point3D>)
    requires pts != []
    ensures var c, n := Centroid(pts), |pts| as real;
            && c.x * n == Total(pts, (p: Point3D) => p.x) && c.y * n == Total(pts, (p: Point3D) => p.y)
            && c.z * n == Total(pts, (p: Point3D) => p.z)
            && c.intensity * n == Total(pts, (p: Point3D) => p.intensity)
  {
    hide Total, Sum;
    SumIsTotal(pts);
    var s, n := Sum(pts), |pts| as real;
    QuotientTimes(s.x, n);
    QuotientTimes(s.y, n);
    QuotientTimes(s.z, n);
    QuotientTimes(s.intensity, n);
  }

  lemma QuotientTimes(x: real, n: real)
    requires n != 0.0
    ensures x / n * n == x
  {
  }

  // ---------------------------------------------------------------- a voxel is convex

  lemma SignOfFactor(a: real, n: real)
    requires n > 0.0
    ensures a * n >= 0.0 ==> a >= 0.0
    ensures a * n < 0.0 ==> a < 0.0
  {}

  /** u is a sum of n quotients that lie in [k, k + 1). */
  ghost predicate Within(u: real, n: real, k: int) {
    k as real * n <= u && (u < (k as real + 1.0) * n || u == n == 0.0)
  }

  lemma MeanStays(s: real, n: real, size: real, k: int)
    requires n > 0.0 && size != 0.0 && Within(s / size, n, k)
    ensures ((s / n) / size).Floor == k
  {
    var q := (s / n) / size;
    assert q * n == s / size by {
      assert q * size == s / n && (s / n) * n == s && (s / size) * size == s;
      assert (q * n) * size == (q * size) * n;
    }
    assert (q - k as real) * n == q * n - k as real * n;
    SignOfFactor(q - k as real, n);
    assert (q - (k as real + 1.0)) * n == q * n - (k as real + 1.0) * n;
    SignOfFactor(q - (k as real + 1.0), n);
  }

  lemma WithinStep(s: real, x: real, n: real, size: real, k: int)
    requires n >= 0.0 && size != 0.0 && Within(s / size, n, k) && (x / size).Floor == k
    ensures Within((s + x) / size, n + 1.0, k)
  {
    assert (s + x) / size == s / size + x / size;
    var kr := k as real;
    assert kr * (n + 1.0) == kr * n + kr;
    assert (kr + 1.0) * (n + 1.0) == (kr + 1.0) * n + (kr + 1.0);
  }

  ghost predicate SumWithin(s: Point3D, n: real, size: real, k: VoxelKey)
    requires size != 0.0
  {
    Within(s.x / size, n, k.x) && Within(s.y / size, n, k.y) && Within(s.z / size, n, k.z)
  }

  lemma {:induction false} SumStays(pts: seq<Point3D>, size: real, k: VoxelKey)
    requires size != 0.0 && forall p | p in pts :: KeyOf(p, size) == k
    ensures SumWithin(Sum(pts), |pts| as real, size, k)
  {
    if pts == [] {
      assert 0.0 / size == 0.0;
    } else {
      var rest, p := pts[..|pts| - 1], pts[|pts| - 1];
      SumStays(rest, size, k);
      var s, n := Sum(rest), |rest| as real;
      assert KeyOf(p, size) == k;
      WithinStep(s.x, p.x, n, size, k.x);
      WithinStep(s.y, p.y, n, size, k.y);
      WithinStep(s.z, p.z, n, size, k.z);
    }
  }

  /** The centroid of points of one voxel lies in that voxel. */
  lemma CentroidStays(pts: seq<Point3D>, size: real, k: VoxelKey)
    requires size != 0.0 && pts != [] && forall p | p in pts :: KeyOf(p, size) == k
    ensures KeyOf(Centroid(pts), size) == k
  {
    SumStays(pts, size, k);
    var s, n := Sum(pts), |pts| as real;
    MeanStays(s.x, n, size, k.x);
    MeanStays(s.y, n, size, k.y);
    MeanStays(s.z, n, size, k.z);
  }

  /** Output point i lies in the i-th listed voxel, so no two output points share a voxel. */
  lemma OutputVoxels(cloud: seq<Point3D>, size: real, keys: seq<VoxelKey>, out: seq<Point3D>)
    requires size != 0.0 && Listed(cloud, size, keys, out)
    ensures forall i | 0 <= i < |out| :: KeyOf(out[i], size) == keys[i]
  {
    forall i | 0 <= i < |out| ensures KeyOf(out[i], size) == keys[i] {
      CentroidStays(PointsIn(cloud, size, keys[i]), size, keys[i]);
    }
  }

  // ---------------------------------------------------------------- idempotence

  ghost predicate DistinctVoxels(pts: seq<Point3D>, size: real)
    requires size != 0.0
  {
    forall i, j | 0 <= i < j < |pts| :: KeyOf(pts[i], size) != KeyOf(pts[j], size)
  }

  /** When all points lie in different voxels, each voxel holds the one point. */
  lemma {:induction false} AloneInVoxel(cloud: seq<Point3D>, size: real, i: nat)
    requires size != 0.0 && i < |cloud|
    requires DistinctVoxels(cloud, size)
    ensures PointsIn(cloud, size, KeyOf(cloud[i], size)) == [cloud[i]]
  {
    var n := |cloud| - 1;
    var k := KeyOf(cloud[i], size);
    var r := PointsIn(cloud[..n], size, k);
    if i < n {
      AloneInVoxel(cloud[..n], size, i);
    } else {
      assert forall q | q in cloud[..n] :: KeyOf(q, size) != k;
    }
  }

  lemma CentroidOfOne(p: Point3D)
    ensures Centroid([p]) == p
  {
    assert Sum([p]) == Add(Sum([p][..0]), p);
  }

  lemma PointIsKept(cloud: seq<Point3D>, size: real, keys: seq<VoxelKey>, out: seq<Point3D>, i: nat, j: nat)
    requires size != 0.0 && DistinctVoxels(cloud, size) && Listed(cloud, size, keys, out)
    requires i < |cloud| && j < |keys| && keys[j] == KeyOf(cloud[i], size)
    ensures out[j] == cloud[i]
  {
    AloneInVoxel(cloud, size, i);
    CentroidOfOne(cloud[i]);
  }

  lemma OutputIsInput(cloud: seq<Point3D>, size: real, keys: seq<VoxelKey>, out: seq<Point3D>, j: nat)
    requires size != 0.0 && DistinctVoxels(cloud, size) && Listed(cloud, size, keys, out)
    requires j < |out|
    ensures out[j] in cloud
  {
    var pts := PointsIn(cloud, size, keys[j]);
    assert pts[0] in pts;
    var i :| 0 <= i < |cloud| && cloud[i] == pts[0];
    PointIsKept(cloud, size, keys, out, i, j);
  }

  lemma InputIsOutput(cloud: seq<Point3D>, size: real, keys: seq<VoxelKey>, out: seq<Point3D>, i: nat)
    requires size != 0.0 && DistinctVoxels(cloud, size) && Listed(cloud, size, keys, out)
    requires i < |cloud|
    ensures cloud[i] in out
  {
    assert KeyOf(cloud[i], size) in keys;
    var j :| 0 <= j < |keys| && keys[j] == KeyOf(cloud[i], size);
    PointIsKept(cloud, size, keys, out, i, j);
  }

  lemma DistinctVoxelsAreKept(cloud: seq<Point3D>, size: real, keys: seq<VoxelKey>, out: seq<Point3D>)
    requires size != 0.0 && DistinctVoxels(cloud, size) && Listed(cloud, size, keys, out)
    ensures forall j | 0 <= j < |out| :: out[j] in cloud
    ensures forall i | 0 <= i < |cloud| :: cloud[i] in out
  {
    forall j | 0 <= j < |out| ensures out[j] in cloud { OutputIsInput(cloud, size, keys, out, j); }
    forall i | 0 <= i < |cloud| ensures cloud[i] in out { InputIsOutput(cloud, size, keys, out, i); }
  }

  /** Downsampling a downsampled cloud changes nothing but the order. */
  lemma DownsamplingIsIdempotent(cloud: seq<Point3D>, size: real, once: seq<Point3D>, twice: seq<Point3D>)
    requires size != 0.0 && Downsampled(cloud, size, once) && Downsampled(once, size, twice)
    ensures multiset(twice) == multiset(once)
  {
    var keys1 :| Listed(cloud, size, keys1, once);
    var keys2 :| Listed(once, size, keys2, twice);
    OutputVoxels(cloud, size, keys1, once);
    OutputVoxels(once, size, keys2, twice);
    DistinctVoxelsAreKept(once, size, keys2, twice);
    SameElements(once, twice, p => KeyOf(p, size));
  }

  /** Two sequences whose elements have pairwise different keys and that hold the same
      elements are permutations of one another. */
  lemma SameElements(a: seq<Point3D>, b: seq<Point3D>, key: Point3D -> VoxelKey)
    requires forall i, j | 0 <= i < j < |a| :: key(a[i]) != key(a[j])
    requires forall i, j | 0 <= i < j < |b| :: key(b[i]) != key(b[j])
    requires forall p :: p in a <==> p in b
    ensures multiset(a) == multiset(b)
  {
    forall p ensures multiset(a)[p] == multiset(b)[p] {
      OnceEach(a, key, p);
      OnceEach(b, key, p);
    }
  }

  lemma {:induction false} OnceEach(a: seq<Point3D>, key: Point3D -> VoxelKey, p: Point3D)
    requires forall i, j | 0 <= i < j < |a| :: key(a[i]) != key(a[j])
    ensures multiset(a)[p] == if p in a then 1 else 0
  {
    if a != [] {
      var n := |a| - 1;
      OnceEach(a[..n], key, p);
      assert a == a[..n] + [a[n]];
      assert forall q | q in a[..n] :: key(q) != key(a[n]);
    }
  }

  // ---------------------------------------------------------------- the algorithm

  ghost predicate Grouped(voxels: map<VoxelKey, seq<Point3D>>, cloud: seq<Point3D>, size: real)
    requires size != 0.0
  {
    forall k :: if k in voxels then voxels[k] != [] && voxels[k] == PointsIn(cloud, size, k)
                else PointsIn(cloud, size, k) == []
  }

  lemma GroupStep(voxels: map<VoxelKey, seq<Point3D>>, cloud: seq<Point3D>, size: real, i: nat)
    requires size != 0.0 && i < |cloud| && Grouped(voxels, cloud[..i], size)
    ensures var key := KeyOf(cloud[i], size);
            Grouped(voxels[key := (if key in voxels then voxels[key] else []) + [cloud[i]]], cloud[..i + 1], size)
  {
    assert cloud[..i + 1][..i] == cloud[..i];
  }

  method Voxelize(cloud: seq<Point3D>, size: real) returns (out: seq<Point3D>)
    requires size != 0.0
    ensures Downsampled(cloud, size, out)
  {
    if cloud == [] {
      assert Listed(cloud, size, [], []);
      return [];
    }
    var voxels: map<VoxelKey, seq<Point3D>> := map[];
    for i := 0 to |cloud|
      invariant Grouped(voxels, cloud[..i], size)
    {
      var key := KeyOf(cloud[i], size);
      GroupStep(voxels, cloud, size, i);
      voxels := voxels[key := (if key in voxels then voxels[key] else []) + [cloud[i]]];
    }
    assert cloud[..|cloud|] == cloud;
    var keys;
    out, keys := Centroids(voxels);
    assert forall p | p in cloud :: PointsIn(cloud, size, KeyOf(p, size)) != [];
    assert Listed(cloud, size, keys, out);
  }

  /** The centroids of all voxels, in the arbitrary order keys. */
  method Centroids(voxels: map<VoxelKey, seq<Point3D>>) returns (out: seq<Point3D>, keys: seq<VoxelKey>)
    requires forall k | k in voxels :: voxels[k] != []
    ensures |out| == |keys| && (forall k :: k in keys <==> k in voxels)
    ensures forall i, j | 0 <= i < j < |keys| :: keys[i] != keys[j]
    ensures forall i | 0 <= i < |keys| :: keys[i] in voxels && out[i] == Centroid(voxels[keys[i]])
  {
    out, keys := [], [];
    var rest := voxels.Keys;
    while rest != {}
      invariant rest <= voxels.Keys && |out| == |keys|
      invariant forall k :: k in keys <==> k in voxels && k !in rest
      invariant forall i, j | 0 <= i < j < |keys| :: keys[i] != keys[j]
      invariant forall i | 0 <= i < |keys| :: keys[i] in voxels && out[i] == Centroid(voxels[keys[i]])
      decreases rest
    {
      var k :| k in rest;
      out := out + [Centroid(voxels[k])];
      keys := keys + [k];
      rest := rest - {k};
    }
  }
}
