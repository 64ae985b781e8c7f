/** Lidar points, and what it means that two of them are near: they are at most eps apart along
    every direction. */
module Points {

  datatype Point3D = Point3D(x: real, y: real, z: real, intensity: real)

  predicate Near(p: Point3D, q: Point3D, eps: real) {
    var dx, dy, dz := p.x - q.x, p.y - q.y, p.z - q.z;
    dx * dx + dy * dy + dz * dz <= eps * eps
  }

  // ---------------------------------------------------------------- products of reals

  lemma SquareIsNonNegative(x: real)
    ensures x * x >= 0.0
  {
  }

  lemma ProductIsPositive(x: real, y: real)
    requires x > 0.0 && y > 0.0
    ensures x * y > 0.0
  {
  }

  lemma ProductIsMonotone(x: real, y: real, z: real)
    requires x <= y && z >= 0.0
    ensures z * x <= z * y
  {
  }

  lemma SquaresCompare(x: real, y: real)
    requires y >= 0.0
    ensures x * x <= y * y <==> -y <= x <= y
  {
    var below, above := y - x, y + x;
    assert below * above == y * y - x * x;
    if below < 0.0 {
      ProductIsPositive(-below, above);
      assert (-below) * above == -(below * above);
    } else if above < 0.0 {
      ProductIsPositive(below, -above);
      assert below * (-above) == -(below * above);
    } else {
      ProductIsMonotone(0.0, below, above);
    }
  }

  // ---------------------------------------------------------------- lengths and directions

  function SquaredLength(a: real, b: real, c: real): (s: real)
    ensures s >= 0.0
  {
    SquareIsNonNegative(a);
    SquareIsNonNegative(b);
    SquareIsNonNegative(c);
    a * a + b * b + c * c
  }

  function Inner(a: real, b: real, c: real, d: real, e: real, f: real): real {
    a * d + b * e + c * f
  }

  /** Lagrange's identity: the squared product and three squares make up the squared lengths. */
  lemma CauchySchwarz(a: real, b: real, c: real, d: real, e: real, f: real)
    ensures Inner(a, b, c, d, e, f) * Inner(a, b, c, d, e, f) <= SquaredLength(a, b, c) * SquaredLength(d, e, f)
  {
    var u, v, w := a * e - b * d, a * f - c * d, b * f - c * e;
    SquareIsNonNegative(u);
    SquareIsNonNegative(v);
    SquareIsNonNegative(w);
    assert (a * a + b * b + c * c) * (d * d + e * e + f * f)
        == (a * d + b * e + c * f) * (a * d + b * e + c * f) + u * u + v * v + w * w;
  }

  lemma NearIsShort(p: Point3D, q: Point3D, eps: real)
    ensures Near(p, q, eps) <==> SquaredLength(p.x - q.x, p.y - q.y, p.z - q.z) <= eps * eps
  {
  }

  // ---------------------------------------------------------------- what near means

  /** How far p is from q along the direction (a, b, c), times the length of the direction. */
  function Along(p: Point3D, q: Point3D, a: real, b: real, c: real): real {
    Inner(a, b, c, p.x - q.x, p.y - q.y, p.z - q.z)
  }

  ghost predicate WithinAlong(p: Point3D, q: Point3D, eps: real, a: real, b: real, c: real) {
    var h := Along(p, q, a, b, c);
    h * h <= SquaredLength(a, b, c) * (eps * eps)
  }

  lemma NearWithinAlong(p: Point3D, q: Point3D, eps: real, a: real, b: real, c: real)
    requires Near(p, q, eps)
    ensures WithinAlong(p, q, eps, a, b, c)
  {
    hide Near, SquaredLength, Inner;
    var dx, dy, dz := p.x - q.x, p.y - q.y, p.z - q.z;
    NearIsShort(p, q, eps);
    CauchySchwarz(a, b, c, dx, dy, dz);
    ProductIsMonotone(SquaredLength(dx, dy, dz), eps * eps, SquaredLength(a, b, c));
  }

  lemma CancelFactor(x: real, y: real)
    requires x * x <= x * y && y >= 0.0
    ensures x <= y
  {
    assert x * (x - y) == x * x - x * y;
    if x > y { ProductIsPositive(x, x - y); }
  }

  lemma WithinTheirOwnDirection(p: Point3D, q: Point3D, eps: real)
    requires WithinAlong(p, q, eps, p.x - q.x, p.y - q.y, p.z - q.z)
    ensures Near(p, q, eps)
  {
    var dx, dy, dz := p.x - q.x, p.y - q.y, p.z - q.z;
    assert Inner(dx, dy, dz, dx, dy, dz) == SquaredLength(dx, dy, dz);
    hide Near, SquaredLength, Inner;
    NearIsShort(p, q, eps);
    SquareIsNonNegative(eps);
    CancelFactor(SquaredLength(dx, dy, dz), eps * eps);
  }

  /** Two points are near exactly when no direction keeps them more than eps apart. */
  lemma NearMeans(p: Point3D, q: Point3D, eps: real)
    ensures Near(p, q, eps) <==> forall a, b, c :: WithinAlong(p, q, eps, a, b, c)
  {
    hide Near, WithinAlong;
    if Near(p, q, eps) {
      forall a, b, c ensures WithinAlong(p, q, eps, a, b, c) { NearWithinAlong(p, q, eps, a, b, c); }
    } else if WithinAlong(p, q, eps, p.x - q.x, p.y - q.y, p.z - q.z) {
      WithinTheirOwnDirection(p, q, eps);
    }
  }

  /** Near points are at most eps apart along every axis; where only one axis keeps two points
      apart, near means just that. */
  lemma NearOnAxes(p: Point3D, q: Point3D, eps: real)
    requires eps >= 0.0
    ensures Near(p, q, eps) ==> -eps <= p.x - q.x <= eps && -eps <= p.y - q.y <= eps && -eps <= p.z - q.z <= eps
    ensures p.y == q.y && p.z == q.z ==> (Near(p, q, eps) <==> -eps <= p.x - q.x <= eps)
    ensures p.x == q.x && p.z == q.z ==> (Near(p, q, eps) <==> -eps <= p.y - q.y <= eps)
    ensures p.x == q.x && p.y == q.y ==> (Near(p, q, eps) <==> -eps <= p.z - q.z <= eps)
  {
    OnAxes(p.x - q.x, p.y - q.y, p.z - q.z, eps);
  }

  lemma OnAxes(dx: real, dy: real, dz: real, eps: real)
    requires eps >= 0.0
    ensures var near := dx * dx + dy * dy + dz * dz <= eps * eps;
            && (near ==> -eps <= dx <= eps && -eps <= dy <= eps && -eps <= dz <= eps)
            && (dy == 0.0 && dz == 0.0 ==> (near <==> -eps <= dx <= eps))
            && (dx == 0.0 && dz == 0.0 ==> (near <==> -eps <= dy <= eps))
            && (dx == 0.0 && dy == 0.0 ==> (near <==> -eps <= dz <= eps))
  {
    SquaresCompare(dx, eps);
    SquaresCompare(dy, eps);
    SquaresCompare(dz, eps);
    SquareIsNonNegative(dx);
    SquareIsNonNegative(dy);
    SquareIsNonNegative(dz);
  }

  /** The height of a point along a direction. */
  function Height(p: Point3D, a: real, b: real, c: real): real {
    a * p.x + b * p.y + c * p.z
  }

  lemma AlongIsHeight(p: Point3D, q: Point3D, a: real, b: real, c: real)
    ensures Along(p, q, a, b, c) == Height(p, a, b, c) - Height(q, a, b, c)
  {
  }

  /** Near points differ in height by at most eps, along any direction of at most unit length. */
  lemma NearHeights(p: Point3D, q: Point3D, eps: real, a: real, b: real, c: real)
    requires eps >= 0.0 && SquaredLength(a, b, c) <= 1.0 && Near(p, q, eps)
    ensures -eps <= Height(p, a, b, c) - Height(q, a, b, c) <= eps
  {
    hide SquaredLength, Along, Height, Near, Inner;
    AlongIsHeight(p, q, a, b, c);
    var h := Along(p, q, a, b, c);
    NearWithinAlong(p, q, eps, a, b, c);
    AtMostUnit(h * h, SquaredLength(a, b, c), eps);
    SquaresCompare(h, eps);
  }

  lemma AtMostUnit(x: real, length: real, eps: real)
    requires x <= length * (eps * eps) && length <= 1.0
    ensures x <= eps * eps
  {
    SquareIsNonNegative(eps);
    ProductIsMonotone(length, 1.0, eps * eps);
    assert (eps * eps) * length == length * (eps * eps);
  }
}
