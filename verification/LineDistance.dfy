/** What the renderer's distance test measures: how far the middle of a curve is from a line. */
module LineDistance {
  import opened Vertex
  import opened Bezier
  import opened Subdivision

  ghost function SquaredDistance(p: Vec3, q: Vec3): real {
    (p.x - q.x) * (p.x - q.x) + (p.y - q.y) * (p.y - q.y) + (p.z - q.z) * (p.z - q.z)
  }

  /** The point at t of the quadratic curve with control points a, b and c. */
  ghost function PointOnCurve(a: Vec3, b: Vec3, c: Vec3, t: real): Vec3 {
    Vec3(Mix1(t, Mix1(t, a.x, b.x), Mix1(t, b.x, c.x)),
         Mix1(t, Mix1(t, a.y, b.y), Mix1(t, b.y, c.y)),
         Mix1(t, Mix1(t, a.z, b.z), Mix1(t, b.z, c.z)))
  }

  /** The point at t of the line through a and c. */
  ghost function PointOnLine(a: Vec3, c: Vec3, t: real): Vec3 {
    Vec3(a.x + t * (c.x - a.x), a.y + t * (c.y - a.y), a.z + t * (c.z - a.z))
  }

  lemma SquareOfDifference(o: real, w: real, t: real, oo: real, ow: real, ww: real)
    requires oo == o * o && ow == o * w && ww == w * w
    ensures (o - t * w) * (o - t * w) == oo - 2.0 * (t * ow) + (t * t) * ww
  {
    var x := t * w;
    assert (o - x) * (o - x) == o * o - 2.0 * (o * x) + x * x;
    assert o * x == t * ow;
    SquareOfProduct(t, w);
  }

  lemma SquareOfProduct(t: real, w: real)
    ensures (t * w) * (t * w) == (t * t) * (w * w)
  {
    assert (t * w) * (t * w) == t * (w * (t * w));
    assert w * (t * w) == t * (w * w);
  }

  /** What is left of o when t times w is taken off. */
  ghost function Rest(o: Vec3, w: Vec3, t: real): Vec3 {
    Vec3(o.x - t * w.x, o.y - t * w.y, o.z - t * w.z)
  }

  /** Its squared length is a quadratic function of t. */
  lemma Quadratic(o: Vec3, w: Vec3, t: real, oo: real, ow: real, ww: real)
    requires oo == Dot(o, o) && ow == Dot(o, w) && ww == Dot(w, w)
    ensures Dot(Rest(o, w, t), Rest(o, w, t)) == oo - 2.0 * (t * ow) + (t * t) * ww
  {
    QuadraticSum(o.x, o.y, o.z, w.x, w.y, w.z, t, oo, ow, ww);
  }

  lemma QuadraticSum(ox: real, oy: real, oz: real, wx: real, wy: real, wz: real, t: real, oo: real, ow: real, ww: real)
    requires oo == ox * ox + oy * oy + oz * oz && ow == ox * wx + oy * wy + oz * wz && ww == wx * wx + wy * wy + wz * wz
    ensures (ox - t * wx) * (ox - t * wx) + (oy - t * wy) * (oy - t * wy) + (oz - t * wz) * (oz - t * wz)
         == oo - 2.0 * (t * ow) + (t * t) * ww
  {
    SquareOfDifference(ox, wx, t, ox * ox, ox * wx, wx * wx);
    SquareOfDifference(oy, wy, t, oy * oy, oy * wy, wy * wy);
    SquareOfDifference(oz, wz, t, oz * oz, oz * wz, wz * wz);
    SumOfParts(t, t * t, ox * wx, oy * wy, oz * wz, wx * wx, wy * wy, wz * wz, ow, ww);
  }

  lemma SumOfParts(t: real, tt: real, a: real, b: real, c: real, p: real, q: real, r: real, ow: real, ww: real)
    requires ow == a + b + c && ww == p + q + r
    ensures t * a + t * b + t * c == t * ow && tt * p + tt * q + tt * r == tt * ww
  {
    Distribute(t, a, b, c);
    Distribute(tt, p, q, r);
  }

  lemma Distribute(t: real, x: real, y: real, z: real)
    ensures t * (x + y + z) == t * x + t * y + t * z
  {
  }

  /** It is least where its slope is zero. */
  lemma LeastAt(oo: real, ow: real, ww: real, t0: real, t: real)
    requires ww >= 0.0 && t0 * ww == ow
    ensures oo - 2.0 * (t0 * ow) + (t0 * t0) * ww <= oo - 2.0 * (t * ow) + (t * t) * ww
  {
    var d := t - t0;
    var dd := d * d;
    assert t * t == t0 * t0 + 2.0 * t0 * d + dd;
    assert (t * t) * ww == (t0 * t0) * ww + 2.0 * (d * ow) + dd * ww by {
      Distribute(ww, t0 * t0, 2.0 * t0 * d, dd);
      Rearrange(t0, d, ww);
    }
    assert t * ow == t0 * ow + d * ow;
    NonNegativeSquare(d, dd);
    assert dd * ww >= 0.0;
  }

  lemma Rearrange(t0: real, d: real, ww: real)
    ensures (2.0 * t0 * d) * ww == 2.0 * (d * (t0 * ww))
  {
  }

  lemma NonNegativeSquare(r: real, square: real)
    requires square == r * r
    ensures square >= 0.0
  {
  }

  lemma ZeroSquare(r: real, square: real)
    requires square == r * r
    ensures square == 0.0 ==> r == 0.0
  {
    if r != 0.0 {
      var g := 1.0 / r;
      assert r * g == 1.0;
      assert square * g == r * (r * g);
    }
  }

  lemma ZeroSquares(x: real, y: real, z: real, xx: real, yy: real, zz: real)
    requires xx == x * x && yy == y * y && zz == z * z && xx + yy + zz == 0.0
    ensures x == 0.0 && y == 0.0 && z == 0.0
  {
    NonNegativeSquare(x, xx);
    NonNegativeSquare(y, yy);
    NonNegativeSquare(z, zz);
    ZeroSquare(x, xx);
    ZeroSquare(y, yy);
    ZeroSquare(z, zz);
  }

  lemma NoLength(w: Vec3)
    requires Dot(w, w) == 0.0
    ensures w == Vec3(0.0, 0.0, 0.0)
  {
    ZeroSquares(w.x, w.y, w.z, w.x * w.x, w.y * w.y, w.z * w.z);
  }

  /** Taking off the part along the direction is going to a point of the line, the foot. */
  ghost predicate IsFoot(o: Vec3, w: Vec3, dir: Vec3, t0: real) {
    Sub(o, Scale(dir, Dot(o, dir))) == Rest(o, w, t0) && t0 * Dot(w, w) == Dot(o, w)
  }

  lemma Foot(o: Vec3, w: Vec3, sqrt: real -> real) returns (t0: real)
    requires Lawful(sqrt)
    ensures IsFoot(o, w, Normalize(w, sqrt), t0)
  {
    DotNonNegative(w);
    var length := RootOf(Dot(w, w), sqrt);
    if length == 0.0 {
      FootAtPoint(o, w);
      return 0.0;
    }
    t0 := FootAt(o, w, length);
  }

  /** The line is a point, and nothing is taken off. */
  lemma FootAtPoint(o: Vec3, w: Vec3)
    requires Dot(w, w) == 0.0
    ensures IsFoot(o, w, w, 0.0)
  {
    NoLength(w);
    NothingTakenOff(o, w);
  }

  lemma NothingTakenOff(o: Vec3, w: Vec3)
    requires w == Vec3(0.0, 0.0, 0.0)
    ensures IsFoot(o, w, w, 0.0)
  {
    assert Dot(o, w) == 0.0 && Dot(w, w) == 0.0;
  }

  lemma FootAt(o: Vec3, w: Vec3, length: real) returns (t0: real)
    requires length != 0.0 && length * length == Dot(w, w)
    ensures IsFoot(o, w, Scale(w, 1.0 / length), t0)
  {
    var g, ow := 1.0 / length, Dot(o, w);
    Reciprocal(length);
    DotScaled(o, w, g);
    t0 := g * (g * ow);
    AlongLine(w.x, g, ow);
    AlongLine(w.y, g, ow);
    AlongLine(w.z, g, ow);
    UnitLength(g, length, Dot(w, w), ow);
  }

  lemma Reciprocal(length: real)
    requires length != 0.0
    ensures (1.0 / length) * length == 1.0
  {
  }

  lemma DotNonNegative(w: Vec3)
    ensures Dot(w, w) >= 0.0
  {
    assert w.x * w.x >= 0.0 && w.y * w.y >= 0.0 && w.z * w.z >= 0.0;
  }

  lemma DotScaled(o: Vec3, w: Vec3, g: real)
    ensures Dot(o, Scale(w, g)) == g * Dot(o, w)
  {
    ScaledTerm(o.x, w.x, g);
    ScaledTerm(o.y, w.y, g);
    ScaledTerm(o.z, w.z, g);
    Distribute(g, o.x * w.x, o.y * w.y, o.z * w.z);
  }

  lemma ScaledTerm(o: real, w: real, g: real)
    ensures o * (w * g) == g * (o * w)
  {
  }

  lemma AlongLine(w: real, g: real, ow: real)
    ensures (w * g) * (g * ow) == (g * (g * ow)) * w
  {
    var k := g * ow;
    assert (w * g) * k == (g * k) * w;
  }

  lemma UnitLength(g: real, length: real, ww: real, ow: real)
    requires g * length == 1.0 && length * length == ww
    ensures (g * (g * ow)) * ww == ow
  {
    assert (g * length) * (g * length) == (g * g) * (length * length) by {
      SquareOfProduct(g, length);
    }
    assert (g * g) * ww == 1.0;
    assert g * (g * ow) == (g * g) * ow;
    assert ((g * g) * ow) * ww == ((g * g) * ww) * ow;
  }

  /** The test measures the squared distance from the middle of the curve to the nearest point of the line. */
  lemma LineDistanceIsLeast(a: Vec3, b: Vec3, c: Vec3, sqrt: real -> real) returns (t0: real)
    requires Lawful(sqrt)
    ensures
      var mid := PointOnCurve(a, b, c, 0.5);
      && LineDistanceSquared(a, b, c, sqrt) == SquaredDistance(mid, PointOnLine(a, c, t0))
      && forall t :: SquaredDistance(mid, PointOnLine(a, c, t0)) <= SquaredDistance(mid, PointOnLine(a, c, t))
  {
    var mid := PointOnCurve(a, b, c, 0.5);
    MiddleOfCurve(a.x, b.x, c.x);
    MiddleOfCurve(a.y, b.y, c.y);
    MiddleOfCurve(a.z, b.z, c.z);
    var o, w := Sub(mid, a), Sub(c, a);
    t0 := Foot(o, w, sqrt);
    DistanceToLine(mid, a, c, t0);
    forall t
      ensures SquaredDistance(mid, PointOnLine(a, c, t0)) <= SquaredDistance(mid, PointOnLine(a, c, t))
    {
      DistanceToLine(mid, a, c, t);
      RestIsLeast(o, w, t0, t);
    }
  }

  lemma RestIsLeast(o: Vec3, w: Vec3, t0: real, t: real)
    requires t0 * Dot(w, w) == Dot(o, w)
    ensures Dot(Rest(o, w, t0), Rest(o, w, t0)) <= Dot(Rest(o, w, t), Rest(o, w, t))
  {
    var oo, ow, ww := Dot(o, o), Dot(o, w), Dot(w, w);
    DotNonNegative(w);
    Quadratic(o, w, t0, oo, ow, ww);
    Quadratic(o, w, t, oo, ow, ww);
    LeastAt(oo, ow, ww, t0, t);
  }

  lemma MiddleOfCurve(a: real, b: real, c: real)
    ensures Mix1(0.5, Mix1(0.5, a, b), Mix1(0.5, b, c)) == (a + b * 2.0 + c) * 0.25
  {
  }

  lemma DistanceToLine(p: Vec3, a: Vec3, c: Vec3, t: real)
    ensures
      var r := Rest(Sub(p, a), Sub(c, a), t);
      SquaredDistance(p, PointOnLine(a, c, t)) == Dot(r, r)
  {
    var o, w := Sub(p, a), Sub(c, a);
    var q := PointOnLine(a, c, t);
    assert p.x - q.x == o.x - t * w.x && p.y - q.y == o.y - t * w.y && p.z - q.z == o.z - t * w.z;
  }
}
