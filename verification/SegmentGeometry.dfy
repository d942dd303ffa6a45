/** Segment intersection over exact reals, as used to derive the movement-conflict table. */
module SegmentGeometry {

  datatype Point = Point(x: real, y: real)

  const EPSILON: real := 0.000000001

  function Orientation(a: Point, b: Point, c: Point): real {
    (b.x - a.x) * (c.y - a.y) - (b.y - a.y) * (c.x - a.x)
  }

  function Min(a: real, b: real): real { if a <= b then a else b }

  function Max(a: real, b: real): real { if a >= b then a else b }

  function Abs(a: real): real { if a >= 0.0 then a else -a }

  predicate OnSegment(a: Point, b: Point, p: Point, epsilon: real) {
    && Min(a.x, b.x) - epsilon <= p.x <= Max(a.x, b.x) + epsilon
    && Min(a.y, b.y) - epsilon <= p.y <= Max(a.y, b.y) + epsilon
  }

  /** An endpoint of one segment touches the other, up to the tolerance. */
  predicate Touches(a: Point, b: Point, c: Point, epsilon: real) {
    Abs(Orientation(a, b, c)) <= epsilon && OnSegment(a, b, c, epsilon)
  }

  /** `c` and `d` lie strictly on different sides of the line through `a` and `b`. */
  predicate OppositeSides(a: Point, b: Point, c: Point, d: Point) {
    Orientation(a, b, c) * Orientation(a, b, d) < 0.0
  }

  predicate Crosses(a: Point, b: Point, c: Point, d: Point) {
    OppositeSides(a, b, c, d) && OppositeSides(c, d, a, b)
  }

  predicate IntersectWithin(a: Point, b: Point, c: Point, d: Point, epsilon: real) {
    Crosses(a, b, c, d) || Touches(a, b, c, epsilon) || Touches(a, b, d, epsilon)
    || Touches(c, d, a, epsilon) || Touches(c, d, b, epsilon)
  }

  predicate SegmentsIntersect(a: Point, b: Point, c: Point, d: Point) {
    IntersectWithin(a, b, c, d, EPSILON)
  }

  // ----- the point sets the verdict is about

  function Lerp(a: Point, b: Point, t: real): Point {
    Point(a.x + t * (b.x - a.x), a.y + t * (b.y - a.y))
  }

  /** `p` lies on the closed segment from `a` to `b`. */
  ghost predicate LiesOn(p: Point, a: Point, b: Point) {
    exists t: real :: 0.0 <= t <= 1.0 && p == Lerp(a, b, t)
  }

  // ----- algebra

  lemma OrientationLerp(a: Point, b: Point, c: Point, d: Point, u: real)
    ensures Orientation(a, b, Lerp(c, d, u)) == (1.0 - u) * Orientation(a, b, c) + u * Orientation(a, b, d)
  {
    var ex, ey := b.x - a.x, b.y - a.y;
    var cx, cy, dx, dy := c.x - a.x, c.y - a.y, d.x - a.x, d.y - a.y;
    var p := Lerp(c, d, u);
    assert p.x - a.x == cx + u * (dx - cx) && p.y - a.y == cy + u * (dy - cy);
    Distribute(ex, cy, dy, u);
    Distribute(ey, cx, dx, u);
  }

  lemma Distribute(k: real, p: real, q: real, u: real)
    ensures k * (p + u * (q - p)) == (1.0 - u) * (k * p) + u * (k * q)
  {
    assert u * (q - p) == u * q - u * p;
    assert k * (u * q) == u * (k * q) && k * (u * p) == u * (k * p);
  }

  lemma OrientationAtEnds(a: Point, b: Point, c: Point)
    ensures Orientation(a, b, a) == 0.0 && Orientation(a, b, b) == 0.0
    ensures Orientation(a, a, c) == 0.0
  {
  }

  lemma OnLine(a: Point, b: Point, t: real)
    ensures Orientation(a, b, Lerp(a, b, t)) == 0.0
  {
    OrientationLerp(a, b, a, b, t);
    OrientationAtEnds(a, b, a);
  }

  lemma MulMono(t: real, lo: real, hi: real)
    requires t >= 0.0 && lo <= hi
    ensures t * lo <= t * hi
  {
  }

  lemma Fraction(t: real, d: real)
    requires 0.0 <= t <= 1.0 && d >= 0.0
    ensures 0.0 <= t * d <= d
  {
    MulMono(t, 0.0, d);
    MulMono(1.0 - t, 0.0, d);
    assert (1.0 - t) * d == d - t * d;
  }

  /** A signed step of at most `d` from `lo` stays between `lo` and `lo + d`. */
  lemma Within(lo: real, hi: real, d: real, m: real)
    requires d == hi - lo && (0.0 <= m <= d || d <= m <= 0.0)
    ensures Min(lo, hi) <= lo + m <= Max(lo, hi)
  {
  }

  lemma SignedFraction(t: real, d: real, m: real)
    requires 0.0 <= t <= 1.0 && m == t * d
    ensures 0.0 <= m <= d || d <= m <= 0.0
  {
    if d >= 0.0 {
      Fraction(t, d);
    } else {
      Fraction(t, -d);
      assert m == -(t * -d);
    }
  }

  lemma Between(lo: real, hi: real, t: real)
    requires 0.0 <= t <= 1.0
    ensures Min(lo, hi) <= lo + t * (hi - lo) <= Max(lo, hi)
  {
    var d := hi - lo;
    var m := t * d;
    SignedFraction(t, d, m);
    Within(lo, hi, d, m);
  }

  /** A point of the segment touches it. */
  lemma OnTouches(a: Point, b: Point, t: real, epsilon: real)
    requires 0.0 <= t <= 1.0 && epsilon >= 0.0
    ensures Touches(a, b, Lerp(a, b, t), epsilon)
  {
    OnLine(a, b, t);
    Between(a.x, b.x, t);
    Between(a.y, b.y, t);
    var p := Lerp(a, b, t);
    assert p.x == a.x + t * (b.x - a.x) && p.y == a.y + t * (b.y - a.y);
    assert Min(a.x, b.x) <= p.x <= Max(a.x, b.x) && Min(a.y, b.y) <= p.y <= Max(a.y, b.y);
  }

  /** A collinear point has a parameter on the line. */
  lemma Parameter(a: Point, b: Point, c: Point) returns (s: real)
    requires a != b && Orientation(a, b, c) == 0.0
    ensures c == Lerp(a, b, s)
  {
    var ex, ey, cx, cy := b.x - a.x, b.y - a.y, c.x - a.x, c.y - a.y;
    assert ex * cy == ey * cx;
    if ex != 0.0 {
      s := cx / ex;
      Ratio(ex, ey, cx, cy);
    } else {
      s := cy / ey;
      Ratio(ey, ex, cy, cx);
    }
  }

  lemma Ratio(ex: real, ey: real, cx: real, cy: real)
    requires ex != 0.0 && ex * cy == ey * cx
    ensures cx / ex * ex == cx && cx / ex * ey == cy
  {
    var s := cx / ex;
    assert s * ex == cx;
    assert (s * ey) * ex == ey * (s * ex);
    assert (s * ey - cy) * ex == 0.0;
  }

  lemma LerpInjective(a: Point, b: Point, s: real, t: real)
    requires a != b && Lerp(a, b, s) == Lerp(a, b, t)
    ensures s == t
  {
    assert (s - t) * (b.x - a.x) == s * (b.x - a.x) - t * (b.x - a.x);
    assert (s - t) * (b.y - a.y) == s * (b.y - a.y) - t * (b.y - a.y);
  }

  lemma LerpOfLerps(a: Point, b: Point, s1: real, s2: real, u: real)
    ensures Lerp(Lerp(a, b, s1), Lerp(a, b, s2), u) == Lerp(a, b, s1 + u * (s2 - s1))
  {
    Nested(a.x, b.x - a.x, s1, s2, u);
    Nested(a.y, b.y - a.y, s1, s2, u);
  }

  lemma Nested(o: real, k: real, s1: real, s2: real, u: real)
    ensures (o + s1 * k) + u * ((o + s2 * k) - (o + s1 * k)) == o + (s1 + u * (s2 - s1)) * k
  {
    assert (o + s2 * k) - (o + s1 * k) == (s2 - s1) * k;
    assert u * ((s2 - s1) * k) == (u * (s2 - s1)) * k;
  }

  // ----- soundness: a negative verdict means disjoint

  /** Signs of a vanishing convex combination. */
  lemma VanishingMix(o1: real, o2: real, u: real)
    requires 0.0 <= u <= 1.0 && (1.0 - u) * o1 + u * o2 == 0.0 && o1 * o2 >= 0.0
    ensures (u == 0.0 && o1 == 0.0) || (u == 1.0 && o2 == 0.0) || (o1 == 0.0 && o2 == 0.0)
  {
    var p, q := (1.0 - u) * o1, u * o2;
    assert p * q == (u * (1.0 - u)) * (o1 * o2);
    MulMono(u, 0.0, 1.0 - u);
    MulMono(u * (1.0 - u), 0.0, o1 * o2);
    assert p * q == -(p * p);
    assert p == 0.0 && q == 0.0;
  }

  /** Overlapping collinear segments: an endpoint of one lies on the other. */
  lemma CollinearOverlap(a: Point, b: Point, c: Point, d: Point, t: real, u: real, epsilon: real)
    requires a != b && epsilon >= 0.0 && 0.0 <= t <= 1.0 && 0.0 <= u <= 1.0
    requires Orientation(a, b, c) == 0.0 && Orientation(a, b, d) == 0.0
    requires Lerp(a, b, t) == Lerp(c, d, u)
    ensures Touches(a, b, c, epsilon) || Touches(a, b, d, epsilon) || Touches(c, d, a, epsilon)
  {
    var s1 := Parameter(a, b, c);
    var s2 := Parameter(a, b, d);
    LerpOfLerps(a, b, s1, s2, u);
    LerpInjective(a, b, t, s1 + u * (s2 - s1));
    if 0.0 <= s1 <= 1.0 {
      OnTouches(a, b, s1, epsilon);
    } else if 0.0 <= s2 <= 1.0 {
      OnTouches(a, b, s2, epsilon);
    } else {
      Between(s1, s2, u);
      var w := s1 / (s1 - s2);
      StraddlesZero(s1, s2, w);
      LerpOfLerps(a, b, s1, s2, w);
      assert Lerp(a, b, 0.0) == a;
      OnTouches(c, d, w, epsilon);
    }
  }

  lemma StraddlesZero(s1: real, s2: real, w: real)
    requires (s1 < 0.0 && s2 > 0.0) || (s1 > 0.0 && s2 < 0.0)
    requires w == s1 / (s1 - s2)
    ensures 0.0 <= w <= 1.0 && s1 + w * (s2 - s1) == 0.0
  {
    assert w * (s1 - s2) == s1;
  }

  /** A common point, with the endpoints of the second segment not on opposite sides of the first. */
  lemma NotOpposite(a: Point, b: Point, c: Point, d: Point, t: real, u: real, epsilon: real)
    requires epsilon >= 0.0 && 0.0 <= t <= 1.0 && 0.0 <= u <= 1.0 && Lerp(a, b, t) == Lerp(c, d, u)
    requires !OppositeSides(a, b, c, d)
    ensures Touches(a, b, c, epsilon) || Touches(a, b, d, epsilon) || Touches(c, d, a, epsilon)
  {
    var o1, o2 := Orientation(a, b, c), Orientation(a, b, d);
    OnLine(a, b, t);
    OrientationLerp(a, b, c, d, u);
    VanishingMix(o1, o2, u);
    if u == 0.0 {
      assert Lerp(c, d, u) == c;
      OnTouches(a, b, t, epsilon);
    } else if u == 1.0 {
      assert Lerp(c, d, u) == d;
      OnTouches(a, b, t, epsilon);
    } else if a == b {
      assert Lerp(a, b, t) == a;
      OnTouches(c, d, u, epsilon);
    } else {
      CollinearOverlap(a, b, c, d, t, u, epsilon);
    }
  }

  /** If two closed segments share a point, they are reported as intersecting, whatever the tolerance. */
  lemma SharedPointIsReported(a: Point, b: Point, c: Point, d: Point, p: Point, epsilon: real)
    requires epsilon >= 0.0 && LiesOn(p, a, b) && LiesOn(p, c, d)
    ensures IntersectWithin(a, b, c, d, epsilon)
  {
    var t :| 0.0 <= t <= 1.0 && p == Lerp(a, b, t);
    var u :| 0.0 <= u <= 1.0 && p == Lerp(c, d, u);
    ReportedAt(a, b, c, d, t, u, epsilon);
  }

  lemma ReportedAt(a: Point, b: Point, c: Point, d: Point, t: real, u: real, epsilon: real)
    requires epsilon >= 0.0 && 0.0 <= t <= 1.0 && 0.0 <= u <= 1.0 && Lerp(a, b, t) == Lerp(c, d, u)
    ensures IntersectWithin(a, b, c, d, epsilon)
  {
    if !OppositeSides(a, b, c, d) {
      NotOpposite(a, b, c, d, t, u, epsilon);
    } else if !OppositeSides(c, d, a, b) {
      NotOpposite(c, d, a, b, u, t, epsilon);
    }
  }

  /** A negative verdict means the closed segments are disjoint, degenerate and collinear
      segments included. */
  lemma NegativeMeansDisjoint(a: Point, b: Point, c: Point, d: Point, p: Point)
    requires !SegmentsIntersect(a, b, c, d)
    ensures !(LiesOn(p, a, b) && LiesOn(p, c, d))
  {
    if LiesOn(p, a, b) && LiesOn(p, c, d) { SharedPointIsReported(a, b, c, d, p, EPSILON); }
  }

  // ----- completeness without tolerance

  /** A point on the carrier line and in the bounding box lies on the segment. */
  lemma BoxedIsOn(a: Point, b: Point, c: Point)
    requires Touches(a, b, c, 0.0)
    ensures LiesOn(c, a, b)
  {
    if a == b {
      assert c == Lerp(a, b, 0.0);
    } else {
      var s := Parameter(a, b, c);
      if a.x != b.x { Inside(a.x, b.x, s); } else { Inside(a.y, b.y, s); }
    }
  }

  lemma Inside(lo: real, hi: real, s: real)
    requires lo != hi && Min(lo, hi) <= lo + s * (hi - lo) <= Max(lo, hi)
    ensures 0.0 <= s <= 1.0
  {
    if lo < hi {
      ProductSign(s, hi - lo);
      ProductSign(1.0 - s, hi - lo);
      assert s * (hi - lo) >= 0.0 && (1.0 - s) * (hi - lo) >= 0.0;
    } else {
      ProductSign(s, lo - hi);
      ProductSign(1.0 - s, lo - hi);
      assert s * (lo - hi) >= 0.0 && (1.0 - s) * (lo - hi) >= 0.0;
    }
  }

  lemma ProductSign(s: real, k: real)
    requires k > 0.0
    ensures s * k >= 0.0 <==> s >= 0.0
  {
  }

  /** Opposite signs: the weight of the zero. */
  lemma ZeroWeight(o1: real, o2: real) returns (u: real)
    requires o1 * o2 < 0.0
    ensures 0.0 <= u <= 1.0 && u * (o1 - o2) == o1
  {
    u := o1 / (o1 - o2);
    assert (o1 > 0.0 && o2 < 0.0) || (o1 < 0.0 && o2 > 0.0);
    StraddlesZero(o1, o2, u);
  }

  /** Cramer's rule, coordinate by coordinate. */
  lemma Cramer(a: Point, b: Point, c: Point, d: Point)
    ensures Orientation(c, d, a) - Orientation(c, d, b) == Orientation(a, b, d) - Orientation(a, b, c)
    ensures (Orientation(a, b, c) - Orientation(a, b, d)) * (a.x - c.x)
      - Orientation(c, d, a) * (b.x - a.x) - Orientation(a, b, c) * (d.x - c.x) == 0.0
    ensures (Orientation(a, b, c) - Orientation(a, b, d)) * (a.y - c.y)
      - Orientation(c, d, a) * (b.y - a.y) - Orientation(a, b, c) * (d.y - c.y) == 0.0
  {
  }

  lemma SameCoordinate(det: real, o1: real, o3: real, t: real, u: real, a: real, e: real, c: real, f: real)
    requires det != 0.0 && det * t == -o3 && det * u == o1
    requires det * (a - c) - o3 * e - o1 * f == 0.0
    ensures a + t * e == c + u * f
  {
    assert (det * t) * e == -(o3 * e) && (det * u) * f == o1 * f;
    assert det * ((a + t * e) - (c + u * f)) == det * (a - c) + (det * t) * e - (det * u) * f;
  }

  lemma CrossingCoordinate(o1: real, o2: real, o3: real, o4: real, t: real, u: real, a: real, e: real, c: real, f: real)
    requires o1 * o2 < 0.0 && u * (o1 - o2) == o1 && t * (o3 - o4) == o3 && o3 - o4 == o2 - o1
    requires (o1 - o2) * (a - c) - o3 * e - o1 * f == 0.0
    ensures a + t * e == c + u * f
  {
    assert o1 != o2;
    assert (o1 - o2) * t == -(t * (o3 - o4));
    SameCoordinate(o1 - o2, o1, o3, t, u, a, e, c, f);
  }

  lemma CrossingX(a: Point, b: Point, c: Point, d: Point, t: real, u: real)
    requires OppositeSides(a, b, c, d)
    requires u * (Orientation(a, b, c) - Orientation(a, b, d)) == Orientation(a, b, c)
    requires t * (Orientation(c, d, a) - Orientation(c, d, b)) == Orientation(c, d, a)
    ensures Lerp(a, b, t).x == Lerp(c, d, u).x
  {
    Cramer(a, b, c, d);
    CrossingCoordinate(Orientation(a, b, c), Orientation(a, b, d), Orientation(c, d, a), Orientation(c, d, b),
                       t, u, a.x, b.x - a.x, c.x, d.x - c.x);
  }

  lemma CrossingY(a: Point, b: Point, c: Point, d: Point, t: real, u: real)
    requires OppositeSides(a, b, c, d)
    requires u * (Orientation(a, b, c) - Orientation(a, b, d)) == Orientation(a, b, c)
    requires t * (Orientation(c, d, a) - Orientation(c, d, b)) == Orientation(c, d, a)
    ensures Lerp(a, b, t).y == Lerp(c, d, u).y
  {
    Cramer(a, b, c, d);
    CrossingCoordinate(Orientation(a, b, c), Orientation(a, b, d), Orientation(c, d, a), Orientation(c, d, b),
                       t, u, a.y, b.y - a.y, c.y, d.y - c.y);
  }

  lemma CrossingShares(a: Point, b: Point, c: Point, d: Point) returns (p: Point)
    requires Crosses(a, b, c, d)
    ensures LiesOn(p, a, b) && LiesOn(p, c, d)
  {
    var o1, o2, o3, o4 := Orientation(a, b, c), Orientation(a, b, d), Orientation(c, d, a), Orientation(c, d, b);
    var u := ZeroWeight(o1, o2);
    var t := ZeroWeight(o3, o4);
    CrossingX(a, b, c, d, t, u);
    CrossingY(a, b, c, d, t, u);
    p := Lerp(a, b, t);
    assert p == Lerp(c, d, u);
  }

  lemma EndpointsLieOn(a: Point, b: Point)
    ensures LiesOn(a, a, b) && LiesOn(b, a, b)
  {
    assert a == Lerp(a, b, 0.0) && b == Lerp(a, b, 1.0);
  }

  /** Without tolerance the test decides exactly whether the closed segments meet; the
      tolerance only ever adds positive verdicts. */
  lemma ExactWithoutTolerance(a: Point, b: Point, c: Point, d: Point)
    ensures IntersectWithin(a, b, c, d, 0.0) <==> exists p :: LiesOn(p, a, b) && LiesOn(p, c, d)
    ensures IntersectWithin(a, b, c, d, 0.0) ==> SegmentsIntersect(a, b, c, d)
  {
    if p :| LiesOn(p, a, b) && LiesOn(p, c, d) { SharedPointIsReported(a, b, c, d, p, 0.0); }
    EndpointsLieOn(a, b);
    EndpointsLieOn(c, d);
    if Crosses(a, b, c, d) {
      var p := CrossingShares(a, b, c, d);
    } else if Touches(a, b, c, 0.0) {
      BoxedIsOn(a, b, c);
    } else if Touches(a, b, d, 0.0) {
      BoxedIsOn(a, b, d);
    } else if Touches(c, d, a, 0.0) {
      BoxedIsOn(c, d, a);
    } else if Touches(c, d, b, 0.0) {
      BoxedIsOn(c, d, b);
    }
  }

  /** `p` is within 0.000000001 of the segment's line, measured as a signed area, and of its box. */
  ghost predicate Near(a: Point, b: Point, p: Point) {
    var area := (b.x - a.x) * (p.y - a.y) - (b.y - a.y) * (p.x - a.x);
    && -0.000000001 <= area <= 0.000000001
    && (a.x - 0.000000001 <= p.x || b.x - 0.000000001 <= p.x)
    && (p.x <= a.x + 0.000000001 || p.x <= b.x + 0.000000001)
    && (a.y - 0.000000001 <= p.y || b.y - 0.000000001 <= p.y)
    && (p.y <= a.y + 0.000000001 || p.y <= b.y + 0.000000001)
  }

  lemma NearTouches(a: Point, b: Point, p: Point)
    ensures Touches(a, b, p, EPSILON) <==> Near(a, b, p)
  {
    var area := (b.x - a.x) * (p.y - a.y) - (b.y - a.y) * (p.x - a.x);
    assert Orientation(a, b, p) == area;
  }

  /** A positive verdict admits nothing else: the segments share a point, or an endpoint of one is
      near the other. */
  lemma PositiveMeansNear(a: Point, b: Point, c: Point, d: Point)
    ensures SegmentsIntersect(a, b, c, d) <==>
      (exists p :: LiesOn(p, a, b) && LiesOn(p, c, d))
      || Near(a, b, c) || Near(a, b, d) || Near(c, d, a) || Near(c, d, b)
  {
    NearTouches(a, b, c);
    NearTouches(a, b, d);
    NearTouches(c, d, a);
    NearTouches(c, d, b);
    if Crosses(a, b, c, d) { var p := CrossingShares(a, b, c, d); }
    if p :| LiesOn(p, a, b) && LiesOn(p, c, d) { SharedPointIsReported(a, b, c, d, p, EPSILON); }
  }

  lemma VerdictSymmetric(a: Point, b: Point, c: Point, d: Point)
    ensures SegmentsIntersect(a, b, c, d) == SegmentsIntersect(c, d, a, b)
  {
  }
}
