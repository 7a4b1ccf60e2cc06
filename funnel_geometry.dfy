// Plane geometry used by the funnel-area trace: points, the midpoint helper
// getBetween, the shoelace polygon area of the (commented-out) area check, and
// the square root that setCoords takes of every cumulative fraction.

module FunnelGeometry {

  /** A point [x, y] of the trace's local frame (y grows downward, as in SVG). */
  datatype Point = Point(x: real, y: real)

  /** The product a * b as a named term, so that proofs can match products by their factors. */
  function Mul(a: real, b: real): (product: real) {
    a * b
  }

  function Abs(a: real): (magnitude: real) {
    if a < 0.0 then -a else a
  }

  /** The reflection [-p[0], p[1]] of p across the vertical axis. */
  function Mirror(p: Point): (m: Point)
    ensures m.y == p.y && m.x + p.x == 0.0
  {
    Point(-p.x, p.y)
  }

  /** getBetween: the point halfway between a and b, coordinate by coordinate. */
  function Between(a: Point, b: Point): (m: Point)
    ensures m.x - a.x == b.x - m.x
    ensures m.y - a.y == b.y - m.y
  {
    Point(0.5 * (a.x + b.x), 0.5 * (a.y + b.y))
  }

  /** The point q with both coordinates multiplied by k: q seen at k times the size. */
  function Dilated(q: Point, k: real): (d: Point) {
    Point(q.x * k, q.y * k)
  }

  /** Mirroring commutes with enlarging. */
  lemma {:induction false} MirrorDilated(q: Point, k: real)
    ensures Mirror(Dilated(q, k)) == Dilated(Mirror(q), k)
  {
    assert -(q.x * k) == (-q.x) * k;
  }

  /** The midpoint of two enlarged points is the enlarged midpoint. */
  lemma {:induction false} BetweenDilated(a: Point, b: Point, k: real)
    ensures Between(Dilated(a, k), Dilated(b, k)) == Dilated(Between(a, b), k)
  {
    assert 0.5 * (a.x * k + b.x * k) == (0.5 * (a.x + b.x)) * k;
    assert 0.5 * (a.y * k + b.y * k) == (0.5 * (a.y + b.y)) * k;
  }

  /**
   * What Math.sqrt is taken to compute on the non-negative reals: a
   * non-negative number whose square is its argument.
   */
  ghost predicate IsSqrt(sqrt: real -> real) {
    forall s {:trigger Squared(sqrt, s)} :: 0.0 <= s ==> 0.0 <= sqrt(s) && Squared(sqrt, s) == s
  }

  /**
   * sqrt(s) squared. IsSqrt is stated through it so that its facts are only
   * drawn for the arguments a proof names, not for every sqrt(s) in sight.
   */
  ghost function Squared(sqrt: real -> real, s: real): real {
    sqrt(s) * sqrt(s)
  }

  lemma {:induction false} SqrtStrictlyMonotone(sqrt: real -> real, a: real, b: real)
    requires IsSqrt(sqrt)
    requires 0.0 <= a < b
    ensures 0.0 <= sqrt(a) < sqrt(b)
  {
    assert Squared(sqrt, a) == a && 0.0 <= sqrt(a);
    assert Squared(sqrt, b) == b && 0.0 <= sqrt(b);
  }

  lemma {:induction false} SqrtMonotone(sqrt: real -> real, a: real, b: real)
    requires IsSqrt(sqrt)
    requires 0.0 <= a <= b
    ensures 0.0 <= sqrt(a) <= sqrt(b)
  {
    if a < b {
      SqrtStrictlyMonotone(sqrt, a, b);
    } else {
      assert Squared(sqrt, a) == a && 0.0 <= sqrt(a);
    }
  }

  /** The sums s1 and s2 of polygonArea after its first i iterations. */
  function ShoelaceSums(points: seq<Point>, i: nat): (sums: (real, real))
    requires i <= |points|
  {
    if i == 0 then (0.0, 0.0)
    else
      var (s1, s2) := ShoelaceSums(points, i - 1);
      var p0 := points[i - 1];
      var p1 := points[i % |points|];
      (s1 + p0.x * p1.y, s2 + p1.x * p0.y)
  }

  /** polygonArea: the shoelace area of the closed polygon through points. */
  function PolygonArea(points: seq<Point>): (area: real) {
    var (s1, s2) := ShoelaceSums(points, |points|);
    0.5 * Abs(s1 - s2)
  }

  /**
   * The polygon [TR, TL, BL, BR] of a slice symmetric about the vertical axis,
   * with top-right corner top and bottom-right corner bottom, is a trapezoid:
   * its area is the mean of the two widths times the height.
   */
  lemma {:induction false} TrapezoidArea(top: Point, bottom: Point)
    ensures PolygonArea([top, Mirror(top), Mirror(bottom), bottom])
            == Abs((top.x + bottom.x) * (top.y - bottom.y))
  {
    var a, t, b, u := top.x, top.y, bottom.x, bottom.y;
    var pts := [Point(a, t), Point(-a, t), Point(-b, u), Point(b, u)];
    var (s1, s2) := ShoelaceSums(pts, 4);
    assert ShoelaceSums(pts, 1).0 == 0.0 + a * t;
    assert ShoelaceSums(pts, 1).1 == 0.0 + (-a) * t;
    assert ShoelaceSums(pts, 2).0 == 0.0 + a * t + (-a) * u;
    assert ShoelaceSums(pts, 2).1 == 0.0 + (-a) * t + (-b) * t;
    assert ShoelaceSums(pts, 3).0 == 0.0 + a * t + (-a) * u + (-b) * u;
    assert ShoelaceSums(pts, 3).1 == 0.0 + (-a) * t + (-b) * t + b * u;
    assert s1 == 0.0 + a * t + (-a) * u + (-b) * u + b * t;
    assert s2 == 0.0 + (-a) * t + (-b) * t + b * u + a * u;
    assert s1 - s2 == 2.0 * ((a + b) * (t - u));
  }

  /**
   * The slab between the boundary points [q0, -q0] and [q1, -q1], moved up
   * by c and scaled by sx > 0 and sy, has area sx * |sy| * (q1^2 - q0^2).
   */
  lemma {:induction false} ScaledSlabArea(top: Point, bottom: Point, q0: real, q1: real, c: real, sx: real, sy: real, step: real)
    requires 0.0 < sx && 0.0 <= step && q1 * q1 - q0 * q0 == step
    requires top == Point(Mul(q1, sx), Mul(-q1 - c, sy))
    requires bottom == Point(Mul(q0, sx), Mul(-q0 - c, sy))
    ensures PolygonArea([top, Mirror(top), Mirror(bottom), bottom]) == Mul(Mul(sx, Abs(sy)), step)
  {
    TrapezoidArea(top, bottom);
    SlabProduct(top.x, bottom.x, top.y, bottom.y, q0, q1, c, sx, sy, step);
  }

  /**
   * The algebra of ScaledSlabArea: for the scaled corners a, b (widths) and
   * t, u (heights), |(a + b) * (t - u)| is sx * |sy| * (q1^2 - q0^2).
   */
  lemma {:induction false} SlabProduct(a: real, b: real, t: real, u: real, q0: real, q1: real, c: real, sx: real, sy: real, step: real)
    requires 0.0 < sx && 0.0 <= step && q1 * q1 - q0 * q0 == step
    requires a == Mul(q1, sx) && b == Mul(q0, sx)
    requires t == Mul(-q1 - c, sy) && u == Mul(-q0 - c, sy)
    ensures Abs((a + b) * (t - u)) == Mul(Mul(sx, Abs(sy)), step)
  {
    assert a + b == sx * (q1 + q0);
    assert t - u == -sy * (q1 - q0);
    assert (a + b) * (t - u) == -(sx * sy) * ((q1 + q0) * (q1 - q0));
    assert (q1 + q0) * (q1 - q0) == step;
    if 0.0 <= sy {
      assert 0.0 <= sx * sy * step;
    } else {
      assert sx * sy * step <= 0.0;
    }
  }
}
