/**
 * 2D vector arithmetic and slope/intercept lines, as used by the Piranesi
 * mapping. Coordinates are exact reals; the source works on IEEE doubles.
 */
module Geometry {

  /** A point or a vector in the plane. */
  datatype Point = Point(x: real, y: real)

  /** The line y = a*x + b. */
  datatype Line = Line(a: real, b: real)

  /** The x-delta that replaces a zero x-delta when a line is built (1e-11). */
  const VerticalDx: real := 0.00000000001

  /** The point returned for two lines of equal slope. */
  const ParallelFallback: Point := Point(0.5, 0.5)

  /** The point p lies on the line l. */
  predicate OnLine(l: Line, p: Point)
  {
    p.y == l.a * p.x + l.b
  }

  /** Component-wise difference p - q. */
  function Subtract(p: Point, q: Point): (r: Point)
    ensures Add(r, q) == p
  {
    Point(p.x - q.x, p.y - q.y)
  }

  /** Component-wise sum p + q. */
  function Add(p: Point, q: Point): (r: Point)
    ensures r.x - q.x == p.x && r.y - q.y == p.y
    ensures r == Point(q.x + p.x, q.y + p.y)
  {
    Point(p.x + q.x, p.y + q.y)
  }

  /** The vector v stretched by factor. */
  function Scale(v: Point, factor: real): (r: Point)
    ensures factor == 0.0 ==> r == Point(0.0, 0.0)
    ensures factor == 1.0 ==> r == v
  {
    Point(v.x * factor, v.y * factor)
  }

  /**
   * The line through p0 and p1. When the two x values coincide the x-delta
   * is replaced by VerticalDx, so the result passes through p0 only.
   */
  function PointsToLine(p0: Point, p1: Point): (l: Line)
    ensures OnLine(l, p0)
    ensures p0.x != p1.x ==> OnLine(l, p1)
    ensures p0.x != p1.x ==> l.a == (p1.y - p0.y) / (p1.x - p0.x)
    ensures p0.x == p1.x ==> l.a == (p1.y - p0.y) / VerticalDx
  {
    var v := Subtract(p1, p0);
    var dx := if v.x == 0.0 then VerticalDx else v.x;
    var a := v.y / dx;
    var b := p0.y - p0.x * a;
    assert p0.x != p1.x ==> p1.y == a * p1.x + b by {
      if p0.x != p1.x {
        assert a * dx == v.y;
        calc {
          a * p1.x + b;
          a * (p1.x - p0.x) + p0.y;
          a * dx + p0.y;
        }
      }
    }
    Line(a, b)
  }

  /**
   * The intersection of two lines; two lines of equal slope (parallel or
   * identical) give ParallelFallback instead.
   */
  function LineIntersection(l0: Line, l1: Line): (p: Point)
    ensures l0.a == l1.a ==> p == ParallelFallback
    ensures l0.a != l1.a ==> OnLine(l0, p) && OnLine(l1, p)
  {
    if l0.a == l1.a then
      ParallelFallback
    else
      var x := (l1.b - l0.b) / (l0.a - l1.a);
      var y := l0.a * x + l0.b;
      assert x * (l0.a - l1.a) == l1.b - l0.b;
      Point(x, y)
  }

  /** Subtract and Add undo each other. */
  lemma AddSubtractInverse(p: Point, q: Point)
    ensures Subtract(Add(p, q), q) == p
    ensures Add(Subtract(p, q), q) == p
  {
  }

  /**
   * Two lines of different slope meet in exactly one point: any point on
   * both is the one LineIntersection returns.
   */
  lemma IntersectionUnique(l0: Line, l1: Line, q: Point)
    requires l0.a != l1.a
    requires OnLine(l0, q) && OnLine(l1, q)
    ensures LineIntersection(l0, l1) == q
  {
    var d := l0.a - l1.a;
    assert q.x * d == l1.b - l0.b;
    assert q.x == (l1.b - l0.b) / d;
  }

  /**
   * Walking from p along the vector q - p by a fraction t, as the forward
   * mapping does on each quadrilateral edge: t = 0 gives p, t = 1 gives q,
   * and every such point lies on the line through p and q when that line is
   * not vertical.
   */
  lemma EdgeWalk(p: Point, q: Point, t: real)
    ensures Add(p, Scale(Subtract(q, p), 0.0)) == p
    ensures Add(p, Scale(Subtract(q, p), 1.0)) == q
    ensures p.x != q.x ==> OnLine(PointsToLine(p, q), Add(p, Scale(Subtract(q, p), t)))
  {
    if p.x != q.x {
      var l := PointsToLine(p, q);
      var w := Add(p, Scale(Subtract(q, p), t));
      assert l.a * (q.x - p.x) == q.y - p.y;
      calc {
        l.a * w.x + l.b;
        l.a * (p.x + (q.x - p.x) * t) + l.b;
        (l.a * p.x + l.b) + (l.a * (q.x - p.x)) * t;
        p.y + (q.y - p.y) * t;
        w.y;
      }
    }
  }
}
