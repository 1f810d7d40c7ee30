/**
 * Even-odd ray-casting test of a destination pixel against the target
 * quadrilateral. The quadrilateral is an explicit parameter; the corners are
 * visited in order, each edge running from corner Prev(n, i) to corner i.
 */
module Containment {
  import opened Geometry

  /** The corner before corner i in a closed polygon of n corners. */
  function Prev(n: nat, i: nat): (j: int)
    requires i < n
    ensures 0 <= j < n
    ensures j != i || n == 1
  {
    if i == 0 then n - 1 else i - 1
  }

  /** The corners scaled into the unit square of a width x height canvas. */
  function Normalize(quad: seq<Point>, width: int, height: int): (r: seq<Point>)
    requires width != 0 && height != 0
    ensures |r| == |quad|
    ensures forall k :: 0 <= k < |r| ==>
              r[k].x * width as real == quad[k].x && r[k].y * height as real == quad[k].y
  {
    seq(|quad|, k requires 0 <= k < |quad| =>
      Point(quad[k].x / width as real, quad[k].y / height as real))
  }

  /**
   * The edge from corner j to corner i has one end strictly above the
   * horizontal line at y and the other not. Such an edge is never
   * horizontal, so the division in CrossingX is always defined.
   */
  predicate Straddles(q: seq<Point>, y: real, i: nat, j: nat)
    requires i < |q| && j < |q|
    ensures Straddles(q, y, i, j) ==> q[i].y != q[j].y
  {
    (q[i].y > y) != (q[j].y > y)
  }

  /** Where a straddling edge meets the horizontal line at y. */
  function CrossingX(q: seq<Point>, y: real, i: nat, j: nat): real
    requires i < |q| && j < |q|
    requires Straddles(q, y, i, j)
  {
    (q[j].x - q[i].x) * (y - q[i].y) / (q[j].y - q[i].y) + q[i].x
  }

  /** The edge from corner j to corner i crosses the ray going right from (x, y). */
  predicate Toggles(q: seq<Point>, x: real, y: real, i: nat, j: nat)
    requires i < |q| && j < |q|
  {
    Straddles(q, y, i, j) && x < CrossingX(q, y, i, j)
  }

  /** The value of the even-odd flag after the first k edges. */
  function InsideAfter(q: seq<Point>, x: real, y: real, k: nat): bool
    requires k <= |q|
  {
    if k == 0 then false
    else InsideAfter(q, x, y, k - 1) != Toggles(q, x, y, k - 1, Prev(|q|, k - 1))
  }

  /** The verdict of the containment test for a destination pixel. */
  predicate InsideQuad(point: Point, width: int, height: int, quad: seq<Point>)
    requires width != 0 && height != 0
  {
    var q := Normalize(quad, width, height);
    InsideAfter(q, point.x / width as real, point.y / height as real, |q|)
  }

  /** The ray-casting loop over the normalized corners. */
  method IsPointInQuad(point: Point, width: int, height: int, quad: seq<Point>) returns (inside: bool)
    requires width != 0 && height != 0
    ensures inside == InsideQuad(point, width, height, quad)
  {
    var x, y := point.x / width as real, point.y / height as real;
    var normQuad := Normalize(quad, width, height);
    inside := false;
    var j := |normQuad| - 1;
    for i := 0 to |normQuad|
      invariant j == if i == 0 then |normQuad| - 1 else i - 1
      invariant inside == InsideAfter(normQuad, x, y, i)
    {
      if Straddles(normQuad, y, i, j) && x < CrossingX(normQuad, y, i, j) {
        inside := !inside;
      }
      j := i;
    }
  }

  /** A horizontal edge never changes the verdict. */
  lemma HorizontalEdgeNeverToggles(q: seq<Point>, x: real, y: real, i: nat, j: nat)
    requires i < |q| && j < |q|
    requires q[i].y == q[j].y
    ensures !Toggles(q, x, y, i, j)
  {
  }

  /** A quotient of two numbers of the same sign, the first no larger in size, lies in [0, 1]. */
  lemma QuotientInUnit(num: real, den: real)
    requires (den > 0.0 && 0.0 <= num <= den) || (den < 0.0 && den <= num <= 0.0)
    ensures 0.0 <= num / den <= 1.0
  {
    var t := num / den;
    assert t * den == num;
  }

  /** Dividing a product by den is multiplying by the quotient. */
  lemma ProductQuotient(c: real, num: real, den: real)
    requires den != 0.0
    ensures c * num / den == c * (num / den)
  {
    var t := num / den;
    assert t * den == num;
    assert (c * t) * den == c * num;
  }

  /** A multiple of dx by a factor in [0, 1] lies between 0 and dx. */
  lemma ScaledBetween(dx: real, t: real)
    requires 0.0 <= t <= 1.0
    ensures dx >= 0.0 ==> 0.0 <= dx * t <= dx
    ensures dx <= 0.0 ==> dx <= dx * t <= 0.0
  {
    if dx >= 0.0 {
      assert dx * t <= dx * 1.0;
    } else {
      assert dx * t >= dx * 1.0;
    }
  }

  /** The crossing of a straddling edge lies between the edge's two x values. */
  lemma CrossingBetweenEnds(q: seq<Point>, y: real, i: nat, j: nat)
    requires i < |q| && j < |q|
    requires Straddles(q, y, i, j)
    ensures q[i].x <= q[j].x ==> q[i].x <= CrossingX(q, y, i, j) <= q[j].x
    ensures q[j].x <= q[i].x ==> q[j].x <= CrossingX(q, y, i, j) <= q[i].x
  {
    var num, den := y - q[i].y, q[j].y - q[i].y;
    QuotientInUnit(num, den);
    var t := num / den;
    var dx := q[j].x - q[i].x;
    ProductQuotient(dx, num, den);
    assert CrossingX(q, y, i, j) == q[i].x + dx * t;
    ScaledBetween(dx, t);
  }

  /** With no straddling edge the flag is never set. */
  lemma {:induction false} NoStraddleFlagUnset(q: seq<Point>, x: real, y: real, k: nat)
    requires k <= |q|
    requires forall i :: 0 <= i < |q| ==> !Straddles(q, y, i, Prev(|q|, i))
    ensures !InsideAfter(q, x, y, k)
  {
    if k > 0 {
      NoStraddleFlagUnset(q, x, y, k - 1);
    }
  }

  /** A point whose horizontal line meets no edge is outside. */
  lemma NoStraddleOutside(q: seq<Point>, x: real, y: real)
    requires forall i :: 0 <= i < |q| ==> !Straddles(q, y, i, Prev(|q|, i))
    ensures !InsideAfter(q, x, y, |q|)
  {
    NoStraddleFlagUnset(q, x, y, |q|);
  }

  /** A point above every corner or at or below every corner is outside. */
  lemma AboveOrBelowAllOutside(q: seq<Point>, x: real, y: real)
    requires (forall i :: 0 <= i < |q| ==> q[i].y > y) || (forall i :: 0 <= i < |q| ==> q[i].y <= y)
    ensures !InsideAfter(q, x, y, |q|)
  {
    NoStraddleOutside(q, x, y);
  }

  /** Right of (or level with) every corner, no edge is crossed to the right. */
  lemma {:induction false} RightOfAllFlagUnset(q: seq<Point>, x: real, y: real, k: nat)
    requires k <= |q|
    requires forall i :: 0 <= i < |q| ==> q[i].x <= x
    ensures !InsideAfter(q, x, y, k)
  {
    if k > 0 {
      RightOfAllFlagUnset(q, x, y, k - 1);
      var i, j := k - 1, Prev(|q|, k - 1);
      if Straddles(q, y, i, j) {
        CrossingBetweenEnds(q, y, i, j);
      }
    }
  }

  /** A point whose x is at least every corner's x is outside. */
  lemma RightOfAllOutside(q: seq<Point>, x: real, y: real)
    requires forall i :: 0 <= i < |q| ==> q[i].x <= x
    ensures !InsideAfter(q, x, y, |q|)
  {
    RightOfAllFlagUnset(q, x, y, |q|);
  }

  /**
   * Left of every corner, every straddling edge is crossed, and the flag
   * after k edges records whether corner k-1 and the last corner lie on
   * different sides of the line at y.
   */
  lemma {:induction false} LeftOfAllFlag(q: seq<Point>, x: real, y: real, k: nat)
    requires 0 < k <= |q|
    requires forall i :: 0 <= i < |q| ==> x < q[i].x
    ensures InsideAfter(q, x, y, k) == ((q[k - 1].y > y) != (q[|q| - 1].y > y))
  {
    var i, j := k - 1, Prev(|q|, k - 1);
    if Straddles(q, y, i, j) {
      CrossingBetweenEnds(q, y, i, j);
    }
    if k > 1 {
      LeftOfAllFlag(q, x, y, k - 1);
    }
  }

  /** A point whose x is below every corner's x is outside: a closed polygon has an even number of straddling edges. */
  lemma LeftOfAllOutside(q: seq<Point>, x: real, y: real)
    requires forall i :: 0 <= i < |q| ==> x < q[i].x
    ensures !InsideAfter(q, x, y, |q|)
  {
    if |q| > 0 {
      LeftOfAllFlag(q, x, y, |q|);
    }
  }

  /**
   * In pixel terms: on a canvas of positive size, a pixel outside the
   * bounding box of the corners is classified outside.
   */
  lemma OutsideBoundingBox(point: Point, width: int, height: int, quad: seq<Point>)
    requires width > 0 && height > 0
    requires || (forall i :: 0 <= i < |quad| ==> quad[i].x <= point.x)
             || (forall i :: 0 <= i < |quad| ==> point.x < quad[i].x)
             || (forall i :: 0 <= i < |quad| ==> point.y < quad[i].y)
             || (forall i :: 0 <= i < |quad| ==> quad[i].y <= point.y)
    ensures !InsideQuad(point, width, height, quad)
  {
    var q := Normalize(quad, width, height);
    var w, h := width as real, height as real;
    var x, y := point.x / w, point.y / h;
    assert x * w == point.x && y * h == point.y;
    if forall i :: 0 <= i < |quad| ==> quad[i].x <= point.x {
      forall i | 0 <= i < |q| ensures q[i].x <= x {
        assert q[i].x * w <= x * w;
      }
      RightOfAllOutside(q, x, y);
    } else if forall i :: 0 <= i < |quad| ==> point.x < quad[i].x {
      forall i | 0 <= i < |q| ensures x < q[i].x {
        assert x * w < q[i].x * w;
      }
      LeftOfAllOutside(q, x, y);
    } else if forall i :: 0 <= i < |quad| ==> point.y < quad[i].y {
      forall i | 0 <= i < |q| ensures q[i].y > y {
        assert y * h < q[i].y * h;
      }
      AboveOrBelowAllOutside(q, x, y);
    } else {
      forall i | 0 <= i < |q| ensures q[i].y <= y {
        assert q[i].y * h <= y * h;
      }
      AboveOrBelowAllOutside(q, x, y);
    }
  }
}
