/**
 * The grid resampler: the reverse mapping is evaluated only at the nodes of
 * a 65 x 65 grid over the destination canvas; every destination pixel inside
 * the quadrilateral interpolates its source coordinate from the four nodes
 * around it, then blends the four source pixels around that coordinate.
 *
 * Images are two-dimensional arrays indexed [x, y], as the pixel access
 * objects of the source are. The grid is indexed [row, column], as the
 * source's list of rows is.
 */
module Resampler {
  import opened Geometry
  import Containment
  import InverseSolver

  /** An RGBA sample; each channel is an int, 0..255 in a well-formed image. */
  datatype Rgba = Rgba(r: int, g: int, b: int, a: int)

  const Transparent: Rgba := Rgba(0, 0, 0, 0)

  /** The grid has GridSize cells, GridSize + 1 nodes, along each axis. */
  const GridSize: int := 64

  predicate ValidChannel(v: int)
  {
    0 <= v <= 255
  }

  predicate ValidRgba(p: Rgba)
  {
    ValidChannel(p.r) && ValidChannel(p.g) && ValidChannel(p.b) && ValidChannel(p.a)
  }

  /** Conversion of a real to an int by truncation toward zero. */
  function Trunc(v: real): (n: int)
    ensures v >= 0.0 ==> n as real <= v < n as real + 1.0
    ensures v <= 0.0 ==> n as real - 1.0 < v <= n as real
  {
    if v >= 0.0 then v.Floor else -((-v).Floor)
  }

  /** Truncation keeps whole numbers. */
  lemma TruncOfInt(n: int)
    ensures Trunc(n as real) == n
  {
  }

  /** Truncation is monotone. */
  lemma TruncMonotone(u: real, v: real)
    requires u <= v
    ensures Trunc(u) <= Trunc(v)
  {
  }

  /** a / d <= b / d for a positive d, when a <= b. */
  lemma DivMonotone(a: real, b: real, d: real)
    requires d > 0.0 && a <= b
    ensures a / d <= b / d
  {
    assert (a / d) * d == a && (b / d) * d == b;
  }

  /**
   * The destination pixel, along an axis of n pixels, at which grid node g
   * is evaluated: the first node is pixel 0 and the last is pixel n - 1.
   */
  function NodePixel(g: int, n: int): (p: int)
    requires 0 <= g <= GridSize && n >= 1
    ensures 0 <= p <= n - 1
    ensures g == 0 ==> p == 0
    ensures g == GridSize ==> p == n - 1
  {
    var v := (g * (n - 1)) as real / GridSize as real;
    assert 0 <= g * (n - 1) <= GridSize * (n - 1);
    DivMonotone(0.0, (g * (n - 1)) as real, GridSize as real);
    DivMonotone((g * (n - 1)) as real, (GridSize * (n - 1)) as real, GridSize as real);
    assert v <= (n - 1) as real;
    Trunc(v)
  }

  /**
   * The cell position pix * GridSize / (n - 1) lies in [0, GridSize] and is
   * GridSize exactly at the last pixel.
   */
  lemma CellPosition(pix: int, n: int, f: real)
    requires n >= 2 && 0 <= pix < n
    requires f == (pix * GridSize) as real / (n - 1) as real
    ensures 0.0 <= f <= GridSize as real
    ensures f == GridSize as real <==> pix == n - 1
  {
    var d := (n - 1) as real;
    assert f * d == (pix * GridSize) as real;
    assert 0 <= pix * GridSize <= (n - 1) * GridSize;
    assert f * d <= (GridSize as real) * d;
    if f == GridSize as real {
      assert (pix * GridSize) as real == ((n - 1) * GridSize) as real;
    }
    if pix == n - 1 {
      assert (GridSize as real) * d == (pix * GridSize) as real;
    }
  }

  /** A grid cell index and the fractional offset within that cell. */
  datatype Cell = Cell(index: int, offset: real)

  /**
   * Splitting a cell position f in [0, GridSize] into a whole index, clamped
   * to the last cell, and the remaining offset.
   */
  function SplitPosition(f: real): (c: Cell)
    requires 0.0 <= f <= GridSize as real
    ensures 0 <= c.index <= GridSize - 1
    ensures 0.0 <= c.offset <= 1.0
    ensures c.index as real + c.offset == f
    ensures c.offset == 1.0 <==> f == GridSize as real
  {
    var g := Trunc(f);
    var index := if g >= GridSize then GridSize - 1 else g;
    Cell(index, f - index as real)
  }

  /**
   * The grid cell of destination pixel pix along an axis of n pixels. The
   * cell position pix * GridSize / (n - 1) is split into a whole cell index
   * and an offset; the last pixel falls in the last cell with offset 1, so
   * index + 1 is always a node of the grid.
   */
  function CellLookup(pix: int, n: int): (c: Cell)
    requires n >= 2 && 0 <= pix < n
    ensures 0 <= c.index <= GridSize - 1
    ensures 0.0 <= c.offset <= 1.0
    ensures c.index as real + c.offset == (pix * GridSize) as real / (n - 1) as real
    ensures c.offset == 1.0 <==> pix == n - 1
  {
    var f := (pix * GridSize) as real / (n - 1) as real;
    CellPosition(pix, n, f);
    SplitPosition(f)
  }

  /** Bilinear interpolation between four corner values. */
  function Bilinear(v00: real, v10: real, v01: real, v11: real, dx: real, dy: real): real
  {
    v00 * (1.0 - dx) * (1.0 - dy) + v10 * dx * (1.0 - dy) + v01 * (1.0 - dx) * dy + v11 * dx * dy
  }

  function Min4(a: real, b: real, c: real, d: real): (m: real)
    ensures m <= a && m <= b && m <= c && m <= d
    ensures m == a || m == b || m == c || m == d
  {
    var ab := if a <= b then a else b;
    var cd := if c <= d then c else d;
    if ab <= cd then ab else cd
  }

  function Max4(a: real, b: real, c: real, d: real): (m: real)
    ensures m >= a && m >= b && m >= c && m >= d
    ensures m == a || m == b || m == c || m == d
  {
    var ab := if a >= b then a else b;
    var cd := if c >= d then c else d;
    if ab >= cd then ab else cd
  }

  /** The four bilinear weights are non-negative and sum to one. */
  lemma BilinearWeights(dx: real, dy: real)
    requires 0.0 <= dx <= 1.0 && 0.0 <= dy <= 1.0
    ensures (1.0 - dx) * (1.0 - dy) >= 0.0 && dx * (1.0 - dy) >= 0.0
    ensures (1.0 - dx) * dy >= 0.0 && dx * dy >= 0.0
    ensures (1.0 - dx) * (1.0 - dy) + dx * (1.0 - dy) + (1.0 - dx) * dy + dx * dy == 1.0
  {
    ProductNonNegative(1.0 - dx, 1.0 - dy);
    ProductNonNegative(dx, 1.0 - dy);
    ProductNonNegative(1.0 - dx, dy);
    ProductNonNegative(dx, dy);
  }

  lemma ProductNonNegative(a: real, b: real)
    requires a >= 0.0 && b >= 0.0
    ensures a * b >= 0.0
  {
  }

  /** Multiplying by a non-negative weight keeps the order. */
  lemma MulLe(a: real, b: real, w: real)
    requires a <= b && w >= 0.0
    ensures a * w <= b * w
  {
  }

  /** Weights summing to one leave a common factor unchanged. */
  lemma Distribute(c: real, w00: real, w10: real, w01: real, w11: real)
    requires w00 + w10 + w01 + w11 == 1.0
    ensures c * w00 + c * w10 + c * w01 + c * w11 == c
  {
    assert w11 == 1.0 - w00 - w10 - w01;
    assert c * w11 == c * (1.0 - w00 - w10 - w01);
  }

  /** Weighted sums with non-negative weights are monotone in the values. */
  lemma WeightedSumLe(a00: real, a10: real, a01: real, a11: real, b00: real, b10: real, b01: real, b11: real,
                      w00: real, w10: real, w01: real, w11: real)
    requires w00 >= 0.0 && w10 >= 0.0 && w01 >= 0.0 && w11 >= 0.0
    requires a00 <= b00 && a10 <= b10 && a01 <= b01 && a11 <= b11
    ensures a00 * w00 + a10 * w10 + a01 * w01 + a11 * w11 <= b00 * w00 + b10 * w10 + b01 * w01 + b11 * w11
  {
    MulLe(a00, b00, w00);
    MulLe(a10, b10, w10);
    MulLe(a01, b01, w01);
    MulLe(a11, b11, w11);
  }

  /** A weighted sum with non-negative weights summing to one lies between lo and hi. */
  lemma WeightedSumBetween(v00: real, v10: real, v01: real, v11: real,
                           w00: real, w10: real, w01: real, w11: real, lo: real, hi: real)
    requires w00 >= 0.0 && w10 >= 0.0 && w01 >= 0.0 && w11 >= 0.0 && w00 + w10 + w01 + w11 == 1.0
    requires lo <= v00 <= hi && lo <= v10 <= hi && lo <= v01 <= hi && lo <= v11 <= hi
    ensures lo <= v00 * w00 + v10 * w10 + v01 * w01 + v11 * w11 <= hi
  {
    WeightedSumLe(lo, lo, lo, lo, v00, v10, v01, v11, w00, w10, w01, w11);
    WeightedSumLe(v00, v10, v01, v11, hi, hi, hi, hi, w00, w10, w01, w11);
    Distribute(lo, w00, w10, w01, w11);
    Distribute(hi, w00, w10, w01, w11);
  }

  /** Bilinear interpolation is the weighted sum of the corners with the bilinear weights. */
  lemma BilinearAsWeightedSum(v00: real, v10: real, v01: real, v11: real, dx: real, dy: real)
    ensures Bilinear(v00, v10, v01, v11, dx, dy)
         == v00 * ((1.0 - dx) * (1.0 - dy)) + v10 * (dx * (1.0 - dy)) + v01 * ((1.0 - dx) * dy) + v11 * (dx * dy)
  {
    assert v00 * (1.0 - dx) * (1.0 - dy) == v00 * ((1.0 - dx) * (1.0 - dy));
    assert v10 * dx * (1.0 - dy) == v10 * (dx * (1.0 - dy));
    assert v01 * (1.0 - dx) * dy == v01 * ((1.0 - dx) * dy);
    assert v11 * dx * dy == v11 * (dx * dy);
  }

  /** Interpolating with offsets in [0, 1] stays between the smallest and largest corner. */
  lemma BilinearBetween(v00: real, v10: real, v01: real, v11: real, dx: real, dy: real)
    requires 0.0 <= dx <= 1.0 && 0.0 <= dy <= 1.0
    ensures Min4(v00, v10, v01, v11) <= Bilinear(v00, v10, v01, v11, dx, dy) <= Max4(v00, v10, v01, v11)
  {
    BilinearWeights(dx, dy);
    BilinearAsWeightedSum(v00, v10, v01, v11, dx, dy);
    WeightedSumBetween(v00, v10, v01, v11,
                       (1.0 - dx) * (1.0 - dy), dx * (1.0 - dy), (1.0 - dx) * dy, dx * dy,
                       Min4(v00, v10, v01, v11), Max4(v00, v10, v01, v11));
  }

  /** Interpolation reproduces each corner at that corner and a constant everywhere. */
  lemma BilinearExact(v00: real, v10: real, v01: real, v11: real, dx: real, dy: real)
    ensures Bilinear(v00, v10, v01, v11, 0.0, 0.0) == v00
    ensures Bilinear(v00, v10, v01, v11, 1.0, 0.0) == v10
    ensures Bilinear(v00, v10, v01, v11, 0.0, 1.0) == v01
    ensures Bilinear(v00, v10, v01, v11, 1.0, 1.0) == v11
    ensures Bilinear(v00, v00, v00, v00, dx, dy) == v00
  {
    assert Bilinear(v00, v00, v00, v00, dx, dy)
        == v00 * ((1.0 - dx) * (1.0 - dy) + dx * (1.0 - dy) + (1.0 - dx) * dy + dx * dy);
  }

  /** The source coordinate of grid node (gx, gy), in source pixel units. */
  function GridNode(reverse: (int, int) -> Point, width: int, height: int, sizeX: int, sizeY: int,
                    gx: int, gy: int): Point
    requires width >= 1 && height >= 1
    requires 0 <= gx <= GridSize && 0 <= gy <= GridSize
  {
    var src := reverse(NodePixel(gx, width), NodePixel(gy, height));
    Point(src.x * sizeX as real, src.y * sizeY as real)
  }

  /** The source coordinate interpolated for destination pixel (xPix, yPix). */
  function InterpolateGrid(reverse: (int, int) -> Point, width: int, height: int, sizeX: int, sizeY: int,
                           xPix: int, yPix: int): Point
    requires width >= 2 && height >= 2
    requires 0 <= xPix < width && 0 <= yPix < height
  {
    var cx, cy := CellLookup(xPix, width), CellLookup(yPix, height);
    var gx, gy := cx.index, cy.index;
    var p00 := GridNode(reverse, width, height, sizeX, sizeY, gx, gy);
    var p10 := if gx < GridSize then GridNode(reverse, width, height, sizeX, sizeY, gx + 1, gy) else p00;
    var p01 := if gy < GridSize then GridNode(reverse, width, height, sizeX, sizeY, gx, gy + 1) else p00;
    var p11 := if gx < GridSize && gy < GridSize
               then GridNode(reverse, width, height, sizeX, sizeY, gx + 1, gy + 1) else p10;
    Point(Bilinear(p00.x, p10.x, p01.x, p11.x, cx.offset, cy.offset),
          Bilinear(p00.y, p10.y, p01.y, p11.y, cx.offset, cy.offset))
  }

  /** When the reverse mapping lands in the unit square, every grid node lies in [0, sizeX] x [0, sizeY]. */
  lemma GridNodeInSource(reverse: (int, int) -> Point, width: int, height: int, sizeX: int, sizeY: int,
                         gx: int, gy: int)
    requires width >= 1 && height >= 1 && sizeX >= 0 && sizeY >= 0
    requires 0 <= gx <= GridSize && 0 <= gy <= GridSize
    requires forall i, j :: InverseSolver.InUnitSquare(reverse(i, j))
    ensures var p := GridNode(reverse, width, height, sizeX, sizeY, gx, gy);
            0.0 <= p.x <= sizeX as real && 0.0 <= p.y <= sizeY as real
  {
    var src := reverse(NodePixel(gx, width), NodePixel(gy, height));
    assert InverseSolver.InUnitSquare(src);
    MulLe(0.0, src.x, sizeX as real);
    MulLe(src.x, 1.0, sizeX as real);
    MulLe(0.0, src.y, sizeY as real);
    MulLe(src.y, 1.0, sizeY as real);
  }

  /**
   * When the reverse mapping lands in the unit square, every interpolated
   * source coordinate lies in [0, sizeX] x [0, sizeY].
   */
  lemma InterpolateGridInSource(reverse: (int, int) -> Point, width: int, height: int, sizeX: int, sizeY: int,
                                xPix: int, yPix: int)
    requires width >= 2 && height >= 2 && sizeX >= 0 && sizeY >= 0
    requires 0 <= xPix < width && 0 <= yPix < height
    requires forall i, j :: InverseSolver.InUnitSquare(reverse(i, j))
    ensures var p := InterpolateGrid(reverse, width, height, sizeX, sizeY, xPix, yPix);
            0.0 <= p.x <= sizeX as real && 0.0 <= p.y <= sizeY as real
  {
    var cx, cy := CellLookup(xPix, width), CellLookup(yPix, height);
    var gx, gy := cx.index, cy.index;
    var p00 := GridNode(reverse, width, height, sizeX, sizeY, gx, gy);
    var p10 := GridNode(reverse, width, height, sizeX, sizeY, gx + 1, gy);
    var p01 := GridNode(reverse, width, height, sizeX, sizeY, gx, gy + 1);
    var p11 := GridNode(reverse, width, height, sizeX, sizeY, gx + 1, gy + 1);
    GridNodeInSource(reverse, width, height, sizeX, sizeY, gx, gy);
    GridNodeInSource(reverse, width, height, sizeX, sizeY, gx + 1, gy);
    GridNodeInSource(reverse, width, height, sizeX, sizeY, gx, gy + 1);
    GridNodeInSource(reverse, width, height, sizeX, sizeY, gx + 1, gy + 1);
    assert InterpolateGrid(reverse, width, height, sizeX, sizeY, xPix, yPix)
        == Point(Bilinear(p00.x, p10.x, p01.x, p11.x, cx.offset, cy.offset),
                 Bilinear(p00.y, p10.y, p01.y, p11.y, cx.offset, cy.offset));
    BilinearBetween(p00.x, p10.x, p01.x, p11.x, cx.offset, cy.offset);
    BilinearBetween(p00.y, p10.y, p01.y, p11.y, cx.offset, cy.offset);
  }

  /**
   * With the solver as the reverse mapping, whatever the forward mapping,
   * every interpolated source coordinate lies in [0, sizeX] x [0, sizeY].
   */
  lemma SolverGridInSource(forward: (real, real) -> Point, width: int, height: int, sizeX: int, sizeY: int,
                           xPix: int, yPix: int)
    requires width >= 2 && height >= 2 && sizeX >= 0 && sizeY >= 0
    requires 0 <= xPix < width && 0 <= yPix < height
    ensures var p := InterpolateGrid((i, j) => InverseSolver.Solve(forward, i, j, width, height),
                                     width, height, sizeX, sizeY, xPix, yPix);
            0.0 <= p.x <= sizeX as real && 0.0 <= p.y <= sizeY as real
  {
    var reverse := (i, j) => InverseSolver.Solve(forward, i, j, width, height);
    forall i, j ensures InverseSolver.InUnitSquare(reverse(i, j)) {
      InverseSolver.SolveInUnitSquare(forward, i, j, width, height);
    }
    InterpolateGridInSource(reverse, width, height, sizeX, sizeY, xPix, yPix);
  }

  /** The two source pixels around coordinate v and the offset from the first. */
  datatype Span = Span(lo: int, hi: int, offset: real)

  /**
   * The source pixels to blend for an in-bounds coordinate v along an axis
   * of size pixels: the pixel at or below v and the next one, clamped to the
   * last pixel, so both reads are in bounds.
   */
  function SourceSpan(v: real, size: int): (s: Span)
    requires 0.0 <= v < size as real
    ensures 0 <= s.lo <= s.hi <= size - 1
    ensures s.hi == s.lo + 1 || (s.hi == s.lo == size - 1)
    ensures 0.0 <= s.offset < 1.0 && s.lo as real + s.offset == v
  {
    var lo := Trunc(v);
    var hi := if lo + 1 <= size - 1 then lo + 1 else size - 1;
    Span(lo, hi, v - lo as real)
  }

  /** One channel interpolated between four pixels and truncated. */
  function Channel(v00: int, v10: int, v01: int, v11: int, dx: real, dy: real): int
  {
    Trunc(Bilinear(v00 as real, v10 as real, v01 as real, v11 as real, dx, dy))
  }

  /** Each channel, including alpha, interpolated independently. */
  function Blend(p00: Rgba, p10: Rgba, p01: Rgba, p11: Rgba, dx: real, dy: real): Rgba
  {
    Rgba(Channel(p00.r, p10.r, p01.r, p11.r, dx, dy),
         Channel(p00.g, p10.g, p01.g, p11.g, dx, dy),
         Channel(p00.b, p10.b, p01.b, p11.b, dx, dy),
         Channel(p00.a, p10.a, p01.a, p11.a, dx, dy))
  }

  /** A truncated interpolated channel lies between the smallest and largest corner. */
  lemma ChannelBetween(v00: int, v10: int, v01: int, v11: int, dx: real, dy: real, lo: int, hi: int)
    requires 0.0 <= dx <= 1.0 && 0.0 <= dy <= 1.0
    requires lo <= v00 <= hi && lo <= v10 <= hi && lo <= v01 <= hi && lo <= v11 <= hi
    ensures lo <= Channel(v00, v10, v01, v11, dx, dy) <= hi
  {
    var v := Bilinear(v00 as real, v10 as real, v01 as real, v11 as real, dx, dy);
    BilinearBetween(v00 as real, v10 as real, v01 as real, v11 as real, dx, dy);
    TruncMonotone(lo as real, v);
    TruncMonotone(v, hi as real);
    TruncOfInt(lo);
    TruncOfInt(hi);
  }

  /** Blending four well-formed pixels gives a well-formed pixel. */
  lemma BlendValid(p00: Rgba, p10: Rgba, p01: Rgba, p11: Rgba, dx: real, dy: real)
    requires 0.0 <= dx <= 1.0 && 0.0 <= dy <= 1.0
    requires ValidRgba(p00) && ValidRgba(p10) && ValidRgba(p01) && ValidRgba(p11)
    ensures ValidRgba(Blend(p00, p10, p01, p11, dx, dy))
  {
    ChannelBetween(p00.r, p10.r, p01.r, p11.r, dx, dy, 0, 255);
    ChannelBetween(p00.g, p10.g, p01.g, p11.g, dx, dy, 0, 255);
    ChannelBetween(p00.b, p10.b, p01.b, p11.b, dx, dy, 0, 255);
    ChannelBetween(p00.a, p10.a, p01.a, p11.a, dx, dy, 0, 255);
  }

  /** Blending four copies of one pixel gives that pixel back. */
  lemma BlendUniform(p: Rgba, dx: real, dy: real)
    ensures Blend(p, p, p, p, dx, dy) == p
  {
    BilinearExact(p.r as real, p.r as real, p.r as real, p.r as real, dx, dy);
    BilinearExact(p.g as real, p.g as real, p.g as real, p.g as real, dx, dy);
    BilinearExact(p.b as real, p.b as real, p.b as real, p.b as real, dx, dy);
    BilinearExact(p.a as real, p.a as real, p.a as real, p.a as real, dx, dy);
    TruncOfInt(p.r);
    TruncOfInt(p.g);
    TruncOfInt(p.b);
    TruncOfInt(p.a);
  }

  /** An image of sizeX columns of sizeY pixels each, indexed [x][y]. */
  predicate Shaped(img: seq<seq<Rgba>>, sizeX: int, sizeY: int)
  {
    |img| == sizeX && forall i :: 0 <= i < |img| ==> |img[i]| == sizeY
  }

  /** The pixels of an image array as a value. */
  function Pixels(a: array2<Rgba>): (img: seq<seq<Rgba>>)
    reads a
    ensures Shaped(img, a.Length0, a.Length1)
    ensures forall i, j :: 0 <= i < a.Length0 && 0 <= j < a.Length1 ==> img[i][j] == a[i, j]
  {
    seq(a.Length0, i reads a requires 0 <= i < a.Length0 =>
      seq(a.Length1, j reads a requires 0 <= j < a.Length1 => a[i, j]))
  }

  /** The source coordinate lies inside the source image. */
  predicate InSource(src: Point, sizeX: int, sizeY: int)
  {
    0.0 <= src.x < sizeX as real && 0.0 <= src.y < sizeY as real
  }

  /** The colour sampled at source coordinate src; transparent outside the image. */
  function SampleAt(img: seq<seq<Rgba>>, sizeX: int, sizeY: int, src: Point): Rgba
    requires Shaped(img, sizeX, sizeY)
  {
    if src.x < 0.0 || src.x >= sizeX as real || src.y < 0.0 || src.y >= sizeY as real then
      Transparent
    else
      var sx, sy := SourceSpan(src.x, sizeX), SourceSpan(src.y, sizeY);
      Blend(img[sx.lo][sy.lo], img[sx.hi][sy.lo], img[sx.lo][sy.hi], img[sx.hi][sy.hi],
            sx.offset, sy.offset)
  }

  /** Sampling a well-formed image gives a well-formed pixel. */
  lemma SampleAtValid(img: seq<seq<Rgba>>, sizeX: int, sizeY: int, src: Point)
    requires Shaped(img, sizeX, sizeY)
    requires forall i, j :: 0 <= i < sizeX && 0 <= j < sizeY ==> ValidRgba(img[i][j])
    ensures ValidRgba(SampleAt(img, sizeX, sizeY, src))
  {
    if InSource(src, sizeX, sizeY) {
      var sx, sy := SourceSpan(src.x, sizeX), SourceSpan(src.y, sizeY);
      BlendValid(img[sx.lo][sy.lo], img[sx.hi][sy.lo], img[sx.lo][sy.hi], img[sx.hi][sy.hi],
                 sx.offset, sy.offset);
    }
  }

  /** Sampling an image of one colour gives that colour inside it, transparency outside. */
  lemma SampleAtUniform(img: seq<seq<Rgba>>, sizeX: int, sizeY: int, src: Point, colour: Rgba)
    requires Shaped(img, sizeX, sizeY)
    requires forall i, j :: 0 <= i < sizeX && 0 <= j < sizeY ==> img[i][j] == colour
    ensures SampleAt(img, sizeX, sizeY, src) == if InSource(src, sizeX, sizeY) then colour else Transparent
  {
    if InSource(src, sizeX, sizeY) {
      var sx, sy := SourceSpan(src.x, sizeX), SourceSpan(src.y, sizeY);
      BlendUniform(colour, sx.offset, sy.offset);
    }
  }

  /** Sampling exactly at a source pixel returns that pixel unchanged. */
  lemma SampleAtPixel(img: seq<seq<Rgba>>, sizeX: int, sizeY: int, i: int, j: int)
    requires Shaped(img, sizeX, sizeY)
    requires 0 <= i < sizeX && 0 <= j < sizeY
    ensures SampleAt(img, sizeX, sizeY, Point(i as real, j as real)) == img[i][j]
  {
    var sx, sy := SourceSpan(i as real, sizeX), SourceSpan(j as real, sizeY);
    TruncOfInt(i);
    TruncOfInt(j);
    var p00, p10, p01, p11 := img[i][j], img[sx.hi][j], img[i][sy.hi], img[sx.hi][sy.hi];
    BilinearExact(p00.r as real, p10.r as real, p01.r as real, p11.r as real, 0.0, 0.0);
    BilinearExact(p00.g as real, p10.g as real, p01.g as real, p11.g as real, 0.0, 0.0);
    BilinearExact(p00.b as real, p10.b as real, p01.b as real, p11.b as real, 0.0, 0.0);
    BilinearExact(p00.a as real, p10.a as real, p01.a as real, p11.a as real, 0.0, 0.0);
    TruncOfInt(p00.r);
    TruncOfInt(p00.g);
    TruncOfInt(p00.b);
    TruncOfInt(p00.a);
  }

  /** The colour of destination pixel (xPix, yPix). */
  function DestinationPixel(img: seq<seq<Rgba>>, sizeX: int, sizeY: int, reverse: (int, int) -> Point,
                            quad: seq<Point>, width: int, height: int, xPix: int, yPix: int): Rgba
    requires width >= 2 && height >= 2
    requires Shaped(img, sizeX, sizeY)
    requires 0 <= xPix < width && 0 <= yPix < height
  {
    if !Containment.InsideQuad(Point(xPix as real, yPix as real), width, height, quad) then
      Transparent
    else
      SampleAt(img, sizeX, sizeY, InterpolateGrid(reverse, width, height, sizeX, sizeY, xPix, yPix))
  }

  /** A well-formed source image gives a well-formed destination image. */
  lemma DestinationPixelValid(img: seq<seq<Rgba>>, sizeX: int, sizeY: int, reverse: (int, int) -> Point,
                              quad: seq<Point>, width: int, height: int, xPix: int, yPix: int)
    requires width >= 2 && height >= 2
    requires Shaped(img, sizeX, sizeY)
    requires 0 <= xPix < width && 0 <= yPix < height
    requires forall i, j :: 0 <= i < sizeX && 0 <= j < sizeY ==> ValidRgba(img[i][j])
    ensures ValidRgba(DestinationPixel(img, sizeX, sizeY, reverse, quad, width, height, xPix, yPix))
  {
    SampleAtValid(img, sizeX, sizeY, InterpolateGrid(reverse, width, height, sizeX, sizeY, xPix, yPix));
  }

  /**
   * A source image of one colour gives that colour at every pixel inside the
   * quadrilateral whose source coordinate is in bounds, and transparency
   * everywhere else.
   */
  lemma DestinationPixelUniform(img: seq<seq<Rgba>>, sizeX: int, sizeY: int, reverse: (int, int) -> Point,
                                quad: seq<Point>, width: int, height: int, xPix: int, yPix: int, colour: Rgba)
    requires width >= 2 && height >= 2
    requires Shaped(img, sizeX, sizeY)
    requires 0 <= xPix < width && 0 <= yPix < height
    requires forall i, j :: 0 <= i < sizeX && 0 <= j < sizeY ==> img[i][j] == colour
    ensures DestinationPixel(img, sizeX, sizeY, reverse, quad, width, height, xPix, yPix)
            == if Containment.InsideQuad(Point(xPix as real, yPix as real), width, height, quad)
                  && InSource(InterpolateGrid(reverse, width, height, sizeX, sizeY, xPix, yPix), sizeX, sizeY)
               then colour else Transparent
  {
    SampleAtUniform(img, sizeX, sizeY, InterpolateGrid(reverse, width, height, sizeX, sizeY, xPix, yPix), colour);
  }

  /**
   * A destination pixel is transparent when it fails the containment test,
   * and also when its interpolated source coordinate falls outside the
   * source image.
   */
  lemma DestinationPixelTransparent(img: seq<seq<Rgba>>, sizeX: int, sizeY: int, reverse: (int, int) -> Point,
                                    quad: seq<Point>, width: int, height: int, xPix: int, yPix: int)
    requires width >= 2 && height >= 2
    requires Shaped(img, sizeX, sizeY)
    requires 0 <= xPix < width && 0 <= yPix < height
    requires || !Containment.InsideQuad(Point(xPix as real, yPix as real), width, height, quad)
             || !InSource(InterpolateGrid(reverse, width, height, sizeX, sizeY, xPix, yPix), sizeX, sizeY)
    ensures DestinationPixel(img, sizeX, sizeY, reverse, quad, width, height, xPix, yPix) == Transparent
  {
  }

  /** The write counter after one more write of pixel p. */
  ghost function CountWrite(writes: map<(int, int), nat>, p: (int, int)): map<(int, int), nat>
  {
    writes[p := (if p in writes then writes[p] else 0) + 1]
  }

  /** The pixels of the first `rows` rows and of the first `columns` pixels of the next row. */
  ghost predicate Visited(p: (int, int), width: int, rows: int, columns: int)
  {
    (0 <= p.0 < width && 0 <= p.1 < rows) || (0 <= p.0 < columns && p.1 == rows)
  }

  /** The grid nodes are those of GridNode; the grid is indexed [row, column]. */
  ghost predicate GridFilled(grid: array2<Point>, reverse: (int, int) -> Point,
                             width: int, height: int, sizeX: int, sizeY: int)
    reads grid
    requires width >= 1 && height >= 1
  {
    && grid.Length0 == GridSize + 1 && grid.Length1 == GridSize + 1
    && forall i, j :: 0 <= i <= GridSize && 0 <= j <= GridSize ==>
         grid[i, j] == GridNode(reverse, width, height, sizeX, sizeY, j, i)
  }

  /** The first pass: the reverse mapping at every grid node, scaled to source pixels. */
  method FillGrid(reverse: (int, int) -> Point, width: int, height: int, sizeX: int, sizeY: int)
    returns (grid: array2<Point>)
    requires width >= 1 && height >= 1
    ensures fresh(grid) && GridFilled(grid, reverse, width, height, sizeX, sizeY)
  {
    grid := new Point[GridSize + 1, GridSize + 1];
    for gy := 0 to GridSize + 1
      invariant forall i, j :: 0 <= i < gy && 0 <= j <= GridSize ==>
                  grid[i, j] == GridNode(reverse, width, height, sizeX, sizeY, j, i)
    {
      for gx := 0 to GridSize + 1
        invariant forall i, j :: 0 <= i < gy && 0 <= j <= GridSize ==>
                    grid[i, j] == GridNode(reverse, width, height, sizeX, sizeY, j, i)
        invariant forall j :: 0 <= j < gx ==> grid[gy, j] == GridNode(reverse, width, height, sizeX, sizeY, j, gy)
      {
        var xPix := NodePixel(gx, width);
        var yPix := NodePixel(gy, height);
        var src := reverse(xPix, yPix);
        grid[gy, gx] := Point(src.x * sizeX as real, src.y * sizeY as real);
      }
    }
  }

  /** The body of the second pass for one destination pixel: its colour. */
  method ResamplePixel(grid: array2<Point>, input: array2<Rgba>, sizeX: int, sizeY: int,
                       reverse: (int, int) -> Point, quad: seq<Point>, width: int, height: int,
                       xPix: int, yPix: int)
    returns (colour: Rgba)
    requires width >= 2 && height >= 2
    requires input.Length0 == sizeX && input.Length1 == sizeY
    requires 0 <= xPix < width && 0 <= yPix < height
    requires GridFilled(grid, reverse, width, height, sizeX, sizeY)
    ensures colour == DestinationPixel(Pixels(input), sizeX, sizeY, reverse, quad, width, height, xPix, yPix)
  {
    var inside := Containment.IsPointInQuad(Point(xPix as real, yPix as real), width, height, quad);
    if !inside {
      return Transparent;
    }
    var cx, cy := CellLookup(xPix, width), CellLookup(yPix, height);
    var gx, gy := cx.index, cy.index;
    var p00 := grid[gy, gx];
    var p10 := if gx < GridSize then grid[gy, gx + 1] else p00;
    var p01 := if gy < GridSize then grid[gy + 1, gx] else p00;
    var p11 := if gx < GridSize && gy < GridSize then grid[gy + 1, gx + 1] else p10;
    var x := Bilinear(p00.x, p10.x, p01.x, p11.x, cx.offset, cy.offset);
    var y := Bilinear(p00.y, p10.y, p01.y, p11.y, cx.offset, cy.offset);
    assert Point(x, y) == InterpolateGrid(reverse, width, height, sizeX, sizeY, xPix, yPix);
    if x < 0.0 || x >= sizeX as real || y < 0.0 || y >= sizeY as real {
      colour := Transparent;
    } else {
      var sx, sy := SourceSpan(x, sizeX), SourceSpan(y, sizeY);
      var p00Val := input[sx.lo, sy.lo];
      var p10Val := input[sx.hi, sy.lo];
      var p01Val := input[sx.lo, sy.hi];
      var p11Val := input[sx.hi, sy.hi];
      colour := Blend(p00Val, p10Val, p01Val, p11Val, sx.offset, sy.offset);
    }
  }

  /**
   * One row of the second pass: every pixel of row yPix, left to right.
   * Returns, as a ghost, the write counter with one more write per pixel of
   * the row.
   */
  method ResampleRow(output: array2<Rgba>, grid: array2<Point>, input: array2<Rgba>, sizeX: int, sizeY: int,
                     reverse: (int, int) -> Point, quad: seq<Point>, width: int, height: int, yPix: int,
                     ghost writes: map<(int, int), nat>)
    returns (ghost writes': map<(int, int), nat>)
    modifies output
    requires width >= 2 && height >= 2 && 0 <= yPix < height
    requires output != input && output.Length0 == width && output.Length1 == height
    requires input.Length0 == sizeX && input.Length1 == sizeY
    requires GridFilled(grid, reverse, width, height, sizeX, sizeY)
    requires forall p :: p in writes <==> Visited(p, width, yPix, 0)
    requires forall p :: p in writes ==> writes[p] == 1
    ensures forall x :: 0 <= x < width ==>
              output[x, yPix] == DestinationPixel(Pixels(input), sizeX, sizeY, reverse, quad, width, height, x, yPix)
    ensures forall x, y :: 0 <= x < width && 0 <= y < height && y != yPix ==> output[x, y] == old(output[x, y])
    ensures forall p :: p in writes' <==> Visited(p, width, yPix + 1, 0)
    ensures forall p :: p in writes' ==> writes'[p] == 1
  {
    writes' := writes;
    ghost var img := Pixels(input);
    for xPix := 0 to width
      invariant Pixels(input) == img
      invariant forall x :: 0 <= x < xPix ==>
                  output[x, yPix] == DestinationPixel(img, sizeX, sizeY, reverse, quad, width, height, x, yPix)
      invariant forall x, y :: 0 <= x < width && 0 <= y < height && y != yPix ==> output[x, y] == old(output[x, y])
      invariant forall p :: p in writes' <==> Visited(p, width, yPix, xPix)
      invariant forall p :: p in writes' ==> writes'[p] == 1
    {
      var colour := ResamplePixel(grid, input, sizeX, sizeY, reverse, quad, width, height, xPix, yPix);
      output[xPix, yPix] := colour;
      writes' := CountWrite(writes', (xPix, yPix));
    }
  }

  /**
   * Builds the destination image: first the grid, then every destination
   * pixel row by row. Returns the image and, as a ghost, how often each
   * pixel was written: every pixel of the canvas exactly once, and no other.
   */
  method TransformImage(width: int, height: int, sizeX: int, sizeY: int, input: array2<Rgba>,
                        reverse: (int, int) -> Point, quad: seq<Point>)
    returns (output: array2<Rgba>, ghost writes: map<(int, int), nat>)
    requires width >= 2 && height >= 2
    requires input.Length0 == sizeX && input.Length1 == sizeY
    ensures fresh(output) && output.Length0 == width && output.Length1 == height
    ensures forall x, y :: 0 <= x < width && 0 <= y < height ==>
              output[x, y] == DestinationPixel(Pixels(input), sizeX, sizeY, reverse, quad, width, height, x, y)
    ensures forall x, y :: 0 <= x < width && 0 <= y < height
              && !Containment.InsideQuad(Point(x as real, y as real), width, height, quad)
              ==> output[x, y] == Transparent
    ensures forall x, y :: 0 <= x < width && 0 <= y < height
              && !InSource(InterpolateGrid(reverse, width, height, sizeX, sizeY, x, y), sizeX, sizeY)
              ==> output[x, y] == Transparent
    ensures forall p :: p in writes <==> 0 <= p.0 < width && 0 <= p.1 < height
    ensures forall p :: p in writes ==> writes[p] == 1
  {
    output := new Rgba[width, height]((i, j) => Transparent);
    var grid := FillGrid(reverse, width, height, sizeX, sizeY);
    ghost var img := Pixels(input);
    writes := map[];
    for yPix := 0 to height
      invariant GridFilled(grid, reverse, width, height, sizeX, sizeY)
      invariant Pixels(input) == img
      invariant forall x, y :: 0 <= x < width && 0 <= y < yPix ==>
                  output[x, y] == DestinationPixel(img, sizeX, sizeY, reverse, quad, width, height, x, y)
      invariant forall p :: p in writes <==> Visited(p, width, yPix, 0)
      invariant forall p :: p in writes ==> writes[p] == 1
    {
      writes := ResampleRow(output, grid, input, sizeX, sizeY, reverse, quad, width, height, yPix, writes);
    }
  }
}
