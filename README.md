# Piranesi perspective warp: a Dafny model

Piranesi warps a rectangular source image onto a quadrilateral of a
destination canvas. It first solves, at the nodes of a coarse 65 x 65 grid, for
the unit-square point that the forward (Piranesi) mapping sends to each node
pixel. Every destination pixel inside the quadrilateral then interpolates its
source coordinate from the grid and blends the four source pixels around it.
This project models the core of `piranesi.py` over exact `real` arithmetic:

- `Geometry` (`geometry.dfy`): vector helpers, the slope/intercept line through two
  points with its 1e-11 fallback for a zero x-delta, and line intersection with
  its (0.5, 0.5) fallback for equal slopes.
- `Containment` (`containment.dfy`): the even-odd ray-casting test. The
  quadrilateral is passed in as a parameter instead of being read from the
  module-level `quad_points` global. The loop is the method `IsPointInQuad`.
  It is proved equal to the specification function `InsideAfter`, and the
  bounding-box facts are proved about that function.
- `InverseSolver` (`inverse_solver.dfy`): the `_reverse` closure of `main`.
  One iteration is the function `Step`. The loop body is the method `Iterate`,
  proved equal to `Step`. The loop itself is the method `Reverse`, proved equal to
  the specification function `Refine`, which repeats `Step`. The forward
  mapping is a parameter: any total function from unit-square coordinates to
  pixels.
- `Resampler` (`resampler.dfy`): `transform_image`. The method `FillGrid` runs
  the grid pass over a `65 x 65` array. `ResamplePixel` computes one
  destination pixel. `ResampleRow` runs the inner loop over one row.
  `TransformImage` runs the outer loop and writes every pixel of a fresh
  output array. The source image is a read-only `array2<Rgba>` indexed
  `[x, y]`. The specification functions (`SampleAt`, `DestinationPixel`) read
  it as a value, `Pixels(input)`: a sequence of columns indexed `[x][y]`. The
  reverse mapping is a function parameter.

Python's `int()` on a float truncates toward zero; it is modelled by `Trunc`.
Python's true division of ints becomes real division. `max(0, min(1, v))` is `Clamp01`.
The output is created transparent, as `Image.new(..., (0, 0, 0, 0))` does.

Where the source's loop body is split across helpers, the control flow is
unchanged:
- `ResamplePixel` returns early where the source uses `continue`.
- `Reverse` keeps the early `return` and the `break`.

## Model

| member | source | states |
|---|---|---|
| Geometry.Subtract | piranesi.py:351-352 | adding the subtrahend back gives the minuend (Add is its inverse) |
| Geometry.Add | piranesi.py:356-357 | component-wise sum. Subtracting the second argument back gives the first, and the sum is symmetric |
| Geometry.Scale | piranesi.py:366-367 | both components multiplied by the factor. Factor 0 gives the zero vector and factor 1 the vector itself |
| Geometry.AddSubtractInverse | piranesi.py:351-357 | add_2d and subtract_2d undo each other in both orders |
| Geometry.EdgeWalk | piranesi.py:356-367 | walking from p along q - p scaled by t gives p at t = 0 and q at t = 1. For a non-vertical p, q the point lies on the line through p and q for every t |
| Geometry.PointsToLine | piranesi.py:322-334 | the line passes through p0. When the x values differ it also passes through p1 and its slope is dy/dx. When they are equal the slope is dy / 1e-11 |
| Geometry.LineIntersection | piranesi.py:338-347 | equal slopes give exactly (0.5, 0.5). Otherwise the point satisfies both line equations |
| Geometry.IntersectionUnique | piranesi.py:343-347 | for two lines of different slope, any point on both is the returned point |
| Containment.Normalize | piranesi.py:377-378 | one normalized corner per corner. Each is the corner divided by width and height |
| Containment.Straddles | piranesi.py:385 | an edge whose ends are on opposite sides of the ray has distinct end y values, so the division at piranesi.py:389 is never by zero |
| Containment.IsPointInQuad | piranesi.py:371-395 | the loop's result is the even-odd flag InsideAfter after all edges. Each edge runs from corner j (the previous corner, starting with the last) to corner i |
| Containment.HorizontalEdgeNeverToggles | piranesi.py:385-392 | an edge with equal normalized y at both ends never toggles the flag |
| Containment.CrossingBetweenEnds | piranesi.py:386-390 | the crossing x of a straddling edge lies between the edge's two x values |
| Containment.CrossingX | piranesi.py:387-390 | for a straddling edge from corner j to corner i: (x_j - x_i) * (y - y_i) / (y_j - y_i) + x_i, the x where the edge meets the horizontal line at y (no contract; CrossingBetweenEnds bounds it) |
| Containment.Toggles | piranesi.py:385-391 | the whole condition of the if at piranesi.py:385: the edge straddles y and the point lies left of the crossing (no contract; HorizontalEdgeNeverToggles is about it) |
| Containment.InsideAfter | piranesi.py:381-393 | the value of `inside` after the first k edges: false for k = 0, flipped at edge k-1 when that edge toggles (no contract; IsPointInQuad is proved equal to it, and the Outside lemmas are about it) |
| Containment.InsideQuad | piranesi.py:371-395 | the verdict for a pixel: InsideAfter over all edges of the normalized corners, at the normalized pixel (no contract; IsPointInQuad and OutsideBoundingBox are about it) |
| Containment.NoStraddleOutside | piranesi.py:381-395 | if no edge straddles the point's y, the result is false |
| Containment.AboveOrBelowAllOutside | piranesi.py:381-395 | a point above every corner, or at or below every corner, is outside |
| Containment.RightOfAllOutside | piranesi.py:381-395 | a point whose normalized x is at least every corner's x is outside |
| Containment.LeftOfAllFlag | piranesi.py:381-395 | left of every corner, the flag after k edges is whether corner k-1 and the last corner lie on different sides of y |
| Containment.LeftOfAllOutside | piranesi.py:381-395 | a point left of every corner is outside, because a closed polygon has an even number of straddling edges |
| Containment.OutsideBoundingBox | piranesi.py:371-395 | on a canvas of positive size, a pixel outside the corners' bounding box is classified outside |
| InverseSolver.Clamp01 | piranesi.py:155-156 | the result is in [0, 1]. It is v itself when v is in [0, 1], 0 below and 1 above |
| InverseSolver.Abs | piranesi.py:143 | the result is non-negative and is v or -v |
| InverseSolver.RefineInUnitSquare | piranesi.py:124-165 | from a guess in the unit square, the iterations end in the unit square whatever the forward mapping |
| InverseSolver.SolveInUnitSquare | piranesi.py:113-165 | the reverse mapping of every destination pixel lies in [0,1] x [0,1] |
| InverseSolver.FlatForwardGivesCentre | piranesi.py:118-144 | a forward mapping that does not change under the x step returns the initial guess (0.5, 0.5) at once |
| InverseSolver.Step | piranesi.py:126-156 | one iteration either reports a flat finite difference or produces a next guess, and that guess always lies in [0,1] x [0,1] |
| InverseSolver.Iterate | piranesi.py:126-156 | the loop body reports a flat difference exactly when Step does. Otherwise it returns Step's next guess, which lies in [0,1] x [0,1] |
| InverseSolver.Converged | piranesi.py:159 | both coordinates moved by less than 1e-7 since the previous guess (no contract) |
| InverseSolver.Refine | piranesi.py:124-165 | what is left of the loop from guess (x, y) with fuel iterations to go: the guess itself at fuel 0 or on a flat difference, the next guess once Converged, otherwise the rest of the loop from the next guess (no contract; Reverse is proved equal to it, RefineInUnitSquare bounds it) |
| InverseSolver.Solve | piranesi.py:113-165 | _reverse for pixel (x_r, y_r): Refine with 11 iterations from (0.5, 0.5), towards the pixel divided by width and height (no contract; Reverse and SolveInUnitSquare are about it) |
| InverseSolver.Reverse | piranesi.py:113-165 | the loop returns the result of Refine from (0.5, 0.5) with 11 iterations: it returns early on a finite difference below 1e-10 and stops once both axes move by less than 1e-7. The result lies in [0,1] x [0,1], and between 1 and 11 iterations run |
| Resampler.Trunc | piranesi.py:206-207 | int() of a float: the greatest integer at or below a non-negative value, the least at or above a non-positive one |
| Resampler.TruncMonotone | piranesi.py:286-312 | truncation preserves order |
| Resampler.NodePixel | piranesi.py:206-207 | for 0 <= grid_x <= 64, the node pixel is in [0, n-1]. It is 0 for the first node and n-1 for the last |
| Resampler.CellLookup | piranesi.py:224-238 | after clamping, the cell index is in [0, 63] and the offset in [0, 1], so index + 1 is a grid node. Index plus offset is the cell position. The offset is 1 exactly at the last pixel |
| Resampler.CellPosition | piranesi.py:224-225 | the cell position pix * 64 / (n - 1) lies in [0, 64] and is 64 exactly at the last pixel |
| Resampler.SplitPosition | piranesi.py:227-238 | int() of the position, clamped to 63, and the remainder: index in [0, 63], offset in [0, 1], index + offset is the position, offset 1 exactly at position 64 |
| Resampler.Bilinear | piranesi.py:251-263 | v00 (1-dx)(1-dy) + v10 dx (1-dy) + v01 (1-dx) dy + v11 dx dy, the interpolation applied to both coordinates (no contract; BilinearWeights, BilinearBetween and BilinearExact are about it) |
| Resampler.BilinearWeights | piranesi.py:251-263 | for offsets in [0, 1] the four bilinear weights are non-negative and sum to 1 |
| Resampler.BilinearBetween | piranesi.py:251-263 | the interpolated value lies between the least and the greatest corner value |
| Resampler.BilinearExact | piranesi.py:251-263 | interpolation gives each corner value at that corner, and a constant wherever the four corners are equal |
| Resampler.GridNodeInSource | piranesi.py:210-213 | when the reverse mapping lands in the unit square, a grid node lies in [0, size_x] x [0, size_y] |
| Resampler.GridNode | piranesi.py:205-213 | grid entry [grid_y][grid_x]: the reverse mapping at the node pixels NodePixel(grid_x, width), NodePixel(grid_y, height), scaled by size_x and size_y (no contract; FillGrid is proved equal to it, GridNodeInSource bounds it) |
| Resampler.InterpolateGrid | piranesi.py:224-263 | the source coordinate of a destination pixel: CellLookup on both axes, the four surrounding grid nodes with the source's fallbacks at the last node, and Bilinear of each coordinate (no contract; InterpolateGridInSource bounds it) |
| Resampler.InterpolateGridInSource | piranesi.py:240-263 | when the reverse mapping lands in the unit square, the interpolated source coordinate lies in [0, size_x] x [0, size_y] |
| Resampler.SolverGridInSource | piranesi.py:176-178 | with the solver as the reverse mapping, the interpolated source coordinate lies in [0, size_x] x [0, size_y] whatever the forward mapping |
| Resampler.SourceSpan | piranesi.py:270-276 | for 0 <= x < size the source indices satisfy 0 <= x_floor <= x_ceil <= size-1, and x_ceil is x_floor + 1 except at the last pixel. The offset is in [0, 1) |
| Resampler.ChannelBetween | piranesi.py:286-291 | a truncated interpolated channel lies between bounds of its four integer corners |
| Resampler.Channel | piranesi.py:286-291 | one channel: int() of Bilinear over the four corner values (no contract; ChannelBetween bounds it) |
| Resampler.Blend | piranesi.py:286-312 | the four channels r, g, b, a, each taken by Channel from the four source pixels with the same offsets (no contract; BlendValid and BlendUniform are about it) |
| Resampler.BlendValid | piranesi.py:286-314 | blending four pixels with channels in 0..255 gives channels in 0..255, alpha included |
| Resampler.BlendUniform | piranesi.py:286-314 | blending four copies of a pixel gives that pixel |
| Resampler.SampleAtValid | piranesi.py:265-314 | sampling an image whose channels are in 0..255 gives a pixel whose channels are in 0..255 |
| Resampler.SampleAtUniform | piranesi.py:265-314 | sampling a one-colour image gives the colour in bounds and (0,0,0,0) out of bounds |
| Resampler.SampleAtPixel | piranesi.py:270-314 | sampling at integer coordinates inside the image returns that source pixel unchanged |
| Resampler.SampleAt | piranesi.py:266-314 | (0,0,0,0) when the source coordinate is outside [0, size_x) x [0, size_y), otherwise Blend of the pixels at SourceSpan on both axes (no contract; the SampleAt lemmas are about it) |
| Resampler.DestinationPixel | piranesi.py:218-314 | (0,0,0,0) when the pixel fails the containment test, otherwise SampleAt at the InterpolateGrid coordinate (no contract; ResamplePixel and TransformImage are proved equal to it, and the DestinationPixel lemmas are about it) |
| Resampler.DestinationPixelValid | piranesi.py:216-314 | a source with channels in 0..255 gives destination pixels with channels in 0..255 |
| Resampler.DestinationPixelUniform | piranesi.py:216-314 | a one-colour source gives that colour inside the quadrilateral where the source coordinate is in bounds, and (0,0,0,0) elsewhere |
| Resampler.DestinationPixelTransparent | piranesi.py:219-267 | a pixel that fails the containment test, or whose interpolated source coordinate is outside the source image, is (0,0,0,0) |
| Resampler.FillGrid | piranesi.py:198-213 | every grid entry [grid_y][grid_x] is the reverse mapping at the node pixels, scaled by the source size |
| Resampler.ResamplePixel | piranesi.py:218-314 | the colour of one destination pixel is DestinationPixel: (0,0,0,0) outside the quadrilateral or out of source bounds, and the blended source pixels otherwise |
| Resampler.ResampleRow | piranesi.py:217-314 | after one row, every pixel of that row is DestinationPixel. Every other row is unchanged. The ghost write count gains exactly one write for each pixel of the row |
| Resampler.TransformImage | piranesi.py:193-316 | the output is width x height. Every pixel is DestinationPixel. Every pixel failing the containment test, and every pixel whose interpolated source coordinate is outside the source image, is (0,0,0,0). The ghost write count is exactly 1 for every pixel of the canvas and there are no other writes |

## Left out

- The command line, image I/O and the no-alpha conversion are not modelled: argparse, `Image.open`, `convert`, `save` and the filename regex of `main` (piranesi.py:41-55, 167-187).
- The edge scale factors `k_ab` .. `k_da` and `distance_2d` are not modelled because they need a square root (piranesi.py:76-81, 361-362). The vanishing points of `main` (piranesi.py:66-74) only feed those factors, so they are left out too.
- `_forward` (piranesi.py:84-110) is not modelled: it raises k to a real power, which has no Dafny counterpart. The solver takes it as an arbitrary total function instead, so no property of the solver depends on it. There is no special case for k = 1 here, and the source has none.
- IEEE-754 behaviour is not modelled. Arithmetic is exact over `real`. The constants 1e-11, 1e-10, 1e-7 and 0.001 are their exact decimal values. So negative zero, NaN, overflow and rounding are not captured. How well `_reverse` converges, and how accurate the forward/reverse round trip is, are numerical questions outside this model; only the bounds and termination are proved.
- Resampler.TransformImage requires width and height of at least 2. The source divides by `width - 1` and `height - 1` for every pixel that passes the containment test, so it fails with a 1-pixel-wide or 1-pixel-high canvas unless no pixel is inside.
- Resampler.TransformImage: the source image is an array with `size_x` and `size_y` as its dimensions. How PIL's pixel access objects store pixels is not modelled. The source reloads `input_image.load()` for every in-bounds pixel inside the quadrilateral; here the source array is read directly, because loading has no effect on the pixel values.
- InverseSolver.Reverse: the iteration count is ghost. The source does not return it.
