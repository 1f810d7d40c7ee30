/**
 * The reverse mapping: from a destination pixel to the unit-square point
 * whose forward image approximates it, by a damped, axis-decoupled
 * finite-difference iteration. The forward mapping is a parameter: any total
 * function from unit-square coordinates to destination pixel coordinates.
 */
module InverseSolver {
  import opened Geometry

  /** Iteration budget (the loop runs over range(11)). */
  const MaxIterations: nat := 11

  /** Finite-difference step along each axis (0.001). */
  const StepSize: real := 0.001

  /** A finite difference below this gives up (1e-10). */
  const DerivativeEpsilon: real := 0.0000000001

  /** Two successive guesses closer than this on both axes have converged (1e-7). */
  const ConvergenceEpsilon: real := 0.0000001

  function Abs(v: real): (r: real)
    ensures r >= 0.0 && (r == v || r == -v)
  {
    if v < 0.0 then -v else v
  }

  /** max(0, min(1, v)). */
  function Clamp01(v: real): (r: real)
    ensures 0.0 <= r <= 1.0
    ensures 0.0 <= v <= 1.0 ==> r == v
    ensures v < 0.0 ==> r == 0.0
    ensures v > 1.0 ==> r == 1.0
  {
    var m := if v < 1.0 then v else 1.0;
    if m > 0.0 then m else 0.0
  }

  /** The unit square [0,1] x [0,1]. */
  predicate InUnitSquare(p: Point)
  {
    0.0 <= p.x <= 1.0 && 0.0 <= p.y <= 1.0
  }

  /** The outcome of one iteration: a flat finite difference, or the next guess. */
  datatype Probe = Flat | Moved(next: Point)

  /**
   * One iteration from guess (x, y) towards the target (tx, ty), in
   * canvas-normalized coordinates: probe the forward mapping at the guess
   * and one step along each axis, give up on a flat difference, otherwise
   * move half a step per unit of remaining error and clamp to [0, 1].
   */
  function Step(forward: (real, real) -> Point, tx: real, ty: real, width: int, height: int,
                x: real, y: real): (r: Probe)
    requires width != 0 && height != 0
    ensures r.Moved? ==> InUnitSquare(r.next)
  {
    var w, h := width as real, height as real;
    var p0, p1, p2 := forward(x, y), forward(x + StepSize, y), forward(x, y + StepSize);
    var x0, y0 := p0.x / w, p0.y / h;
    var x1, y2 := p1.x / w, p2.y / h;
    if Abs(x1 - x0) < DerivativeEpsilon || Abs(y2 - y0) < DerivativeEpsilon then Flat
    else
      Moved(Point(Clamp01(x + (tx - x0) / (x1 - x0) * StepSize / 2.0),
                  Clamp01(y + (ty - y0) / (y2 - y0) * StepSize / 2.0)))
  }

  /** Two successive guesses closer than ConvergenceEpsilon on both axes. */
  predicate Converged(p: Point, x: real, y: real)
  {
    Abs(p.x - x) < ConvergenceEpsilon && Abs(p.y - y) < ConvergenceEpsilon
  }

  /**
   * What remains of the iteration from guess (x, y) with `fuel` iterations
   * left. The previous guess is always the current one when an iteration
   * starts, so the convergence test compares the new guess with (x, y).
   */
  function Refine(forward: (real, real) -> Point, tx: real, ty: real, width: int, height: int,
                  fuel: nat, x: real, y: real): Point
    requires width != 0 && height != 0
    decreases fuel
  {
    if fuel == 0 then Point(x, y)
    else
      match Step(forward, tx, ty, width, height, x, y)
      case Flat => Point(x, y)
      case Moved(p) =>
        if Converged(p, x, y) then p
        else Refine(forward, tx, ty, width, height, fuel - 1, p.x, p.y)
  }

  /** The whole iteration for destination pixel (xr, yr), from the centre guess. */
  function Solve(forward: (real, real) -> Point, xr: int, yr: int, width: int, height: int): Point
    requires width != 0 && height != 0
  {
    Refine(forward, xr as real / width as real, yr as real / height as real,
           width, height, MaxIterations, 0.5, 0.5)
  }

  /** Whatever the forward mapping, a guess in the unit square stays there. */
  lemma {:induction false} RefineInUnitSquare(forward: (real, real) -> Point, tx: real, ty: real,
                                              width: int, height: int, fuel: nat, x: real, y: real)
    requires width != 0 && height != 0
    requires 0.0 <= x <= 1.0 && 0.0 <= y <= 1.0
    ensures InUnitSquare(Refine(forward, tx, ty, width, height, fuel, x, y))
    decreases fuel
  {
    if fuel > 0 {
      match Step(forward, tx, ty, width, height, x, y)
      case Flat =>
      case Moved(p) =>
        if !Converged(p, x, y) {
          RefineInUnitSquare(forward, tx, ty, width, height, fuel - 1, p.x, p.y);
        }
    }
  }

  /** The reverse mapping of any destination pixel lies in the unit square. */
  lemma SolveInUnitSquare(forward: (real, real) -> Point, xr: int, yr: int, width: int, height: int)
    requires width != 0 && height != 0
    ensures InUnitSquare(Solve(forward, xr, yr, width, height))
  {
    RefineInUnitSquare(forward, xr as real / width as real, yr as real / height as real,
                       width, height, MaxIterations, 0.5, 0.5);
  }

  /**
   * A forward mapping that does not move under a small step ends the search
   * at once, at the centre of the square.
   */
  lemma FlatForwardGivesCentre(forward: (real, real) -> Point, xr: int, yr: int, width: int, height: int)
    requires width != 0 && height != 0
    requires forward(0.5 + StepSize, 0.5) == forward(0.5, 0.5)
    ensures Solve(forward, xr, yr, width, height) == Point(0.5, 0.5)
  {
  }

  /**
   * The body of one solver iteration, as statements: probe the forward
   * mapping at the guess and one step along each axis; report a flat
   * difference, or return the moved and clamped guess. Step is its
   * specification. The body is kept out of Reverse so that the proof that
   * it agrees with Step does not have to carry the unfoldings of Refine.
   */
  method Iterate(forward: (real, real) -> Point, xrNorm: real, yrNorm: real, width: int, height: int,
                 x: real, y: real)
    returns (flat: bool, nx: real, ny: real)
    requires width != 0 && height != 0
    ensures flat <==> Step(forward, xrNorm, yrNorm, width, height, x, y) == Flat
    ensures !flat ==> Step(forward, xrNorm, yrNorm, width, height, x, y) == Moved(Point(nx, ny))
    ensures !flat ==> 0.0 <= nx <= 1.0 && 0.0 <= ny <= 1.0
  {
    var w, h := width as real, height as real;
    var p0 := forward(x, y);
    var x0Norm, y0Norm := p0.x / w, p0.y / h;
    var p1 := forward(x + StepSize, y);
    var p2 := forward(x, y + StepSize);
    var x1Norm, y1Norm := p1.x / w, p1.y / h;
    var x2Norm, y2Norm := p2.x / w, p2.y / h;
    if Abs(x1Norm - x0Norm) < DerivativeEpsilon || Abs(y2Norm - y0Norm) < DerivativeEpsilon {
      return true, x, y;
    }
    var xMult := (xrNorm - x0Norm) / (x1Norm - x0Norm);
    var yMult := (yrNorm - y0Norm) / (y2Norm - y0Norm);
    nx := x + xMult * StepSize / 2.0;
    ny := y + yMult * StepSize / 2.0;
    nx := Clamp01(nx);
    ny := Clamp01(ny);
    flat := false;
  }

  /**
   * The solver loop. Returns the final guess and, as a ghost, how many
   * iterations began; the guess is always in the unit square.
   */
  method Reverse(forward: (real, real) -> Point, xr: int, yr: int, width: int, height: int)
    returns (x: real, y: real, ghost iterations: nat)
    requires width != 0 && height != 0
    ensures Point(x, y) == Solve(forward, xr, yr, width, height)
    ensures 0.0 <= x <= 1.0 && 0.0 <= y <= 1.0
    ensures 1 <= iterations <= MaxIterations
  {
    var xrNorm, yrNorm := xr as real / width as real, yr as real / height as real;
    x, y := 0.5, 0.5;
    var lastX, lastY := x, y;
    iterations := 0;
    for i := 0 to MaxIterations
      invariant iterations == i
      invariant lastX == x && lastY == y
      invariant 0.0 <= x <= 1.0 && 0.0 <= y <= 1.0
      invariant Refine(forward, xrNorm, yrNorm, width, height, MaxIterations - i, x, y)
                == Solve(forward, xr, yr, width, height)
    {
      iterations := iterations + 1;
      var flat, nx, ny := Iterate(forward, xrNorm, yrNorm, width, height, x, y);
      if flat {
        return;
      }
      x, y := nx, ny;
      if Abs(x - lastX) < ConvergenceEpsilon && Abs(y - lastY) < ConvergenceEpsilon {
        break;
      }
      lastX, lastY := x, y;
    }
  }
}
