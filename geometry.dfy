/**
 * The fixed board of the point-finding game and its pure helpers: the
 * integer coordinate range that is always visible, the affine maps between
 * graph units and canvas pixels, the mapping of a random sample to an
 * integer, and the click-tolerance test.
 *
 * Coordinates are real numbers; the browser's floating-point rounding is not
 * modelled.
 */
module Geometry {

  /** Integer coordinate range whose grid points are always visible. */
  const CoordMin: int := -6
  const CoordMax: int := 6

  /** Pixels per graph unit. */
  const UnitSize: real := 40.0

  /** Size of the canvas in pixels. */
  const CanvasWidth: int := 500
  const CanvasHeight: int := 500

  /** A click counts when it lies at most this many graph units from a target. */
  const ClickTolerance: real := 0.3

  /** A position on the canvas, in pixels; y grows downwards. */
  datatype CanvasPoint = CanvasPoint(canvasX: real, canvasY: real)

  /** A position on the graph, in graph units; y grows upwards. */
  datatype GraphPoint = GraphPoint(graphX: real, graphY: real)

  predicate InRange(n: int) {
    CoordMin <= n <= CoordMax
  }

  /** The graph's origin sits at the centre of the canvas. */
  function Origin(): CanvasPoint {
    CanvasPoint(CanvasWidth as real / 2.0, CanvasHeight as real / 2.0)
  }

  /** Graph units to pixels: scale by UnitSize, flip the y axis, shift to the origin. */
  function GraphToCanvas(x: real, y: real): (c: CanvasPoint)
    ensures CanvasToGraph(c.canvasX, c.canvasY) == GraphPoint(x, y)
  {
    CanvasPoint(Origin().canvasX + x * UnitSize, Origin().canvasY - y * UnitSize)
  }

  /** Pixels to graph units; the inverse of GraphToCanvas. */
  function CanvasToGraph(canvasX: real, canvasY: real): GraphPoint {
    GraphPoint((canvasX - Origin().canvasX) / UnitSize, (Origin().canvasY - canvasY) / UnitSize)
  }

  /** Mapping a canvas position to the graph and back gives the same position. */
  lemma CanvasRoundTrip(canvasX: real, canvasY: real)
    ensures var g := CanvasToGraph(canvasX, canvasY);
            GraphToCanvas(g.graphX, g.graphY) == CanvasPoint(canvasX, canvasY)
  {
  }

  /** Every integer grid point of the visible range is drawn at least ten pixels inside the canvas. */
  lemma GridPointVisible(x: int, y: int)
    requires InRange(x) && InRange(y)
    ensures var c := GraphToCanvas(x as real, y as real);
            && 10.0 <= c.canvasX <= 490.0 && 10.0 <= c.canvasY <= 490.0
            && 0.0 < c.canvasX < CanvasWidth as real && 0.0 < c.canvasY < CanvasHeight as real
  {
  }

  /**
   * Turns a sample r in [0, 1) into an integer in [min, max]: the sample is
   * scaled to the number of integers in the range, rounded down and shifted.
   */
  function RandInt(r: real, min: int, max: int): (n: int)
    requires 0.0 <= r < 1.0
    requires min <= max
    ensures min <= n <= max
  {
    var span := (max - min + 1) as real;
    ScaledSampleBelow(r, span);
    (r * span).Floor + min
  }

  lemma ScaledSampleBelow(r: real, span: real)
    requires 0.0 <= r < 1.0 && 1.0 <= span
    ensures 0.0 <= r * span < span
  {
    assert r * span < 1.0 * span;
  }

  /** Every integer of [min, max] is the result of some sample: the one at the start of its slice of [0, 1). */
  lemma RandIntReaches(min: int, max: int, n: int)
    requires min <= n <= max
    ensures var r := (n - min) as real / (max - min + 1) as real;
            0.0 <= r < 1.0 && RandInt(r, min, max) == n
  {
    var span := (max - min + 1) as real;
    var r := (n - min) as real / span;
    assert r * span == (n - min) as real;
    assert ((n - min) as real).Floor == n - min;
  }

  /**
   * The click at (gx, gy) lies within ClickTolerance of (px, py). The
   * Euclidean distance is compared through its square, which is equivalent
   * because both sides are non-negative.
   */
  predicate WithinTolerance(px: real, py: real, gx: real, gy: real) {
    (px - gx) * (px - gx) + (py - gy) * (py - gy) <= ClickTolerance * ClickTolerance
  }

  lemma SquareBound(d: real, e: real)
    requires d * d + e * e <= ClickTolerance * ClickTolerance
    ensures -ClickTolerance <= d <= ClickTolerance
  {
    assert e * e >= 0.0;
  }

  /** A click within tolerance lies within ClickTolerance of the target along each axis. */
  lemma WithinToleranceBox(px: real, py: real, gx: real, gy: real)
    requires WithinTolerance(px, py, gx, gy)
    ensures -ClickTolerance <= px - gx <= ClickTolerance
    ensures -ClickTolerance <= py - gy <= ClickTolerance
  {
    SquareBound(px - gx, py - gy);
    SquareBound(py - gy, px - gx);
  }

  /**
   * The tolerance discs of two different grid points never overlap: one click
   * is within tolerance of at most one integer point.
   */
  lemma ToleranceSeparatesGridPoints(ax: int, ay: int, qx: int, qy: int, gx: real, gy: real)
    requires WithinTolerance(ax as real, ay as real, gx, gy)
    requires WithinTolerance(qx as real, qy as real, gx, gy)
    ensures ax == qx && ay == qy
  {
    WithinToleranceBox(ax as real, ay as real, gx, gy);
    WithinToleranceBox(qx as real, qy as real, gx, gy);
  }

  /**
   * A click within 0.2 units of a target along both axes is always within
   * tolerance. The bound 0.2 is a sample inner box, chosen just below
   * 0.3 / sqrt(2) (about 0.212); it shows that the tolerance disc holds a
   * whole square of clicks around each target.
   */
  lemma NearClickWithinTolerance(px: real, py: real, gx: real, gy: real)
    requires -0.2 <= px - gx <= 0.2 && -0.2 <= py - gy <= 0.2
    ensures WithinTolerance(px, py, gx, gy)
  {
    var dx, dy := px - gx, py - gy;
    assert dx * dx <= 0.04 by {
      if dx >= 0.0 { assert dx * dx <= 0.2 * dx; } else { assert dx * dx <= -0.2 * dx; }
    }
    assert dy * dy <= 0.04 by {
      if dy >= 0.0 { assert dy * dy <= 0.2 * dy; } else { assert dy * dy <= -0.2 * dy; }
    }
  }
}
