/**
 * Landmarks and the planar distance between two of them (`distance` in app.js).
 *
 * `distance` calls `Math.hypot`, the square root of the sum of squares. A real
 * square root cannot be computed over Dafny's `real`, so hypot is passed in as a
 * function value; `IsHypot` states the one law it obeys, and every property of
 * distances below is proved from that law alone.
 */
module Geometry {

  /** A normalized image-space point; depth and visibility are never read by the scorer. */
  datatype Point = Point(x: real, y: real)

  /** A detected pose: landmarks in the pose model's fixed order. */
  type Pose = seq<Point>

  /** `hypot` returns the non-negative square root of dx*dx + dy*dy. */
  ghost predicate IsHypot(hypot: (real, real) -> real)
  {
    forall dx: real, dy: real :: 0.0 <= hypot(dx, dy) && hypot(dx, dy) * hypot(dx, dy) == dx * dx + dy * dy
  }

  function Abs(v: real): (r: real)
    ensures 0.0 <= r && (r == v || r == -v)
  {
    if v < 0.0 then -v else v
  }

  /** `distance(a, b)`: hypot of the coordinate differences. */
  function Distance(hypot: (real, real) -> real, a: Point, b: Point): real
  {
    hypot(a.x - b.x, a.y - b.y)
  }

  /** Squaring is strictly increasing on the non-negative reals. */
  lemma SquareStrictlyIncreasing(a: real, b: real)
    requires 0.0 <= a && a < b
    ensures a * a < b * b
  {
    var aa, ab, bb := a * a, a * b, b * b;
    assert aa <= ab;
    assert ab < bb;
  }

  /** A sum of two squares vanishes only when both terms do. */
  lemma SquareZero(dx: real, dy: real)
    requires dx * dx + dy * dy == 0.0
    ensures dx == 0.0 && dy == 0.0
  {
    if dx != 0.0 {
      SquareStrictlyIncreasing(0.0, Abs(dx));
    }
    if dy != 0.0 {
      SquareStrictlyIncreasing(0.0, Abs(dy));
    }
  }

  /** Two non-negative numbers with equal squares are equal. */
  lemma SquareRootUnique(a: real, b: real)
    requires 0.0 <= a && 0.0 <= b && a * a == b * b
    ensures a == b
  {
    if a < b {
      SquareStrictlyIncreasing(a, b);
    } else if b < a {
      SquareStrictlyIncreasing(b, a);
    }
  }

  /** hypot depends only on the sum of squares of its arguments. */
  lemma HypotBySquares(hypot: (real, real) -> real, dx: real, dy: real, ex: real, ey: real)
    requires IsHypot(hypot)
    requires dx * dx + dy * dy == ex * ex + ey * ey
    ensures hypot(dx, dy) == hypot(ex, ey)
  {
    SquareRootUnique(hypot(dx, dy), hypot(ex, ey));
  }

  /** hypot of an axis-aligned offset is the absolute value of that offset. */
  lemma HypotAxis(hypot: (real, real) -> real, d: real)
    requires IsHypot(hypot)
    ensures hypot(d, 0.0) == Abs(d)
  {
    SquareRootUnique(hypot(d, 0.0), Abs(d));
  }

  lemma DistanceNonNegative(hypot: (real, real) -> real, a: Point, b: Point)
    requires IsHypot(hypot)
    ensures 0.0 <= Distance(hypot, a, b)
  {
  }

  lemma DistanceSymmetric(hypot: (real, real) -> real, a: Point, b: Point)
    requires IsHypot(hypot)
    ensures Distance(hypot, a, b) == Distance(hypot, b, a)
  {
    HypotBySquares(hypot, a.x - b.x, a.y - b.y, b.x - a.x, b.y - a.y);
  }

  /** The distance vanishes exactly between coinciding points. */
  lemma DistanceZeroIff(hypot: (real, real) -> real, a: Point, b: Point)
    requires IsHypot(hypot)
    ensures Distance(hypot, a, b) == 0.0 <==> a == b
  {
    var dx, dy := a.x - b.x, a.y - b.y;
    if Distance(hypot, a, b) == 0.0 {
      SquareZero(dx, dy);
    } else if a == b {
      HypotAxis(hypot, 0.0);
    }
  }
}
