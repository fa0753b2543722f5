/**
 * Shared vocabulary of the sticker-placement pipeline: points, the rotated
 * rectangle reported by the rectangle-fitting primitive, the external image
 * primitives as uninterpreted function values, Python's int() on floats and
 * the first-extremum searches that numpy's argmin and Python's max perform.
 */
module Geometry {

  datatype Option<+T> = None | Some(value: T)

  /** A point with real coordinates (a rectangle centre or a fitted corner). */
  datatype Point = Point(x: real, y: real)

  /** An integer pixel coordinate (x to the right, y downwards). */
  datatype IntPoint = IntPoint(x: int, y: int)

  /** ((cx, cy), (width, height), angle) as returned by minAreaRect. */
  datatype RotatedRect = RotatedRect(center: Point, width: real, height: real, angle: real)

  /** The four corners that boxPoints reports, in its cyclic order. */
  type RealQuad = s: seq<Point> | |s| == 4
    witness [Point(0.0, 0.0), Point(0.0, 0.0), Point(0.0, 0.0), Point(0.0, 0.0)]

  /** The four corners after conversion to integer pixels. */
  type Quad = s: seq<IntPoint> | |s| == 4
    witness [IntPoint(0, 0), IntPoint(0, 0), IntPoint(0, 0), IntPoint(0, 0)]

  /** A closed boundary traced by the contour primitive. */
  type Contour = seq<IntPoint>

  /** The range of a two-argument arctangent, in degrees. */
  type Degrees = d: real | -180.0 < d <= 180.0 witness 0.0

  /**
   * The image-processing primitives the core calls. They are left
   * uninterpreted: nothing is assumed about them beyond their types.
   */
  datatype Primitives = Primitives(
    contourArea: Contour -> real,
    arcLength: Contour -> real,                  // closed = True
    approxPolyDP: (Contour, real) -> Contour,    // closed = True, tolerance epsilon
    minAreaRect: Contour -> RotatedRect,
    boxPoints: RotatedRect -> RealQuad,
    pointPolygonTest: (Quad, IntPoint) -> real,  // signed distance, >= 0 inside or on the edge
    atan2Degrees: (real, real) -> Degrees)       // degrees(arctan2(y, x))

  function MaxInt(a: int, b: int): int { if a >= b then a else b }
  function MinInt(a: int, b: int): int { if a <= b then a else b }
  function MaxReal(a: real, b: real): real { if a >= b then a else b }
  function MinReal(a: real, b: real): real { if a <= b then a else b }

  /** n is x with its fractional part dropped, toward zero. */
  predicate IsTruncation(x: real, n: int) {
    if x >= 0.0 then n as real <= x < n as real + 1.0
    else n as real - 1.0 < x <= n as real
  }

  /** Python's int() on a float: truncation toward zero, not floor. */
  function Trunc(x: real): (n: int)
    ensures IsTruncation(x, n)
    ensures x >= 0.0 ==> n >= 0
    ensures x <= 0.0 ==> n <= 0
  {
    if x >= 0.0 then x.Floor else -((-x).Floor)
  }

  /** Truncation of a real is unique, so a truncated integer is itself. */
  lemma TruncUnique(x: real, n: int)
    requires IsTruncation(x, n)
    ensures Trunc(x) == n
  {
  }

  lemma TruncOfInt(n: int)
    ensures Trunc(n as real) == n
  {
    TruncUnique(n as real, n);
  }

  function TruncPoint(p: Point): IntPoint {
    IntPoint(Trunc(p.x), Trunc(p.y))
  }

  /** The index of the first minimal element (numpy's argmin tie rule). */
  function ArgMin(s: seq<int>): (k: nat)
    requires |s| > 0
    ensures k < |s|
    ensures forall j :: 0 <= j < |s| ==> s[k] <= s[j]
    ensures forall j :: 0 <= j < k ==> s[k] < s[j]
  {
    if |s| == 1 then 0
    else
      var k := ArgMin(s[..|s| - 1]);
      if s[|s| - 1] < s[k] then |s| - 1 else k
  }

  /** The index of the first maximal element (Python's max() tie rule). */
  function ArgMax(s: seq<int>): (k: nat)
    requires |s| > 0
    ensures k < |s|
    ensures forall j :: 0 <= j < |s| ==> s[j] <= s[k]
    ensures forall j :: 0 <= j < k ==> s[j] < s[k]
  {
    if |s| == 1 then 0
    else
      var k := ArgMax(s[..|s| - 1]);
      if s[|s| - 1] > s[k] then |s| - 1 else k
  }
}
