/**
 * Orientation estimation: the angle, folded into [0, 90] degrees, between
 * the image x-axis and the longer side of a rotated rectangle, plus the
 * centre and corner helpers that the placement solver shares.
 */
module Orientation {
  import opened Geometry

  /** The corners of a present rectangle, each coordinate truncated (np.int0). */
  function BoxCorners(rect: RotatedRect, cv: Primitives): (q: Quad)
    ensures forall i :: 0 <= i < 4 ==>
      IsTruncation(cv.boxPoints(rect)[i].x, q[i].x) && IsTruncation(cv.boxPoints(rect)[i].y, q[i].y)
  {
    var corners := cv.boxPoints(rect);
    [TruncPoint(corners[0]), TruncPoint(corners[1]), TruncPoint(corners[2]), TruncPoint(corners[3])]
  }

  /** get_box_corners: no corners exactly when there is no rectangle. */
  function GetBoxCorners(rect: Option<RotatedRect>, cv: Primitives): (box: Option<Quad>)
    ensures box.None? <==> rect.None?
    ensures box.Some? ==> forall i :: 0 <= i < 4 ==>
      IsTruncation(cv.boxPoints(rect.value)[i].x, box.value[i].x) &&
      IsTruncation(cv.boxPoints(rect.value)[i].y, box.value[i].y)
  {
    match rect
    case None => None
    case Some(r) => Some(BoxCorners(r, cv))
  }

  /** The centre of a present rectangle, each coordinate truncated toward zero. */
  function BoxCenter(rect: RotatedRect): (c: IntPoint)
    ensures IsTruncation(rect.center.x, c.x) && IsTruncation(rect.center.y, c.y)
  {
    TruncPoint(rect.center)
  }

  /** get_box_center: no centre exactly when there is no rectangle. */
  function GetBoxCenter(rect: Option<RotatedRect>): (c: Option<IntPoint>)
    ensures c.None? <==> rect.None?
    ensures c.Some? ==> IsTruncation(rect.value.center.x, c.value.x) && IsTruncation(rect.value.center.y, c.value.y)
  {
    match rect
    case None => None
    case Some(r) => Some(BoxCenter(r))
  }

  function Sub(p: IntPoint, q: IntPoint): IntPoint {
    IntPoint(p.x - q.x, p.y - q.y)
  }

  /** The squared Euclidean length; it orders edges as their lengths do. */
  function SquaredLength(v: IntPoint): (n: int)
    ensures n >= 0
    ensures n == 0 <==> v == IntPoint(0, 0)
  {
    SquareIsZeroOnlyAtZero(v.x);
    SquareIsZeroOnlyAtZero(v.y);
    v.x * v.x + v.y * v.y
  }

  lemma SquareIsZeroOnlyAtZero(n: int)
    ensures n * n >= 0
    ensures n * n == 0 <==> n == 0
    ensures n != 0 ==> n * n >= 1
  {
    if n > 0 {
      assert n * n >= n * 1;
    } else if n < 0 {
      assert n * n == (-n) * (-n);
      assert (-n) * (-n) >= (-n) * 1;
    }
  }

  /** Edge i of a quadrilateral, from corner i to corner (i + 1) % 4. */
  function EdgeOf(q: Quad, i: int): IntPoint
    requires 0 <= i < 4
  {
    Sub(q[(i + 1) % 4], q[i])
  }

  /**
   * The loop that collects the four cyclic edges: edge i runs from corner i
   * to corner (i + 1) % 4, so following the edges from corner 0 closes the
   * polygon.
   */
  method CollectEdges(corners: Quad) returns (edges: seq<IntPoint>)
    ensures |edges| == 4
    ensures forall i :: 0 <= i < 4 ==> edges[i] == EdgeOf(corners, i)
    ensures edges[0].x + edges[1].x + edges[2].x + edges[3].x == 0
    ensures edges[0].y + edges[1].y + edges[2].y + edges[3].y == 0
  {
    edges := [];
    for i := 0 to 4
      invariant |edges| == i
      invariant forall j :: 0 <= j < i ==> edges[j] == EdgeOf(corners, j)
    {
      edges := edges + [Sub(corners[(i + 1) % 4], corners[i])];
    }
  }

  function Lengths(edges: seq<IntPoint>): (ls: seq<int>)
    ensures |ls| == |edges|
    ensures forall i :: 0 <= i < |edges| ==> ls[i] == SquaredLength(edges[i])
  {
    seq(|edges|, i requires 0 <= i < |edges| => SquaredLength(edges[i]))
  }

  /**
   * The index the source's max(edges, key=length) picks: an edge at least as
   * long as every other, the first such on ties.
   */
  function LongestEdgeIndex(edges: seq<IntPoint>): (k: nat)
    requires |edges| > 0
    ensures k < |edges|
    ensures forall j :: 0 <= j < |edges| ==> SquaredLength(edges[j]) <= SquaredLength(edges[k])
    ensures forall j :: 0 <= j < k ==> SquaredLength(edges[j]) < SquaredLength(edges[k])
  {
    var ls := Lengths(edges);
    var k := ArgMax(ls);
    assert forall j :: 0 <= j < |edges| ==> ls[j] <= ls[k];
    k
  }

  /**
   * Normalisation of the longest edge's arctangent: absolute value, then
   * 180 - angle above 90, then a clamp into [0, 90].
   */
  function FoldAngle(theta: real): (r: real)
    ensures 0.0 <= r <= 90.0
  {
    var a := if theta < 0.0 then -theta else theta;
    var b := if a > 90.0 then 180.0 - a else a;
    MaxReal(0.0, MinReal(90.0, b))
  }

  lemma FoldIsIdentityOnFirstQuadrant(theta: real)
    requires 0.0 <= theta <= 90.0
    ensures FoldAngle(theta) == theta
  {
  }

  lemma FoldNegatesNegative(theta: real)
    requires -90.0 <= theta < 0.0
    ensures FoldAngle(theta) == -theta
  {
  }

  lemma FoldReflectsObtuse(theta: real)
    requires 90.0 < theta <= 180.0
    ensures FoldAngle(theta) == 180.0 - theta
  {
  }

  /**
   * Reversing an edge turns its arctangent theta into theta - 180; the folded
   * angle does not change, so either of the two antiparallel long edges, in
   * either direction, gives the same orientation.
   */
  lemma FoldIgnoresEdgeReversal(theta: real)
    requires 0.0 < theta <= 180.0
    ensures FoldAngle(theta) == FoldAngle(theta - 180.0)
  {
  }

  /** Point symmetry: the fold depends only on the absolute value. */
  lemma FoldIsEven(theta: real)
    ensures FoldAngle(-theta) == FoldAngle(theta)
  {
  }

  /**
   * The raw-angle fallback: |raw|, and 90 - (|raw| - 90) above 90. Without a
   * clamp it stays in [0, 90] only while |raw| <= 180.
   */
  function FallbackAngle(raw: real): (r: real)
    ensures -180.0 <= raw <= 180.0 ==> 0.0 <= r <= 90.0
    ensures -90.0 <= raw <= 90.0 ==> r == (if raw < 0.0 then -raw else raw)
  {
    var v := if raw < 0.0 then -raw else raw;
    if v > 90.0 then 90.0 - (v - 90.0) else v
  }

  /** The two normalisations agree on every angle of magnitude at most 180. */
  lemma FallbackAgreesWithFold(raw: real)
    requires -180.0 <= raw <= 180.0
    ensures FallbackAngle(raw) == FoldAngle(raw)
  {
  }

  /** Beyond 180 degrees they part: the fallback is not clamped. */
  lemma FallbackIsUnclamped()
    ensures FallbackAngle(200.0) == -20.0 && FoldAngle(200.0) == 0.0
  {
  }

  /**
   * calculate_orientation. No angle exactly when there is no rectangle;
   * otherwise the folded arctangent of the first longest of the four cyclic
   * edges, always within [0, 90]. The raw-angle fallback sits behind the
   * corners being absent, which never happens for a present rectangle.
   */
  method CalculateOrientation(rect: Option<RotatedRect>, cv: Primitives) returns (angle: Option<real>)
    ensures angle.None? <==> rect.None?
    ensures angle.Some? ==> 0.0 <= angle.value <= 90.0
    ensures angle.Some? ==>
      var q := BoxCorners(rect.value, cv);
      exists k :: 0 <= k < 4 &&
        (forall j :: 0 <= j < 4 ==> SquaredLength(EdgeOf(q, j)) <= SquaredLength(EdgeOf(q, k))) &&
        (forall j :: 0 <= j < k ==> SquaredLength(EdgeOf(q, j)) < SquaredLength(EdgeOf(q, k))) &&
        angle.value == FoldAngle(cv.atan2Degrees(EdgeOf(q, k).y as real, EdgeOf(q, k).x as real))
  {
    if rect.None? {
      return None;
    }
    var r := rect.value;
    var box := GetBoxCorners(rect, cv);
    if box.None? {
      return Some(FallbackAngle(r.angle));
    }
    var edges := CollectEdges(box.value);
    var k := LongestEdgeIndex(edges);
    var longest := edges[k];
    var theta := cv.atan2Degrees(longest.y as real, longest.x as real);
    angle := Some(FoldAngle(theta));
  }
}
