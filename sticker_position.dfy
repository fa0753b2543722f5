/**
 * The placement solver: a pixel on the detected box, biased from the centre
 * toward the top-most corner, found by trying 30 shrinking offsets; and the
 * face-relative variant that shifts the centre along one axis.
 */
module StickerPosition {
  import opened Geometry
  import opened Orientation

  /**
   * numpy.linspace(start, stop, n) with the end point included: n values,
   * the first start, the last stop, consecutive values a constant step apart.
   */
  function Linspace(start: real, stop: real, n: nat): (r: seq<real>)
    ensures |r| == n
    ensures n >= 1 ==> r[0] == start
    ensures n >= 2 ==> r[n - 1] == stop
    ensures n >= 2 ==> forall i :: 0 <= i < n - 1 ==> r[i + 1] - r[i] == (stop - start) / ((n - 1) as real)
    ensures n >= 2 && stop < start ==> forall i :: 0 <= i < n - 1 ==> r[i + 1] < r[i]
  {
    if n == 0 then []
    else if n == 1 then [start]
    else
      var step := (stop - start) / ((n - 1) as real);
      var r := seq(n, i requires 0 <= i < n => start + (i as real) * step);
      StepMultiple(start, stop, n - 1);
      assert r[n - 1] == stop;
      assert stop < start ==> step < 0.0;
      r
  }

  lemma StepMultiple(start: real, stop: real, m: nat)
    requires m >= 1
    ensures start + (m as real) * ((stop - start) / (m as real)) == stop
  {
  }

  /** The index of the top-most corner: the first with the smallest y. */
  function TopCornerIndex(q: Quad): (k: nat)
    ensures k < 4
    ensures forall j :: 0 <= j < 4 ==> q[k].y <= q[j].y
    ensures forall j :: 0 <= j < k ==> q[k].y < q[j].y
  {
    var ys := [q[0].y, q[1].y, q[2].y, q[3].y];
    var k := ArgMin(ys);
    assert forall j :: 0 <= j < 4 ==> ys[j] == q[j].y;
    k
  }

  /** int(center + direction * ratio), per coordinate, toward zero. */
  function Candidate(c: IntPoint, d: IntPoint, ratio: real): (p: IntPoint)
    ensures IsTruncation(c.x as real + d.x as real * ratio, p.x)
    ensures IsTruncation(c.y as real + d.y as real * ratio, p.y)
  {
    IntPoint(Trunc(c.x as real + d.x as real * ratio), Trunc(c.y as real + d.y as real * ratio))
  }

  /** pointPolygonTest(box, p, True) >= 0: inside the box or on its boundary. */
  predicate Accepted(cv: Primitives, q: Quad, p: IntPoint) {
    cv.pointPolygonTest(q, p) >= 0.0
  }

  /** Candidate k is accepted and every earlier candidate was rejected. */
  predicate FirstAcceptedAt(cv: Primitives, q: Quad, c: IntPoint, d: IntPoint, ratios: seq<real>, k: int) {
    && 0 <= k < |ratios|
    && Accepted(cv, q, Candidate(c, d, ratios[k]))
    && forall j :: 0 <= j < k ==> !Accepted(cv, q, Candidate(c, d, ratios[j]))
  }

  /** A direction shorter than one pixel is exactly the zero vector. */
  lemma ShortDirectionIsZero(d: IntPoint)
    ensures SquaredLength(d) < 1 <==> d == IntPoint(0, 0)
  {
  }

  /**
   * calculate_sticker_position. No position exactly when there is no
   * rectangle. Otherwise, with c the truncated centre, q the corners and
   * d the direction from c to the first top-most corner: the centre when d
   * is shorter than one pixel; else the first of the 30 candidates along d
   * that the polygon test accepts, all earlier ones having been rejected;
   * and the centre if none is accepted.
   */
  method CalculateStickerPosition(rect: Option<RotatedRect>, offsetPercent: real, cv: Primitives)
    returns (pos: Option<IntPoint>)
    ensures pos.None? <==> rect.None?
    ensures pos.Some? ==> Accepted(cv, BoxCorners(rect.value, cv), pos.value) || pos.value == BoxCenter(rect.value)
    ensures pos.Some? ==>
      var c := BoxCenter(rect.value);
      var q := BoxCorners(rect.value, cv);
      var d := Sub(q[TopCornerIndex(q)], c);
      var ratios := Linspace(offsetPercent, 0.05, 30);
      && (SquaredLength(d) < 1 ==> pos.value == c)
      && (SquaredLength(d) >= 1 ==>
            || (exists k :: FirstAcceptedAt(cv, q, c, d, ratios, k) && pos.value == Candidate(c, d, ratios[k]))
            || ((forall j :: 0 <= j < 30 ==> !Accepted(cv, q, Candidate(c, d, ratios[j]))) && pos.value == c))
  {
    if rect.None? {
      return None;
    }
    var center := GetBoxCenter(rect);
    if center.None? {
      return None;
    }
    var c := center.value;
    var box := GetBoxCorners(rect, cv);
    if box.None? {
      return None;
    }
    var q := box.value;
    var top := q[TopCornerIndex(q)];
    var d := Sub(top, c);
    if SquaredLength(d) < 1 {
      return Some(c);
    }
    var ratios := Linspace(offsetPercent, 0.05, 30);
    for i := 0 to 30
      invariant forall j :: 0 <= j < i ==> !Accepted(cv, q, Candidate(c, d, ratios[j]))
    {
      var candidate := Candidate(c, d, ratios[i]);
      if cv.pointPolygonTest(q, candidate) >= 0.0 {
        assert FirstAcceptedAt(cv, q, c, d, ratios, i);
        return Some(candidate);
      }
    }
    return Some(c);
  }

  /** The ratios run from offset_percent down to 0.05, strictly decreasing. */
  lemma RatiosShrink(offsetPercent: real)
    requires offsetPercent > 0.05
    ensures var r := Linspace(offsetPercent, 0.05, 30);
      r[0] == offsetPercent && r[29] == 0.05 &&
      forall i, j :: 0 <= i < j < 30 ==> r[j] < r[i]
  {
    var r := Linspace(offsetPercent, 0.05, 30);
    forall i, j | 0 <= i < j < 30 ensures r[j] < r[i] {
      DecreasingSteps(r, i, j);
    }
  }

  lemma {:induction false} DecreasingSteps(r: seq<real>, i: int, j: int)
    requires 0 <= i < j < |r|
    requires forall k :: 0 <= k < |r| - 1 ==> r[k + 1] < r[k]
    ensures r[j] < r[i]
  {
    if j > i + 1 {
      DecreasingSteps(r, i, j - 1);
    }
  }

  /** int(max(width, height) * offset_percent). */
  function FaceOffset(rect: RotatedRect, offsetPercent: real): (off: int)
    ensures IsTruncation(MaxReal(rect.width, rect.height) * offsetPercent, off)
  {
    Trunc(MaxReal(rect.width, rect.height) * offsetPercent)
  }

  /**
   * calculate_sticker_position_on_face: the centre moved by the face offset
   * up ('top' and every unrecognised face), down ('bottom'), left or right.
   * The centre is already integral, so int() leaves it unchanged.
   */
  function CalculateStickerPositionOnFace(rect: Option<RotatedRect>, face: string, offsetPercent: real)
    : (pos: Option<IntPoint>)
    ensures pos.None? <==> rect.None?
  {
    match rect
    case None => None
    case Some(r) =>
      var c := BoxCenter(r);
      var off := FaceOffset(r, offsetPercent);
      if face == "top" then Some(IntPoint(c.x, c.y - off))
      else if face == "bottom" then Some(IntPoint(c.x, c.y + off))
      else if face == "left" then Some(IntPoint(c.x - off, c.y))
      else if face == "right" then Some(IntPoint(c.x + off, c.y))
      else Some(IntPoint(c.x, c.y - off))
  }

  /**
   * Each face moves the centre along one axis only, by the face offset, in
   * its own direction (y grows downwards).
   */
  lemma FaceMovesAlongOneAxis(rect: RotatedRect, face: string, offsetPercent: real)
    ensures
      var p := CalculateStickerPositionOnFace(Some(rect), face, offsetPercent).value;
      var c := BoxCenter(rect);
      var off := FaceOffset(rect, offsetPercent);
      && (face == "top" ==> p.x == c.x && c.y - p.y == off)
      && (face == "bottom" ==> p.x == c.x && p.y - c.y == off)
      && (face == "left" ==> p.y == c.y && c.x - p.x == off)
      && (face == "right" ==> p.y == c.y && p.x - c.x == off)
  {
  }

  /** An unrecognised face places the sticker as 'top' does. */
  lemma UnknownFaceIsTop(rect: Option<RotatedRect>, face: string, offsetPercent: real)
    requires face != "top" && face != "bottom" && face != "left" && face != "right"
    ensures CalculateStickerPositionOnFace(rect, face, offsetPercent)
         == CalculateStickerPositionOnFace(rect, "top", offsetPercent)
  {
  }

  /** Opposite faces are mirror images about the centre. */
  lemma OppositeFacesMirror(rect: RotatedRect, offsetPercent: real)
    ensures
      var c := BoxCenter(rect);
      var t := CalculateStickerPositionOnFace(Some(rect), "top", offsetPercent).value;
      var b := CalculateStickerPositionOnFace(Some(rect), "bottom", offsetPercent).value;
      var l := CalculateStickerPositionOnFace(Some(rect), "left", offsetPercent).value;
      var r := CalculateStickerPositionOnFace(Some(rect), "right", offsetPercent).value;
      t.y + b.y == 2 * c.y && t.x == b.x == c.x && l.x + r.x == 2 * c.x && l.y == r.y == c.y
  {
  }

  /** For a real box and a non-negative percentage the offset is between 0 and the exact product. */
  lemma FaceOffsetBounds(rect: RotatedRect, offsetPercent: real)
    requires rect.width >= 0.0 && rect.height >= 0.0 && offsetPercent >= 0.0
    ensures 0 <= FaceOffset(rect, offsetPercent)
    ensures FaceOffset(rect, offsetPercent) as real <= MaxReal(rect.width, rect.height) * offsetPercent
  {
    var m := MaxReal(rect.width, rect.height);
    assert m * offsetPercent >= 0.0;
  }
}
