/**
 * The compositor: centre a (resized, rotated) sticker raster on a position,
 * clip it to the canvas, and write the overlapping region back into the
 * canvas in place, alpha-blended when the sticker has a fourth channel.
 */
module ProcessImage {
  import opened Geometry

  /** One 8-bit channel value (numpy uint8). */
  type Byte = x: int | 0 <= x < 256

  /** A canvas pixel, in OpenCV's channel order. */
  datatype Bgr = Bgr(b: Byte, g: Byte, r: Byte)

  /** A sticker pixel; `a` is read only when the sticker has an alpha channel. */
  datatype Bgra = Bgra(b: Byte, g: Byte, r: Byte, a: Byte)

  /** The sticker's columns [x1, x2) and rows [y1, y2) in canvas coordinates. */
  datatype Placement = Placement(x1: int, y1: int, x2: int, y2: int)

  /**
   * x1 = sx - sw // 2, y1 = sy - sh // 2, x2 = x1 + sw, y2 = y1 + sh: a box
   * of exactly the sticker's size whose centre is (sx, sy), or half a pixel
   * beyond it along an odd dimension.
   */
  function PlaceCentred(sx: int, sy: int, sw: nat, sh: nat): (p: Placement)
    ensures p.x2 - p.x1 == sw && p.y2 - p.y1 == sh
    ensures p.x1 + p.x2 == 2 * sx + sw % 2 && p.y1 + p.y2 == 2 * sy + sh % 2
    ensures p.x1 <= sx <= p.x2 && p.y1 <= sy <= p.y2
  {
    var x1 := sx - sw / 2;
    var y1 := sy - sh / 2;
    Placement(x1, y1, x1 + sw, y1 + sh)
  }

  predicate InSpan(v: int, lo: int, hi: int) {
    lo <= v < hi
  }

  /**
   * The outcome of clipping: the sticker misses the canvas, or the canvas
   * region [roiY1, roiY2) x [roiX1, roiX2) receives the sticker window whose
   * top-left corner is (stickerX1, stickerY1).
   */
  datatype Window =
    | Outside
    | Window(roiX1: int, roiY1: int, roiX2: int, roiY2: int, stickerX1: int, stickerY1: int)

  predicate InWindow(w: Window, y: int, x: int)
    requires w.Window?
  {
    InSpan(y, w.roiY1, w.roiY2) && InSpan(x, w.roiX1, w.roiX2)
  }

  /**
   * The clipping of a sw x sh sticker centred on (sx, sy) to an imgW x imgH
   * canvas. It misses the canvas exactly when x2 < 0, y2 < 0, x1 >= imgW or
   * y1 >= imgH, and then the placed box and the canvas share no column or
   * no row. Otherwise the region lies inside the canvas and is exactly the
   * canvas part of the placed box; the sticker window has the region's size,
   * starts at (max(0, -x1), max(0, -y1)), ends at (min(sw, imgW - x1),
   * min(sh, imgH - y1)) inside the sticker, and is the region shifted by
   * (-x1, -y1).
   */
  function Clip(sx: int, sy: int, sw: nat, sh: nat, imgW: nat, imgH: nat): (w: Window)
    ensures var p := PlaceCentred(sx, sy, sw, sh);
      w.Outside? <==> (p.x2 < 0 || p.y2 < 0 || p.x1 >= imgW || p.y1 >= imgH)
    ensures var p := PlaceCentred(sx, sy, sw, sh);
      w.Outside? ==>
        || (forall x :: !(InSpan(x, 0, imgW) && InSpan(x, p.x1, p.x2)))
        || (forall y :: !(InSpan(y, 0, imgH) && InSpan(y, p.y1, p.y2)))
    ensures w.Window? ==> 0 <= w.roiX1 <= w.roiX2 <= imgW && 0 <= w.roiY1 <= w.roiY2 <= imgH
    ensures var p := PlaceCentred(sx, sy, sw, sh);
      w.Window? ==>
        && w.stickerX1 == MaxInt(0, -p.x1) && w.stickerY1 == MaxInt(0, -p.y1)
        && w.stickerX1 + (w.roiX2 - w.roiX1) == MinInt(sw, imgW - p.x1) <= sw
        && w.stickerY1 + (w.roiY2 - w.roiY1) == MinInt(sh, imgH - p.y1) <= sh
        && w.stickerX1 - w.roiX1 == -p.x1 && w.stickerY1 - w.roiY1 == -p.y1
    ensures var p := PlaceCentred(sx, sy, sw, sh);
      w.Window? ==>
        && (forall x :: InSpan(x, w.roiX1, w.roiX2) <==> InSpan(x, 0, imgW) && InSpan(x, p.x1, p.x2))
        && (forall y :: InSpan(y, w.roiY1, w.roiY2) <==> InSpan(y, 0, imgH) && InSpan(y, p.y1, p.y2))
  {
    var p := PlaceCentred(sx, sy, sw, sh);
    var clipX1 := MaxInt(0, -p.x1);
    var clipY1 := MaxInt(0, -p.y1);
    if p.x2 < 0 || p.y2 < 0 || p.x1 >= imgW || p.y1 >= imgH then
      Outside
    else
      var roiX1 := MaxInt(0, p.x1);
      var roiY1 := MaxInt(0, p.y1);
      var roiX2 := MinInt(imgW, p.x2);
      var roiY2 := MinInt(imgH, p.y2);
      Window(roiX1, roiY1, roiX2, roiY2, clipX1, clipY1)
  }

  /** A convex combination of a and b lies between them. */
  lemma InterpolationBounds(a: real, b: real, t: real)
    requires 0.0 <= t <= 1.0
    ensures MinReal(a, b) <= a * (1.0 - t) + b * t <= MaxReal(a, b)
  {
    assert a * (1.0 - t) + b * t == a + (b - a) * t;
    if a <= b {
      ScaleDown(b - a, t);
    } else {
      ScaleDown(a - b, t);
      assert (b - a) * t == -((a - b) * t);
    }
  }

  lemma ScaleDown(d: real, t: real)
    requires d >= 0.0 && 0.0 <= t <= 1.0
    ensures 0.0 <= d * t <= d
  {
    assert d * t + d * (1.0 - t) == d;
    assert d * (1.0 - t) >= 0.0;
  }

  /**
   * One channel of the alpha blend, truncated back to uint8:
   * trunc(bg * (1 - a / 255) + fg * a / 255). Full opacity gives the
   * sticker value, full transparency the background, and every other alpha
   * a value between the two.
   */
  function BlendChannel(bg: Byte, fg: Byte, alpha: Byte): (v: Byte)
    ensures alpha == 255 ==> v == fg
    ensures alpha == 0 ==> v == bg
    ensures MinInt(bg, fg) <= v <= MaxInt(bg, fg)
  {
    var x := Mix(bg, fg, alpha);
    MixBounds(bg, fg, alpha);
    TruncBetween(x, MinInt(bg, fg), MaxInt(bg, fg));
    TruncOfInt(bg);
    TruncOfInt(fg);
    Trunc(x)
  }

  /** bg * (1 - alpha / 255) + fg * alpha / 255, before truncation. */
  function Mix(bg: Byte, fg: Byte, alpha: Byte): real {
    var t := alpha as real / 255.0;
    bg as real * (1.0 - t) + fg as real * t
  }

  lemma MixBounds(bg: Byte, fg: Byte, alpha: Byte)
    ensures alpha == 255 ==> Mix(bg, fg, alpha) == fg as real
    ensures alpha == 0 ==> Mix(bg, fg, alpha) == bg as real
    ensures MinInt(bg, fg) as real <= Mix(bg, fg, alpha) <= MaxInt(bg, fg) as real
  {
    InterpolationBounds(bg as real, fg as real, alpha as real / 255.0);
    if alpha == 255 {
      assert alpha as real / 255.0 == 1.0;
    } else if alpha == 0 {
      assert alpha as real / 255.0 == 0.0;
    }
  }

  /** Truncating a non-negative real between two integers stays between them. */
  lemma TruncBetween(x: real, lo: int, hi: int)
    requires 0 <= lo && lo as real <= x <= hi as real
    ensures lo <= Trunc(x) <= hi
  {
  }

  /**
   * The new value of a canvas pixel under a sticker pixel: the per-channel
   * blend with an alpha channel, the sticker's colour without one.
   */
  function Composite(bg: Bgr, s: Bgra, hasAlpha: bool): (p: Bgr)
    ensures !hasAlpha ==> p == Bgr(s.b, s.g, s.r)
    ensures hasAlpha && s.a == 255 ==> p == Bgr(s.b, s.g, s.r)
    ensures hasAlpha && s.a == 0 ==> p == bg
    ensures hasAlpha ==> MinInt(bg.b, s.b) <= p.b <= MaxInt(bg.b, s.b)
    ensures hasAlpha ==> MinInt(bg.g, s.g) <= p.g <= MaxInt(bg.g, s.g)
    ensures hasAlpha ==> MinInt(bg.r, s.r) <= p.r <= MaxInt(bg.r, s.r)
  {
    if hasAlpha then
      Bgr(BlendChannel(bg.b, s.b, s.a), BlendChannel(bg.g, s.g, s.a), BlendChannel(bg.r, s.r, s.a))
    else
      Bgr(s.b, s.g, s.r)
  }

  /** Pixel (y, x) of the region lies before row `row`, column `col` in row-major order. */
  predicate Before(y: int, x: int, row: int, col: int) {
    y < row || (y == row && x < col)
  }

  /**
   * image[roiY1:roiY2, roiX1:roiX2] = roi: every pixel of the region is
   * replaced by its composite with the matching sticker pixel, computed
   * from its old value; every other pixel keeps its value.
   */
  method BlendIntoRegion(image: array2<Bgr>, sticker: array2<Bgra>, hasAlpha: bool, w: Window)
    requires w.Window?
    requires 0 <= w.roiX1 <= w.roiX2 <= image.Length1 && 0 <= w.roiY1 <= w.roiY2 <= image.Length0
    requires 0 <= w.stickerX1 && w.stickerX1 + (w.roiX2 - w.roiX1) <= sticker.Length1
    requires 0 <= w.stickerY1 && w.stickerY1 + (w.roiY2 - w.roiY1) <= sticker.Length0
    modifies image
    ensures forall y, x :: 0 <= y < image.Length0 && 0 <= x < image.Length1 ==>
      image[y, x] ==
        if InWindow(w, y, x)
        then Composite(old(image[y, x]), sticker[y - w.roiY1 + w.stickerY1, x - w.roiX1 + w.stickerX1], hasAlpha)
        else old(image[y, x])
  {
    var row := w.roiY1;
    while row < w.roiY2
      invariant w.roiY1 <= row <= w.roiY2
      invariant forall y, x :: 0 <= y < image.Length0 && 0 <= x < image.Length1 ==>
        image[y, x] ==
          if InWindow(w, y, x) && y < row
          then Composite(old(image[y, x]), sticker[y - w.roiY1 + w.stickerY1, x - w.roiX1 + w.stickerX1], hasAlpha)
          else old(image[y, x])
    {
      var col := w.roiX1;
      while col < w.roiX2
        invariant w.roiX1 <= col <= w.roiX2
        invariant forall y, x :: 0 <= y < image.Length0 && 0 <= x < image.Length1 ==>
          image[y, x] ==
            if InWindow(w, y, x) && Before(y, x, row, col)
            then Composite(old(image[y, x]), sticker[y - w.roiY1 + w.stickerY1, x - w.roiX1 + w.stickerX1], hasAlpha)
            else old(image[y, x])
      {
        image[row, col] := Composite(image[row, col], sticker[row - w.roiY1 + w.stickerY1, col - w.roiX1 + w.stickerX1], hasAlpha);
        col := col + 1;
      }
      row := row + 1;
    }
  }

  /**
   * overlay_sticker_image from the sticker's final raster on. Without a
   * position the canvas is untouched. Otherwise a canvas pixel changes only
   * when the sticker, centred on the position, covers it, and it then becomes
   * the composite of its old value with the sticker pixel at the same offset
   * from the sticker's top-left corner.
   */
  method OverlayStickerImage(image: array2<Bgr>, sticker: array2<Bgra>, hasAlpha: bool, position: Option<IntPoint>)
    modifies image
    ensures position.None? ==>
      forall y, x :: 0 <= y < image.Length0 && 0 <= x < image.Length1 ==> image[y, x] == old(image[y, x])
    ensures position.Some? ==>
      var p := PlaceCentred(position.value.x, position.value.y, sticker.Length1, sticker.Length0);
      forall y, x :: 0 <= y < image.Length0 && 0 <= x < image.Length1 ==>
        image[y, x] ==
          if InSpan(y, p.y1, p.y2) && InSpan(x, p.x1, p.x2)
          then Composite(old(image[y, x]), sticker[y - p.y1, x - p.x1], hasAlpha)
          else old(image[y, x])
  {
    if position.None? {
      return;
    }
    var sh, sw := sticker.Length0, sticker.Length1;
    var sx, sy := position.value.x, position.value.y;
    var imgH, imgW := image.Length0, image.Length1;
    var p := PlaceCentred(sx, sy, sw, sh);
    var w := Clip(sx, sy, sw, sh, imgW, imgH);
    if w.Outside? {
      assert forall y, x :: 0 <= y < imgH && 0 <= x < imgW ==>
        !(InSpan(y, p.y1, p.y2) && InSpan(x, p.x1, p.x2));
      return;
    }
    BlendIntoRegion(image, sticker, hasAlpha, w);
    assert forall y, x :: 0 <= y < imgH && 0 <= x < imgW ==>
      (InWindow(w, y, x) <==> InSpan(y, p.y1, p.y2) && InSpan(x, p.x1, p.x2));
  }
}
