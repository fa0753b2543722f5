# Sticker placement on a detected box — a Dafny model

This project models the geometric core of a small image-processing pipeline.
The pipeline finds a rectangular box in a photo and measures the box's
rotation. It then picks an interior point biased toward the box's top-most
corner and composites a sticker (decal) there. Four stages are modelled:

- **Rectangle-candidate selection** (`src/detect_box.py`). The traced contours
  are ranked by area, largest first, with a stable sort. The first contour whose
  polygon approximation has four vertices and whose area exceeds 1000 is taken,
  else the largest contour, else nothing.
- **Orientation estimation** (`src/orientation.py`). The four cyclic edges of the
  fitted rectangle are collected and the first longest is chosen. Its arctangent
  is folded into [0, 90] degrees. There is also a raw-angle fallback, and helpers
  for the box centre and corners.
- **Placement search** (`src/sticker_position.py`). The search starts at the
  truncated centre and walks toward the first top-most corner. It tries 30 ratios
  from `offset_percent` down to 0.05 and returns the first candidate that the
  point-in-polygon test accepts, else the centre. A face-relative variant shifts
  the centre along one axis.
- **Compositing** (`src/process_image.py`). The sticker is centred on the
  position and clipped to the canvas. The overlap is then written back into the
  canvas in place: per-pixel alpha blending when the sticker has a fourth channel,
  plain overwrite otherwise.

The OpenCV primitives are fields of the `Geometry.Primitives` datatype, so they
are uninterpreted function values: contour area, arc length, polygon
approximation, rectangle fitting, corner extraction, the signed
point-in-polygon test and the two-argument arctangent. Nothing is assumed about
them beyond their types. The arctangent's result is typed as an angle in
(-180, 180]. Other modelling choices:

- Coordinates, ratios and angles are `real`, not IEEE floats.
- Python's `int()` on a float is truncation toward zero (`Geometry.Trunc`).
- `//` on the non-negative sticker sizes is Dafny's `/`.
- Edge lengths are compared as squared integer lengths. Corners are integral
  after `np.int0`, and the square root is monotone, so in exact arithmetic the
  same edge wins, ties included. The float32 norm can make two nearly equal
  edges tie, which the model does not capture (see "## Left out").
- The canvas is an `array2<Bgr>` that the compositor modifies. The sticker is a
  read-only `array2<Bgra>` plus a flag saying whether it has an alpha channel. A
  three-channel sticker's `a` component is never read.

Files: `geometry.dfy` (shared types, truncation, first argmin/argmax),
`orientation.dfy`, `sticker_position.dfy`, `box_detection.dfy`,
`process_image.dfy`, one module per source file.

Facts about the code that the model makes explicit:

- In the orientation fallback, `90 - (v - 90)` is `180 - v`. The fallback
  therefore agrees with the fold whenever |raw| <= 180
  (`Orientation.FallbackAgreesWithFold`). It differs only beyond that, where it
  has no clamp (`Orientation.FallbackIsUnclamped`).
- The fallback is reached only when `get_box_corners` returns None. That happens
  only for an absent rectangle, which was already rejected at line 22 of
  `src/orientation.py`. The model keeps the branch, and it is dead there too.
- `calculate_sticker_position` says it "Ensures the position is within the box
  boundaries" (src/sticker_position.py:19) and returns a position "guaranteed to
  be on box" (src/sticker_position.py:26). The code only guarantees that the
  position passed the polygon test or is the truncated centre, and the centre
  is never tested. That is what `StickerPosition.CalculateStickerPosition`
  states.

## Model

| member | source | states |
|---|---|---|
| `Geometry.Trunc` | src/orientation.py:106 | `int()` on a float truncates toward zero: the result is within one of x, on the same side of zero, and no farther from zero than x |
| `Geometry.ArgMin` | src/sticker_position.py:48 | the index of a minimal element, and no earlier element is as small (numpy's first-occurrence tie rule) |
| `Geometry.ArgMax` | src/orientation.py:41 | the index of a maximal element, and no earlier element is as large (Python `max` keeps the first maximum) |
| `Orientation.GetBoxCorners` | src/orientation.py:83-89 | None exactly when the rectangle is None; otherwise four corners, each coordinate the truncation of the corner primitive's value |
| `Orientation.GetBoxCenter` | src/orientation.py:102-106 | None exactly when the rectangle is None; otherwise the centre with each coordinate truncated toward zero |
| `Orientation.SquaredLength` | src/orientation.py:37 | the squared edge length is non-negative and zero only for the zero vector |
| `Orientation.CollectEdges` | src/orientation.py:34-38 | four edges, edge i running from corner i to corner (i+1) mod 4; together they close the polygon (the components sum to zero) |
| `Orientation.LongestEdgeIndex` | src/orientation.py:41-42 | the chosen edge is at least as long as each of the others and strictly longer than every earlier one, so it is the first longest |
| `Orientation.FoldAngle` | src/orientation.py:53-61 | the folded angle lies in [0, 90] for every input |
| `Orientation.FoldIsIdentityOnFirstQuadrant` | src/orientation.py:53-61 | the fold leaves angles in [0, 90] unchanged |
| `Orientation.FoldNegatesNegative` | src/orientation.py:53-54 | an angle in [-90, 0) folds to its absolute value |
| `Orientation.FoldReflectsObtuse` | src/orientation.py:56-58 | an angle in (90, 180] folds to 180 minus the angle |
| `Orientation.FoldIgnoresEdgeReversal` | src/orientation.py:56-58 | reversing an edge (θ to θ − 180, for θ in (0, 180]) does not change the folded angle, so an edge and its exact reverse give the same orientation (after `np.int0` the two long sides need not be exactly antiparallel, and may fold to slightly different angles) |
| `Orientation.FoldIsEven` | src/orientation.py:53-54 | the fold depends only on the absolute value of the angle |
| `Orientation.FallbackAngle` | src/orientation.py:67-70 | the raw-angle fallback lies in [0, 90] whenever the raw angle has magnitude at most 180, and is the absolute value within [-90, 90] |
| `Orientation.FallbackAgreesWithFold` | src/orientation.py:53-70 | for magnitudes up to 180 the fallback formula and the clamped fold give the same angle |
| `Orientation.FallbackIsUnclamped` | src/orientation.py:67-70 | at 200 degrees the fallback gives −20 while the fold gives 0: the fallback has no clamp |
| `Orientation.CalculateOrientation` | src/orientation.py:10-70 | None exactly when the rectangle is None; otherwise a value in [0, 90] that is the fold of the arctangent of the first longest of the four cyclic edges |
| `StickerPosition.Linspace` | src/sticker_position.py:64 | n values, the first `offset_percent`, the last 0.05, consecutive values one constant step apart, strictly decreasing when the stop is below the start |
| `StickerPosition.RatiosShrink` | src/sticker_position.py:64 | for `offset_percent` > 0.05 the 30 ratios start at `offset_percent`, end at 0.05 and strictly decrease |
| `StickerPosition.TopCornerIndex` | src/sticker_position.py:48-49 | the anchor is a corner of minimal y, and no earlier corner has that y |
| `StickerPosition.Candidate` | src/sticker_position.py:66-68 | each candidate coordinate is the truncation of centre + direction × ratio, using the un-normalised direction |
| `StickerPosition.ShortDirectionIsZero` | src/sticker_position.py:53-57 | the direction is shorter than one pixel exactly when the anchor corner equals the integral centre |
| `StickerPosition.CalculateStickerPosition` | src/sticker_position.py:16-80 | None exactly when the rectangle is None. Otherwise: the centre for a degenerate direction; else the first of the 30 candidates the polygon test accepts, every earlier one rejected; else the centre. The result is always accepted or the centre |
| `StickerPosition.DecreasingSteps` | src/sticker_position.py:64 | proof helper for `RatiosShrink`: a sequence whose every step decreases is strictly decreasing between any two positions |
| `StickerPosition.FaceOffset` | src/sticker_position.py:106 | the offset is the truncation of max(width, height) × `offset_percent` |
| `StickerPosition.FaceOffsetBounds` | src/sticker_position.py:106 | for non-negative sizes and percentage the offset lies between 0 and the exact product |
| `StickerPosition.CalculateStickerPositionOnFace` | src/sticker_position.py:95-100 | None exactly when the rectangle is None |
| `StickerPosition.FaceMovesAlongOneAxis` | src/sticker_position.py:108-115 | 'top', 'bottom', 'left' and 'right' move the centre only in y−, y+, x− and x+ respectively, by exactly the offset |
| `StickerPosition.UnknownFaceIsTop` | src/sticker_position.py:116-118 | any other face string gives the same result as 'top' |
| `StickerPosition.OppositeFacesMirror` | src/sticker_position.py:108-115 | top and bottom, and left and right, are mirror images about the centre |
| `BoxDetection.Insert` | src/detect_box.py:49 | insertion adds exactly one element: length grows by one and the multiset gains x |
| `BoxDetection.InsertKeepsDescending` | src/detect_box.py:49 | inserting into an area-descending list keeps it descending |
| `BoxDetection.SortByAreaDescending` | src/detect_box.py:49 | the ranking has as many entries as there are contours |
| `BoxDetection.SortIsDescendingPermutation` | src/detect_box.py:49 | the ranking is a permutation of the contours (same multiset) in descending order of area |
| `BoxDetection.InsertKeepsOrderOfEqualAreas` | src/detect_box.py:49 | the inserted element comes before every element of equal area already present |
| `BoxDetection.SortIsStable` | src/detect_box.py:49 | for every area value, the contours of that area appear in the ranking in their original order (stable sort, kept stable by `reverse=True`) |
| `BoxDetection.RankOf` | src/detect_box.py:49-52 | proof helper for `FirstCandidateIsLargest` and `HeadIsLargest`: every input contour has a rank in the sorted list |
| `BoxDetection.FirstCandidateIsLargest` | src/detect_box.py:52-62 | the first candidate in the ranking is in the input and has the largest area among all candidates |
| `BoxDetection.HeadIsLargest` | src/detect_box.py:65 | when no ranked contour qualifies, no input contour does, and the head of the ranking has the largest area |
| `BoxDetection.SelectionIsLargest` | src/detect_box.py:49-65 | a contour selected from the ranking is one of the input contours; it is the largest-area candidate whenever a candidate exists, and the largest contour whenever it is not itself a candidate |
| `BoxDetection.FindBoxContour` | src/detect_box.py:32-65 | None exactly when there are no contours. Otherwise the contour the ranking selects (`SelectedFrom`), one of the input contours: the first candidate in stable area-descending order with every earlier one failing, or the largest contour when none qualifies. If a candidate exists, the result is the largest-area candidate |
| `BoxDetection.GetMinAreaRect` | src/detect_box.py:78-82 | None exactly when the contour is None; otherwise the fitted rectangle of the contour |
| `BoxDetection.DetectBox` | src/detect_box.py:100-106 | the rectangle is None exactly when the selected contour is None, which happens exactly when no contour was traced; otherwise the contour is the one `find_box_contour` selects (`SelectedFrom` on the stable area ranking), an input contour, and the rectangle is fitted to it |
| `ProcessImage.PlaceCentred` | src/process_image.py:135-138 | the placement box has exactly the sticker's size, contains the position, and has its centre at the position (half a pixel beyond along an odd dimension) |
| `ProcessImage.Clip` | src/process_image.py:141-167 | misses exactly when x2 < 0, y2 < 0, x1 ≥ img_w or y1 ≥ img_h, and then box and canvas share no column or no row. Otherwise the ROI lies inside the canvas and is the canvas part of the box. The sticker window has the ROI's size, runs from max(0, −x1) to min(sw, img_w − x1) ≤ sw (likewise in y), and is the ROI shifted by (−x1, −y1) |
| `ProcessImage.InterpolationBounds` | src/process_image.py:176 | bg·(1−t) + s·t lies between bg and s for t in [0, 1] |
| `ProcessImage.ScaleDown` | src/process_image.py:176 | proof helper for `InterpolationBounds`: scaling a non-negative amount by a fraction in [0, 1] stays within [0, amount] |
| `ProcessImage.MixBounds` | src/process_image.py:172-177 | the untruncated blend is exactly the sticker value at alpha 255, exactly the background at alpha 0, and between the two otherwise |
| `ProcessImage.BlendChannel` | src/process_image.py:172-177 | the truncated blend is the sticker value at alpha 255, the background at alpha 0, and always between the two (hence a valid byte) |
| `ProcessImage.Composite` | src/process_image.py:169-180 | without alpha the pixel becomes the sticker colour. With alpha it becomes the per-channel blend: the sticker at full opacity, the background at full transparency, each channel between the two |
| `ProcessImage.BlendIntoRegion` | src/process_image.py:159-183 | every pixel inside the ROI becomes the composite of its old value with the matching sticker-window pixel; every pixel outside it is unchanged |
| `ProcessImage.OverlayStickerImage` | src/process_image.py:130-185 | with no position (line 66) the canvas is unchanged. Otherwise a pixel changes only where the centred sticker covers it, and becomes the composite of its old value with the sticker pixel at the same offset from the sticker's top-left corner |

## Left out

- Edge detection, blurring, grayscale conversion and contour tracing (`preprocess_image`, `findContours`) are external primitives. `FindBoxContour` and `DetectBox` take the traced contour list as input, and `DetectBox` does not return the edge map, which only serves visualisation.
- The OpenCV primitives have no contracts. Nothing is proved about what contour area, polygon approximation, rectangle fitting, corner extraction, the polygon test or the arctangent compute. The source's remark that the centre "always" passes the polygon test cannot be stated.
- Default arguments (`offset_percent=0.25` at src/sticker_position.py:16, `face='top', offset_percent=0.1` at src/sticker_position.py:83, `angle=None, scale=1.0` at src/process_image.py:52) are not modelled as defaults. The offsets and the face are ordinary parameters that the caller always passes, and every value, the defaults included, is covered. Angle and scale belong to the resizing and rotation described on the next line.
- Sticker resizing and rotation (`src/process_image.py` lines 87-128) are trigonometric canvas sizing and an affine warp. The compositor takes the final sticker raster as an arbitrary input.
- Loading the sticker from disk and the red-circle fallback markers drawn when it is missing (lines 69-85) are file I/O and drawing. So is everything in `draw_axes`, `annotate_image`, `process_image`, `process_directory` and the command-line entry point.
- Floating-point rounding is not modelled. This covers float32 in the candidate computation, the alpha blend, `np.degrees(np.arctan2(...))` and the edge norm `np.linalg.norm` (src/orientation.py:30, 37). For edges longer than about 2048 pixels, two squared lengths that differ by one can round to the same float32 norm, and `max` then keeps the earlier edge where `LongestEdgeIndex` picks the strictly longer one. All of it is computed exactly in `real`, then truncated.
- Sticker rasters with other than three or four channels are not modelled. A two-dimensional grayscale raster would make the source fail at `shape[2]`.
- `direction_unit` (`src/sticker_position.py` line 60) is computed but never used, so the model does not compute it.
- CalculateStickerPositionOnFace: its own contract states only the None propagation. What each face does is stated by the lemmas `FaceMovesAlongOneAxis`, `UnknownFaceIsTop` and `OppositeFacesMirror`.
- `example_usage.py`, `create_default_sticker.py` and `src/__init__.py` are a driver script, an asset generator and re-exports, and are not part of this model.
