/**
 * Rectangle-candidate selection: rank the traced contours by area, largest
 * first, and take the first whose polygon approximation has four vertices
 * and whose area exceeds the threshold, else the largest contour.
 */
module BoxDetection {
  import opened Geometry

  /** Contours of this area or less are never taken as the box. */
  const MinBoxArea: real := 1000.0

  /** The approximation tolerance, as a fraction of the closed perimeter. */
  const ApproxTolerance: real := 0.02

  /** Four vertices at tolerance 0.02 * perimeter, and an area above 1000. */
  predicate IsBoxCandidate(cv: Primitives, c: Contour) {
    |cv.approxPolyDP(c, ApproxTolerance * cv.arcLength(c))| == 4 && cv.contourArea(c) > MinBoxArea
  }

  predicate DescendingByArea<T>(s: seq<T>, area: T -> real) {
    forall i, j :: 0 <= i < j < |s| ==> area(s[i]) >= area(s[j])
  }

  /**
   * Places x in front of the first element whose area does not exceed its
   * own, so x precedes every element of equal area.
   */
  function Insert<T(==)>(x: T, t: seq<T>, area: T -> real): (r: seq<T>)
    ensures |r| == |t| + 1
    ensures multiset(r) == multiset(t) + multiset{x}
  {
    if t == [] || area(t[0]) <= area(x) then
      [x] + t
    else
      assert t == [t[0]] + t[1..];
      [t[0]] + Insert(x, t[1..], area)
  }

  lemma {:induction false} InsertKeepsDescending<T>(x: T, t: seq<T>, area: T -> real)
    requires DescendingByArea(t, area)
    ensures DescendingByArea(Insert(x, t, area), area)
  {
    var r := Insert(x, t, area);
    if t == [] || area(t[0]) <= area(x) {
      forall i, j | 0 <= i < j < |r| ensures area(r[i]) >= area(r[j]) {
        if i == 0 && j > 1 {
          assert area(t[0]) >= area(t[j - 1]);
        }
      }
    } else {
      var rest := Insert(x, t[1..], area);
      InsertKeepsDescending(x, t[1..], area);
      forall i, j | 0 <= i < j < |r| ensures area(r[i]) >= area(r[j]) {
        if i == 0 {
          var y := rest[j - 1];
          assert y in multiset(rest);
          if y != x {
            assert y in multiset(t[1..]);
            var m :| 0 <= m < |t[1..]| && t[1..][m] == y;
            assert area(t[0]) >= area(t[m + 1]);
          }
        } else {
          assert r[i] == rest[i - 1] && r[j] == rest[j - 1];
        }
      }
    }
  }

  /**
   * sorted(contours, key=contourArea, reverse=True), as insertion of each
   * contour into the ranking of those after it.
   */
  function SortByAreaDescending<T(==)>(cs: seq<T>, area: T -> real): (r: seq<T>)
    ensures |r| == |cs|
  {
    if cs == [] then []
    else Insert(cs[0], SortByAreaDescending(cs[1..], area), area)
  }

  /** The ranking holds the same contours, largest area first. */
  lemma {:induction false} SortIsDescendingPermutation<T>(cs: seq<T>, area: T -> real)
    ensures multiset(SortByAreaDescending(cs, area)) == multiset(cs)
    ensures DescendingByArea(SortByAreaDescending(cs, area), area)
  {
    if cs != [] {
      assert cs == [cs[0]] + cs[1..];
      SortIsDescendingPermutation(cs[1..], area);
      InsertKeepsDescending(cs[0], SortByAreaDescending(cs[1..], area), area);
    }
  }

  /** The contours of area exactly k, in their order in s. */
  function WithArea<T>(s: seq<T>, area: T -> real, k: real): seq<T> {
    if s == [] then [] else (if area(s[0]) == k then [s[0]] else []) + WithArea(s[1..], area, k)
  }

  lemma WithAreaCons<T>(y: T, s: seq<T>, area: T -> real, k: real)
    ensures WithArea([y] + s, area, k) == (if area(y) == k then [y] else []) + WithArea(s, area, k)
  {
    assert ([y] + s)[1..] == s;
  }

  /**
   * An element of larger area than x may move in front of x's share of the
   * filter: at most one of the two has area k.
   */
  lemma WithAreaPastLarger<T>(h: T, x: T, rest: seq<T>, t: seq<T>, area: T -> real, k: real)
    requires area(h) > area(x)
    requires WithArea(rest, area, k) == (if area(x) == k then [x] else []) + WithArea(t, area, k)
    ensures WithArea([h] + rest, area, k) == (if area(x) == k then [x] else []) + WithArea([h] + t, area, k)
  {
    WithAreaCons(h, rest, area, k);
    WithAreaCons(h, t, area, k);
    var tail := WithArea(t, area, k);
    if area(x) == k {
      assert [] + ([x] + tail) == [x] + ([] + tail);
    }
  }

  lemma {:induction false} InsertKeepsOrderOfEqualAreas<T>(x: T, t: seq<T>, area: T -> real, k: real)
    ensures WithArea(Insert(x, t, area), area, k) == (if area(x) == k then [x] else []) + WithArea(t, area, k)
  {
    if t == [] || area(t[0]) <= area(x) {
      assert Insert(x, t, area) == [x] + t;
      WithAreaCons(x, t, area, k);
    } else {
      var rest := Insert(x, t[1..], area);
      assert Insert(x, t, area) == [t[0]] + rest;
      InsertKeepsOrderOfEqualAreas(x, t[1..], area, k);
      WithAreaPastLarger(t[0], x, rest, t[1..], area, k);
      assert t == [t[0]] + t[1..];
    }
  }

  /**
   * The sort is stable: contours of equal area keep their original relative
   * order (Python's sort stays stable with reverse=True).
   */
  lemma {:induction false} SortIsStable<T>(cs: seq<T>, area: T -> real, k: real)
    ensures WithArea(SortByAreaDescending(cs, area), area, k) == WithArea(cs, area, k)
  {
    if cs != [] {
      SortIsStable(cs[1..], area, k);
      InsertKeepsOrderOfEqualAreas(cs[0], SortByAreaDescending(cs[1..], area), area, k);
    }
  }

  /** Every contour of the input sits at some rank of the sorted list. */
  lemma RankOf<T>(ranked: seq<T>, cs: seq<T>, c: T) returns (j: nat)
    requires multiset(ranked) == multiset(cs)
    requires c in cs
    ensures j < |ranked| && ranked[j] == c
  {
    assert c in multiset(cs);
    assert c in ranked;
    j :| 0 <= j < |ranked| && ranked[j] == c;
  }

  /** ranked[k] is a candidate and no contour ranked before it is. */
  predicate FirstCandidateAt(cv: Primitives, ranked: seq<Contour>, k: int) {
    && 0 <= k < |ranked|
    && IsBoxCandidate(cv, ranked[k])
    && forall j :: 0 <= j < k ==> !IsBoxCandidate(cv, ranked[j])
  }

  /**
   * The first candidate of the ranking has the largest area among all
   * candidates of the input.
   */
  lemma FirstCandidateIsLargest(cv: Primitives, contours: seq<Contour>, ranked: seq<Contour>, k: nat)
    requires multiset(ranked) == multiset(contours)
    requires DescendingByArea(ranked, cv.contourArea)
    requires k < |ranked|
    requires forall j :: 0 <= j < k ==> !IsBoxCandidate(cv, ranked[j])
    ensures ranked[k] in contours
    ensures forall c :: c in contours && IsBoxCandidate(cv, c) ==> cv.contourArea(c) <= cv.contourArea(ranked[k])
  {
    assert ranked[k] in multiset(ranked);
    forall c | c in contours && IsBoxCandidate(cv, c)
      ensures cv.contourArea(c) <= cv.contourArea(ranked[k])
    {
      var j := RankOf(ranked, contours, c);
    }
  }

  /**
   * When no ranked contour is a candidate, none of the input is, and the
   * head of the ranking has the largest area of all.
   */
  lemma HeadIsLargest(cv: Primitives, contours: seq<Contour>, ranked: seq<Contour>)
    requires multiset(ranked) == multiset(contours)
    requires DescendingByArea(ranked, cv.contourArea)
    requires |ranked| > 0
    requires forall j :: 0 <= j < |ranked| ==> !IsBoxCandidate(cv, ranked[j])
    ensures ranked[0] in contours
    ensures forall c :: c in contours ==> !IsBoxCandidate(cv, c) && cv.contourArea(c) <= cv.contourArea(ranked[0])
  {
    assert ranked[0] in multiset(ranked);
    forall c | c in contours
      ensures !IsBoxCandidate(cv, c) && cv.contourArea(c) <= cv.contourArea(ranked[0])
    {
      var j := RankOf(ranked, contours, c);
    }
  }

  /**
   * The contour find_box_contour settles on, given the ranking: the first
   * candidate, every contour ranked before it failing the test, or the
   * head of the ranking when no contour is a candidate.
   */
  ghost predicate SelectedFrom(cv: Primitives, ranked: seq<Contour>, c: Contour) {
    || (exists k :: FirstCandidateAt(cv, ranked, k) && c == ranked[k])
    || (&& |ranked| > 0
        && (forall j :: 0 <= j < |ranked| ==> !IsBoxCandidate(cv, ranked[j]))
        && c == ranked[0])
  }

  /**
   * What the selection means for the input: a contour of the input; the
   * largest candidate when there is one; otherwise the largest contour.
   */
  lemma SelectionIsLargest(cv: Primitives, contours: seq<Contour>, c: Contour)
    requires SelectedFrom(cv, SortByAreaDescending(contours, cv.contourArea), c)
    ensures c in contours
    ensures (exists c' :: c' in contours && IsBoxCandidate(cv, c')) ==>
      && IsBoxCandidate(cv, c)
      && forall c' :: c' in contours && IsBoxCandidate(cv, c') ==> cv.contourArea(c') <= cv.contourArea(c)
    ensures !IsBoxCandidate(cv, c) ==>
      forall c' :: c' in contours ==> cv.contourArea(c') <= cv.contourArea(c)
  {
    var ranked := SortByAreaDescending(contours, cv.contourArea);
    SortIsDescendingPermutation(contours, cv.contourArea);
    if k :| FirstCandidateAt(cv, ranked, k) && c == ranked[k] {
      FirstCandidateIsLargest(cv, contours, ranked, k);
    } else {
      HeadIsLargest(cv, contours, ranked);
    }
  }

  /**
   * find_box_contour over the contour list the tracing primitive returned.
   * Nothing for an empty list; otherwise, in area-descending stable order,
   * the first box candidate, every contour ranked before it failing the
   * test, or the largest contour when no contour is a candidate.
   */
  method FindBoxContour(contours: seq<Contour>, cv: Primitives) returns (contour: Option<Contour>)
    ensures contour.None? <==> contours == []
    ensures contour.Some? ==> SelectedFrom(cv, SortByAreaDescending(contours, cv.contourArea), contour.value)
    ensures contour.Some? ==> contour.value in contours
    ensures contour.Some? && (exists c :: c in contours && IsBoxCandidate(cv, c)) ==>
      && IsBoxCandidate(cv, contour.value)
      && forall c :: c in contours && IsBoxCandidate(cv, c) ==> cv.contourArea(c) <= cv.contourArea(contour.value)
    ensures contour.Some? && !IsBoxCandidate(cv, contour.value) ==>
      forall c :: c in contours ==> cv.contourArea(c) <= cv.contourArea(contour.value)
  {
    if contours == [] {
      return None;
    }
    var ranked := SortByAreaDescending(contours, cv.contourArea);
    for i := 0 to |ranked|
      invariant forall j :: 0 <= j < i ==> !IsBoxCandidate(cv, ranked[j])
    {
      var c := ranked[i];
      var peri := cv.arcLength(c);
      var approx := cv.approxPolyDP(c, ApproxTolerance * peri);
      if |approx| == 4 {
        var area := cv.contourArea(c);
        if area > MinBoxArea {
          assert FirstCandidateAt(cv, ranked, i);
          SelectionIsLargest(cv, contours, c);
          return Some(c);
        }
      }
    }
    SelectionIsLargest(cv, contours, ranked[0]);
    contour := Some(ranked[0]);
  }

  /** get_min_area_rect: no rectangle exactly when there is no contour. */
  function GetMinAreaRect(contour: Option<Contour>, cv: Primitives): (rect: Option<RotatedRect>)
    ensures rect.None? <==> contour.None?
    ensures rect.Some? ==> rect.value == cv.minAreaRect(contour.value)
  {
    match contour
    case None => None
    case Some(c) => Some(cv.minAreaRect(c))
  }

  /**
   * detect_box after edge detection and contour tracing: the selected
   * contour and its fitted rectangle, both absent exactly when no contour
   * was traced.
   */
  method DetectBox(contours: seq<Contour>, cv: Primitives) returns (contour: Option<Contour>, rect: Option<RotatedRect>)
    ensures contour.None? <==> contours == []
    ensures rect.None? <==> contour.None?
    ensures contour.Some? ==> SelectedFrom(cv, SortByAreaDescending(contours, cv.contourArea), contour.value)
    ensures contour.Some? ==> contour.value in contours && rect.value == cv.minAreaRect(contour.value)
  {
    contour := FindBoxContour(contours, cv);
    rect := if contour.Some? then GetMinAreaRect(contour, cv) else None;
  }
}
