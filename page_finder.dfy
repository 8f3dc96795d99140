/** The contour-selection loop of tryFindPage (scorescan.cpp). Edge detection,
    contour extraction, polygon approximation and contour areas are OpenCV
    calls; they enter the model as their results: for every contour, the
    corners approxPolyDP found and the area contourArea measured, listed in the
    order the area sort left them. */
module PageFinder {
  import opened Outcomes
  import opened Geometry
  import opened CornerSort

  /** The zoom-out factor of the rough warp. */
  const ScaleFactor: real := 0.7

  /** The smallest accepted share of the page area. */
  const MinPageShare: real := 0.5

  /** contourArea never returns a negative area. */
  type Area = r: real | r >= 0.0

  /** One detected contour: its polygon approximation and its area. */
  datatype Contour = Contour(approx: seq<Point>, area: Area)

  predicate IsQuad(c: Contour) {
    |c.approx| == 4
  }

  /** The rejection test `area / scaleFactor / pageSize.area() < 0.5`. With a
      zero page area the quotient is +infinity or NaN in IEEE arithmetic and
      the comparison is false, so nothing is rejected. */
  predicate TooSmall(area: Area, pageArea: int) {
    pageArea != 0 && area / ScaleFactor / (pageArea as real) < MinPageShare
  }

  /** The area is divided by the scale factor once, not by its square: for a
      page of positive area a contour is rejected exactly when its area is
      below 0.35 of the page area. */
  lemma TooSmallThreshold(area: Area, pageArea: int)
    requires pageArea > 0
    ensures TooSmall(area, pageArea) <==> area < 0.35 * pageArea as real
  {
    var p := pageArea as real;
    var q := area / ScaleFactor;
    assert q * ScaleFactor == area;
    assert q / p * p == q;
    if q / p < MinPageShare {
      assert q < MinPageShare * p;
    } else {
      assert q >= MinPageShare * p;
    }
  }

  /** A contour with no larger area is rejected whenever a larger one is. */
  lemma TooSmallMonotone(smaller: Area, larger: Area, pageArea: int)
    requires smaller <= larger
    requires TooSmall(larger, pageArea)
    ensures TooSmall(smaller, pageArea)
  {
    if pageArea > 0 {
      TooSmallThreshold(smaller, pageArea);
      TooSmallThreshold(larger, pageArea);
    } else if pageArea < 0 {
      var p := pageArea as real;
      var q := smaller / ScaleFactor;
      assert q >= 0.0;
      assert q / p * p == q;
      assert q / p <= 0.0;
    }
  }

  /** The position of the first contour whose approximation has exactly four
      vertices, if there is one. */
  function FirstQuad(cs: seq<Contour>): (r: Option<nat>)
    ensures r.Some? ==> r.value < |cs| && IsQuad(cs[r.value])
    ensures r.Some? ==> forall j :: 0 <= j < r.value ==> !IsQuad(cs[j])
    ensures r.None? ==> forall j :: 0 <= j < |cs| ==> !IsQuad(cs[j])
  {
    if cs == [] then None
    else if IsQuad(cs[0]) then Some(0)
    else match FirstQuad(cs[1..])
      case None => None
      case Some(k) => Some(k + 1)
  }

  /** The contour tryFindPage accepts: the first quadrilateral decides, and
      it is accepted unless it is too small. */
  function PageChoice(cs: seq<Contour>, pageArea: int): (r: Option<nat>)
    ensures r.Some? ==> r.value < |cs| && IsQuad(cs[r.value]) && !TooSmall(cs[r.value].area, pageArea)
    ensures r.Some? ==> forall j :: 0 <= j < r.value ==> !IsQuad(cs[j])
    ensures r.None? <==>
      forall k :: 0 <= k < |cs| && IsQuad(cs[k]) && (forall j :: 0 <= j < k ==> !IsQuad(cs[j]))
        ==> TooSmall(cs[k].area, pageArea)
  {
    match FirstQuad(cs)
    case None => None
    case Some(k) => if TooSmall(cs[k].area, pageArea) then None else Some(k)
  }

  /** sortPointsCW on the four vertices of an approximation, then their
      conversion to float corners: the same points, in corner order. */
  method OrderCorners(approx: seq<Point>) returns (corners: seq<Point>)
    requires |approx| == 4
    ensures |corners| == 4 && multiset(corners) == multiset(approx)
    ensures CornerOrder(ToPoints2f(corners))
  {
    var a := new Point[4];
    a[0], a[1], a[2], a[3] := approx[0], approx[1], approx[2], approx[3];
    assert a[..] == approx;
    SortPointsCW(a);
    corners := a[..];
  }

  /** tryFindPage's loop: walk the contours in order; at the first one whose
      approximation has four vertices, order its corners with sortPointsCW,
      then give up (break) if it is too small and succeed otherwise. On
      success the ordered corners are returned; they are what the final
      homography maps onto the page corners. */
  method TryFindPage(contours: seq<Contour>, pageArea: int) returns (found: bool, corners: seq<Point>)
    ensures found <==> PageChoice(contours, pageArea).Some?
    ensures found ==>
      var k := PageChoice(contours, pageArea).value;
      |corners| == 4 && multiset(corners) == multiset(contours[k].approx) &&
      CornerOrder(ToPoints2f(corners))
    ensures !found ==> corners == []
  {
    found, corners := false, [];
    var i := 0;
    while i < |contours|
      invariant 0 <= i <= |contours|
      invariant forall j :: 0 <= j < i ==> !IsQuad(contours[j])
    {
      var approx := contours[i].approx;
      if |approx| == 4 {
        var ordered := OrderCorners(approx);
        assert FirstQuad(contours) == Some(i);
        if TooSmall(contours[i].area, pageArea) {
          // Failed to scan: the detected quadrilateral is too small.
          break;
        }
        found, corners := true, ordered;
        return;
      }
      i := i + 1;
    }
  }

  /** When the contours are sorted by non-increasing area, giving up at the
      first quadrilateral loses nothing: tryFindPage fails exactly when every
      quadrilateral contour is too small. */
  lemma {:induction false} BreakLosesNothing(cs: seq<Contour>, pageArea: int)
    requires forall i, j :: 0 <= i < j < |cs| ==> cs[j].area <= cs[i].area
    ensures PageChoice(cs, pageArea).None? <==>
      forall k :: 0 <= k < |cs| && IsQuad(cs[k]) ==> TooSmall(cs[k].area, pageArea)
  {
    match FirstQuad(cs)
    case None =>
    case Some(f) =>
      if TooSmall(cs[f].area, pageArea) {
        forall k | 0 <= k < |cs| && IsQuad(cs[k])
          ensures TooSmall(cs[k].area, pageArea)
        {
          TooSmallMonotone(cs[k].area, cs[f].area, pageArea);
        }
      }
  }

  /** With contours sorted by non-increasing area, the accepted contour is a
      largest quadrilateral among them. */
  lemma ChosenIsLargestQuad(cs: seq<Contour>, pageArea: int)
    requires forall i, j :: 0 <= i < j < |cs| ==> cs[j].area <= cs[i].area
    requires PageChoice(cs, pageArea).Some?
    ensures forall k :: 0 <= k < |cs| && IsQuad(cs[k]) ==>
      cs[k].area <= cs[PageChoice(cs, pageArea).value].area
  {
  }
}
