/** Points, rectangles and the canonical corner order used by scorescan.cpp.
    Single-precision coordinates (cv::Point2f, cv::Rect2f, the nanosvg bounds)
    are modelled as exact reals. */
module Geometry {

  /** An integer pixel position (cv::Point), as found by contour detection. */
  datatype Point = Point(x: int, y: int)

  /** A sub-pixel position (cv::Point2f). */
  datatype PointF = PointF(x: real, y: real)

  /** An axis-aligned rectangle (cv::Rect2f): top-left corner, width, height. */
  datatype Rect = Rect(x: real, y: real, width: real, height: real)

  /** The bounding box nanosvg stores for a shape: bounds[0..3] are
      minimum x, minimum y, maximum x, maximum y. */
  datatype Bounds = Bounds(minX: real, minY: real, maxX: real, maxY: real)

  /** The conversion of integer corners to float corners (cv::Mat::copyTo). */
  function ToPoint2f(p: Point): PointF {
    PointF(p.x as real, p.y as real)
  }

  function ToPoints2f(s: seq<Point>): (r: seq<PointF>)
    ensures |r| == |s|
    ensures forall i :: 0 <= i < |s| ==> r[i] == ToPoint2f(s[i])
  {
    seq(|s|, i requires 0 <= i < |s| => ToPoint2f(s[i]))
  }

  /** Four corners in the order top-left, top-right, bottom-right, bottom-left
      (image coordinates, y grows downwards): both top corners lie no lower
      than both bottom corners, the top pair runs left to right and the bottom
      pair right to left. Both homographies pair corners in this order. */
  predicate CornerOrder(c: seq<PointF>) {
    && |c| == 4
    && c[0].y <= c[2].y && c[0].y <= c[3].y
    && c[1].y <= c[2].y && c[1].y <= c[3].y
    && c[0].x <= c[1].x
    && c[3].x <= c[2].x
  }

  /** The four corners of a rectangle, starting at the top-left one. For a
      rectangle with non-negative sides they are in CornerOrder, and for
      positive sides no two of them coincide. */
  function RectCorners(r: Rect): (c: seq<PointF>)
    ensures |c| == 4
    ensures r.width >= 0.0 && r.height >= 0.0 ==> CornerOrder(c)
    ensures r.width > 0.0 && r.height > 0.0 ==>
      forall i, j :: 0 <= i < j < 4 ==> c[i] != c[j]
  {
    [ PointF(r.x, r.y),
      PointF(r.x + r.width, r.y),
      PointF(r.x + r.width, r.y + r.height),
      PointF(r.x, r.y + r.height) ]
  }

  /** The rectangle spanned by a shape's bounding box: its first corner is
      the box's minimum and its third corner the box's maximum. */
  function RectFromCorners(b: Bounds): (r: Rect)
    ensures RectCorners(r)[0] == PointF(b.minX, b.minY)
    ensures RectCorners(r)[2] == PointF(b.maxX, b.maxY)
    ensures b.minX <= b.maxX && b.minY <= b.maxY ==> CornerOrder(RectCorners(r))
  {
    Rect(b.minX, b.minY, b.maxX - b.minX, b.maxY - b.minY)
  }

  /** Converting bounds to a rectangle and back to corners gives exactly the
      four corners of the bounding box, in corner order. */
  lemma RectFromCornersRoundTrip(b: Bounds)
    ensures RectCorners(RectFromCorners(b)) ==
      [ PointF(b.minX, b.minY), PointF(b.maxX, b.minY),
        PointF(b.maxX, b.maxY), PointF(b.minX, b.maxY) ]
  {
  }

  /** C++ `static_cast<int>` of a float: truncation toward zero. */
  function Truncate(v: real): (n: int)
    ensures v >= 0.0 ==> n as real <= v < n as real + 1.0
    ensures v < 0.0 ==> n as real - 1.0 < v <= n as real
  {
    if v >= 0.0 then v.Floor else -((-v).Floor)
  }

  /** The page size taken from the `page` shape: the truncated maximum x and
      y of its bounds (not the bounds' width and height). */
  function PageSizeFromBounds(b: Bounds): (size: (int, int))
    ensures b.maxX >= 0.0 ==> size.0 as real <= b.maxX < size.0 as real + 1.0
    ensures b.maxY >= 0.0 ==> size.1 as real <= b.maxY < size.1 as real + 1.0
  {
    (Truncate(b.maxX), Truncate(b.maxY))
  }

  /** How often a value occurs in a sequence of four. */
  lemma CountOfFour(c: seq<PointF>, x: PointF)
    requires |c| == 4
    ensures multiset(c)[x] ==
      (if c[0] == x then 1 else 0) + (if c[1] == x then 1 else 0) +
      (if c[2] == x then 1 else 0) + (if c[3] == x then 1 else 0)
  {
    assert c == [c[0]] + [c[1]] + [c[2]] + [c[3]];
  }

  /** Four elements with the multiset of four distinct ones are those ones,
      each exactly once. */
  lemma SameFourDistinct(c: seq<PointF>, d: seq<PointF>)
    requires |c| == |d| == 4 && multiset(c) == multiset(d)
    requires forall i, j :: 0 <= i < j < 4 ==> d[i] != d[j]
    ensures forall i :: 0 <= i < 4 ==> c[i] in d
    ensures forall i, j :: 0 <= i < j < 4 ==> c[i] != c[j]
  {
    forall i | 0 <= i < 4
      ensures c[i] in d
    {
      assert c[i] in multiset(c);
    }
    forall i, j | 0 <= i < j < 4
      ensures c[i] != c[j]
    {
      CountOfFour(c, c[i]);
      CountOfFour(d, c[i]);
    }
  }

  /** Any arrangement of a rectangle's four corners that satisfies
      CornerOrder is the arrangement RectCorners produces: ordering the
      corners of a proper rectangle gives the same result whatever order they
      arrived in. */
  lemma {:induction false} RectCornerOrderUnique(r: Rect, c: seq<PointF>)
    requires r.width > 0.0 && r.height > 0.0
    requires |c| == 4 && multiset(c) == multiset(RectCorners(r))
    requires CornerOrder(c)
    ensures c == RectCorners(r)
  {
    var rc := RectCorners(r);
    SameFourDistinct(c, rc);
    var tl, tr, br, bl := rc[0], rc[1], rc[2], rc[3];
    assert forall i :: 0 <= i < 4 ==> c[i] == tl || c[i] == tr || c[i] == br || c[i] == bl by {
      assert rc == [tl, tr, br, bl];
    }
    // The bottom pair holds the two corners of larger y.
    assert c[2].y == r.y + r.height;
    assert c[3].y == r.y + r.height;
    assert c[0].y == r.y && c[1].y == r.y;
    assert c == [c[0], c[1], c[2], c[3]];
  }
}
