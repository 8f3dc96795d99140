/** sortPointsCW from scorescan.cpp: three in-place std::sort passes over a
    vector of integer points. std::sort is not stable, so the contracts below
    promise only what std::sort promises: the range ends up ordered by the
    comparator, it holds the same points, and nothing outside it moves. */
module CornerSort {
  import opened Geometry

  /** The three comparators: `pt1.y < pt2.y` on the whole vector, then
      `pt1.x < pt2.x` on the first two and `pt1.x > pt2.x` on the rest. Each
      is "key of the first < key of the second" for the key below. */
  datatype Order = ByYAscending | ByXAscending | ByXDescending

  function Key(o: Order, p: Point): int {
    match o
    case ByYAscending => p.y
    case ByXAscending => p.x
    case ByXDescending => -p.x
  }

  /** No later element of s[lo..hi] compares before an earlier one. */
  ghost predicate SortedRange(s: seq<Point>, lo: int, hi: int, o: Order) {
    forall i, j :: 0 <= lo <= i < j < hi <= |s| ==> Key(o, s[i]) <= Key(o, s[j])
  }

  /** std::sort(a + lo, a + hi, comparator of o). */
  method SortRange(a: array<Point>, lo: int, hi: int, o: Order)
    requires 0 <= lo <= hi <= a.Length
    modifies a
    ensures SortedRange(a[..], lo, hi, o)
    ensures multiset(a[lo..hi]) == old(multiset(a[lo..hi]))
    ensures forall k :: 0 <= k < a.Length && !(lo <= k < hi) ==> a[k] == old(a[k])
  {
    ghost var before := a[..];
    var i := lo;
    while i < hi
      invariant lo <= i <= hi
      invariant SortedRange(a[..], lo, i, o)
      invariant multiset(a[..]) == multiset(before)
      invariant forall k :: 0 <= k < a.Length && !(lo <= k < hi) ==> a[k] == before[k]
    {
      InsertLast(a, lo, i, o);
      i := i + 1;
    }
    SameOutsideSameInside(before, a[..], lo, hi);
  }

  /** One insertion-sort step: a[lo..i] is sorted; moving a[i] left past
      every larger neighbour makes a[lo..i+1] sorted. */
  method InsertLast(a: array<Point>, lo: int, i: int, o: Order)
    requires 0 <= lo <= i < a.Length
    requires SortedRange(a[..], lo, i, o)
    modifies a
    ensures SortedRange(a[..], lo, i + 1, o)
    ensures multiset(a[..]) == old(multiset(a[..]))
    ensures forall k :: 0 <= k < a.Length && !(lo <= k <= i) ==> a[k] == old(a[k])
  {
    var j := i;
    while j > lo && Key(o, a[j]) < Key(o, a[j - 1])
      invariant lo <= j <= i
      invariant SortedExcept(a[..], lo, i, j, o)
      invariant multiset(a[..]) == old(multiset(a[..]))
      invariant forall k :: 0 <= k < a.Length && !(lo <= k <= i) ==> a[k] == old(a[k])
    {
      ghost var s := a[..];
      SwapAdjacent(a, j);
      SwapKeepsSortedExcept(s, lo, i, j, o);
      j := j - 1;
    }
    SortedExceptDone(a[..], lo, i, j, o);
  }

  /** Exchanges a[j - 1] and a[j]. */
  method SwapAdjacent(a: array<Point>, j: int)
    requires 0 < j < a.Length
    modifies a
    ensures a[..] == old(a[..])[j - 1 := old(a[j])][j := old(a[j - 1])]
    ensures multiset(a[..]) == old(multiset(a[..]))
  {
    a[j - 1], a[j] := a[j], a[j - 1];
  }

  /** a[lo..i+1] is sorted except that the element at j may be smaller than
      those before it. */
  ghost predicate SortedExcept(s: seq<Point>, lo: int, i: int, j: int, o: Order) {
    forall m, n :: 0 <= lo <= m < n <= i < |s| && n != j ==> Key(o, s[m]) <= Key(o, s[n])
  }

  lemma SwapKeepsSortedExcept(s: seq<Point>, lo: int, i: int, j: int, o: Order)
    requires 0 <= lo < j <= i < |s|
    requires SortedExcept(s, lo, i, j, o)
    requires Key(o, s[j]) < Key(o, s[j - 1])
    ensures SortedExcept(s[j - 1 := s[j]][j := s[j - 1]], lo, i, j - 1, o)
  {
  }

  lemma SortedExceptDone(s: seq<Point>, lo: int, i: int, j: int, o: Order)
    requires 0 <= lo <= j <= i < |s|
    requires SortedExcept(s, lo, i, j, o)
    requires j == lo || Key(o, s[j - 1]) <= Key(o, s[j])
    ensures SortedRange(s, lo, i + 1, o)
  {
  }

  /** Two permutations of each other that agree outside [lo, hi) are
      permutations of each other inside it. */
  lemma SameOutsideSameInside(s: seq<Point>, t: seq<Point>, lo: int, hi: int)
    requires 0 <= lo <= hi <= |s| == |t|
    requires multiset(s) == multiset(t)
    requires forall k :: 0 <= k < |s| && !(lo <= k < hi) ==> s[k] == t[k]
    ensures multiset(s[lo..hi]) == multiset(t[lo..hi])
  {
    assert s[..lo] == t[..lo];
    assert s[hi..] == t[hi..];
    SplitMultiset(s, lo, hi);
    SplitMultiset(t, lo, hi);
    MultisetCancel(multiset(s[lo..hi]), multiset(t[lo..hi]), multiset(s[..lo]) + multiset(s[hi..]));
  }

  lemma SplitMultiset(s: seq<Point>, lo: int, hi: int)
    requires 0 <= lo <= hi <= |s|
    ensures multiset(s) == multiset(s[lo..hi]) + (multiset(s[..lo]) + multiset(s[hi..]))
  {
    assert s == s[..lo] + s[lo..hi] + s[hi..];
  }

  lemma MultisetCancel(a: multiset<Point>, b: multiset<Point>, c: multiset<Point>)
    requires a + c == b + c
    ensures a == b
  {
    forall x
      ensures a[x] == b[x]
    {
      assert (a + c)[x] == (b + c)[x];
    }
  }

  /** A permutation of s[lo..hi] that leaves the rest of s alone keeps the
      multiset of s, and each of its elements in [lo, hi) comes from s[lo..hi]. */
  lemma PermutedWithin(s: seq<Point>, t: seq<Point>, lo: int, hi: int)
    requires 0 <= lo <= hi <= |s| == |t|
    requires multiset(t[lo..hi]) == multiset(s[lo..hi])
    requires forall k :: 0 <= k < |s| && !(lo <= k < hi) ==> t[k] == s[k]
    ensures multiset(t) == multiset(s)
    ensures forall k :: lo <= k < hi ==> t[k] in s[lo..hi]
  {
    assert s == s[..lo] + s[lo..hi] + s[hi..];
    assert t == t[..lo] + t[lo..hi] + t[hi..];
    assert s[..lo] == t[..lo];
    assert s[hi..] == t[hi..];
    forall k | lo <= k < hi
      ensures t[k] in s[lo..hi]
    {
      assert t[lo..hi][k - lo] == t[k];
      assert t[k] in multiset(t[lo..hi]);
    }
  }

  /** What the three passes of sortPointsCW establish together, stated over
      the snapshots after each pass. */
  lemma {:induction false} ThreePasses(s0: seq<Point>, s1: seq<Point>, s2: seq<Point>, s3: seq<Point>)
    requires 2 <= |s0| == |s1| == |s2| == |s3|
    requires multiset(s1) == multiset(s0) && SortedRange(s1, 0, |s1|, ByYAscending)
    requires multiset(s2[0..2]) == multiset(s1[0..2])
    requires forall k :: 2 <= k < |s2| ==> s2[k] == s1[k]
    requires SortedRange(s2, 0, 2, ByXAscending)
    requires multiset(s3[2..|s3|]) == multiset(s2[2..|s2|])
    requires forall k :: 0 <= k < 2 ==> s3[k] == s2[k]
    requires SortedRange(s3, 2, |s3|, ByXDescending)
    ensures multiset(s3) == multiset(s0)
    ensures forall i, j :: 0 <= i < 2 <= j < |s3| ==> s3[i].y <= s3[j].y
    ensures s3[0].x <= s3[1].x
    ensures forall i, j :: 2 <= i < j < |s3| ==> s3[j].x <= s3[i].x
  {
    var n := |s0|;
    PermutedWithin(s1, s2, 0, 2);
    PermutedWithin(s2, s3, 2, n);
    forall i, j | 0 <= i < 2 <= j < n
      ensures s3[i].y <= s3[j].y
    {
      var i' :| 0 <= i' < 2 && s1[i'] == s3[i];
      var j' :| 2 <= j' < n && s2[j'] == s3[j];
      assert Key(ByYAscending, s1[i']) <= Key(ByYAscending, s1[j']);
    }
    assert Key(ByXAscending, s3[0]) <= Key(ByXAscending, s3[1]);
    forall i, j | 2 <= i < j < n
      ensures s3[j].x <= s3[i].x
    {
      assert Key(ByXDescending, s3[i]) <= Key(ByXDescending, s3[j]);
    }
  }

  /** sortPointsCW: sort by y, then the first two by ascending x and the rest
      by descending x. For four corners of a quadrilateral this yields
      top-left, top-right, bottom-right, bottom-left. */
  method SortPointsCW(a: array<Point>)
    requires a.Length >= 2
    modifies a
    ensures multiset(a[..]) == old(multiset(a[..]))
    ensures forall i, j :: 0 <= i < 2 <= j < a.Length ==> a[i].y <= a[j].y
    ensures a[0].x <= a[1].x
    ensures forall i, j :: 2 <= i < j < a.Length ==> a[j].x <= a[i].x
    ensures a.Length == 4 ==> CornerOrder(ToPoints2f(a[..]))
  {
    ghost var s0 := a[..];
    SortRange(a, 0, a.Length, ByYAscending);
    ghost var s1 := a[..];
    assert multiset(s1) == multiset(s0) by {
      assert s1 == a[0..a.Length] && s0 == old(a[0..a.Length]);
    }
    SortRange(a, 0, 2, ByXAscending);
    ghost var s2 := a[..];
    SortRange(a, 2, a.Length, ByXDescending);
    ThreePasses(s0, s1, s2, a[..]);
  }
}
