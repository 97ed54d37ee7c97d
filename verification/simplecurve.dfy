/** Piecewise-linear curves built from control points (simplecurve.py). */
module Curves {
  import opened Results
  import opened Lerp

  /** A control point: input x, output y. */
  datatype Point = Point(x: real, y: real)

  /** Ascending by input; equal inputs are allowed. */
  predicate SortedByX(s: seq<Point>) {
    forall i, j :: 0 <= i < j < |s| ==> s[i].x <= s[j].x
  }

  /** Strictly ascending by input: no two control points share an input. */
  predicate IncreasingX(s: seq<Point>) {
    forall i, j :: 0 <= i < j < |s| ==> s[i].x < s[j].x
  }

  /** The list a stable sort by x makes of s + [p] when s is already sorted:
      p moves left past every point whose x is larger than its own. */
  function InsertPoint(s: seq<Point>, p: Point): (r: seq<Point>)
    ensures |r| == |s| + 1
    ensures multiset(r) == multiset(s) + multiset{p}
    decreases |s|
  {
    if |s| == 0 then [p]
    else if p.x < s[|s| - 1].x then
      assert s == s[..|s| - 1] + [s[|s| - 1]];
      InsertPoint(s[..|s| - 1], p) + [s[|s| - 1]]
    else s + [p]
  }

  /** Inserting at a split point where everything before is at most p.x and
      everything after is above it. */
  lemma {:induction false} InsertPointAt(s: seq<Point>, p: Point, k: nat)
    requires k <= |s|
    requires forall j :: 0 <= j < k ==> s[j].x <= p.x
    requires forall j :: k <= j < |s| ==> p.x < s[j].x
    ensures InsertPoint(s, p) == s[..k] + [p] + s[k..]
    decreases |s|
  {
    if |s| > 0 && p.x < s[|s| - 1].x {
      var init := s[..|s| - 1];
      InsertPointAt(init, p, k);
      assert init[..k] == s[..k];
      assert s[k..] == init[k..] + [s[|s| - 1]];
    }
  }

  /** The length of the leading run of a sorted list whose x is at most x. */
  function PrefixAtMost(s: seq<Point>, x: real): (k: nat)
    requires SortedByX(s)
    ensures k <= |s|
    ensures forall j :: 0 <= j < k ==> s[j].x <= x
    ensures forall j :: k <= j < |s| ==> x < s[j].x
    decreases |s|
  {
    if |s| == 0 || x < s[0].x then 0 else 1 + PrefixAtMost(s[1..], x)
  }

  /** add_point keeps the list sorted, and is stable: p lands after every
      earlier point with an equal or smaller x and before every larger one. */
  lemma {:induction false} InsertPointSorted(s: seq<Point>, p: Point)
    requires SortedByX(s)
    ensures InsertPoint(s, p) == s[..PrefixAtMost(s, p.x)] + [p] + s[PrefixAtMost(s, p.x)..]
    ensures SortedByX(InsertPoint(s, p))
  {
    var k := PrefixAtMost(s, p.x);
    InsertPointAt(s, p, k);
    SplitSorted(s, p, k);
  }

  /** Putting p at a split point of a sorted list keeps it sorted. */
  lemma SplitSorted(s: seq<Point>, p: Point, k: nat)
    requires SortedByX(s) && k <= |s|
    requires forall j :: 0 <= j < k ==> s[j].x <= p.x
    requires forall j :: k <= j < |s| ==> p.x < s[j].x
    ensures SortedByX(s[..k] + [p] + s[k..])
  {
    var r := s[..k] + [p] + s[k..];
    assert |r| == |s| + 1;
    assert r[k] == p;
    assert forall i :: 0 <= i < k ==> r[i] == s[i];
    assert forall i :: k < i < |r| ==> r[i] == s[i - 1];
    forall i, j | 0 <= i < j < |r| ensures r[i].x <= r[j].x {
      var xi := if i < k then s[i].x else if i == k then p.x else s[i - 1].x;
      var xj := if j < k then s[j].x else if j == k then p.x else s[j - 1].x;
      assert r[i].x == xi && r[j].x == xj;
    }
  }

  /** Sorting by x, as a stable insertion sort. This is also what adding the
      points of s one at a time, in order, to an empty curve produces. */
  function SortByX(s: seq<Point>): (r: seq<Point>)
    ensures SortedByX(r)
    ensures multiset(r) == multiset(s)
    decreases |s|
  {
    if |s| == 0 then []
    else
      assert s == s[..|s| - 1] + [s[|s| - 1]];
      InsertPointSorted(SortByX(s[..|s| - 1]), s[|s| - 1]);
      InsertPoint(SortByX(s[..|s| - 1]), s[|s| - 1])
  }

  /** Dropping the last point of a sorted list leaves a sorted list whose
      points are all at most the dropped one. */
  lemma SortedInit(s: seq<Point>)
    requires SortedByX(s) && |s| > 0
    ensures SortedByX(s[..|s| - 1])
    ensures forall j :: 0 <= j < |s| - 1 ==> s[j].x <= s[|s| - 1].x
  {
  }

  /** Sorting a sorted list changes nothing. */
  lemma {:induction false} SortByXSorted(s: seq<Point>)
    requires SortedByX(s)
    ensures SortByX(s) == s
    decreases |s|
  {
    if |s| > 0 {
      var init, last := s[..|s| - 1], s[|s| - 1];
      SortedInit(s);
      SortByXSorted(init);
      InsertPointAt(init, last, |init|);
      assert init[..|init|] + [last] + init[|init|..] == s;
    }
  }

  /** Two lists strictly ascending by x that hold the same points are equal. */
  lemma {:induction false} IncreasingUnique(a: seq<Point>, b: seq<Point>)
    requires IncreasingX(a) && IncreasingX(b)
    requires multiset(a) == multiset(b)
    ensures a == b
    decreases |a|
  {
    if |a| > 0 {
      assert a == [a[0]] + a[1..];
      assert |b| == |multiset(b)| == |multiset(a)| == |a|;
      assert b == [b[0]] + b[1..];
      assert a[0] in multiset(b) && b[0] in multiset(a);
      HeadsEqual(a, b);
      assert multiset(a[1..]) == multiset(a) - multiset{a[0]};
      assert multiset(b[1..]) == multiset(b) - multiset{b[0]};
      IncreasingUnique(a[1..], b[1..]);
    } else {
      assert |multiset(b)| == 0;
    }
  }

  /** Two strictly ascending lists, each holding the other's first point,
      start with the same point: the one with the smallest input. */
  lemma HeadsEqual(a: seq<Point>, b: seq<Point>)
    requires IncreasingX(a) && IncreasingX(b) && 0 < |a| && 0 < |b|
    requires a[0] in b && b[0] in a
    ensures a[0] == b[0]
  {
    var i :| 0 <= i < |a| && a[i] == b[0];
    var j :| 0 <= j < |b| && b[j] == a[0];
    assert a[0].x <= a[i].x == b[0].x <= b[j].x == a[0].x;
    assert i == 0;
  }

  /** When no two points share an input, the order in which the points are
      added does not matter. */
  lemma InsertionOrderIrrelevant(s: seq<Point>, t: seq<Point>)
    requires multiset(s) == multiset(t)
    requires IncreasingX(SortByX(s))
    ensures SortByX(s) == SortByX(t)
  {
    var a, b := SortByX(s), SortByX(t);
    forall i, j | 0 <= i < j < |b| ensures b[i].x < b[j].x {
      if b[i].x == b[j].x {
        assert b[i] in multiset(a) && b[j] in multiset(a);
        var i' :| 0 <= i' < |a| && a[i'] == b[i];
        var j' :| 0 <= j' < |a| && a[j'] == b[j];
        if i' == j' {
          DuplicateInSorted(b, i, j);
          assert multiset(a)[b[i]] >= 2;
          SingleInIncreasing(a, i');
        }
      }
    }
    IncreasingUnique(a, b);
  }

  /** Two positions holding the same point count twice in the multiset. */
  lemma DuplicateInSorted(b: seq<Point>, i: nat, j: nat)
    requires i < j < |b| && b[i] == b[j]
    ensures multiset(b)[b[i]] >= 2
  {
    assert b == b[..i] + [b[i]] + b[i + 1..j] + [b[j]] + b[j + 1..];
  }

  /** In a strictly increasing list every point occurs once. */
  lemma {:induction false} SingleInIncreasing(a: seq<Point>, k: nat)
    requires IncreasingX(a) && k < |a|
    ensures multiset(a)[a[k]] == 1
  {
    assert a == a[..k] + [a[k]] + a[k + 1..];
    assert a[k] !in a[..k];
    assert a[k] !in a[k + 1..];
  }

  /** The index the evaluation loop stops at: the first i (from the given
      one) with n <= x_i. The bound n <= last x keeps it in range. */
  function FirstAtLeast(pts: seq<Point>, n: real, i: nat): (k: nat)
    requires 1 <= i < |pts| && n <= pts[|pts| - 1].x
    ensures i <= k < |pts| && n <= pts[k].x
    ensures forall j :: i <= j < k ==> pts[j].x < n
    decreases |pts| - i
  {
    if n > pts[i].x then FirstAtLeast(pts, n, i + 1) else i
  }

  /** The value of a curve with the given points at n (SimpleCurve.__call__). */
  function Evaluate(pts: seq<Point>, n: real): Result<real> {
    if |pts| == 0 then Err(EmptyCurve)
    else if |pts| == 1 then Ok(pts[0].y)
    else if n < pts[0].x then Ok(pts[0].y)
    else if n > pts[|pts| - 1].x then Ok(pts[|pts| - 1].y)
    else
      var i := FirstAtLeast(pts, n, 1);
      if pts[i - 1].x == pts[i].x then Err(DivisionByZero)
      else Ok(LerpXY(pts[i - 1].x, pts[i].x, pts[i - 1].y, pts[i].y, n))
  }

  /** A curve with no points cannot be evaluated; a sorted curve with points
      fails only by dividing by zero, which happens exactly when its first
      two points share the input n. */
  lemma EvaluateFails(pts: seq<Point>, n: real)
    requires SortedByX(pts)
    ensures |pts| == 0 ==> Evaluate(pts, n) == Err(EmptyCurve)
    ensures Evaluate(pts, n).Err? <==> |pts| == 0 || (2 <= |pts| && pts[0].x == n && pts[1].x == n)
  {
    if 2 <= |pts| && pts[0].x <= n <= pts[|pts| - 1].x {
      var k := FirstAtLeast(pts, n, 1);
      if pts[0].x == n && pts[1].x == n {
        assert k == 1;
      }
    }
  }

  /** A one-point curve is constant; outside the x-range the value is clamped
      to the nearest end point's y. */
  lemma EvaluateOutsideRange(pts: seq<Point>, n: real)
    requires SortedByX(pts) && 1 <= |pts|
    ensures |pts| == 1 ==> Evaluate(pts, n) == Ok(pts[0].y)
    ensures n < pts[0].x ==> Evaluate(pts, n) == Ok(pts[0].y)
    ensures pts[|pts| - 1].x < n ==> Evaluate(pts, n) == Ok(pts[|pts| - 1].y)
  {
  }

  /** Inside the x-range the scan stops at the first k >= 1 with n <= x_k, so
      x_(k-1) <= n <= x_k, and the value is the interpolation between those two
      points, which lies between their y-values. */
  lemma EvaluateBracket(pts: seq<Point>, n: real)
    requires SortedByX(pts) && 2 <= |pts|
    requires pts[0].x <= n <= pts[|pts| - 1].x
    ensures var k := FirstAtLeast(pts, n, 1);
      && pts[k - 1].x <= n <= pts[k].x
      && (forall j :: 1 <= j < k ==> pts[j].x < n)
      && (Evaluate(pts, n).Ok? ==>
            && pts[k - 1].x < pts[k].x
            && Evaluate(pts, n).value == LerpXY(pts[k - 1].x, pts[k].x, pts[k - 1].y, pts[k].y, n)
            && Min(pts[k - 1].y, pts[k].y) <= Evaluate(pts, n).value <= Max(pts[k - 1].y, pts[k].y))
  {
    var k := FirstAtLeast(pts, n, 1);
    if pts[k - 1].x < pts[k].x {
      LerpXYBetween(pts[k - 1].x, pts[k].x, pts[k - 1].y, pts[k].y, n);
    }
  }

  /** With distinct inputs, a curve passes through each of its control points. */
  lemma EvaluateAtControlPoint(pts: seq<Point>, k: nat)
    requires IncreasingX(pts) && k < |pts|
    ensures Evaluate(pts, pts[k].x) == Ok(pts[k].y)
  {
    if 2 <= |pts| {
      var n := pts[k].x;
      var i := FirstAtLeast(pts, n, 1);
      if k == 0 {
        assert i == 1;
      } else {
        assert i == k;
      }
    }
  }

  /** A sorted curve's value never leaves the band its control points' y-values
      lie in. */
  lemma EvaluateWithin(pts: seq<Point>, n: real, lo: real, hi: real)
    requires SortedByX(pts)
    requires forall i :: 0 <= i < |pts| ==> lo <= pts[i].y <= hi
    ensures Evaluate(pts, n).Ok? ==> lo <= Evaluate(pts, n).value <= hi
  {
    if 2 <= |pts| && pts[0].x <= n <= pts[|pts| - 1].x {
      EvaluateBracket(pts, n);
    }
  }

  /** The first two points of the curve test, sorted after each addition. */
  lemma CurveTestVectorFirstTwo()
    ensures SortByX([Point(0.0, 0.0), Point(10.0, 100.0)]) == [Point(0.0, 0.0), Point(10.0, 100.0)]
  {
    var p0, p1 := Point(0.0, 0.0), Point(10.0, 100.0);
    assert [p0, p1][..1] == [p0];
    assert SortByX([p0]) == [p0];
    InsertPointAt([p0], p1, 1);
  }

  /** The first three points of the curve test, sorted after each addition. */
  lemma CurveTestVectorFirstThree()
    ensures SortByX([Point(0.0, 0.0), Point(10.0, 100.0), Point(5.0, 10.0)])
         == [Point(0.0, 0.0), Point(5.0, 10.0), Point(10.0, 100.0)]
  {
    var p0, p1, p2 := Point(0.0, 0.0), Point(10.0, 100.0), Point(5.0, 10.0);
    assert [p0, p1, p2][..2] == [p0, p1];
    CurveTestVectorFirstTwo();
    InsertPointAt([p0, p1], p2, 1);
  }

  /** The curve of the curve test: points added as (0,0), (10,100), (5,10),
      (100,20) end up ordered by x. */
  lemma CurveTestVectorOrder()
    ensures SortByX([Point(0.0, 0.0), Point(10.0, 100.0), Point(5.0, 10.0), Point(100.0, 20.0)])
         == [Point(0.0, 0.0), Point(5.0, 10.0), Point(10.0, 100.0), Point(100.0, 20.0)]
  {
    var p0, p1, p2, p3 := Point(0.0, 0.0), Point(10.0, 100.0), Point(5.0, 10.0), Point(100.0, 20.0);
    assert [p0, p1, p2, p3][..3] == [p0, p1, p2];
    CurveTestVectorFirstThree();
    InsertPointAt([p0, p2, p1], p3, 3);
  }

  /** The values the curve test expects of that curve at its control points
      and beyond its ends. */
  lemma CurveTestVectorEnds()
    ensures var c := [Point(0.0, 0.0), Point(5.0, 10.0), Point(10.0, 100.0), Point(100.0, 20.0)];
      && Evaluate(c, -9999.0) == Ok(0.0) && Evaluate(c, 0.0) == Ok(0.0)
      && Evaluate(c, 5.0) == Ok(10.0) && Evaluate(c, 10.0) == Ok(100.0)
      && Evaluate(c, 100.0) == Ok(20.0) && Evaluate(c, 9999.0) == Ok(20.0)
  {
    var c := [Point(0.0, 0.0), Point(5.0, 10.0), Point(10.0, 100.0), Point(100.0, 20.0)];
    assert IncreasingX(c);
    EvaluateAtControlPoint(c, 0);
    EvaluateAtControlPoint(c, 1);
    EvaluateAtControlPoint(c, 2);
    EvaluateAtControlPoint(c, 3);
  }

  /** The values the curve test expects between control points. */
  lemma CurveTestVectorBetween()
    ensures var c := [Point(0.0, 0.0), Point(5.0, 10.0), Point(10.0, 100.0), Point(100.0, 20.0)];
      Evaluate(c, 2.5) == Ok(5.0) && Evaluate(c, 7.5) == Ok(55.0) && Evaluate(c, 55.0) == Ok(60.0)
  {
    var c := [Point(0.0, 0.0), Point(5.0, 10.0), Point(10.0, 100.0), Point(100.0, 20.0)];
    assert FirstAtLeast(c, 2.5, 1) == 1;
    assert LerpXY(0.0, 5.0, 0.0, 10.0, 2.5) == 5.0;
    assert FirstAtLeast(c, 7.5, 1) == 2;
    assert LerpXY(5.0, 10.0, 10.0, 100.0, 7.5) == 55.0;
    assert FirstAtLeast(c, 55.0, 1) == 3;
    assert LerpXY(10.0, 100.0, 100.0, 20.0, 55.0) == 60.0;
  }

  /** The one-point curve of the curve test is constant. */
  lemma CurveTestVectorSinglePoint()
    ensures var c := SortByX([Point(0.0, 0.0)]);
      Evaluate(c, -1.0) == Ok(0.0) && Evaluate(c, 0.0) == Ok(0.0) && Evaluate(c, 1.0) == Ok(0.0)
  {
    assert SortByX([Point(0.0, 0.0)]) == [Point(0.0, 0.0)];
  }

  /** A curve whose points are held in a list kept sorted by x. */
  class SimpleCurve {
    var points: seq<Point>

    ghost predicate Valid()
      reads this
    {
      SortedByX(points)
    }

    constructor ()
      ensures Valid() && points == []
    {
      points := [];
    }

    /** add_point: append, then sort by x. */
    method AddPoint(p: Point)
      requires Valid()
      modifies this
      ensures Valid()
      ensures points == InsertPoint(old(points), p)
      ensures multiset(points) == multiset(old(points)) + multiset{p}
    {
      var appended := points + [p];
      assert appended[..|appended| - 1] == points;
      SortByXSorted(points);
      points := SortByX(appended);
    }

    /** __call__: evaluation; it reads the points and changes nothing. */
    method Call(n: real) returns (r: Result<real>)
      ensures r == Evaluate(points, n)
    {
      if |points| == 0 {
        return Err(EmptyCurve);
      }
      if |points| == 1 {
        return Ok(points[0].y);
      }
      if n < points[0].x {
        return Ok(points[0].y);
      }
      if n > points[|points| - 1].x {
        return Ok(points[|points| - 1].y);
      }
      var i := 1;
      while n > points[i].x
        invariant 1 <= i < |points|
        invariant FirstAtLeast(points, n, i) == FirstAtLeast(points, n, 1)
        decreases |points| - i
      {
        i := i + 1;
      }
      var pt1, pt2 := points[i - 1], points[i];
      if pt1.x == pt2.x {
        return Err(DivisionByZero);
      }
      r := Ok(LerpXY(pt1.x, pt2.x, pt1.y, pt2.y, n));
    }
  }
}
