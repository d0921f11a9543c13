/** Polygon geometry of lib/geometry/Polygon.js over exact reals: the
    bounding box folded from sentinel values, translation to the origin,
    the shoelace winding test and the mirrored test. */
module Polygon {

  datatype Point = Point(x: real, y: real)

  /** The `bounds` object: the extremes, the size and the top-left corner. */
  datatype Bounds = Bounds(width: real, height: real, minX: real, minY: real,
                           maxX: real, maxY: real, x: real, y: real)

  /** The starting values of the fold: an empty polygon keeps them. */
  const Sentinel: real := 65535.0

  function Min(a: real, b: real): real { if a <= b then a else b }
  function Max(a: real, b: real): real { if a >= b then a else b }

  /** The four running extremes of the fold. */
  datatype Extent = Extent(minX: real, minY: real, maxX: real, maxY: real)

  const Start: Extent := Extent(Sentinel, Sentinel, -Sentinel, -Sentinel)

  /** One step of the `bounds` loop. */
  function Include(e: Extent, p: Point): Extent
  {
    Extent(Min(e.minX, p.x), Min(e.minY, p.y), Max(e.maxX, p.x), Max(e.maxY, p.y))
  }

  /** The extremes after folding every point of `ply` into the sentinels. */
  function ExtentOf(ply: seq<Point>): Extent
    decreases |ply|
  {
    if ply == [] then Start else Include(ExtentOf(ply[..|ply| - 1]), ply[|ply| - 1])
  }

  /** Each minimum of the fold is the smaller of the sentinel and the least
      coordinate. */
  lemma {:induction false} ExtentMins(ply: seq<Point>)
    ensures var e := ExtentOf(ply); e.minX <= Sentinel && forall i | 0 <= i < |ply| :: e.minX <= ply[i].x
    ensures var e := ExtentOf(ply); e.minX == Sentinel || exists i | 0 <= i < |ply| :: ply[i].x == e.minX
    ensures var e := ExtentOf(ply); e.minY <= Sentinel && forall i | 0 <= i < |ply| :: e.minY <= ply[i].y
    ensures var e := ExtentOf(ply); e.minY == Sentinel || exists i | 0 <= i < |ply| :: ply[i].y == e.minY
    decreases |ply|
  {
    if ply != [] {
      var init := ply[..|ply| - 1];
      ExtentMins(init);
      assert forall i | 0 <= i < |init| :: init[i] == ply[i];
    }
  }

  /** Each maximum of the fold is the larger of the negated sentinel and the
      greatest coordinate. */
  lemma {:induction false} ExtentMaxes(ply: seq<Point>)
    ensures var e := ExtentOf(ply); e.maxX >= -Sentinel && forall i | 0 <= i < |ply| :: e.maxX >= ply[i].x
    ensures var e := ExtentOf(ply); e.maxX == -Sentinel || exists i | 0 <= i < |ply| :: ply[i].x == e.maxX
    ensures var e := ExtentOf(ply); e.maxY >= -Sentinel && forall i | 0 <= i < |ply| :: e.maxY >= ply[i].y
    ensures var e := ExtentOf(ply); e.maxY == -Sentinel || exists i | 0 <= i < |ply| :: ply[i].y == e.maxY
    decreases |ply|
  {
    if ply != [] {
      var init := ply[..|ply| - 1];
      ExtentMaxes(init);
      assert forall i | 0 <= i < |init| :: init[i] == ply[i];
    }
  }

  /** The `bounds` object built from the extremes. */
  function Finish(e: Extent): (b: Bounds)
  {
    Bounds(e.maxX - e.minX, e.maxY - e.minY, e.minX, e.minY, e.maxX, e.maxY, e.minX, e.minY)
  }

  function BoundsOf(ply: seq<Point>): (b: Bounds)
  {
    Finish(ExtentOf(ply))
  }

  /** `Polygon.bounds`. */
  method ComputeBounds(ply: seq<Point>) returns (b: Bounds)
    ensures b == BoundsOf(ply)
  {
    var e := Start;
    for i := 0 to |ply|
      invariant e == ExtentOf(ply[..i])
    {
      assert ply[..i + 1][..i] == ply[..i];
      e := Include(e, ply[i]);
    }
    assert ply[..|ply|] == ply;
    b := Finish(e);
  }

  /** A non-empty polygon lies inside its box, and the box has non-negative size. */
  lemma BoundsContain(ply: seq<Point>)
    requires |ply| > 0
    ensures var b := BoundsOf(ply);
      b.width >= 0.0 && b.height >= 0.0 && b.x == b.minX && b.y == b.minY &&
      b.width == b.maxX - b.minX && b.height == b.maxY - b.minY &&
      forall i | 0 <= i < |ply| :: b.minX <= ply[i].x <= b.maxX && b.minY <= ply[i].y <= b.maxY
  {
    var e := ExtentOf(ply);
    ExtentMins(ply);
    ExtentMaxes(ply);
    assert e.minX <= ply[0].x <= e.maxX;
    assert e.minY <= ply[0].y <= e.maxY;
  }

  /** The empty polygon keeps the sentinels, so its size is negative. */
  lemma EmptyBounds()
    ensures BoundsOf([]) == Bounds(-131070.0, -131070.0, 65535.0, 65535.0, -65535.0, -65535.0, 65535.0, 65535.0)
  {
  }

  function Shift(p: Point, dx: real, dy: real): Point
  {
    Point(p.x + dx, p.y + dy)
  }

  /** `Polygon.toZero`: every point moved by `(-minX, -minY)` of the given box. */
  function ToZero(ply: seq<Point>, bounds: Bounds): (r: seq<Point>)
    ensures |r| == |ply|
    ensures forall i | 0 <= i < |ply| :: r[i].x - ply[i].x == -bounds.minX && r[i].y - ply[i].y == -bounds.minY
  {
    seq(|ply|, i requires 0 <= i < |ply| => Shift(ply[i], -bounds.minX, -bounds.minY))
  }

  /** Moved by its own box, a polygon with some coordinate inside the
      sentinel range starts at the origin. */
  lemma ToZeroStartsAtOrigin(ply: seq<Point>)
    requires exists i | 0 <= i < |ply| :: ply[i].x <= Sentinel
    requires exists i | 0 <= i < |ply| :: ply[i].y <= Sentinel
    ensures BoundsOf(ToZero(ply, BoundsOf(ply))).minX == 0.0
    ensures BoundsOf(ToZero(ply, BoundsOf(ply))).minY == 0.0
  {
    var e := ExtentOf(ply);
    var z := ToZero(ply, BoundsOf(ply));
    ExtentMins(ply);
    var i :| 0 <= i < |ply| && ply[i].x <= Sentinel;
    var j :| 0 <= j < |ply| && ply[j].y <= Sentinel;
    var kx := if e.minX == Sentinel then i else var k :| 0 <= k < |ply| && ply[k].x == e.minX; k;
    var ky := if e.minY == Sentinel then j else var k :| 0 <= k < |ply| && ply[k].y == e.minY; k;
    assert z[kx].x == 0.0 && z[ky].y == 0.0;
    assert forall k | 0 <= k < |z| :: z[k].x >= 0.0 && z[k].y >= 0.0;
    OriginMin(z, kx, ky);
  }

  /** A polygon whose coordinates are not negative and that has a 0 in each
      axis has its minimums at 0. */
  lemma OriginMin(z: seq<Point>, kx: nat, ky: nat)
    requires kx < |z| && ky < |z| && z[kx].x == 0.0 && z[ky].y == 0.0
    requires forall k | 0 <= k < |z| :: z[k].x >= 0.0 && z[k].y >= 0.0
    ensures ExtentOf(z).minX == 0.0 && ExtentOf(z).minY == 0.0
  {
    ExtentMins(z);
  }

  // ---------------------------------------------------------------------
  // Winding.

  /** The term of edge `i`, from point `i` to point `i + 1` (cyclically). */
  function EdgeTerm(ply: seq<Point>, i: nat): real
    requires i < |ply|
  {
    var p1 := ply[i];
    var p2 := ply[(i + 1) % |ply|];
    (p2.x - p1.x) * (p2.y + p1.y)
  }

  function EdgeTerms(ply: seq<Point>): (t: seq<real>)
    ensures |t| == |ply|
  {
    seq(|ply|, i requires 0 <= i < |ply| => EdgeTerm(ply, i))
  }

  /** A left-to-right sum, as the loop accumulates it. */
  function Sum(s: seq<real>): real
    decreases |s|
  {
    if s == [] then 0.0 else Sum(s[..|s| - 1]) + s[|s| - 1]
  }

  function Shoelace(ply: seq<Point>): real
  {
    Sum(EdgeTerms(ply))
  }

  predicate Clockwise(ply: seq<Point>)
  {
    Shoelace(ply) > 0.0
  }

  /** `Polygon.isClockwise`. */
  method IsClockwise(ply: seq<Point>) returns (cw: bool)
    ensures cw <==> Clockwise(ply)
  {
    var sum := 0.0;
    for i := 0 to |ply|
      invariant sum == Sum(EdgeTerms(ply)[..i])
    {
      var p1 := ply[i];
      var p2 := ply[(i + 1) % |ply|];
      assert EdgeTerms(ply)[..i + 1][..i] == EdgeTerms(ply)[..i];
      sum := sum + (p2.x - p1.x) * (p2.y + p1.y);
    }
    assert EdgeTerms(ply)[..|ply|] == EdgeTerms(ply);
    cw := sum > 0.0;
  }

  lemma {:induction false} SumAppend(s: seq<real>, t: seq<real>)
    ensures Sum(s + t) == Sum(s) + Sum(t)
    decreases |t|
  {
    if t == [] {
      assert s + t == s;
    } else {
      assert (s + t)[..|s + t| - 1] == s + t[..|t| - 1];
      SumAppend(s, t[..|t| - 1]);
    }
  }

  function Reverse<T>(s: seq<T>): (r: seq<T>)
    ensures |r| == |s| && forall i | 0 <= i < |s| :: r[i] == s[|s| - 1 - i]
  {
    seq(|s|, i requires 0 <= i < |s| => s[|s| - 1 - i])
  }

  function Negate(s: seq<real>): (r: seq<real>)
    ensures |r| == |s| && forall i | 0 <= i < |s| :: r[i] == -s[i]
  {
    seq(|s|, i requires 0 <= i < |s| => -s[i])
  }

  lemma {:induction false} SumReverse(s: seq<real>)
    ensures Sum(Reverse(s)) == Sum(s)
    decreases |s|
  {
    if s != [] {
      var init := s[..|s| - 1];
      assert Reverse(s) == [s[|s| - 1]] + Reverse(init);
      SumAppend([s[|s| - 1]], Reverse(init));
      SumReverse(init);
      assert Sum([s[|s| - 1]]) == Sum([]) + s[|s| - 1];
    }
  }

  lemma {:induction false} SumNegate(s: seq<real>)
    ensures Sum(Negate(s)) == -Sum(s)
    decreases |s|
  {
    if s != [] {
      assert Negate(s)[..|s| - 1] == Negate(s[..|s| - 1]);
      SumNegate(s[..|s| - 1]);
    }
  }

  lemma FlipEdge(x1: real, y1: real, x2: real, y2: real)
    ensures (x2 - x1) * (y2 + y1) == -((x1 - x2) * (y1 + y2))
  {
  }

  /** Edge `i` of the reversed polygon, short of the last, is edge
      `n - 2 - i` of the original walked backwards. */
  lemma ReversedInnerTerm(ply: seq<Point>, i: nat)
    requires i + 1 < |ply|
    ensures EdgeTerm(Reverse(ply), i) == -EdgeTerm(ply, |ply| - 2 - i)
  {
    var n := |ply|;
    var r := Reverse(ply);
    assert (i + 1) % n == i + 1;
    assert (n - 2 - i + 1) % n == n - 1 - i;
    assert r[i] == ply[n - 1 - i] && r[i + 1] == ply[n - 2 - i];
    FlipEdge(ply[n - 1 - i].x, ply[n - 1 - i].y, ply[n - 2 - i].x, ply[n - 2 - i].y);
  }

  /** The last edge of the reversed polygon is the original's closing edge
      walked backwards. */
  lemma ReversedLastTerm(ply: seq<Point>)
    requires |ply| > 0
    ensures EdgeTerm(Reverse(ply), |ply| - 1) == -EdgeTerm(ply, |ply| - 1)
  {
    var n := |ply|;
    var r := Reverse(ply);
    assert (n - 1 + 1) % n == 0;
    assert r[n - 1] == ply[0] && r[0] == ply[n - 1];
    FlipEdge(ply[0].x, ply[0].y, ply[n - 1].x, ply[n - 1].y);
  }

  /** Edge `i` of the reversed polygon is edge `n - 2 - i` of the original
      walked backwards; its last edge is the original's closing edge. */
  lemma ReversedEdgeTerms(ply: seq<Point>)
    requires |ply| > 0
    ensures EdgeTerms(Reverse(ply))
         == Negate(Reverse(EdgeTerms(ply)[..|ply| - 1])) + [-EdgeTerms(ply)[|ply| - 1]]
  {
    var n := |ply|;
    var t := EdgeTerms(ply);
    var body := t[..n - 1];
    var want := Negate(Reverse(body)) + [-t[n - 1]];
    forall i | 0 <= i < n
      ensures EdgeTerms(Reverse(ply))[i] == want[i]
    {
      if i < n - 1 {
        ReversedInnerTerm(ply, i);
        assert want[i] == -body[n - 2 - i];
      } else {
        ReversedLastTerm(ply);
      }
    }
  }

  /** Reversing the order of the points negates the shoelace sum: every edge
      is walked the other way. */
  lemma ReverseNegatesShoelace(ply: seq<Point>)
    ensures Shoelace(Reverse(ply)) == -Shoelace(ply)
  {
    var n := |ply|;
    if n > 0 {
      var t := EdgeTerms(ply);
      var body := t[..n - 1];
      ReversedEdgeTerms(ply);
      SumAppend(Negate(Reverse(body)), [-t[n - 1]]);
      SumNegate(Reverse(body));
      SumReverse(body);
      assert Sum([-t[n - 1]]) == Sum([]) + -t[n - 1];
      assert t == body + [t[n - 1]];
      SumAppend(body, [t[n - 1]]);
      assert Sum([t[n - 1]]) == Sum([]) + t[n - 1];
    }
  }

  /** The empty polygon is not clockwise. */
  lemma EmptyNotClockwise()
    ensures !Clockwise([])
  {
  }

  predicate Mirrored(ply1: seq<Point>, ply2: seq<Point>)
  {
    Clockwise(ply1) != Clockwise(ply2)
  }

  /** `Polygon.isMirrored`. */
  method IsMirrored(ply1: seq<Point>, ply2: seq<Point>) returns (m: bool)
    ensures m <==> Mirrored(ply1, ply2)
  {
    var cw1 := IsClockwise(ply1);
    var cw2 := IsClockwise(ply2);
    m := cw1 != cw2;
  }

  /** No polygon is mirrored against itself, and the relation is symmetric. */
  lemma MirroredIrreflexiveSymmetric(ply1: seq<Point>, ply2: seq<Point>)
    ensures !Mirrored(ply1, ply1)
    ensures Mirrored(ply1, ply2) <==> Mirrored(ply2, ply1)
  {
  }

  /** A polygon with a non-zero winding sum is mirrored against its reversal. */
  lemma ReversedIsMirrored(ply: seq<Point>)
    requires Shoelace(ply) != 0.0
    ensures Mirrored(ply, Reverse(ply))
  {
    ReverseNegatesShoelace(ply);
  }

  /** `Polygon.getRotation`: the difference of the angles of the first edges,
      with the angle of an edge given as a parameter; 0 when either polygon
      has fewer than two points. */
  function GetRotation(ply1: seq<Point>, ply2: seq<Point>, angle: (Point, Point) -> real): (r: real)
    ensures |ply1| < 2 || |ply2| < 2 ==> r == 0.0
    ensures |ply1| >= 2 && |ply2| >= 2 ==> r + angle(ply1[0], ply1[1]) == angle(ply2[0], ply2[1])
  {
    if |ply1| < 2 || |ply2| < 2 then 0.0
    else angle(ply2[0], ply2[1]) - angle(ply1[0], ply1[1])
  }

  /** Swapping the polygons negates the rotation. */
  lemma RotationAntisymmetric(ply1: seq<Point>, ply2: seq<Point>, angle: (Point, Point) -> real)
    ensures GetRotation(ply1, ply2, angle) == -GetRotation(ply2, ply1, angle)
  {
  }
}
