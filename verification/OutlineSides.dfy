/** Where the vertices of an outline lie, and how the two centring passes place it: in terms of the curve, not of the builders. */
module OutlineSides {
  import opened Vectors
  import opened Cubics
  import opened Outline
  import opened InkBounds
  import opened PrintedBounds
  import opened OutlinePaths
  import opened Centring
  import opened OffsetGeometry

  /**
   p lies beside the segment's curve at t: perpendicular to the curve, half the
   width away on the given side; on the curve where it has no direction.
   */
  ghost predicate OnSide(pen: Pen, current: Point, following: Point, t: real, side: real, p: Vector) {
    var position := CubicPoint(current.anchor, current.outgoing, following.incoming, following.anchor, t);
    var d := CubicDerivative(current.anchor, current.outgoing, following.incoming, following.anchor, t);
    if d == Vector(0.0, 0.0) then p == position
    else Beside(pen, d, Minus(p, position), WidthBetween(pen, current, following, t) / 2.0, side)
  }

  lemma OffsetOnSide(pen: Pen, current: Point, following: Point, t: real, side: real)
    requires pen.Valid()
    ensures OnSide(pen, current, following, t, side, OffsetPoint(pen, current, following, t, side))
  {
    OffsetIsBeside(pen, current, following, t, side);
    hide CubicPoint, CubicDerivative, WidthBetween, OffsetPoint, Beside;
  }

  // ----- the Bezier outline -----

  ghost predicate IsQuadOf(pen: Pen, current: Point, following: Point, side: real, q: Quad) {
    && q.p0 == OffsetPoint(pen, current, following, 0.0, side)
    && q.p1 == OffsetPoint(pen, current, following, 1.0 / 3.0, side)
    && q.p2 == OffsetPoint(pen, current, following, 2.0 / 3.0, side)
    && q.p3 == OffsetPoint(pen, current, following, 1.0, side)
  }

  lemma ForwardSide(pen: Pen, current: Point, following: Point, t: real, side: real, q: Quad, s: Segment)
    requires pen.Valid() && t in {0.0, 1.0 / 3.0, 2.0 / 3.0, 1.0}
    requires IsQuadOf(pen, current, following, side, q) && PassesThrough(s, q)
    ensures OnSide(pen, current, following, t, side, PointOn(s, t))
  {
    OffsetOnSide(pen, current, following, t, side);
    hide OffsetPoint, OnSide, PointOn;
  }

  lemma BackwardSide(pen: Pen, current: Point, following: Point, t: real, side: real, q: Quad, s: Segment)
    requires pen.Valid() && t in {0.0, 1.0 / 3.0, 2.0 / 3.0, 1.0}
    requires IsQuadOf(pen, current, following, side, q) && PassesThrough(s, q.Reversed())
    ensures OnSide(pen, current, following, t, side, PointOn(s, 1.0 - t))
  {
    OffsetOnSide(pen, current, following, t, side);
    hide OffsetPoint, OnSide, PointOn;
    if t == 1.0 / 3.0 {
      assert 1.0 - t == 2.0 / 3.0;
    } else if t == 2.0 / 3.0 {
      assert 1.0 - t == 1.0 / 3.0;
    }
  }

  lemma ClosedChainAt(drawn: seq<Segment>, outer: seq<Quad>, inner: seq<Quad>, i: nat)
    requires i < |outer| == |inner| && ClosedChain(drawn, outer, inner)
    ensures var m := |outer|;
            && |drawn| == 2 * m + 2 && drawn[i].Curve? && drawn[2 * m - i].Curve?
            && PassesThrough(drawn[i], outer[i]) && PassesThrough(drawn[2 * m - i], inner[i].Reversed())
  {
    hide Linked, PointOn, Quad.Reversed;
    var k := 2 * |outer| - i;
    assert PassesThrough(drawn[i], outer[i]);
    assert PassesThrough(drawn[k], inner[2 * |outer| - k].Reversed());
  }

  lemma OffsetQuadAt(pen: Pen, points: seq<Point>, i: nat, side: real)
    requires i + 1 < |points|
    ensures var quads := OffsetQuads(pen, points, |points| - 1, side);
            |quads| == |points| - 1 && IsQuadOf(pen, points[i], points[i + 1], side, quads[i])
  {
    hide OffsetPoint;
  }

  lemma QuadsStart(pen: Pen, points: seq<Point>)
    requires |points| >= 2
    ensures OffsetQuads(pen, points, |points| - 1, 1.0)[0].p0 == Offset(pen, points, 0, 0.0, 1.0)
  {
    hide Offset;
  }

  /** The segments that the builder's path draws. */
  function DrawnOutline(pen: Pen, points: seq<Point>, bezier: bool): seq<Segment>
    requires |points| >= 2
  {
    var first := Offset(pen, points, 0, 0.0, 1.0);
    Segments(OutlineCommands(pen, points, bezier), first, first)
  }

  lemma {:induction false} ChainIsDrawn(pen: Pen, points: seq<Point>)
    requires pen.Valid() && AllSmooth(points) && |points| >= 2
    ensures ClosedChain(DrawnOutline(pen, points, true), OffsetQuads(pen, points, |points| - 1, 1.0), OffsetQuads(pen, points, |points| - 1, -1.0))
  {
    BezierOutlineDraws(pen, points);
    QuadsStart(pen, points);
    hide Segments, BezierCommands, Offset, AllSmooth, Pen.Valid, ClosedChain, OffsetQuads;
  }

  /**
   At its ends and thirds, the drawn curve of segment i lies beside that segment on
   its left, and the curve that comes back along the segment lies beside it on its right.
   */
  lemma {:induction false} BezierKeepsSides(pen: Pen, points: seq<Point>, i: nat, t: real)
    requires pen.Valid() && AllSmooth(points) && i + 1 < |points| && t in {0.0, 1.0 / 3.0, 2.0 / 3.0, 1.0}
    ensures var m := |points| - 1;
            var drawn := DrawnOutline(pen, points, true);
            && |drawn| == 2 * m + 2 && drawn[i].Curve? && drawn[2 * m - i].Curve?
            && OnSide(pen, points[i], points[i + 1], t, 1.0, PointOn(drawn[i], t))
            && OnSide(pen, points[i], points[i + 1], t, -1.0, PointOn(drawn[2 * m - i], 1.0 - t))
  {
    hide *;
    var m := |points| - 1;
    var outer, inner := OffsetQuads(pen, points, m, 1.0), OffsetQuads(pen, points, m, -1.0);
    var drawn := DrawnOutline(pen, points, true);
    ChainIsDrawn(pen, points);
    ClosedChainAt(drawn, outer, inner, i);
    OffsetQuadAt(pen, points, i, 1.0);
    OffsetQuadAt(pen, points, i, -1.0);
    ForwardSide(pen, points[i], points[i + 1], t, 1.0, outer[i], drawn[i]);
    BackwardSide(pen, points[i], points[i + 1], t, -1.0, inner[i], drawn[2 * m - i]);
  }

  // ----- the sampled outline -----

  /** As many samples a segment as it takes to get 240 in all, but at least 8 and at most 32. */
  lemma SamplesEnough(n: nat)
    requires n > 0
    ensures 8 <= SampleCount(n) <= 32
    ensures SampleCount(n) < 32 ==> SampleCount(n) * n >= 240
    ensures SampleCount(n) > 8 ==> (SampleCount(n) - 1) * n < 240
  {
    var spread := (240 + n - 1) / n;
    assert spread * n <= 240 + n - 1 < (spread + 1) * n;
    if spread > 32 {
      Fewer(32, spread, n);
    } else if spread < 8 {
      Fewer(spread, 8, n);
    }
  }

  lemma Fewer(a: int, b: int, n: nat)
    requires a < b
    ensures a * n <= (b - 1) * n
  {}

  lemma {:induction false} ChainSamplesCount(pen: Pen, points: seq<Point>, c: nat, m: nat, side: real)
    requires (m < |points| || m == 0) && c > 0
    ensures |ChainSamples(pen, points, c, m, side)| == m * c
    decreases m
  {
    if m > 0 {
      ChainSamplesCount(pen, points, c, m - 1, side);
      assert m * c == (m - 1) * c + c;
    }
  }

  lemma {:induction false} ChainSamplesAt(pen: Pen, points: seq<Point>, c: nat, m: nat, side: real, i: nat, j: nat)
    requires m < |points| && i < m && j < c
    ensures 0 <= i * c + j < |ChainSamples(pen, points, c, m, side)|
    ensures ChainSamples(pen, points, c, m, side)[i * c + j] == Offset(pen, points, i, j as real / c as real, side)
    decreases m
  {
    hide Offset;
    ChainSamplesCount(pen, points, c, m - 1, side);
    if i < m - 1 {
      ChainSamplesAt(pen, points, c, m - 1, side, i, j);
    }
  }

  /** Sample j of segment i; past the others, the end of the last segment. */
  ghost predicate IsSample(n: nat, c: nat, i: nat, j: nat) {
    i + 1 < n && (j < c || (j == c && i == n - 2))
  }

  lemma SidesAreChains(pen: Pen, points: seq<Point>, c: nat, side: real)
    requires |points| >= 2 && c == SampleCount(|points|)
    ensures SideSamples(pen, points, side) == ChainSamples(pen, points, c, |points| - 1, side) + [Offset(pen, points, |points| - 2, 1.0, side)]
  {
    hide SampleCount, ChainSamples, Offset;
  }

  lemma LastSample(c: nat, i: nat)
    requires c > 0
    ensures i * c + c == (i + 1) * c && c as real / c as real == 1.0
  {
    Whole(c as real);
  }

  lemma Whole(x: real)
    requires x != 0.0
    ensures x / x == 1.0
  {}

  lemma {:induction false} SideSamplesAt(pen: Pen, points: seq<Point>, c: nat, side: real, i: nat, j: nat)
    requires |points| >= 2 && c == SampleCount(|points|) > 0 && IsSample(|points|, c, i, j)
    ensures |SideSamples(pen, points, side)| == (|points| - 1) * c + 1
    ensures 0 <= i * c + j <= (|points| - 1) * c
    ensures SideSamples(pen, points, side)[i * c + j] == Offset(pen, points, i, j as real / c as real, side)
  {
    var m := |points| - 1;
    hide SampleCount, ChainSamples, SideSamples, Offset;
    SidesAreChains(pen, points, c, side);
    ChainSamplesCount(pen, points, c, m, side);
    if j == c {
      LastSample(c, i);
    } else {
      ChainSamplesAt(pen, points, c, m, side, i, j);
    }
  }

  ghost predicate IsPolygon(drawn: seq<Segment>) {
    forall l :: 0 <= l < |drawn| ==> drawn[l].Line? && drawn[l].end == drawn[if l == |drawn| - 1 then 0 else l + 1].start
  }

  lemma {:induction false} PolygonVertices(outer: seq<Vector>, inner: seq<Vector>, k: nat)
    requires k < |outer| == |inner|
    ensures var drawn := PolygonSegments(outer + Reverse(inner));
            && |drawn| == 2 * |outer| && IsPolygon(drawn)
            && drawn[k].start == outer[k] && drawn[|drawn| - 1 - k].start == inner[k]
  {}

  /**
   The sampled outline is one closed polygon. Sample j of c on segment i lies beside
   the segment at j / c: going out on its left, coming back on its right.
   */
  lemma {:induction false} PolygonKeepsSides(pen: Pen, points: seq<Point>, c: nat, i: nat, j: nat)
    requires pen.Valid() && |points| >= 2 && c == SampleCount(|points|) && IsSample(|points|, c, i, j)
    ensures var drawn := DrawnOutline(pen, points, false);
            var k, t := i * c + j, j as real / c as real;
            && |drawn| == 2 * ((|points| - 1) * c + 1) && IsPolygon(drawn) && 0 <= k < |drawn|
            && OnSide(pen, points[i], points[i + 1], t, 1.0, drawn[k].start)
            && OnSide(pen, points[i], points[i + 1], t, -1.0, drawn[|drawn| - 1 - k].start)
  {
    var k, t := i * c + j, j as real / c as real;
    var outer, inner := SideSamples(pen, points, 1.0), SideSamples(pen, points, -1.0);
    SamplesEnough(|points|);
    SideSamplesAt(pen, points, c, 1.0, 0, 0);
    assert 0 * c + 0 == 0 && 0.0 / c as real == 0.0;
    SideSamplesAt(pen, points, c, 1.0, i, j);
    SideSamplesAt(pen, points, c, -1.0, i, j);
    OffsetOnSide(pen, points[i], points[i + 1], t, 1.0);
    OffsetOnSide(pen, points[i], points[i + 1], t, -1.0);
    hide SideSamples, Reverse, Segments, PolygonCommands, SampleCount, OnSide, OffsetPoint, IsPolygon, Pen.Valid, PolygonSegments, IsSample;
    PolygonDraws(outer + Reverse(inner));
    PolygonVertices(outer, inner, k);
  }

  // ----- the centring passes -----

  /** The values reach equally far to both sides of the centre. */
  ghost predicate Balanced(xs: seq<real>, center: real) {
    exists i, j :: 0 <= i < |xs| && 0 <= j < |xs| && Extremes(xs, xs[i], xs[j]) && center - xs[i] == xs[j] - center
  }

  predicate Extremes(xs: seq<real>, low: real, high: real) {
    forall k :: 0 <= k < |xs| ==> low <= xs[k] <= high
  }

  lemma MidpointBalances(xs: seq<real>, center: real)
    requires xs != []
    ensures Midpoint(xs) == center <==> Balanced(xs, center)
  {
    var i, j := LeastAndGreatest(xs);
    assert Extremes(xs, xs[i], xs[j]);
    if Balanced(xs, center) {
      var k, l :| 0 <= k < |xs| && 0 <= l < |xs| && Extremes(xs, xs[k], xs[l]) && center - xs[k] == xs[l] - center;
      assert xs[k] == xs[i] && xs[l] == xs[j];
    }
    hide Least, Greatest;
  }

  /** The first pass moves all points by one amount that balances the anchors and handles around the centre. */
  lemma {:induction false} FirstPassBalances(points: seq<Point>, center: real)
    requires points != []
    ensures Balanced(HandleXs(CenterGeometry(points, center)), center)
    ensures exists d :: CenterGeometry(points, center) == ShiftAll(points, d)
  {
    CenterGeometryCenters(points, center);
    hide CenterGeometry, HandleXs, Balanced, Midpoint;
    MidpointBalances(HandleXs(CenterGeometry(points, center)), center);
  }

  lemma {:induction false} SegmentXsAt(pen: Pen, current: Point, following: Point, n: nat)
    ensures |SegmentXs(pen, current, following, n)| == 2 * n
    ensures forall s :: 0 <= s < n ==>
              && SegmentXs(pen, current, following, n)[2 * s] == OffsetPoint(pen, current, following, s as real / 64.0, 1.0).x
              && SegmentXs(pen, current, following, n)[2 * s + 1] == OffsetPoint(pen, current, following, s as real / 64.0, -1.0).x
    decreases n
  {
    hide OffsetPoint;
    if n > 0 {
      SegmentXsAt(pen, current, following, n - 1);
    }
  }

  /** The sampled outline: both sides of every segment at 0, 1/64, ..., 1. */
  lemma {:induction false} OutlineXsAt(pen: Pen, points: seq<Point>, m: nat)
    requires m < |points| || m == 0
    ensures |OutlineXs(pen, points, m)| == 130 * m
    ensures forall k, s :: 0 <= k < m && 0 <= s <= 64 ==>
              && OutlineXs(pen, points, m)[130 * k + 2 * s] == Offset(pen, points, k, s as real / 64.0, 1.0).x
              && OutlineXs(pen, points, m)[130 * k + 2 * s + 1] == Offset(pen, points, k, s as real / 64.0, -1.0).x
    decreases m
  {
    hide OffsetPoint, SegmentXs;
    if m > 0 {
      OutlineXsAt(pen, points, m - 1);
      SegmentXsAt(pen, points[m - 1], points[m], 65);
    }
  }

  /** The second pass moves all points by one amount that balances the sampled outline around the centre. */
  lemma {:induction false} SecondPassBalances(pen: Pen, points: seq<Point>, center: real)
    requires |points| >= 2
    ensures var centred := ShiftAll(points, OutlineShift(pen, points, center));
            Balanced(OutlineXs(pen, centred, |points| - 1), center)
  {
    OutlineCentered(pen, points, center);
    hide OutlineShift, OutlineXs, Balanced, Midpoint;
    MidpointBalances(OutlineXs(pen, ShiftAll(points, OutlineShift(pen, points, center)), |points| - 1), center);
  }
}
