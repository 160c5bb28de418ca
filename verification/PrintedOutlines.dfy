/** What the printed text of an outline draws, and how far its ink can be from the outline's own. */
module PrintedOutlines {
  import opened Wrappers
  import opened Vectors
  import opened Cubics
  import opened PathPrinting
  import opened InkBounds
  import opened PrintedBounds
  import opened Outline
  import opened OutlinePaths
  import opened OutlineExtent

  function RoundedSegment(s: Segment): Segment {
    match s
    case Line(p, q) => Line(RoundedPoint(p), RoundedPoint(q))
    case Curve(p, c1, c2, q) => Curve(RoundedPoint(p), RoundedPoint(c1), RoundedPoint(c2), RoundedPoint(q))
  }

  function RoundedSegments(segments: seq<Segment>): (rounded: seq<Segment>)
    ensures |rounded| == |segments|
    ensures forall i :: 0 <= i < |segments| ==> rounded[i] == RoundedSegment(segments[i])
  {
    seq(|segments|, i requires 0 <= i < |segments| => RoundedSegment(segments[i]))
  }

  lemma RoundedFirst(s: Segment, rest: seq<Segment>)
    ensures RoundedSegments([s] + rest) == [RoundedSegment(s)] + RoundedSegments(rest)
  {
    hide RoundedSegment;
  }

  /** Rounding the commands rounds the segments. */
  lemma {:induction false} RoundingCommutes(commands: seq<PathCommand>, current: Vector, start: Vector)
    ensures Segments(RoundedPath(commands), RoundedPoint(current), RoundedPoint(start)) == RoundedSegments(Segments(commands, current, start))
  {
    if commands != [] {
      hide RoundedPoint;
      var rest := commands[1..];
      assert RoundedPath(commands)[1..] == RoundedPath(rest);
      match commands[0]
      case MoveTo(p) =>
        RoundingCommutes(rest, p, p);
      case LineTo(p) =>
        RoundingCommutes(rest, p, start);
        RoundedFirst(Line(current, p), Segments(rest, p, start));
      case CurveTo(c1, c2, p) =>
        RoundingCommutes(rest, p, start);
        RoundedFirst(Curve(current, c1, c2, p), Segments(rest, p, start));
      case Close =>
        RoundingCommutes(rest, start, start);
        RoundedFirst(Line(current, start), Segments(rest, start, start));
    }
  }

  /** The segments that a path beginning with a moveto draws. */
  function DrawnBy(path: seq<PathCommand>): seq<Segment>
    requires path != [] && path[0].MoveTo?
  {
    Segments(path, path[0].p, path[0].p)
  }

  /** The printed text of a path in range draws the path's own segments, rounded to hundredths. */
  lemma {:induction false} PrintedTextDraws(path: seq<PathCommand>)
    requires path != [] && path[0].MoveTo? && PathInRange(path)
    ensures PathSegments(PathText(path)) == Ok(RoundedSegments(DrawnBy(path)))
  {
    hide RoundedPoint, PathInRange, PathSegments, PathText, Segments, RoundedSegments;
    PrintedPathDraws(path);
    RoundingCommutes(path, path[0].p, path[0].p);
  }

  // ----- rounding hardly moves the ink -----

  predicate CloseTo(p: Vector, q: Vector) {
    Near(q.x - p.x, 0.005) && Near(q.y - p.y, 0.005)
  }

  lemma RoundedPointIsClose(p: Vector)
    ensures CloseTo(p, RoundedPoint(p))
  {
    RoundedIsClose(p.x);
    RoundedIsClose(p.y);
    hide Rounded;
  }

  lemma CubicDifference(a0: real, a1: real, a2: real, a3: real, b0: real, b1: real, b2: real, b3: real, t: real)
    ensures CubicAt(b0, b1, b2, b3, t) - CubicAt(a0, a1, a2, a3, t) == CubicAt(b0 - a0, b1 - a1, b2 - a2, b3 - a3, t)
  {}

  lemma CubicsClose(a0: real, a1: real, a2: real, a3: real, b0: real, b1: real, b2: real, b3: real, t: real)
    requires 0.0 <= t <= 1.0
    requires Near(b0 - a0, 0.005) && Near(b1 - a1, 0.005) && Near(b2 - a2, 0.005) && Near(b3 - a3, 0.005)
    ensures Near(CubicAt(b0, b1, b2, b3, t) - CubicAt(a0, a1, a2, a3, t), 0.005)
  {
    hide CubicAt, Near;
    CubicDifference(a0, a1, a2, a3, b0, b1, b2, b3, t);
    CubicNear(b0 - a0, b1 - a1, b2 - a2, b3 - a3, t, 0.005);
  }

  lemma MixesClose(a: real, b: real, a': real, b': real, t: real, mix: real, mix': real)
    requires 0.0 <= t <= 1.0 && Near(a' - a, 0.005) && Near(b' - b, 0.005)
    requires mix == (1.0 - t) * a + t * b && mix' == (1.0 - t) * a' + t * b'
    ensures Near(mix' - mix, 0.005)
  {
    Mix(a' - a, b' - b, -0.005, 0.005, t);
    assert (1.0 - t) * (a' - a) + t * (b' - b) == mix' - mix;
  }

  lemma LinesClose(p: Vector, q: Vector, p': Vector, q': Vector, t: real)
    requires 0.0 <= t <= 1.0 && CloseTo(p, p') && CloseTo(q, q')
    ensures CloseTo(PointOn(Line(p, q), t), PointOn(Line(p', q'), t))
  {
    var from, to := PointOn(Line(p, q), t), PointOn(Line(p', q'), t);
    MixesClose(p.x, q.x, p'.x, q'.x, t, from.x, to.x);
    MixesClose(p.y, q.y, p'.y, q'.y, t, from.y, to.y);
    hide PointOn;
  }

  /** Rounding a segment's points moves each point on it by at most half a hundredth in either direction. */
  lemma RoundedSegmentIsClose(s: Segment, t: real)
    requires 0.0 <= t <= 1.0
    ensures CloseTo(PointOn(s, t), PointOn(RoundedSegment(s), t))
  {
    hide RoundedPoint, CubicAt, Near;
    RoundedPointIsClose(s.start);
    RoundedPointIsClose(s.end);
    var r := RoundedSegment(s);
    match s
    case Line(p, q) =>
      LinesClose(p, q, r.start, r.end, t);
    case Curve(p, c1, c2, q) =>
      RoundedPointIsClose(c1);
      RoundedPointIsClose(c2);
      CubicsClose(p.x, c1.x, c2.x, q.x, r.start.x, r.c1.x, r.c2.x, r.end.x, t);
      CubicsClose(p.y, c1.y, c2.y, q.y, r.start.y, r.c1.y, r.c2.y, r.end.y, t);
  }

  lemma DrawnFollows(segments: seq<Segment>, p: Vector) returns (q: Vector)
    requires Drawn(segments, p)
    ensures Drawn(RoundedSegments(segments), q) && CloseTo(p, q)
  {
    hide PointOn, RoundedSegment, CloseTo;
    var i, t :| 0 <= i < |segments| && 0.0 <= t <= 1.0 && PointOn(segments[i], t) == p;
    RoundedSegmentIsClose(segments[i], t);
    q := PointOn(RoundedSegments(segments)[i], t);
  }

  lemma DrawnPrecedes(segments: seq<Segment>, q: Vector) returns (p: Vector)
    requires Drawn(RoundedSegments(segments), q)
    ensures Drawn(segments, p) && CloseTo(p, q)
  {
    hide PointOn, RoundedSegment, CloseTo;
    var i, t :| 0 <= i < |segments| && 0.0 <= t <= 1.0 && PointOn(RoundedSegments(segments)[i], t) == q;
    RoundedSegmentIsClose(segments[i], t);
    p := PointOn(segments[i], t);
  }

  lemma DrawnIsInside(b: Box, segments: seq<Segment>, p: Vector)
    requires Contains(b, segments) && Drawn(segments, p)
    ensures Inside(b, p)
  {}

  predicate BoxesClose(b: Box, c: Box) {
    && Near(c.minX - b.minX, 0.005) && Near(c.minY - b.minY, 0.005)
    && Near(c.maxX - b.maxX, 0.005) && Near(c.maxY - b.maxY, 0.005)
  }

  /** The exact box of an outline reaches no further than its printed text's box, but for half a hundredth. */
  lemma ExactWithinMeasured(segments: seq<Segment>, exact: Box, measured: Box)
    requires Tight(exact, segments) && Contains(measured, RoundedSegments(segments))
    ensures measured.minX <= exact.minX + 0.005 && measured.minY <= exact.minY + 0.005
    ensures exact.maxX - 0.005 <= measured.maxX && exact.maxY - 0.005 <= measured.maxY
  {
    hide PointOn, Contains, Drawn, RoundedSegments;
    var left :| Drawn(segments, left) && left.x == exact.minX;
    var top :| Drawn(segments, top) && top.y == exact.minY;
    var right :| Drawn(segments, right) && right.x == exact.maxX;
    var bottom :| Drawn(segments, bottom) && bottom.y == exact.maxY;
    var l := DrawnFollows(segments, left);
    var t := DrawnFollows(segments, top);
    var r := DrawnFollows(segments, right);
    var b := DrawnFollows(segments, bottom);
    DrawnIsInside(measured, RoundedSegments(segments), l);
    DrawnIsInside(measured, RoundedSegments(segments), t);
    DrawnIsInside(measured, RoundedSegments(segments), r);
    DrawnIsInside(measured, RoundedSegments(segments), b);
  }

  lemma MeasuredWithinExact(segments: seq<Segment>, exact: Box, measured: Box)
    requires Contains(exact, segments) && Tight(measured, RoundedSegments(segments))
    ensures exact.minX - 0.005 <= measured.minX && exact.minY - 0.005 <= measured.minY
    ensures measured.maxX <= exact.maxX + 0.005 && measured.maxY <= exact.maxY + 0.005
  {
    hide PointOn, Contains, Drawn, RoundedSegments;
    var rounded := RoundedSegments(segments);
    var left :| Drawn(rounded, left) && left.x == measured.minX;
    var top :| Drawn(rounded, top) && top.y == measured.minY;
    var right :| Drawn(rounded, right) && right.x == measured.maxX;
    var bottom :| Drawn(rounded, bottom) && bottom.y == measured.maxY;
    var l := DrawnPrecedes(segments, left);
    var t := DrawnPrecedes(segments, top);
    var r := DrawnPrecedes(segments, right);
    var b := DrawnPrecedes(segments, bottom);
    DrawnIsInside(exact, segments, l);
    DrawnIsInside(exact, segments, t);
    DrawnIsInside(exact, segments, r);
    DrawnIsInside(exact, segments, b);
  }

  /** The ink measured on the printed text is the outline's own ink, to half a hundredth on every side. */
  lemma MeasuredBoxIsClose(segments: seq<Segment>, exact: Box, measured: Box)
    requires Tight(exact, segments) && Tight(measured, RoundedSegments(segments))
    ensures BoxesClose(exact, measured)
  {
    hide Contains, Touches, RoundedSegments;
    ExactWithinMeasured(segments, exact, measured);
    MeasuredWithinExact(segments, exact, measured);
  }

  // ----- outlines -----

  /** A list that closes its last subpath draws something. */
  lemma {:induction false} ClosingDraws(commands: seq<PathCommand>, current: Vector, start: Vector)
    requires commands != [] && commands[|commands| - 1].Close?
    ensures Segments(commands, current, start) != []
  {
    if commands[0].MoveTo? {
      ClosingDraws(commands[1..], commands[0].p, commands[0].p);
    }
  }

  lemma OutlineStarts(pen: Pen, points: seq<Point>, bezier: bool)
    requires |points| >= 2
    ensures var path := OutlineCommands(pen, points, bezier); path != [] && path[0].MoveTo? && DrawnBy(path) != []
  {
    var path := OutlineCommands(pen, points, bezier);
    assert path != [] && path[0].MoveTo? && path[|path| - 1].Close?;
    hide *;
    ClosingDraws(path, path[0].p, path[0].p);
  }

  /** The printed text of an outline in range draws the outline's own segments, rounded to hundredths. */
  lemma {:induction false} PrintedOutlineDraws(pen: Pen, points: seq<Point>, bezier: bool)
    requires |points| >= 2 && PathInRange(OutlineCommands(pen, points, bezier))
    ensures var path := OutlineCommands(pen, points, bezier);
            && path != [] && path[0].MoveTo? && DrawnBy(path) != []
            && PathSegments(PathText(path)) == Ok(RoundedSegments(DrawnBy(path)))
  {
    OutlineStarts(pen, points, bezier);
    hide *;
    PrintedTextDraws(OutlineCommands(pen, points, bezier));
  }

  ghost predicate DrawsChain(path: seq<PathCommand>, pen: Pen, points: seq<Point>)
    requires |points| >= 2 && path != [] && path[0].MoveTo?
  {
    ClosedChain(DrawnBy(path), OffsetQuads(pen, points, |points| - 1, 1.0), OffsetQuads(pen, points, |points| - 1, -1.0))
  }

  ghost predicate DrawsPolygon(path: seq<PathCommand>, pen: Pen, points: seq<Point>)
    requires |points| >= 2 && path != [] && path[0].MoveTo?
  {
    DrawnBy(path) == PolygonSegments(SideSamples(pen, points, 1.0) + Reverse(SideSamples(pen, points, -1.0)))
  }

  lemma {:induction false} BezierDraws(pen: Pen, points: seq<Point>)
    requires pen.Valid() && AllSmooth(points) && |points| >= 2
    ensures var path := BezierCommands(pen, points); path != [] && path[0].MoveTo? && DrawsChain(path, pen, points)
  {
    assert BezierCommands(pen, points)[0] == MoveTo(OffsetQuads(pen, points, |points| - 1, 1.0)[0].p0);
    hide AllSmooth, Pen.Valid, ClosedChain, OffsetQuads, OffsetQuad, ForwardCommands, BackwardCommands, Segments;
    BezierOutlineDraws(pen, points);
  }

  lemma {:induction false} SampledDraws(pen: Pen, points: seq<Point>)
    requires |points| >= 2
    ensures var path := OutlineCommands(pen, points, false); path != [] && path[0].MoveTo? && DrawsPolygon(path, pen, points)
  {
    var vertices := SideSamples(pen, points, 1.0) + Reverse(SideSamples(pen, points, -1.0));
    assert PolygonCommands(vertices)[0] == MoveTo(vertices[0]);
    hide SideSamples, Reverse, LineCommands, Segments, PolygonSegments;
    PolygonDraws(vertices);
  }

  /** The outline of smooth points: the closed chain of cubics, or the closed polygon of samples. */
  lemma {:induction false} OutlineDraws(pen: Pen, points: seq<Point>, bezier: bool)
    requires pen.Valid() && AllSmooth(points) && |points| >= 2
    ensures var path := OutlineCommands(pen, points, bezier);
            path != [] && path[0].MoveTo? && if bezier then DrawsChain(path, pen, points) else DrawsPolygon(path, pen, points)
  {
    hide AllSmooth, Pen.Valid, BezierCommands, PolygonCommands, DrawsChain, DrawsPolygon, SideSamples, Reverse;
    if bezier {
      BezierDraws(pen, points);
    } else {
      SampledDraws(pen, points);
    }
  }

  /** Measuring the printed text of an outline: its ink is the outline's ink, to half a hundredth on every side. */
  method MeasurePrinted(path: seq<PathCommand>, sqrt: real -> real) returns (box: Box)
    requires IsSquareRoot(sqrt) && path != [] && path[0].MoveTo? && PathInRange(path) && DrawnBy(path) != []
    ensures Tight(box, RoundedSegments(DrawnBy(path)))
    ensures forall exact :: Tight(exact, DrawnBy(path)) ==> BoxesClose(exact, box)
  {
    PrintedTextDraws(path);
    hide Tight, BoxesClose, DrawnBy, PathInRange, PathText, PathSegments, RoundedSegments;
    var measured := PathInkBounds(PathText(path), sqrt);
    box := measured.value;
    forall exact | Tight(exact, DrawnBy(path))
      ensures BoxesClose(exact, box)
    {
      MeasuredBoxIsClose(DrawnBy(path), exact, box);
    }
  }
}
