/** The two builders that turn an outline into path commands, and what their paths draw. */
module OutlinePaths {
  import opened Wrappers
  import opened Vectors
  import opened Cubics
  import opened Outline
  import opened InkBounds
  import opened PrintedBounds

  // ----- chains of cubics through four points each -----

  /** The offsets of one side of one segment at 0, 1/3, 2/3 and 1. */
  datatype Quad = Quad(p0: Vector, p1: Vector, p2: Vector, p3: Vector) {
    function Controls(): (Vector, Vector) {
      CubicThroughThirds(p0, p1, p2, p3)
    }

    function Forwards(): Segment {
      var (c1, c2) := Controls();
      Curve(p0, c1, c2, p3)
    }

    function Backwards(): Segment {
      var (c1, c2) := Controls();
      Curve(p3, c2, c1, p0)
    }

    function Reversed(): Quad {
      Quad(p3, p2, p1, p0)
    }
  }

  /** The curve starts at p0, ends at p3 and passes through p1 and p2 at the thirds. */
  predicate PassesThrough(s: Segment, q: Quad) {
    && s.Curve?
    && s.start == q.p0 && PointOn(s, 0.0) == q.p0
    && PointOn(s, 1.0 / 3.0) == q.p1
    && PointOn(s, 2.0 / 3.0) == q.p2
    && s.end == q.p3 && PointOn(s, 1.0) == q.p3
  }

  lemma {:induction false} Interpolates(q: Quad)
    ensures PassesThrough(q.Forwards(), q)
    ensures PassesThrough(q.Backwards(), q.Reversed())
  {
    ThroughThirdsInterpolates(q.p0.x, q.p1.x, q.p2.x, q.p3.x);
    ThroughThirdsInterpolates(q.p0.y, q.p1.y, q.p2.y, q.p3.y);
    EndPoints(q.Forwards());
    EndPoints(q.Backwards());
    var (c1, c2) := q.Controls();
    hide CubicAt, ThroughThirds;
    CubicReversed(q.p0.x, c1.x, c2.x, q.p3.x, 1.0 / 3.0);
    CubicReversed(q.p0.y, c1.y, c2.y, q.p3.y, 1.0 / 3.0);
    CubicReversed(q.p0.x, c1.x, c2.x, q.p3.x, 2.0 / 3.0);
    CubicReversed(q.p0.y, c1.y, c2.y, q.p3.y, 2.0 / 3.0);
    assert 1.0 - 1.0 / 3.0 == 2.0 / 3.0 && 1.0 - 2.0 / 3.0 == 1.0 / 3.0;
  }

  function CurveCommand(s: Segment): PathCommand
    requires s.Curve?
  {
    CurveTo(s.c1, s.c2, s.end)
  }

  function ForwardCommands(quads: seq<Quad>): seq<PathCommand> {
    if quads == [] then []
    else ForwardCommands(quads[..|quads| - 1]) + [CurveCommand(quads[|quads| - 1].Forwards())]
  }

  function BackwardCommands(quads: seq<Quad>): seq<PathCommand> {
    if quads == [] then []
    else [CurveCommand(quads[|quads| - 1].Backwards())] + BackwardCommands(quads[..|quads| - 1])
  }

  function ForwardSegments(quads: seq<Quad>): (s: seq<Segment>)
    ensures |s| == |quads|
    ensures forall k :: 0 <= k < |s| ==> s[k] == quads[k].Forwards()
  {
    if quads == [] then []
    else ForwardSegments(quads[..|quads| - 1]) + [quads[|quads| - 1].Forwards()]
  }

  function BackwardSegments(quads: seq<Quad>): (s: seq<Segment>)
    ensures |s| == |quads|
    ensures forall k :: 0 <= k < |s| ==> s[k] == quads[|quads| - 1 - k].Backwards()
  {
    if quads == [] then []
    else [quads[|quads| - 1].Backwards()] + BackwardSegments(quads[..|quads| - 1])
  }

  /** Each quad starts where the one before it ends. */
  ghost predicate Linked(quads: seq<Quad>) {
    forall k :: 0 < k < |quads| ==> quads[k - 1].p3 == quads[k].p0
  }

  lemma {:induction false} DrawsCurveTo(s: Segment, rest: seq<PathCommand>, start: Vector)
    requires s.Curve?
    ensures Segments([CurveCommand(s)] + rest, s.start, start) == [s] + Segments(rest, s.end, start)
  {
    assert ([CurveCommand(s)] + rest)[1..] == rest;
  }

  lemma {:induction false} ForwardDraws(quads: seq<Quad>, rest: seq<PathCommand>, start: Vector)
    requires Linked(quads) && quads != []
    ensures Segments(ForwardCommands(quads) + rest, quads[0].p0, start)
            == ForwardSegments(quads) + Segments(rest, quads[|quads| - 1].p3, start)
  {
    var init, last := quads[..|quads| - 1], quads[|quads| - 1];
    var s, after := last.Forwards(), Segments(rest, last.p3, start);
    DrawsCurveTo(s, rest, start);
    hide Segments, CubicThroughThirds;
    Regroup(ForwardCommands(init), [CurveCommand(s)], rest);
    Regroup(ForwardSegments(init), [s], after);
    if init == [] {
      assert [] + ([CurveCommand(s)] + rest) == [CurveCommand(s)] + rest;
      assert [] + ([s] + after) == [s] + after;
    } else {
      ForwardDraws(init, [CurveCommand(s)] + rest, start);
    }
  }

  lemma {:induction false} BackwardDraws(quads: seq<Quad>, rest: seq<PathCommand>, start: Vector)
    requires Linked(quads) && quads != []
    ensures Segments(BackwardCommands(quads) + rest, quads[|quads| - 1].p3, start)
            == BackwardSegments(quads) + Segments(rest, quads[0].p0, start)
  {
    var init, last := quads[..|quads| - 1], quads[|quads| - 1];
    var s, after := last.Backwards(), Segments(rest, quads[0].p0, start);
    DrawsCurveTo(s, BackwardCommands(init) + rest, start);
    hide Segments, CubicThroughThirds;
    Regroup([CurveCommand(s)], BackwardCommands(init), rest);
    Regroup([s], BackwardSegments(init), after);
    if init == [] {
      assert [] + rest == rest;
      assert [] + after == after;
    } else {
      BackwardDraws(init, rest, start);
    }
  }

  /** The closed path: along the outer side, across, back along the inner side. */
  function ChainCommands(outer: seq<Quad>, inner: seq<Quad>): seq<PathCommand>
    requires outer != [] && inner != []
  {
    [MoveTo(outer[0].p0)] + ForwardCommands(outer) + [LineTo(inner[|inner| - 1].p3)] + BackwardCommands(inner) + [Close]
  }

  lemma {:induction false} ChainDraws(outer: seq<Quad>, inner: seq<Quad>)
    requires Linked(outer) && Linked(inner) && outer != [] && inner != []
    ensures Segments(ChainCommands(outer, inner), outer[0].p0, outer[0].p0)
            == ForwardSegments(outer) + [Line(outer[|outer| - 1].p3, inner[|inner| - 1].p3)]
               + BackwardSegments(inner) + [Line(inner[0].p0, outer[0].p0)]
  {
    hide Quad.Controls, Linked, Segments, ForwardCommands, BackwardCommands, ForwardSegments, BackwardSegments;
    var first := outer[0].p0;
    var from, to := outer[|outer| - 1].p3, inner[|inner| - 1].p3;
    var back := BackwardCommands(inner) + [Close];
    ForwardDraws(outer, [LineTo(to)] + back, first);
    BackwardDraws(inner, [Close], first);
    DrawsLineTo(to, back, from, first);
    DrawsClosing(inner[0].p0, first);
    Regroup(ForwardCommands(outer), [LineTo(to)], back);
    Regroup(ForwardCommands(outer) + [LineTo(to)], BackwardCommands(inner), [Close]);
    Regroup([MoveTo(first)], ForwardCommands(outer), [LineTo(to)]);
    Regroup([MoveTo(first)], ForwardCommands(outer) + [LineTo(to)], BackwardCommands(inner));
    Regroup([MoveTo(first)], ForwardCommands(outer) + [LineTo(to)] + BackwardCommands(inner), [Close]);
    DrawsMoveTo(first, ForwardCommands(outer) + ([LineTo(to)] + back), first, first);
    Regroup(ForwardSegments(outer), [Line(from, to)], BackwardSegments(inner) + [Line(inner[0].p0, first)]);
    Regroup(ForwardSegments(outer) + [Line(from, to)], BackwardSegments(inner), [Line(inner[0].p0, first)]);
  }

  lemma {:induction false} DrawsMoveTo(p: Vector, rest: seq<PathCommand>, current: Vector, start: Vector)
    ensures Segments([MoveTo(p)] + rest, current, start) == Segments(rest, p, p)
  {
    assert ([MoveTo(p)] + rest)[1..] == rest;
  }

  lemma {:induction false} DrawsLineTo(p: Vector, rest: seq<PathCommand>, current: Vector, start: Vector)
    ensures Segments([LineTo(p)] + rest, current, start) == [Line(current, p)] + Segments(rest, p, start)
  {
    assert ([LineTo(p)] + rest)[1..] == rest;
  }

  lemma {:induction false} DrawsClosing(current: Vector, start: Vector)
    ensures Segments([Close], current, start) == [Line(current, start)]
  {
    assert [Close][1..] == [];
    assert [Line(current, start)] + [] == [Line(current, start)];
  }

  // ----- the Bezier builder -----

  /** The offset on segment k of the chain of points. */
  function Offset(pen: Pen, points: seq<Point>, k: nat, t: real, side: real): Vector
    requires k + 1 < |points|
  {
    OffsetPoint(pen, points[k], points[k + 1], t, side)
  }

  function OffsetQuad(pen: Pen, points: seq<Point>, k: nat, side: real): Quad
    requires k + 1 < |points|
  {
    Quad(Offset(pen, points, k, 0.0, side), Offset(pen, points, k, 1.0 / 3.0, side),
         Offset(pen, points, k, 2.0 / 3.0, side), Offset(pen, points, k, 1.0, side))
  }

  /** The quads of the first n segments. */
  function OffsetQuads(pen: Pen, points: seq<Point>, n: nat, side: real): (quads: seq<Quad>)
    requires n < |points| || n == 0
    ensures |quads| == n
    ensures forall k :: 0 <= k < n ==> quads[k] == OffsetQuad(pen, points, k, side)
  {
    if n == 0 then [] else OffsetQuads(pen, points, n - 1, side) + [OffsetQuad(pen, points, n - 1, side)]
  }

  function BezierCommands(pen: Pen, points: seq<Point>): seq<PathCommand>
    requires |points| >= 2
  {
    ChainCommands(OffsetQuads(pen, points, |points| - 1, 1.0), OffsetQuads(pen, points, |points| - 1, -1.0))
  }

  /** The four offsets of a segment's side, and the two controls through the middle ones. */
  method SegmentCurve(pen: Pen, current: Point, following: Point, side: real) returns (start: Vector, end: Vector, control1: Vector, control2: Vector)
    ensures var q := Quad(OffsetPoint(pen, current, following, 0.0, side), OffsetPoint(pen, current, following, 1.0 / 3.0, side),
                          OffsetPoint(pen, current, following, 2.0 / 3.0, side), OffsetPoint(pen, current, following, 1.0, side));
            start == q.p0 && end == q.p3 && (control1, control2) == q.Controls()
  {
    hide OffsetPoint, CubicThroughThirds;
    start := OffsetPoint(pen, current, following, 0.0, side);
    var oneThird := OffsetPoint(pen, current, following, 1.0 / 3.0, side);
    var twoThirds := OffsetPoint(pen, current, following, 2.0 / 3.0, side);
    end := OffsetPoint(pen, current, following, 1.0, side);
    var controls := CubicThroughThirds(start, oneThird, twoThirds, end);
    control1, control2 := controls.0, controls.1;
  }

  lemma ForwardStep(quads: seq<Quad>, k: nat)
    requires k < |quads|
    ensures ForwardCommands(quads[..k + 1]) == ForwardCommands(quads[..k]) + [CurveTo(quads[k].Controls().0, quads[k].Controls().1, quads[k].p3)]
    ensures BackwardCommands(quads[..k + 1]) == [CurveTo(quads[k].Controls().1, quads[k].Controls().0, quads[k].p0)] + BackwardCommands(quads[..k])
  {
    assert quads[..k + 1][..k] == quads[..k];
    hide CubicThroughThirds;
  }

  method BezierVariableWidthPath(pen: Pen, points: seq<Point>) returns (path: seq<PathCommand>)
    ensures path == if |points| < 2 then [] else BezierCommands(pen, points)
  {
    hide OffsetPoint, CubicThroughThirds, ForwardCommands, BackwardCommands, Quad.Controls;
    if |points| < 2 {
      return [];
    }
    var lastSegment := |points| - 2;
    path := [MoveTo(OffsetPoint(pen, points[0], points[1], 0.0, 1.0))];
    ghost var head, outer, inner := path, OffsetQuads(pen, points, |points| - 1, 1.0), OffsetQuads(pen, points, |points| - 1, -1.0);
    NoCommands();
    assert outer[..0] == [] && path + [] == path;
    for index := 0 to lastSegment + 1
      invariant path == head + ForwardCommands(outer[..index])
    {
      var start, end, control1, control2 := SegmentCurve(pen, points[index], points[index + 1], 1.0);
      ForwardStep(outer, index);
      path := path + [CurveTo(control1, control2, end)];
    }
    assert outer[..lastSegment + 1] == outer;
    path := path + [LineTo(OffsetPoint(pen, points[lastSegment], points[lastSegment + 1], 1.0, -1.0))];
    ghost var front := path;
    var index := lastSegment;
    assert inner[..lastSegment + 1] == inner;
    while index >= 0
      invariant -1 <= index <= lastSegment
      invariant path + BackwardCommands(inner[..index + 1]) == front + BackwardCommands(inner)
    {
      var start, end, control1, control2 := SegmentCurve(pen, points[index], points[index + 1], -1.0);
      ForwardStep(inner, index);
      Regroup(path, [CurveTo(control2, control1, start)], BackwardCommands(inner[..index]));
      path := path + [CurveTo(control2, control1, start)];
      index := index - 1;
    }
    assert inner[..0] == [] && path + [] == path;
    path := path + [Close];
  }

  lemma NoCommands()
    ensures ForwardCommands([]) == [] && BackwardCommands([]) == []
  {}

  lemma {:induction false} QuadsLinked(pen: Pen, points: seq<Point>, n: nat, side: real)
    requires pen.Valid() && AllSmooth(points) && (n < |points| || n == 0)
    ensures Linked(OffsetQuads(pen, points, n, side))
  {
    hide OffsetPoint, Pen.Valid;
    forall k | 0 < k < n
      ensures Offset(pen, points, k - 1, 1.0, side) == Offset(pen, points, k, 0.0, side)
    {
      JointContinuity(pen, points[k - 1], points[k], points[k + 1], side);
    }
  }

  /**
   One closed chain: forwards along the outer side, across the end, backwards
   along the inner side, and across the start. Each cubic passes through the
   start, third, two-third and end offsets of its segment, so neighbouring
   cubics of one side share an end point exactly.
   */
  ghost predicate ClosedChain(drawn: seq<Segment>, outer: seq<Quad>, inner: seq<Quad>)
    requires |outer| == |inner| > 0
  {
    var m := |outer|;
    && |drawn| == 2 * m + 2
    && (forall i :: 0 <= i < m ==> PassesThrough(drawn[i], outer[i]))
    && drawn[m] == Line(outer[m - 1].p3, inner[m - 1].p3)
    && (forall i :: m < i <= 2 * m ==> PassesThrough(drawn[i], inner[2 * m - i].Reversed()))
    && drawn[2 * m + 1] == Line(inner[0].p0, outer[0].p0)
    && Linked(outer) && Linked(inner)
  }

  /** The path that the builder emits for n points draws the closed chain of 2(n-1) cubics through their offsets. */
  ghost predicate DrawsClosedChain(pen: Pen, points: seq<Point>)
    requires |points| >= 2
  {
    var outer := OffsetQuads(pen, points, |points| - 1, 1.0);
    var inner := OffsetQuads(pen, points, |points| - 1, -1.0);
    ClosedChain(Segments(BezierCommands(pen, points), outer[0].p0, outer[0].p0), outer, inner)
  }

  /** Smooth points make a closed outline. */
  lemma {:induction false} BezierOutlineDraws(pen: Pen, points: seq<Point>)
    requires pen.Valid() && AllSmooth(points) && |points| >= 2
    ensures DrawsClosedChain(pen, points)
  {
    var m := |points| - 1;
    hide AllSmooth, Pen.Valid, Linked, ClosedChain, Segments, ChainCommands, OffsetQuads, OffsetQuad;
    var outer, inner := OffsetQuads(pen, points, m, 1.0), OffsetQuads(pen, points, m, -1.0);
    QuadsLinked(pen, points, m, 1.0);
    QuadsLinked(pen, points, m, -1.0);
    ChainDraws(outer, inner);
    ChainFollows(outer, inner, Segments(ChainCommands(outer, inner), outer[0].p0, outer[0].p0));
  }

  lemma {:induction false} ChainFollows(outer: seq<Quad>, inner: seq<Quad>, drawn: seq<Segment>)
    requires |outer| == |inner| > 0 && Linked(outer) && Linked(inner)
    requires drawn == ForwardSegments(outer) + [Line(outer[|outer| - 1].p3, inner[|inner| - 1].p3)]
                      + BackwardSegments(inner) + [Line(inner[0].p0, outer[0].p0)]
    ensures ClosedChain(drawn, outer, inner)
  {
    hide PassesThrough, Quad.Controls, Quad.Reversed, ForwardSegments, BackwardSegments, Linked;
    var m := |outer|;
    ChainShape(ForwardSegments(outer), Line(outer[m - 1].p3, inner[m - 1].p3), BackwardSegments(inner), Line(inner[0].p0, outer[0].p0));
    forall i | 0 <= i < m
      ensures PassesThrough(drawn[i], outer[i])
    {
      Interpolates(outer[i]);
    }
    forall i | m < i <= 2 * m
      ensures PassesThrough(drawn[i], inner[2 * m - i].Reversed())
    {
      Interpolates(inner[2 * m - i]);
    }
  }

  lemma {:induction false} ChainShape<T>(a: seq<T>, x: T, b: seq<T>, y: T)
    ensures var s := a + [x] + b + [y];
            && |s| == |a| + |b| + 2
            && (forall i :: 0 <= i < |a| ==> s[i] == a[i])
            && s[|a|] == x
            && (forall i :: |a| < i <= |a| + |b| ==> s[i] == b[i - |a| - 1])
            && s[|a| + |b| + 1] == y
  {}

  // ----- the sampled builder -----

  function SampleCount(n: nat): nat
    requires n > 0
  {
    var spread := (240 + n - 1) / n;
    if spread > 32 then 32 else if spread < 8 then 8 else spread
  }

  /** The first n of the evenly spaced offsets of segment k, from its start. */
  function SegmentSamples(pen: Pen, points: seq<Point>, k: nat, samples: nat, n: nat, side: real): (s: seq<Vector>)
    requires k + 1 < |points| && samples > 0
    ensures |s| == n
    ensures forall i :: 0 <= i < n ==> s[i] == Offset(pen, points, k, i as real / samples as real, side)
  {
    if n == 0 then []
    else SegmentSamples(pen, points, k, samples, n - 1, side) + [Offset(pen, points, k, (n - 1) as real / samples as real, side)]
  }

  /** The samples of the first m segments, in order. */
  function ChainSamples(pen: Pen, points: seq<Point>, samples: nat, m: nat, side: real): seq<Vector>
    requires (m < |points| || m == 0) && samples > 0
  {
    if m == 0 then []
    else ChainSamples(pen, points, samples, m - 1, side) + SegmentSamples(pen, points, m - 1, samples, samples, side)
  }

  /** All samples of one side: every segment's, then the end of the last. */
  function SideSamples(pen: Pen, points: seq<Point>, side: real): seq<Vector>
    requires |points| >= 2
  {
    ChainSamples(pen, points, SampleCount(|points|), |points| - 1, side) + [Offset(pen, points, |points| - 2, 1.0, side)]
  }

  function LineCommands(vertices: seq<Vector>): (commands: seq<PathCommand>)
    ensures |commands| == |vertices|
    ensures forall i :: 0 <= i < |vertices| ==> commands[i] == LineTo(vertices[i])
  {
    if vertices == [] then [] else LineCommands(vertices[..|vertices| - 1]) + [LineTo(vertices[|vertices| - 1])]
  }

  function PolygonCommands(vertices: seq<Vector>): seq<PathCommand>
    requires vertices != []
  {
    [MoveTo(vertices[0])] + LineCommands(vertices[1..]) + [Close]
  }

  function Reverse(s: seq<Vector>): (r: seq<Vector>)
    ensures |r| == |s|
    ensures forall i :: 0 <= i < |s| ==> r[i] == s[|s| - 1 - i]
  {
    if s == [] then [] else [s[|s| - 1]] + Reverse(s[..|s| - 1])
  }

  method SampledVariableWidthPath(pen: Pen, points: seq<Point>) returns (path: seq<PathCommand>)
    ensures path == if |points| < 2 then []
                    else PolygonCommands(SideSamples(pen, points, 1.0) + Reverse(SideSamples(pen, points, -1.0)))
  {
    hide OffsetPoint;
    if |points| < 2 {
      return [];
    }
    var outer: seq<Vector> := [];
    var inner: seq<Vector> := [];
    var samples := SampleCount(|points|);
    for index := 0 to |points| - 1
      invariant outer == ChainSamples(pen, points, samples, index, 1.0)
      invariant inner == ChainSamples(pen, points, samples, index, -1.0)
    {
      ghost var outerBefore, innerBefore := outer, inner;
      for sample := 0 to samples
        invariant outer == outerBefore + SegmentSamples(pen, points, index, samples, sample, 1.0)
        invariant inner == innerBefore + SegmentSamples(pen, points, index, samples, sample, -1.0)
      {
        outer := outer + [OffsetPoint(pen, points[index], points[index + 1], sample as real / samples as real, 1.0)];
        inner := inner + [OffsetPoint(pen, points[index], points[index + 1], sample as real / samples as real, -1.0)];
      }
    }
    outer := outer + [OffsetPoint(pen, points[|points| - 2], points[|points| - 1], 1.0, 1.0)];
    inner := inner + [OffsetPoint(pen, points[|points| - 2], points[|points| - 1], 1.0, -1.0)];
    var vertices := outer + Reverse(inner);
    path := [MoveTo(vertices[0])] + LineCommands(vertices[1..]) + [Close];
  }

  /** The closed polygon: each vertex joined to the next, the last one back to the first. */
  function PolygonSegments(vertices: seq<Vector>): seq<Segment>
    requires vertices != []
  {
    seq(|vertices|, i requires 0 <= i < |vertices| =>
      Line(vertices[i], if i + 1 < |vertices| then vertices[i + 1] else vertices[0]))
  }

  /** Each vertex joined to the next. */
  function JoinedLines(vertices: seq<Vector>): seq<Segment>
    decreases |vertices|
  {
    if |vertices| <= 1 then [] else [Line(vertices[0], vertices[1])] + JoinedLines(vertices[1..])
  }

  lemma {:induction false} JoinedLinesAt(vertices: seq<Vector>)
    requires vertices != []
    ensures |JoinedLines(vertices)| == |vertices| - 1
    ensures forall i :: 0 <= i < |vertices| - 1 ==> JoinedLines(vertices)[i] == Line(vertices[i], vertices[i + 1])
    decreases |vertices|
  {
    if |vertices| > 1 {
      JoinedLinesAt(vertices[1..]);
    }
  }

  lemma {:induction false} LinesDraw(vertices: seq<Vector>, rest: seq<PathCommand>, start: Vector)
    requires vertices != []
    ensures Segments(LineCommands(vertices[1..]) + rest, vertices[0], start)
            == JoinedLines(vertices) + Segments(rest, vertices[|vertices| - 1], start)
    decreases |vertices|
  {
    hide Segments, LineCommands;
    var tail := vertices[1..];
    if |vertices| == 1 {
      NoLinesDraw(rest, vertices[0], start);
    } else {
      LinesDraw(tail, rest, start);
      OneLineDraws(vertices[0], tail, rest, start);
      Regroup([Line(vertices[0], vertices[1])], JoinedLines(tail), Segments(rest, vertices[|vertices| - 1], start));
    }
  }

  lemma NoLinesDraw(rest: seq<PathCommand>, current: Vector, start: Vector)
    ensures Segments(LineCommands([]) + rest, current, start) == [] + Segments(rest, current, start)
  {
    hide Segments;
    assert LineCommands([]) + rest == rest;
  }

  lemma OneLineDraws(current: Vector, vertices: seq<Vector>, rest: seq<PathCommand>, start: Vector)
    requires vertices != []
    ensures Segments(LineCommands(vertices) + rest, current, start)
         == [Line(current, vertices[0])] + Segments(LineCommands(vertices[1..]) + rest, vertices[0], start)
  {
    LineCommandsFirst(vertices);
    hide Segments, LineCommands;
    Regroup([LineTo(vertices[0])], LineCommands(vertices[1..]), rest);
    DrawsLineTo(vertices[0], LineCommands(vertices[1..]) + rest, current, start);
  }

  lemma LineCommandsFirst(vertices: seq<Vector>)
    requires vertices != []
    ensures LineCommands(vertices) == [LineTo(vertices[0])] + LineCommands(vertices[1..])
  {}

  /** The sampled path draws the closed polygon through the outer samples forwards and the inner samples backwards. */
  lemma {:induction false} PolygonDraws(vertices: seq<Vector>)
    requires vertices != []
    ensures Segments(PolygonCommands(vertices), vertices[0], vertices[0]) == PolygonSegments(vertices)
  {
    var first := vertices[0];
    Regroup([MoveTo(first)], LineCommands(vertices[1..]), [Close]);
    DrawsMoveTo(first, LineCommands(vertices[1..]) + [Close], first, first);
    LinesDraw(vertices, [Close], first);
    DrawsClosing(vertices[|vertices| - 1], first);
    JoinedLinesAt(vertices);
    hide Segments, LineCommands, JoinedLines;
    assert PolygonSegments(vertices) == JoinedLines(vertices) + [Line(vertices[|vertices| - 1], first)];
  }

  // ----- either builder -----

  function OutlineCommands(pen: Pen, points: seq<Point>, bezier: bool): seq<PathCommand>
    requires |points| >= 2
  {
    if bezier then BezierCommands(pen, points)
    else PolygonCommands(SideSamples(pen, points, 1.0) + Reverse(SideSamples(pen, points, -1.0)))
  }
}
