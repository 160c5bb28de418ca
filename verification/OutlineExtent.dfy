/** How far an outline can reach: bounds on offsets, on both centring shifts, and on every coordinate that the builders emit. */
module OutlineExtent {
  import opened Vectors
  import opened Cubics
  import opened Outline
  import opened OutlinePaths
  import opened Centring
  import opened PathPrinting

  predicate Near(x: real, m: real) {
    -m <= x <= m
  }

  predicate VectorNear(v: Vector, m: real) {
    Near(v.x, m) && Near(v.y, m)
  }

  predicate PointNear(p: Point, m: real) {
    VectorNear(p.anchor, m) && VectorNear(p.incoming, m) && VectorNear(p.outgoing, m)
  }

  predicate AllNear(points: seq<Point>, m: real) {
    forall i :: 0 <= i < |points| ==> PointNear(points[i], m)
  }

  // ----- a point of a cubic stays among its control points -----

  lemma Scaled(a: real, p: real, m: real)
    requires a >= 0.0 && Near(p, m)
    ensures Near(a * p, a * m)
  {
    NonnegativeProduct(a, m - p);
    NonnegativeProduct(a, m + p);
  }

  /** A product that is not expanded. */
  function Times(x: real, y: real): real {
    x * y
  }

  lemma Shares(a: real, b: real, c: real, d: real, m: real)
    requires a + b + c + d == 1.0
    ensures Times(a, m) + Times(b, m) + Times(c, m) + Times(d, m) == m
  {
    assert (a + b + c + d) * m == m;
  }

  lemma Average(a: real, b: real, c: real, d: real, p0: real, p1: real, p2: real, p3: real, m: real)
    requires a >= 0.0 && b >= 0.0 && c >= 0.0 && d >= 0.0 && a + b + c + d == 1.0
    requires Near(p0, m) && Near(p1, m) && Near(p2, m) && Near(p3, m)
    ensures Near(Times(a, p0) + Times(b, p1) + Times(c, p2) + Times(d, p3), m)
  {
    Scaled(a, p0, m);
    Scaled(b, p1, m);
    Scaled(c, p2, m);
    Scaled(d, p3, m);
    assert Near(Times(a, p0), Times(a, m)) && Near(Times(b, p1), Times(b, m)) && Near(Times(c, p2), Times(c, m)) && Near(Times(d, p3), Times(d, m));
    hide Times;
    Shares(a, b, c, d, m);
  }

  lemma Weights(t: real, u: real)
    requires 0.0 <= t <= 1.0 && u == 1.0 - t
    ensures u * u * u >= 0.0 && 3.0 * u * u * t >= 0.0 && 3.0 * u * t * t >= 0.0 && t * t * t >= 0.0
    ensures u * u * u + 3.0 * u * u * t + 3.0 * u * t * t + t * t * t == 1.0
  {
    NonnegativeProduct(u, u);
    NonnegativeProduct(t, t);
    NonnegativeProduct(u * u, u);
    NonnegativeProduct(u * u, t);
    NonnegativeProduct(u, t * t);
    NonnegativeProduct(t * t, t);
  }

  lemma CubicWeighs(p0: real, p1: real, p2: real, p3: real, t: real, u: real)
    requires u == 1.0 - t
    ensures CubicAt(p0, p1, p2, p3, t) == Times(u * u * u, p0) + Times(3.0 * u * u * t, p1) + Times(3.0 * u * t * t, p2) + Times(t * t * t, p3)
  {}

  lemma CubicNear(p0: real, p1: real, p2: real, p3: real, t: real, m: real)
    requires 0.0 <= t <= 1.0 && Near(p0, m) && Near(p1, m) && Near(p2, m) && Near(p3, m)
    ensures Near(CubicAt(p0, p1, p2, p3, t), m)
  {
    hide Times, CubicAt, Near;
    var u := 1.0 - t;
    Weights(t, u);
    CubicWeighs(p0, p1, p2, p3, t, u);
    var a, b, c, d := u * u * u, 3.0 * u * u * t, 3.0 * u * t * t, t * t * t;
    Average(a, b, c, d, p0, p1, p2, p3, m);
  }

  // ----- an offset adds at most half the pen's width -----

  /** No stroke of the pen is wider than w. */
  ghost predicate PenWithin(pen: Pen, w: real) {
    forall style :: 0.0 <= pen.weight(style) <= w
  }

  lemma Smoothstep(t: real)
    requires 0.0 <= t <= 1.0
    ensures 0.0 <= t * t * (3.0 - 2.0 * t) <= 1.0
  {
    NonnegativeProduct(t, t);
    NonnegativeProduct(t * t, 3.0 - 2.0 * t);
    NonnegativeProduct(1.0 - t, 1.0 - t);
    NonnegativeProduct((1.0 - t) * (1.0 - t), 1.0 + 2.0 * t);
    assert 1.0 - t * t * (3.0 - 2.0 * t) == (1.0 - t) * (1.0 - t) * (1.0 + 2.0 * t);
  }

  lemma WidthWithin(pen: Pen, current: Point, following: Point, t: real, w: real)
    requires PenWithin(pen, w) && 0.0 <= t <= 1.0
    ensures 0.0 <= WidthBetween(pen, current, following, t) <= w
  {
    var e := t * t * (3.0 - 2.0 * t);
    Smoothstep(t);
    Between2(pen.weight(current.style), pen.weight(following.style), e, w);
  }

  lemma Between2(a: real, b: real, e: real, w: real)
    requires 0.0 <= a <= w && 0.0 <= b <= w && 0.0 <= e <= 1.0
    ensures 0.0 <= a + (b - a) * e <= w
  {
    NonnegativeProduct(e, b);
    NonnegativeProduct(1.0 - e, a);
    NonnegativeProduct(e, w - b);
    NonnegativeProduct(1.0 - e, w - a);
  }

  lemma Fraction(x: real, k: real)
    requires k > 0.0 && Near(x, k)
    ensures Near(x / k, 1.0)
  {
    var q := x / k;
    QuotientTimes(x, k);
    if q > 1.0 {
      PositiveProduct(q - 1.0, k);
    } else if q < -1.0 {
      PositiveProduct(-1.0 - q, k);
    }
  }

  /** A leg is no longer than its hypotenuse. */
  lemma LegNear(x: real, y: real, length: real)
    requires length >= 0.0 && length * length == x * x + y * y
    ensures Near(x, length)
  {
    SquareNonnegative(y);
    if x > length {
      SquareIncreases(length, x);
    } else if -x > length {
      SquareIncreases(length, -x);
    }
  }

  lemma NormalNear(pen: Pen, d: Vector)
    requires pen.Valid()
    ensures VectorNear(Normal(pen, d), 1.0)
  {
    var length := pen.hypot(d.x, d.y);
    LegNear(d.x, d.y, length);
    LegNear(d.y, d.x, length);
    if length != 0.0 {
      Fraction(-d.y, length);
      Fraction(d.x, length);
    }
  }

  lemma Flipped(normal: real, half: real, side: real)
    requires side == 1.0 || side == -1.0
    ensures normal * half * side == if side == 1.0 then half * normal else -(half * normal)
  {}

  lemma Beside(position: real, normal: real, half: real, side: real, m: real)
    requires Near(position, m) && Near(normal, 1.0) && half >= 0.0 && (side == 1.0 || side == -1.0)
    ensures Near(position + normal * half * side, m + half)
  {
    Scaled(half, normal, 1.0);
    Flipped(normal, half, side);
  }

  lemma DisplacedNear(position: Vector, normal: Vector, half: real, side: real, m: real)
    requires VectorNear(position, m) && VectorNear(normal, 1.0) && half >= 0.0 && (side == 1.0 || side == -1.0)
    ensures VectorNear(Displaced(position, normal, half, side), m + half)
  {
    Flipped(normal.x, half, side);
    Flipped(normal.y, half, side);
    Beside(position.x, normal.x, half, side, m);
    Beside(position.y, normal.y, half, side, m);
  }

  lemma OffsetNear(pen: Pen, current: Point, following: Point, t: real, side: real, m: real, w: real)
    requires pen.Valid() && PenWithin(pen, w) && PointNear(current, m) && PointNear(following, m)
    requires 0.0 <= t <= 1.0 && (side == 1.0 || side == -1.0)
    ensures VectorNear(OffsetPoint(pen, current, following, t, side), m + w / 2.0)
  {
    hide CubicAt, CubicDerivative, Normal, WidthBetween, Pen.Valid, PenWithin, Displaced;
    var position := CubicPoint(current.anchor, current.outgoing, following.incoming, following.anchor, t);
    CubicNear(current.anchor.x, current.outgoing.x, following.incoming.x, following.anchor.x, t, m);
    CubicNear(current.anchor.y, current.outgoing.y, following.incoming.y, following.anchor.y, t, m);
    var normal := Normal(pen, CubicDerivative(current.anchor, current.outgoing, following.incoming, following.anchor, t));
    NormalNear(pen, CubicDerivative(current.anchor, current.outgoing, following.incoming, following.anchor, t));
    WidthWithin(pen, current, following, t, w);
    DisplacedNear(position, normal, WidthBetween(pen, current, following, t) / 2.0, side, m);
  }

  // ----- centring moves by no more than what it measures -----

  predicate ListNear(xs: seq<real>, m: real) {
    forall i :: 0 <= i < |xs| ==> Near(xs[i], m)
  }

  lemma {:induction false} MidpointNear(xs: seq<real>, m: real)
    requires xs != [] && ListNear(xs, m)
    ensures Near(Midpoint(xs), m)
  {
    var i, j := LeastAndGreatest(xs);
    assert Near(xs[i], m) && Near(xs[j], m);
    hide Least, Greatest;
  }

  lemma {:induction false} ShiftNear(points: seq<Point>, d: real, m: real, k: real)
    requires AllNear(points, m) && Near(d, k)
    ensures AllNear(ShiftAll(points, d), m + k)
  {
    forall i | 0 <= i < |points|
      ensures PointNear(ShiftAll(points, d)[i], m + k)
    {
      assert PointNear(points[i], m);
    }
  }

  lemma {:induction false} HandleXsNear(points: seq<Point>, m: real)
    requires AllNear(points, m)
    ensures ListNear(HandleXs(points), m)
  {
    forall i | 0 <= i < 3 * |points|
      ensures Near(HandleXs(points)[i], m)
    {
      assert PointNear(points[i / 3], m);
      assert i == 3 * (i / 3) || i == 3 * (i / 3) + 1 || i == 3 * (i / 3) + 2;
    }
    hide HandleXs;
  }

  lemma {:induction false} CentredNear(points: seq<Point>, center: real, m: real)
    requires points != [] && AllNear(points, m) && Near(center, m)
    ensures AllNear(CenterGeometry(points, center), 3.0 * m)
  {
    HandleXsNear(points, m);
    hide AllNear, HandleXs, Midpoint, ListNear;
    MidpointNear(HandleXs(points), m);
    ShiftNear(points, center - Midpoint(HandleXs(points)), m, 2.0 * m);
  }

  lemma {:induction false} SegmentXsNear(pen: Pen, current: Point, following: Point, n: nat, m: real, w: real)
    requires pen.Valid() && PenWithin(pen, w) && PointNear(current, m) && PointNear(following, m) && n <= 65
    ensures ListNear(SegmentXs(pen, current, following, n), m + w / 2.0)
  {
    if n > 0 {
      SegmentXsNear(pen, current, following, n - 1, m, w);
      var t := (n - 1) as real / 64.0;
      hide OffsetPoint, PenWithin, Pen.Valid, PointNear;
      OffsetNear(pen, current, following, t, 1.0, m, w);
      OffsetNear(pen, current, following, t, -1.0, m, w);
    }
  }

  lemma {:induction false} OutlineXsNear(pen: Pen, points: seq<Point>, n: nat, m: real, w: real)
    requires pen.Valid() && PenWithin(pen, w) && AllNear(points, m) && (n < |points| || n == 0)
    ensures ListNear(OutlineXs(pen, points, n), m + w / 2.0)
  {
    if n > 0 {
      OutlineXsNear(pen, points, n - 1, m, w);
      assert PointNear(points[n - 1], m) && PointNear(points[n], m);
      SegmentXsNear(pen, points[n - 1], points[n], 65, m, w);
      hide SegmentXs, PenWithin, PointNear, Pen.Valid;
    }
  }

  lemma {:induction false} OutlinePassNear(pen: Pen, points: seq<Point>, center: real, m: real, w: real)
    requires pen.Valid() && PenWithin(pen, w) && AllNear(points, m) && |points| >= 2 && Near(center, m)
    ensures AllNear(ShiftAll(points, OutlineShift(pen, points, center)), 3.0 * m + w / 2.0)
  {
    OutlineXsNear(pen, points, |points| - 1, m, w);
    hide PenWithin, Pen.Valid, AllNear, OutlineXs, Midpoint, ListNear;
    MidpointNear(OutlineXs(pen, points, |points| - 1), m + w / 2.0);
    ShiftNear(points, OutlineShift(pen, points, center), m, 2.0 * m + w / 2.0);
  }

  // ----- the emitted coordinates -----

  predicate QuadNear(q: Quad, m: real) {
    VectorNear(q.p0, m) && VectorNear(q.p1, m) && VectorNear(q.p2, m) && VectorNear(q.p3, m)
  }

  predicate QuadsNear(quads: seq<Quad>, m: real) {
    forall k :: 0 <= k < |quads| ==> QuadNear(quads[k], m)
  }

  /** Controls through third points reach at most six times as far. */
  lemma ControlsNear(q: Quad, m: real)
    requires QuadNear(q, m)
    ensures VectorNear(q.Controls().0, 6.0 * m) && VectorNear(q.Controls().1, 6.0 * m)
  {}

  lemma NearInRange(v: Vector, m: real)
    requires VectorNear(v, m) && m < DECIMAL_LIMIT
    ensures PointInRange(v)
  {}

  lemma QuadInRange(q: Quad, m: real)
    requires QuadNear(q, m) && 0.0 <= m && 6.0 * m < DECIMAL_LIMIT
    ensures CommandInRange(CurveCommand(q.Forwards())) && CommandInRange(CurveCommand(q.Backwards()))
    ensures PointInRange(q.p0) && PointInRange(q.p3)
  {
    ControlsNear(q, m);
    NearInRange(q.Controls().0, 6.0 * m);
    NearInRange(q.Controls().1, 6.0 * m);
    NearInRange(q.p0, m);
    NearInRange(q.p3, m);
    hide VectorNear, PointInRange, Quad.Controls;
  }

  lemma {:induction false} CurvesInRange(quads: seq<Quad>, m: real)
    requires QuadsNear(quads, m) && 0.0 <= m && 6.0 * m < DECIMAL_LIMIT
    ensures PathInRange(ForwardCommands(quads)) && PathInRange(BackwardCommands(quads))
    decreases |quads|
  {
    if quads != [] {
      var n := |quads| - 1;
      QuadInRange(quads[n], m);
      CurvesInRange(quads[..n], m);
      hide QuadNear, CommandInRange, CurveCommand;
    }
  }

  lemma InRangeTogether(a: seq<PathCommand>, b: seq<PathCommand>)
    requires PathInRange(a) && PathInRange(b)
    ensures PathInRange(a + b)
  {}

  lemma {:induction false} ChainInRange(outer: seq<Quad>, inner: seq<Quad>, m: real)
    requires outer != [] && inner != [] && QuadsNear(outer, m) && QuadsNear(inner, m) && 0.0 <= m && 6.0 * m < DECIMAL_LIMIT
    ensures PathInRange(ChainCommands(outer, inner))
  {
    CurvesInRange(outer, m);
    CurvesInRange(inner, m);
    QuadInRange(outer[0], m);
    QuadInRange(inner[|inner| - 1], m);
    var move, line := [MoveTo(outer[0].p0)], [LineTo(inner[|inner| - 1].p3)];
    assert PathInRange(move) && PathInRange(line) && PathInRange([Close]);
    hide PathInRange, QuadsNear;
    InRangeTogether(move, ForwardCommands(outer));
    InRangeTogether(move + ForwardCommands(outer), line);
    InRangeTogether(move + ForwardCommands(outer) + line, BackwardCommands(inner));
    InRangeTogether(move + ForwardCommands(outer) + line + BackwardCommands(inner), [Close]);
  }

  lemma OffsetOfNear(pen: Pen, points: seq<Point>, k: nat, t: real, side: real, m: real, w: real)
    requires pen.Valid() && PenWithin(pen, w) && AllNear(points, m) && k + 1 < |points|
    requires 0.0 <= t <= 1.0 && (side == 1.0 || side == -1.0)
    ensures VectorNear(Offset(pen, points, k, t, side), m + w / 2.0)
  {
    assert PointNear(points[k], m) && PointNear(points[k + 1], m);
    hide PointNear, VectorNear, OffsetPoint, PenWithin;
    OffsetNear(pen, points[k], points[k + 1], t, side, m, w);
  }

  lemma {:induction false} OffsetQuadsNear(pen: Pen, points: seq<Point>, side: real, m: real, w: real)
    requires pen.Valid() && PenWithin(pen, w) && AllNear(points, m) && |points| >= 2 && (side == 1.0 || side == -1.0)
    ensures QuadsNear(OffsetQuads(pen, points, |points| - 1, side), m + w / 2.0)
  {
    hide Offset, PenWithin, AllNear, Pen.Valid, VectorNear;
    forall k | 0 <= k < |points| - 1
      ensures QuadNear(OffsetQuad(pen, points, k, side), m + w / 2.0)
    {
      OffsetOfNear(pen, points, k, 0.0, side, m, w);
      OffsetOfNear(pen, points, k, 1.0 / 3.0, side, m, w);
      OffsetOfNear(pen, points, k, 2.0 / 3.0, side, m, w);
      OffsetOfNear(pen, points, k, 1.0, side, m, w);
    }
    hide OffsetQuad, QuadNear;
  }

  /** Every coordinate of a Bezier outline is printed in decimal notation. */
  lemma {:induction false} BezierInRange(pen: Pen, points: seq<Point>, m: real, w: real)
    requires pen.Valid() && PenWithin(pen, w) && AllNear(points, m) && |points| >= 2
    requires 0.0 <= m && 0.0 <= w && 6.0 * (m + w / 2.0) < DECIMAL_LIMIT
    ensures PathInRange(BezierCommands(pen, points))
  {
    hide Pen.Valid, PenWithin, AllNear, QuadsNear, PathInRange, ChainCommands, OffsetQuad, OffsetQuads, DECIMAL_LIMIT;
    var k := m + w / 2.0;
    OffsetQuadsNear(pen, points, 1.0, m, w);
    OffsetQuadsNear(pen, points, -1.0, m, w);
    var outer, inner := OffsetQuads(pen, points, |points| - 1, 1.0), OffsetQuads(pen, points, |points| - 1, -1.0);
    assert |outer| > 0 && |inner| > 0 && BezierCommands(pen, points) == ChainCommands(outer, inner);
    hide *;
    ChainInRange(outer, inner, k);
  }

  predicate VectorsNear(vs: seq<Vector>, m: real) {
    forall i :: 0 <= i < |vs| ==> VectorNear(vs[i], m)
  }

  lemma Ratio(i: nat, n: nat)
    requires i < n
    ensures 0.0 <= i as real / n as real <= 1.0
  {
    Fraction(i as real, n as real);
  }

  lemma {:induction false} ChainSamplesNear(pen: Pen, points: seq<Point>, samples: nat, n: nat, side: real, m: real, w: real)
    requires pen.Valid() && PenWithin(pen, w) && AllNear(points, m) && (n < |points| || n == 0) && samples > 0 && (side == 1.0 || side == -1.0)
    ensures VectorsNear(ChainSamples(pen, points, samples, n, side), m + w / 2.0)
    decreases n
  {
    hide Offset, PenWithin, AllNear, Pen.Valid, VectorNear;
    if n > 0 {
      ChainSamplesNear(pen, points, samples, n - 1, side, m, w);
      var segment := SegmentSamples(pen, points, n - 1, samples, samples, side);
      forall i | 0 <= i < samples
        ensures VectorNear(segment[i], m + w / 2.0)
      {
        Ratio(i, samples);
        OffsetOfNear(pen, points, n - 1, i as real / samples as real, side, m, w);
      }
      hide SegmentSamples;
    }
  }

  lemma {:induction false} SideNear(pen: Pen, points: seq<Point>, side: real, m: real, w: real)
    requires pen.Valid() && PenWithin(pen, w) && AllNear(points, m) && |points| >= 2 && (side == 1.0 || side == -1.0)
    ensures VectorsNear(SideSamples(pen, points, side), m + w / 2.0)
  {
    ChainSamplesNear(pen, points, SampleCount(|points|), |points| - 1, side, m, w);
    OffsetOfNear(pen, points, |points| - 2, 1.0, side, m, w);
    hide Offset, PenWithin, AllNear, Pen.Valid, VectorNear, ChainSamples, SampleCount;
  }

  lemma {:induction false} PolygonInRange(vertices: seq<Vector>, m: real)
    requires vertices != [] && VectorsNear(vertices, m) && m < DECIMAL_LIMIT
    ensures PathInRange(PolygonCommands(vertices))
  {
    forall i | 0 <= i < |vertices|
      ensures PointInRange(vertices[i])
    {
      assert VectorNear(vertices[i], m);
    }
    hide VectorNear, PointInRange, LineCommands;
  }

  /** Every coordinate of a sampled outline is printed in decimal notation. */
  lemma {:induction false} SampledInRange(pen: Pen, points: seq<Point>, m: real, w: real)
    requires pen.Valid() && PenWithin(pen, w) && AllNear(points, m) && |points| >= 2 && m + w / 2.0 < DECIMAL_LIMIT
    ensures PathInRange(PolygonCommands(SideSamples(pen, points, 1.0) + Reverse(SideSamples(pen, points, -1.0))))
  {
    SideNear(pen, points, 1.0, m, w);
    SideNear(pen, points, -1.0, m, w);
    var outer, inner := SideSamples(pen, points, 1.0), SideSamples(pen, points, -1.0);
    hide PenWithin, AllNear, Pen.Valid, VectorNear, Reverse, PolygonCommands, PathInRange;
    assert outer != [];
    hide SideSamples;
    PolygonInRange(outer + Reverse(inner), m + w / 2.0);
  }

  /** Every coordinate of an outline, built either way, is printed in decimal notation. */
  lemma {:induction false} OutlineInRange(pen: Pen, points: seq<Point>, bezier: bool, m: real, w: real)
    requires pen.Valid() && PenWithin(pen, w) && AllNear(points, m) && |points| >= 2
    requires 0.0 <= m && 0.0 <= w && 6.0 * (m + w / 2.0) < DECIMAL_LIMIT
    ensures PathInRange(OutlineCommands(pen, points, bezier))
  {
    hide Pen.Valid, PenWithin, AllNear, PathInRange, BezierCommands, PolygonCommands, SideSamples, Reverse;
    if bezier {
      BezierInRange(pen, points, m, w);
    } else {
      SampledInRange(pen, points, m, w);
    }
  }
}
