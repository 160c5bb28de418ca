/** The two centring passes: over anchors and handles, and over sampled outline offsets. */
module Centring {
  import opened Vectors
  import opened Cubics
  import opened Outline

  // ----- least and greatest of a list -----

  function Least(xs: seq<real>): real
    requires xs != []
  {
    var last := xs[|xs| - 1];
    if |xs| == 1 then last else Lesser(last, Least(xs[..|xs| - 1]))
  }

  function Greatest(xs: seq<real>): real
    requires xs != []
  {
    var last := xs[|xs| - 1];
    if |xs| == 1 then last else Greater(last, Greatest(xs[..|xs| - 1]))
  }

  lemma {:induction false} LeastAndGreatest(xs: seq<real>) returns (i: nat, j: nat)
    requires xs != []
    ensures i < |xs| && xs[i] == Least(xs) && forall k :: 0 <= k < |xs| ==> Least(xs) <= xs[k]
    ensures j < |xs| && xs[j] == Greatest(xs) && forall k :: 0 <= k < |xs| ==> xs[k] <= Greatest(xs)
  {
    if |xs| == 1 {
      return 0, 0;
    }
    i, j := LeastAndGreatest(xs[..|xs| - 1]);
    if xs[|xs| - 1] < xs[i] {
      i := |xs| - 1;
    }
    if xs[|xs| - 1] > xs[j] {
      j := |xs| - 1;
    }
  }

  function Midpoint(xs: seq<real>): real
    requires xs != []
  {
    (Least(xs) + Greatest(xs)) / 2.0
  }

  /** ys is xs with every element moved by d. */
  ghost predicate Moved(xs: seq<real>, ys: seq<real>, d: real) {
    |ys| == |xs| && forall i :: 0 <= i < |xs| ==> ys[i] == xs[i] + d
  }

  lemma {:induction false} MidpointMoves(xs: seq<real>, ys: seq<real>, d: real)
    requires xs != [] && Moved(xs, ys, d)
    ensures Midpoint(ys) == Midpoint(xs) + d
  {
    var i, j := LeastAndGreatest(xs);
    var k, l := LeastAndGreatest(ys);
    assert ys[i] == xs[i] + d && ys[j] == xs[j] + d && ys[k] == xs[k] + d && ys[l] == xs[l] + d;
  }

  // ----- moving points sideways -----

  function ShiftX(v: Vector, d: real): Vector {
    Vector(v.x + d, v.y)
  }

  function ShiftPointX(p: Point, d: real): Point {
    Point(p.style, ShiftX(p.anchor, d), ShiftX(p.incoming, d), ShiftX(p.outgoing, d))
  }

  function ShiftAll(points: seq<Point>, d: real): (shifted: seq<Point>)
    ensures |shifted| == |points|
    ensures forall i :: 0 <= i < |points| ==> shifted[i] == ShiftPointX(points[i], d)
  {
    seq(|points|, i requires 0 <= i < |points| => ShiftPointX(points[i], d))
  }

  lemma CubicShifts(p0: real, p1: real, p2: real, p3: real, t: real, d: real)
    ensures CubicAt(p0 + d, p1 + d, p2 + d, p3 + d, t) == CubicAt(p0, p1, p2, p3, t) + d
    ensures DerivativeAt(p0 + d, p1 + d, p2 + d, p3 + d, t) == DerivativeAt(p0, p1, p2, p3, t)
  {}

  /** Moving two neighbouring points moves the outline between them, and changes nothing else about it. */
  lemma OffsetShifts(pen: Pen, current: Point, following: Point, t: real, side: real, d: real)
    ensures OffsetPoint(pen, ShiftPointX(current, d), ShiftPointX(following, d), t, side)
            == ShiftX(OffsetPoint(pen, current, following, t, side), d)
  {
    CurveShifts(current.anchor, current.outgoing, following.incoming, following.anchor, t, d);
    hide CubicPoint, CubicDerivative, Normal, WidthBetween, Displaced;
    var derivative := CubicDerivative(current.anchor, current.outgoing, following.incoming, following.anchor, t);
    DisplacedShifts(CubicPoint(current.anchor, current.outgoing, following.incoming, following.anchor, t),
                    Normal(pen, derivative), WidthBetween(pen, current, following, t) / 2.0, side, d);
    assert WidthBetween(pen, ShiftPointX(current, d), ShiftPointX(following, d), t) == WidthBetween(pen, current, following, t) by {
      WidthIgnoresPosition(pen, current, following, t, d);
    }
  }

  lemma CurveShifts(p0: Vector, p1: Vector, p2: Vector, p3: Vector, t: real, d: real)
    ensures CubicPoint(ShiftX(p0, d), ShiftX(p1, d), ShiftX(p2, d), ShiftX(p3, d), t) == ShiftX(CubicPoint(p0, p1, p2, p3, t), d)
    ensures CubicDerivative(ShiftX(p0, d), ShiftX(p1, d), ShiftX(p2, d), ShiftX(p3, d), t) == CubicDerivative(p0, p1, p2, p3, t)
  {
    CubicShifts(p0.x, p1.x, p2.x, p3.x, t, d);
    hide CubicAt, DerivativeAt;
  }

  lemma WidthIgnoresPosition(pen: Pen, current: Point, following: Point, t: real, d: real)
    ensures WidthBetween(pen, ShiftPointX(current, d), ShiftPointX(following, d), t) == WidthBetween(pen, current, following, t)
  {}

  lemma DisplacedShifts(position: Vector, normal: Vector, halfWidth: real, side: real, d: real)
    ensures Displaced(ShiftX(position, d), normal, halfWidth, side) == ShiftX(Displaced(position, normal, halfWidth, side), d)
  {}

  lemma {:induction false} SmoothShifts(points: seq<Point>, d: real)
    requires AllSmooth(points)
    ensures AllSmooth(ShiftAll(points, d))
  {
    forall i | 0 <= i < |points|
      ensures Smooth(ShiftAll(points, d)[i])
    {
      assert Smooth(points[i]);
      var dir, incoming, outgoing :| Along(points[i], dir, incoming, outgoing);
      assert Along(ShiftPointX(points[i], d), dir, incoming, outgoing);
    }
  }

  lemma {:induction false} ShiftByZero(points: seq<Point>)
    ensures ShiftAll(points, 0.0) == points
  {}

  // ----- centring anchors and handles -----

  function HandleXs(points: seq<Point>): (xs: seq<real>)
    ensures |xs| == 3 * |points|
    ensures forall i :: 0 <= i < |points| ==>
              xs[3 * i] == points[i].anchor.x && xs[3 * i + 1] == points[i].incoming.x && xs[3 * i + 2] == points[i].outgoing.x
  {
    if points == [] then []
    else
      var p := points[|points| - 1];
      HandleXs(points[..|points| - 1]) + [p.anchor.x, p.incoming.x, p.outgoing.x]
  }

  function CenterGeometry(points: seq<Point>, center: real): seq<Point>
    requires points != []
  {
    ShiftAll(points, center - Midpoint(HandleXs(points)))
  }

  lemma {:induction false} HandleXsMove(points: seq<Point>, d: real)
    ensures Moved(HandleXs(points), HandleXs(ShiftAll(points, d)), d)
  {
    if points != [] {
      var init := points[..|points| - 1];
      HandleXsMove(init, d);
      assert ShiftAll(points, d)[..|points| - 1] == ShiftAll(init, d);
    }
  }

  /**
   Centring moves every point by the same amount in x, puts the midpoint of all
   anchors and handles exactly at the centre, and does nothing the second time.
   */
  lemma {:induction false} CenterGeometryCenters(points: seq<Point>, center: real)
    requires points != []
    ensures var centred := CenterGeometry(points, center);
            && (exists d :: centred == ShiftAll(points, d))
            && Midpoint(HandleXs(centred)) == center
            && CenterGeometry(centred, center) == centred
  {
    hide Moved, HandleXs, ShiftPointX, Midpoint;
    var d := center - Midpoint(HandleXs(points));
    HandleXsMove(points, d);
    MidpointMoves(HandleXs(points), HandleXs(ShiftAll(points, d)), d);
    ShiftByZero(ShiftAll(points, d));
  }

  // ----- centring the sampled outline -----

  /** The x values of both sides at the first n of the samples 0, 1/64, ..., 1 of one segment. */
  function SegmentXs(pen: Pen, current: Point, following: Point, n: nat): seq<real> {
    if n == 0 then []
    else
      var t := (n - 1) as real / 64.0;
      SegmentXs(pen, current, following, n - 1)
      + [OffsetPoint(pen, current, following, t, 1.0).x, OffsetPoint(pen, current, following, t, -1.0).x]
  }

  /** The sampled x values of the first m segments. */
  function OutlineXs(pen: Pen, points: seq<Point>, m: nat): (xs: seq<real>)
    requires m < |points| || m == 0
    ensures m > 0 ==> xs != []
  {
    if m == 0 then [] else OutlineXs(pen, points, m - 1) + SegmentXs(pen, points[m - 1], points[m], 65)
  }

  function OutlineShift(pen: Pen, points: seq<Point>, center: real): real
    requires |points| >= 2
  {
    center - Midpoint(OutlineXs(pen, points, |points| - 1))
  }

  /** The running extent: nothing yet, or the least and greatest value so far. */
  datatype Extent = Unbounded | Extent(minimum: real, maximum: real)

  function ExtentOf(xs: seq<real>): Extent {
    if xs == [] then Unbounded else Extent(Least(xs), Greatest(xs))
  }

  function Widen(e: Extent, x: real): Extent {
    match e
    case Unbounded => Extent(x, x)
    case Extent(lo, hi) => Extent(if x < lo then x else lo, if x > hi then x else hi)
  }

  lemma WidenExtends(xs: seq<real>, x: real)
    ensures Widen(ExtentOf(xs), x) == ExtentOf(xs + [x])
  {}

  method CenterPointsForOutline(pen: Pen, points: seq<Point>, center: real) returns (centred: seq<Point>)
    ensures centred == if |points| < 2 then points else ShiftAll(points, OutlineShift(pen, points, center))
  {
    hide OffsetPoint, Widen;
    if |points| < 2 {
      return points;
    }
    var extent := Unbounded;
    for index := 0 to |points| - 1
      invariant extent == ExtentOf(OutlineXs(pen, points, index))
    {
      ghost var before := OutlineXs(pen, points, index);
      assert before + [] == before;
      for sample := 0 to 65
        invariant extent == ExtentOf(before + SegmentXs(pen, points[index], points[index + 1], sample))
      {
        var outer := OffsetPoint(pen, points[index], points[index + 1], sample as real / 64.0, 1.0);
        var inner := OffsetPoint(pen, points[index], points[index + 1], sample as real / 64.0, -1.0);
        ghost var xs := before + SegmentXs(pen, points[index], points[index + 1], sample);
        WidenExtends(xs, outer.x);
        WidenExtends(xs + [outer.x], inner.x);
        assert xs + [outer.x] + [inner.x] == before + SegmentXs(pen, points[index], points[index + 1], sample + 1);
        extent := Widen(Widen(extent, outer.x), inner.x);
      }
    }
    var shift := center - (extent.minimum + extent.maximum) / 2.0;
    centred := ShiftAll(points, shift);
  }

  lemma {:induction false} SegmentXsMove(pen: Pen, current: Point, following: Point, n: nat, d: real)
    ensures Moved(SegmentXs(pen, current, following, n), SegmentXs(pen, ShiftPointX(current, d), ShiftPointX(following, d), n), d)
  {
    if n > 0 {
      SegmentXsMove(pen, current, following, n - 1, d);
      var t := (n - 1) as real / 64.0;
      OffsetShifts(pen, current, following, t, 1.0, d);
      OffsetShifts(pen, current, following, t, -1.0, d);
      hide OffsetPoint;
    }
  }

  lemma {:induction false} MovedTogether(a: seq<real>, a': seq<real>, b: seq<real>, b': seq<real>, d: real)
    requires Moved(a, a', d) && Moved(b, b', d)
    ensures Moved(a + b, a' + b', d)
  {}

  lemma {:induction false} OutlineXsMove(pen: Pen, points: seq<Point>, m: nat, d: real)
    requires m < |points| || m == 0
    ensures Moved(OutlineXs(pen, points, m), OutlineXs(pen, ShiftAll(points, d), m), d)
  {
    if m > 0 {
      OutlineXsMove(pen, points, m - 1, d);
      SegmentXsMove(pen, points[m - 1], points[m], 65, d);
      hide SegmentXs, ShiftPointX;
      MovedTogether(OutlineXs(pen, points, m - 1), OutlineXs(pen, ShiftAll(points, d), m - 1),
                    SegmentXs(pen, points[m - 1], points[m], 65),
                    SegmentXs(pen, ShiftPointX(points[m - 1], d), ShiftPointX(points[m], d), 65), d);
    }
  }

  /**
   After the outline pass, the sampled outline, measured again, has its midpoint
   exactly at the centre; a second pass would not move it.
   */
  lemma {:induction false} OutlineCentered(pen: Pen, points: seq<Point>, center: real)
    requires |points| >= 2
    ensures var centred := ShiftAll(points, OutlineShift(pen, points, center));
            && Midpoint(OutlineXs(pen, centred, |points| - 1)) == center
            && OutlineShift(pen, centred, center) == 0.0
            && ShiftAll(centred, OutlineShift(pen, centred, center)) == centred
  {
    hide SegmentXs;
    var m := |points| - 1;
    var d := OutlineShift(pen, points, center);
    OutlineXsMove(pen, points, m, d);
    MidpointMoves(OutlineXs(pen, points, m), OutlineXs(pen, ShiftAll(points, d), m), d);
    ShiftByZero(ShiftAll(points, d));
  }
}
