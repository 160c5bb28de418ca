/**
 The variable-width outline around a chain of signature points: offset curves,
 the two path builders and the centring passes, in exact reals.
 */
module Outline {
  import opened Vectors
  import opened Cubics

  /** What the stroke weight of a point depends on. */
  datatype Style = Style(character: char, uppercase: bool, serialTail: bool)

  datatype Point = Point(style: Style, anchor: Vector, incoming: Vector, outgoing: Vector)

  /** The hypotenuse of exact real arithmetic. */
  ghost predicate IsHypotenuse(hypot: (real, real) -> real) {
    forall x, y :: hypot(x, y) >= 0.0 && hypot(x, y) * hypot(x, y) == x * x + y * y
  }

  /** A pen: the stroke weight of a style, and the length of a vector. */
  datatype Pen = Pen(weight: Style -> real, hypot: (real, real) -> real) {
    ghost predicate Valid() {
      IsHypotenuse(hypot)
    }
  }

  function CubicPoint(p0: Vector, p1: Vector, p2: Vector, p3: Vector, t: real): Vector {
    Vector(CubicAt(p0.x, p1.x, p2.x, p3.x, t), CubicAt(p0.y, p1.y, p2.y, p3.y, t))
  }

  function DerivativeAt(p0: real, p1: real, p2: real, p3: real, t: real): real {
    var u := 1.0 - t;
    3.0 * (u * u) * (p1 - p0) + 6.0 * u * t * (p2 - p1) + 3.0 * (t * t) * (p3 - p2)
  }

  function CubicDerivative(p0: Vector, p1: Vector, p2: Vector, p3: Vector, t: real): Vector {
    Vector(DerivativeAt(p0.x, p1.x, p2.x, p3.x, t), DerivativeAt(p0.y, p1.y, p2.y, p3.y, t))
  }

  function WidthBetween(pen: Pen, current: Point, following: Point, t: real): real {
    var start := pen.weight(current.style);
    start + (pen.weight(following.style) - start) * (t * t * (3.0 - 2.0 * t))
  }

  /** The unit normal of a direction, or of length zero when there is none. */
  function Normal(pen: Pen, d: Vector): Vector {
    var length := pen.hypot(d.x, d.y);
    var divisor := if length == 0.0 then 1.0 else length;
    Vector(-d.y / divisor, d.x / divisor)
  }

  function Displaced(position: Vector, normal: Vector, halfWidth: real, side: real): Vector {
    Vector(position.x + normal.x * halfWidth * side, position.y + normal.y * halfWidth * side)
  }

  function OffsetPoint(pen: Pen, current: Point, following: Point, t: real, side: real): Vector {
    var position := CubicPoint(current.anchor, current.outgoing, following.incoming, following.anchor, t);
    var normal := Normal(pen, CubicDerivative(current.anchor, current.outgoing, following.incoming, following.anchor, t));
    var halfWidth := WidthBetween(pen, current, following, t) / 2.0;
    Displaced(position, normal, halfWidth, side)
  }

  // ----- the joints -----

  /** Both handles lie on one unit direction, on either side of the anchor, with positive lengths. */
  ghost predicate Along(p: Point, d: Vector, incoming: real, outgoing: real) {
    && d.x * d.x + d.y * d.y == 1.0
    && incoming > 0.0 && outgoing > 0.0
    && p.incoming == Vector(p.anchor.x - d.x * incoming, p.anchor.y - d.y * incoming)
    && p.outgoing == Vector(p.anchor.x + d.x * outgoing, p.anchor.y + d.y * outgoing)
  }

  ghost predicate Smooth(p: Point) {
    exists d, incoming, outgoing :: Along(p, d, incoming, outgoing)
  }

  ghost predicate AllSmooth(points: seq<Point>) {
    forall i :: 0 <= i < |points| ==> Smooth(points[i])
  }

  lemma RootIsUnique(x: real, y: real)
    requires x >= 0.0 && y >= 0.0 && x * x == y * y
    ensures x == y
  {
    if x > y {
      SquareIncreases(y, x);
    } else if x < y {
      SquareIncreases(x, y);
    }
  }

  lemma PositiveProduct(x: real, y: real)
    requires x > 0.0 && y > 0.0
    ensures x * y > 0.0
  {}

  lemma SquareIncreases(x: real, y: real)
    requires 0.0 <= x < y
    ensures x * x < y * y
  {
    NonnegativeProduct(x, y - x);
    PositiveProduct(y - x, y - x);
    assert y * y == x * x + 2.0 * (x * (y - x)) + (y - x) * (y - x);
  }

  /** The normal depends only on the direction, not on the positive length. */
  lemma NormalOfMultiple(pen: Pen, d: Vector, k: real)
    requires pen.Valid() && d.x * d.x + d.y * d.y == 1.0 && k > 0.0
    ensures Normal(pen, Vector(k * d.x, k * d.y)) == Vector(-d.y, d.x)
  {
    var length := pen.hypot(k * d.x, k * d.y);
    assert length * length == k * k by {
      assert (k * d.x) * (k * d.x) + (k * d.y) * (k * d.y) == (k * k) * (d.x * d.x + d.y * d.y);
    }
    RootIsUnique(length, k);
    Divides(k, d.x);
    Divides(k, d.y);
  }

  lemma Divides(k: real, x: real)
    requires k != 0.0
    ensures k * x / k == x && -(k * x) / k == -x
  {}

  lemma CubicEnds(p0: real, p1: real, p2: real, p3: real)
    ensures CubicAt(p0, p1, p2, p3, 0.0) == p0 && CubicAt(p0, p1, p2, p3, 1.0) == p3
    ensures DerivativeAt(p0, p1, p2, p3, 0.0) == 3.0 * (p1 - p0)
    ensures DerivativeAt(p0, p1, p2, p3, 1.0) == 3.0 * (p3 - p2)
  {}

  /** Half the point's own weight along the normal of its direction. */
  ghost function EndOffset(pen: Pen, p: Point, d: Vector, side: real): Vector {
    Displaced(p.anchor, Vector(-d.y, d.x), pen.weight(p.style) / 2.0, side)
  }

  lemma OffsetAtStart(pen: Pen, current: Point, following: Point, side: real, d: Vector, incoming: real, outgoing: real)
    requires pen.Valid() && Along(current, d, incoming, outgoing)
    ensures OffsetPoint(pen, current, following, 0.0, side) == EndOffset(pen, current, d, side)
  {
    CurveEnds(current.anchor, current.outgoing, following.incoming, following.anchor);
    WidthAtEnds(pen, current, following);
    var k := 3.0 * outgoing;
    NormalOfMultiple(pen, d, k);
    assert Normal(pen, Vector(k * d.x, k * d.y)) == Vector(-d.y, d.x);
    hide CubicPoint, CubicDerivative, IsHypotenuse, Normal, Displaced, WidthBetween;
    assert CubicDerivative(current.anchor, current.outgoing, following.incoming, following.anchor, 0.0) == Vector(k * d.x, k * d.y);
  }

  lemma OffsetAtEnd(pen: Pen, current: Point, following: Point, side: real, d: Vector, incoming: real, outgoing: real)
    requires pen.Valid() && Along(following, d, incoming, outgoing)
    ensures OffsetPoint(pen, current, following, 1.0, side) == EndOffset(pen, following, d, side)
  {
    CurveEnds(current.anchor, current.outgoing, following.incoming, following.anchor);
    WidthAtEnds(pen, current, following);
    var k := 3.0 * incoming;
    NormalOfMultiple(pen, d, k);
    assert Normal(pen, Vector(k * d.x, k * d.y)) == Vector(-d.y, d.x);
    hide CubicPoint, CubicDerivative, IsHypotenuse, Normal, Displaced, WidthBetween;
    assert CubicDerivative(current.anchor, current.outgoing, following.incoming, following.anchor, 1.0) == Vector(k * d.x, k * d.y);
  }

  lemma CurveEnds(p0: Vector, p1: Vector, p2: Vector, p3: Vector)
    ensures CubicPoint(p0, p1, p2, p3, 0.0) == p0 && CubicPoint(p0, p1, p2, p3, 1.0) == p3
    ensures CubicDerivative(p0, p1, p2, p3, 0.0) == Vector(3.0 * (p1.x - p0.x), 3.0 * (p1.y - p0.y))
    ensures CubicDerivative(p0, p1, p2, p3, 1.0) == Vector(3.0 * (p3.x - p2.x), 3.0 * (p3.y - p2.y))
  {
    CubicEnds(p0.x, p1.x, p2.x, p3.x);
    CubicEnds(p0.y, p1.y, p2.y, p3.y);
  }

  lemma WidthAtEnds(pen: Pen, current: Point, following: Point)
    ensures WidthBetween(pen, current, following, 0.0) == pen.weight(current.style)
    ensures WidthBetween(pen, current, following, 1.0) == pen.weight(following.style)
  {}

  /** Each side of the outline is continuous at every smooth joint. */
  lemma JointContinuity(pen: Pen, before: Point, joint: Point, after: Point, side: real)
    requires pen.Valid() && Smooth(joint)
    ensures OffsetPoint(pen, before, joint, 1.0, side) == OffsetPoint(pen, joint, after, 0.0, side)
  {
    var d, incoming, outgoing :| Along(joint, d, incoming, outgoing);
    hide OffsetPoint, Along;
    OffsetAtEnd(pen, before, joint, side, d, incoming, outgoing);
    OffsetAtStart(pen, joint, after, side, d, incoming, outgoing);
  }

  // ----- the cubic through four points -----

  function ThroughThirds(start: real, oneThird: real, twoThirds: real, end: real): (real, real) {
    var first := 27.0 * oneThird - 8.0 * start - end;
    var second := 27.0 * twoThirds - start - 8.0 * end;
    ((2.0 * first - second) / 18.0, (2.0 * second - first) / 18.0)
  }

  lemma ThroughThirdsInterpolates(start: real, oneThird: real, twoThirds: real, end: real)
    ensures var (c1, c2) := ThroughThirds(start, oneThird, twoThirds, end);
            && CubicAt(start, c1, c2, end, 1.0 / 3.0) == oneThird
            && CubicAt(start, c1, c2, end, 2.0 / 3.0) == twoThirds
  {}

  lemma CubicReversed(p0: real, p1: real, p2: real, p3: real, t: real)
    ensures CubicAt(p0, p1, p2, p3, 1.0 - t) == CubicAt(p3, p2, p1, p0, t)
  {}

  function CubicThroughThirds(start: Vector, oneThird: Vector, twoThirds: Vector, end: Vector): (Vector, Vector) {
    var xs := ThroughThirds(start.x, oneThird.x, twoThirds.x, end.x);
    var ys := ThroughThirds(start.y, oneThird.y, twoThirds.y, end.y);
    (Vector(xs.0, ys.0), Vector(xs.1, ys.1))
  }
}
