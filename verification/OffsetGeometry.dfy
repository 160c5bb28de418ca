/** What an offset is, at every parameter: the true derivative, its normal, the side, and the width of the stroke. */
module OffsetGeometry {
  import opened Vectors
  import opened Cubics
  import opened Outline
  import OutlineExtent

  // ----- the curve and its derivative -----

  function Between(a: real, b: real, t: real): real {
    a + (b - a) * t
  }

  /** The curve is three rounds of linear interpolation between its control points. */
  lemma CubicInterpolates(p0: real, p1: real, p2: real, p3: real, t: real)
    ensures var a, b, c := Between(p0, p1, t), Between(p1, p2, t), Between(p2, p3, t);
            CubicAt(p0, p1, p2, p3, t) == Between(Between(a, b, t), Between(b, c, t), t)
  {}

  lemma DerivativeIsSlope(p0: real, p1: real, p2: real, p3: real, t: real)
    ensures DerivativeAt(p0, p1, p2, p3, t) == 3.0 * Slope(p0, p1, p2, p3, t)
  {}

  /** Simpson's rule over an interval of length k. */
  function SimpsonRule(k: real, start: real, middle: real, end: real): real {
    k / 6.0 * (start + 4.0 * middle + end)
  }

  lemma RuleOfThirds(k: real, a: real, b: real, c: real)
    ensures SimpsonRule(k, 3.0 * a, 3.0 * b, 3.0 * c) == k / 2.0 * (a + 4.0 * b + c)
  {
    assert 3.0 * a + 4.0 * (3.0 * b) + 3.0 * c == 3.0 * (a + 4.0 * b + c);
  }

  /** The derivative is the derivative: between any two parameters it adds up to the change of the curve. */
  lemma DerivativeIntegrates(p0: real, p1: real, p2: real, p3: real, x: real, y: real)
    ensures CubicAt(p0, p1, p2, p3, y) - CubicAt(p0, p1, p2, p3, x)
         == SimpsonRule(y - x, DerivativeAt(p0, p1, p2, p3, x), DerivativeAt(p0, p1, p2, p3, (x + y) / 2.0), DerivativeAt(p0, p1, p2, p3, y))
  {
    hide CubicAt, DerivativeAt, Slope, SimpsonRule;
    Simpson(p0, p1, p2, p3, x, y);
    DerivativeIsSlope(p0, p1, p2, p3, x);
    DerivativeIsSlope(p0, p1, p2, p3, (x + y) / 2.0);
    DerivativeIsSlope(p0, p1, p2, p3, y);
    RuleOfThirds(y - x, Slope(p0, p1, p2, p3, x), Slope(p0, p1, p2, p3, (x + y) / 2.0), Slope(p0, p1, p2, p3, y));
  }

  // ----- the width of the stroke -----

  /** The width is a cubic of its own, flat at both ends: its control points are the two weights, each twice. */
  lemma WidthIsCubic(pen: Pen, current: Point, following: Point, t: real)
    ensures var a, b := pen.weight(current.style), pen.weight(following.style);
            && WidthBetween(pen, current, following, t) == CubicAt(a, a, b, b, t)
            && DerivativeAt(a, a, b, b, 0.0) == DerivativeAt(a, a, b, b, 1.0) == 0.0
  {}

  lemma Rises(s: real, t: real)
    requires 0.0 <= s <= t <= 1.0
    ensures 0.0 <= s * s * (3.0 - 2.0 * s) <= t * t * (3.0 - 2.0 * t) <= 1.0
  {
    RiseFactor(s, t);
    RiseFactor(t, 1.0);
    NonnegativeProduct(s * s, 3.0 - 2.0 * s);
  }

  lemma RiseFactor(s: real, t: real)
    requires 0.0 <= s <= t <= 1.0
    ensures s * s * (3.0 - 2.0 * s) <= t * t * (3.0 - 2.0 * t)
  {
    var x, y := s * (1.0 - s), t * (1.0 - t);
    NonnegativeProduct(s, 1.0 - s);
    NonnegativeProduct(t, 1.0 - t);
    NonnegativeProduct(t - s, t - s);
    var k := 2.0 * x + 2.0 * y + (s + t) - 2.0 * s * t;
    NonnegativeProduct(s, 1.0 - t);
    NonnegativeProduct(t, 1.0 - s);
    NonnegativeProduct(t - s, k);
    assert t * t * (3.0 - 2.0 * t) - s * s * (3.0 - 2.0 * s) == (t - s) * (3.0 * (s + t) - 2.0 * (s * s + s * t + t * t));
  }

  /** From one weight to the other without overshooting, half way at the middle. */
  lemma WidthRises(pen: Pen, current: Point, following: Point, s: real, t: real)
    requires 0.0 <= s <= t <= 1.0
    ensures var a, b := pen.weight(current.style), pen.weight(following.style);
            && WidthBetween(pen, current, following, 0.5) == (a + b) / 2.0
            && (a <= b ==> a <= WidthBetween(pen, current, following, s) <= WidthBetween(pen, current, following, t) <= b)
            && (a >= b ==> a >= WidthBetween(pen, current, following, s) >= WidthBetween(pen, current, following, t) >= b)
  {
    Rises(s, t);
    var a, b := pen.weight(current.style), pen.weight(following.style);
    Ordered(a, b, s * s * (3.0 - 2.0 * s), t * t * (3.0 - 2.0 * t), WidthBetween(pen, current, following, s), WidthBetween(pen, current, following, t));
  }

  lemma Ordered(a: real, b: real, x: real, y: real, v: real, w: real)
    requires 0.0 <= x <= y <= 1.0 && v == a + (b - a) * x && w == a + (b - a) * y
    ensures a <= b ==> a <= v <= w <= b
    ensures a >= b ==> a >= v >= w >= b
  {
    if a <= b {
      NonnegativeProduct(b - a, x);
      NonnegativeProduct(b - a, y - x);
      NonnegativeProduct(b - a, 1.0 - y);
    } else {
      NonnegativeProduct(a - b, x);
      NonnegativeProduct(a - b, y - x);
      NonnegativeProduct(a - b, 1.0 - y);
    }
  }

  // ----- the offset -----

  lemma Cancels(x: real, y: real, k: real)
    requires k != 0.0 && x * k == y * k
    ensures x == y
  {
    assert (x - y) * k == 0.0;
  }

  /** A quarter turn of a vector, scaled to length one. */
  lemma UnitNormal(dx: real, dy: real, length: real, nx: real, ny: real)
    requires length != 0.0 && length * length == dx * dx + dy * dy && nx * length == -dy && ny * length == dx
    ensures nx * dx + ny * dy == 0.0
    ensures dx * ny - dy * nx == length
    ensures nx * nx + ny * ny == 1.0
  {
    ScaledSum(nx, dx, ny, dy, length);
    Cancels(nx * dx + ny * dy, 0.0, length);
    ScaledSum(ny, dx, -nx, dy, length);
    Cancels(ny * dx + -nx * dy, length, length);
    ScaledSum(nx, nx * length, ny, ny * length, length);
    ScaledSum(nx, nx, ny, ny, length);
    Cancels((nx * nx + ny * ny) * length, length, length);
    Cancels(nx * nx + ny * ny, 1.0, length);
  }

  lemma ScaledSum(a: real, b: real, c: real, d: real, k: real)
    ensures (a * b + c * d) * k == (a * k) * b + (c * k) * d == a * (b * k) + c * (d * k)
  {}

  lemma ScaledBy(dx: real, dy: real, nx: real, ny: real, k: real)
    ensures (nx * k) * dx + (ny * k) * dy == k * (nx * dx + ny * dy)
    ensures dx * (ny * k) - dy * (nx * k) == k * (dx * ny - dy * nx)
    ensures (nx * k) * (nx * k) + (ny * k) * (ny * k) == k * k * (nx * nx + ny * ny)
  {}

  /** Perpendicular to d, half away from it, and on its left for side 1, on its right for side -1. */
  ghost predicate Beside(pen: Pen, d: Vector, offset: Vector, half: real, side: real) {
    var reach := side * half;
    && offset.x * d.x + offset.y * d.y == 0.0
    && d.x * offset.y - d.y * offset.x == reach * pen.hypot(d.x, d.y)
    && offset.x * offset.x + offset.y * offset.y == reach * reach
  }

  lemma NormalBeside(pen: Pen, d: Vector, half: real, side: real, offset: Vector)
    requires pen.Valid() && d != Vector(0.0, 0.0)
    requires offset.x == Normal(pen, d).x * (side * half) && offset.y == Normal(pen, d).y * (side * half)
    ensures Beside(pen, d, offset, half, side)
  {
    var reach := side * half;
    NormalQuotients(pen, d);
    var length, n := pen.hypot(d.x, d.y), Normal(pen, d);
    hide Normal, Pen.Valid;
    UnitNormal(d.x, d.y, length, n.x, n.y);
    ScaledBy(d.x, d.y, n.x, n.y, reach);
    Reach(offset.x * d.x + offset.y * d.y, d.x * offset.y - d.y * offset.x, offset.x * offset.x + offset.y * offset.y, reach, length,
          n.x * d.x + n.y * d.y, d.x * n.y - d.y * n.x, n.x * n.x + n.y * n.y);
  }

  lemma Reach(dot: real, cross: real, square: real, k: real, length: real, dot1: real, cross1: real, square1: real)
    requires dot == k * dot1 && cross == k * cross1 && square == k * k * square1
    requires dot1 == 0.0 && cross1 == length && square1 == 1.0
    ensures dot == 0.0 && cross == k * length && square == k * k
  {}

  lemma NormalQuotients(pen: Pen, d: Vector)
    requires pen.Valid() && d != Vector(0.0, 0.0)
    ensures var length, n := pen.hypot(d.x, d.y), Normal(pen, d);
            length != 0.0 && length * length == d.x * d.x + d.y * d.y && n.x * length == -d.y && n.y * length == d.x
  {
    var length := pen.hypot(d.x, d.y);
    OutlineExtent.LegNear(d.x, d.y, length);
    OutlineExtent.LegNear(d.y, d.x, length);
    QuotientTimes(-d.y, length);
    QuotientTimes(d.x, length);
  }

  function Minus(p: Vector, q: Vector): Vector {
    Vector(p.x - q.x, p.y - q.y)
  }

  /**
   At every parameter the offset lies beside the curve: perpendicular to the
   derivative there, on the given side, half the width away. Where the derivative
   vanishes it lies on the curve.
   */
  lemma OffsetIsBeside(pen: Pen, current: Point, following: Point, t: real, side: real)
    requires pen.Valid()
    ensures var position := CubicPoint(current.anchor, current.outgoing, following.incoming, following.anchor, t);
            var d := CubicDerivative(current.anchor, current.outgoing, following.incoming, following.anchor, t);
            var offset := Minus(OffsetPoint(pen, current, following, t, side), position);
            if d == Vector(0.0, 0.0) then offset == d else Beside(pen, d, offset, WidthBetween(pen, current, following, t) / 2.0, side)
  {
    hide CubicPoint, CubicDerivative, WidthBetween, Displaced, Normal, Beside, Minus, Pen.Valid;
    var d := CubicDerivative(current.anchor, current.outgoing, following.incoming, following.anchor, t);
    var position := CubicPoint(current.anchor, current.outgoing, following.incoming, following.anchor, t);
    var half := WidthBetween(pen, current, following, t) / 2.0;
    var offset := Minus(OffsetPoint(pen, current, following, t, side), position);
    assert OffsetPoint(pen, current, following, t, side) == Displaced(position, Normal(pen, d), half, side);
    hide OffsetPoint;
    DisplacedBy(position, Normal(pen, d), half, side, offset);
    DisplacedBeside(pen, d, half, side, offset);
  }

  lemma DisplacedBeside(pen: Pen, d: Vector, half: real, side: real, offset: Vector)
    requires pen.Valid() && offset.x == Normal(pen, d).x * (side * half) && offset.y == Normal(pen, d).y * (side * half)
    ensures if d == Vector(0.0, 0.0) then offset == d else Beside(pen, d, offset, half, side)
  {
    if d == Vector(0.0, 0.0) {
      NoNormal(pen);
    } else {
      NormalBeside(pen, d, half, side, offset);
    }
    hide Beside;
  }

  lemma Reordered(normal: real, half: real, side: real)
    ensures normal * half * side == normal * (side * half)
  {}

  lemma DisplacedBy(position: Vector, normal: Vector, half: real, side: real, offset: Vector)
    requires offset == Minus(Displaced(position, normal, half, side), position)
    ensures offset.x == normal.x * (side * half) && offset.y == normal.y * (side * half)
  {
    Reordered(normal.x, half, side);
    Reordered(normal.y, half, side);
  }

  lemma NoNormal(pen: Pen)
    requires pen.Valid()
    ensures Normal(pen, Vector(0.0, 0.0)) == Vector(0.0, 0.0)
  {}
}
