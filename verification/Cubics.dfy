/**
 One coordinate of a cubic Bezier segment in exact reals: where its derivative
 vanishes, and why the values at those parameters bound the whole segment.
 */
module Cubics {

  function CubicAt(p0: real, p1: real, p2: real, p3: real, t: real): real {
    var u := 1.0 - t;
    u * u * u * p0 + 3.0 * u * u * t * p1 + 3.0 * u * t * t * p2 + t * t * t * p3
  }

  // A third of the derivative is the quadratic a*t*t + b*t + c with these coefficients.
  function SlopeA(p0: real, p1: real, p2: real, p3: real): real {
    -p0 + 3.0 * p1 - 3.0 * p2 + p3
  }

  function SlopeB(p0: real, p1: real, p2: real): real {
    2.0 * (p0 - 2.0 * p1 + p2)
  }

  function SlopeC(p0: real, p1: real): real {
    p1 - p0
  }

  function Quadratic(a: real, b: real, c: real, t: real): real {
    a * t * t + b * t + c
  }

  /** A third of the derivative of CubicAt. */
  function Slope(p0: real, p1: real, p2: real, p3: real, t: real): real {
    Quadratic(SlopeA(p0, p1, p2, p3), SlopeB(p0, p1, p2), SlopeC(p0, p1), t)
  }

  /** The square root of exact real arithmetic: the nonnegative root. */
  ghost predicate IsSquareRoot(sqrt: real -> real) {
    forall x :: x >= 0.0 ==> sqrt(x) >= 0.0 && sqrt(x) * sqrt(x) == x
  }

  /** The larger-magnitude half of the root formula; never zero when it is divided by. */
  function StableHalf(b: real, root: real): real {
    -0.5 * (b + (if b < 0.0 then -1.0 else 1.0) * root)
  }

  lemma StableHalfNonzero(a: real, b: real, c: real, root: real)
    requires root >= 0.0 && root * root == b * b - 4.0 * a * c && root * root > 0.0
    ensures StableHalf(b, root) != 0.0
  {
    assert root > 0.0;
  }

  function Discriminant(a: real, b: real, c: real): real {
    b * b - 4.0 * a * c
  }

  function QuadraticRoots(a: real, b: real, c: real, sqrt: real -> real): seq<real>
    requires IsSquareRoot(sqrt)
  {
    if a == 0.0 then
      if b == 0.0 then [] else [-c / b]
    else
      var discriminant := Discriminant(a, b, c);
      if discriminant < 0.0 then []
      else if discriminant == 0.0 then [-b / (2.0 * a)]
      else
        var root := sqrt(discriminant);
        StableHalfNonzero(a, b, c, root);
        var q := StableHalf(b, root);
        [q / a, c / q]
  }

  function CubicExtrema(p0: real, p1: real, p2: real, p3: real, sqrt: real -> real): seq<real>
    requires IsSquareRoot(sqrt)
  {
    QuadraticRoots(SlopeA(p0, p1, p2, p3), SlopeB(p0, p1, p2), SlopeC(p0, p1), sqrt)
  }

  // ----- the roots are the roots -----

  lemma QuotientTimes(x: real, y: real)
    requires y != 0.0
    ensures x / y * y == x
  {}

  lemma Vieta(a: real, b: real, c: real, root: real, q: real, r1: real, r2: real, t: real)
    requires a != 0.0 && q != 0.0
    requires root * root == b * b - 4.0 * a * c
    requires q == StableHalf(b, root)
    requires r1 * a == q && r2 * q == c
    ensures a * r1 + a * r2 == -b && a * r1 * r2 == c
    ensures Quadratic(a, b, c, t) == a * (t - r1) * (t - r2)
  {
    // q*q + b*q + a*c == 0, so q * (q + a*r2 + b) == 0.
    var s := if b < 0.0 then -1.0 else 1.0;
    assert s * s == 1.0;
    var w := s * root;
    assert w * w == root * root by {
      assert w * w == s * s * (root * root);
    }
    assert q == -0.5 * (b + w);
    assert q * q + b * q + a * c == 0.0 by {
      assert q * q == 0.25 * (b * b + 2.0 * b * w + w * w);
      assert b * q == -0.5 * (b * b + b * w);
    }
    assert a * c == a * r2 * q;
    assert q * (q + b + a * r2) == 0.0;
    assert q + b + a * r2 == 0.0;
    assert a * r1 * r2 == c;
    calc {
      a * (t - r1) * (t - r2);
      a * t * t - a * r1 * t - a * r2 * t + a * r1 * r2;
      a * t * t - (a * r1 + a * r2) * t + c;
    }
  }

  lemma DoubleRoot(a: real, b: real, c: real, r: real, t: real)
    requires a != 0.0 && b * b == 4.0 * a * c && r * (2.0 * a) == -b
    ensures Quadratic(a, b, c, t) == a * (t - r) * (t - r)
  {
    assert a * (4.0 * a * r * r - 4.0 * c) == 0.0 by {
      assert b * b == 4.0 * a * a * r * r;
    }
    assert a * r * r == c;
    calc {
      a * (t - r) * (t - r);
      a * t * t - 2.0 * a * r * t + a * r * r;
      a * t * t + b * t + c;
    }
  }

  lemma CompletedSquare(a: real, b: real, c: real, t: real)
    ensures 4.0 * a * Quadratic(a, b, c, t) == (2.0 * a * t + b) * (2.0 * a * t + b) - (b * b - 4.0 * a * c)
  {}

  lemma FactoredLinear(a: real, b: real, c: real, sqrt: real -> real, s: real, t: real) returns (r: real)
    requires IsSquareRoot(sqrt) && a == 0.0 && b != 0.0
    ensures QuadraticRoots(a, b, c, sqrt) == [r]
    ensures Quadratic(a, b, c, s) == b * (s - r) * 1.0 && Quadratic(a, b, c, t) == b * (t - r) * 1.0
  {
    QuotientTimes(-c, b);
    r := -c / b;
  }

  lemma FactoredTwice(a: real, b: real, c: real, sqrt: real -> real, s: real, t: real) returns (r: real)
    requires IsSquareRoot(sqrt) && a != 0.0 && Discriminant(a, b, c) == 0.0
    ensures QuadraticRoots(a, b, c, sqrt) == [r]
    ensures Quadratic(a, b, c, s) == a * (s - r) * (s - r) && Quadratic(a, b, c, t) == a * (t - r) * (t - r)
  {
    r := -b / (2.0 * a);
    QuotientTimes(-b, 2.0 * a);
    DoubleRoot(a, b, c, r, s);
    DoubleRoot(a, b, c, r, t);
  }

  lemma Factored(a: real, b: real, c: real, sqrt: real -> real, s: real, t: real) returns (r1: real, r2: real)
    requires IsSquareRoot(sqrt) && a != 0.0 && Discriminant(a, b, c) > 0.0
    ensures QuadraticRoots(a, b, c, sqrt) == [r1, r2]
    ensures Quadratic(a, b, c, s) == a * (s - r1) * (s - r2) && Quadratic(a, b, c, t) == a * (t - r1) * (t - r2)
  {
    var root := sqrt(Discriminant(a, b, c));
    StableHalfNonzero(a, b, c, root);
    var q := StableHalf(b, root);
    r1, r2 := q / a, c / q;
    QuotientTimes(q, a);
    QuotientTimes(c, q);
    Vieta(a, b, c, root, q, r1, r2, s);
    Vieta(a, b, c, root, q, r1, r2, t);
  }

  lemma Unfactored(a: real, b: real, c: real, t: real)
    requires a != 0.0 && Discriminant(a, b, c) < 0.0
    ensures 4.0 * a * Quadratic(a, b, c, t) > 0.0
  {
    CompletedSquare(a, b, c, t);
    SquareNonnegative(2.0 * a * t + b);
  }

  /**
   The parameters returned are exactly the zeros of the quadratic, unless the
   quadratic is identically zero (then none is returned).
   */
  lemma QuadraticRootsExact(a: real, b: real, c: real, sqrt: real -> real, t: real)
    requires IsSquareRoot(sqrt)
    ensures t in QuadraticRoots(a, b, c, sqrt)
            <==> Quadratic(a, b, c, t) == 0.0 && !(a == 0.0 && b == 0.0 && c == 0.0)
  {
    if a == 0.0 {
      if b != 0.0 {
        var r := FactoredLinear(a, b, c, sqrt, t, t);
        ZeroProduct(b, t - r, 1.0, Quadratic(a, b, c, t));
      }
    } else if Discriminant(a, b, c) < 0.0 {
      Unfactored(a, b, c, t);
    } else if Discriminant(a, b, c) == 0.0 {
      var r := FactoredTwice(a, b, c, sqrt, t, t);
      ZeroProduct(a, t - r, t - r, Quadratic(a, b, c, t));
    } else {
      var r1, r2 := Factored(a, b, c, sqrt, t, t);
      ZeroProduct(a, t - r1, t - r2, Quadratic(a, b, c, t));
    }
  }

  lemma ZeroProduct(a: real, x: real, y: real, product: real)
    requires a != 0.0 && product == a * x * y
    ensures product == 0.0 <==> x == 0.0 || y == 0.0
  {
    if x != 0.0 && y != 0.0 {
      assert a * x != 0.0;
    }
  }

  // ----- between neighbouring roots the slope keeps its sign -----

  ghost predicate Separates(roots: seq<real>, lo: real, hi: real) {
    forall i :: 0 <= i < |roots| ==> roots[i] <= lo || hi <= roots[i]
  }

  ghost predicate SameSign(x: real, y: real) {
    !(x > 0.0 && y < 0.0) && !(x < 0.0 && y > 0.0)
  }

  /** The values at any two parameters of [lo, hi] never have opposite signs. */
  lemma SignKept(a: real, b: real, c: real, sqrt: real -> real, lo: real, hi: real, s: real, t: real)
    requires IsSquareRoot(sqrt)
    requires Separates(QuadraticRoots(a, b, c, sqrt), lo, hi)
    requires lo <= s <= hi && lo <= t <= hi
    ensures SameSign(Quadratic(a, b, c, s), Quadratic(a, b, c, t))
  {
    var roots := QuadraticRoots(a, b, c, sqrt);
    if a == 0.0 {
      if b != 0.0 {
        var r := FactoredLinear(a, b, c, sqrt, s, t);
        assert roots[0] == r;
        SameSide(r, lo, hi, s, t);
        FactorsKeepSign(b, s - r, t - r, 1.0, 1.0, Quadratic(a, b, c, s), Quadratic(a, b, c, t));
      }
    } else if Discriminant(a, b, c) < 0.0 {
      Unfactored(a, b, c, s);
      Unfactored(a, b, c, t);
      BothWithA(a, Quadratic(a, b, c, s), Quadratic(a, b, c, t));
    } else {
      SignKeptByRoots(a, b, c, sqrt, lo, hi, s, t);
    }
  }

  lemma SignKeptByRoots(a: real, b: real, c: real, sqrt: real -> real, lo: real, hi: real, s: real, t: real)
    requires IsSquareRoot(sqrt) && a != 0.0 && Discriminant(a, b, c) >= 0.0
    requires Separates(QuadraticRoots(a, b, c, sqrt), lo, hi)
    requires lo <= s <= hi && lo <= t <= hi
    ensures SameSign(Quadratic(a, b, c, s), Quadratic(a, b, c, t))
  {
    hide Quadratic, QuadraticRoots, Discriminant;
    var r1, r2;
    if Discriminant(a, b, c) == 0.0 {
      r1 := FactoredTwice(a, b, c, sqrt, s, t);
      r2 := r1;
      assert QuadraticRoots(a, b, c, sqrt)[0] == r1;
    } else {
      r1, r2 := Factored(a, b, c, sqrt, s, t);
      assert QuadraticRoots(a, b, c, sqrt)[0] == r1 && QuadraticRoots(a, b, c, sqrt)[1] == r2;
    }
    SameSide(r1, lo, hi, s, t);
    SameSide(r2, lo, hi, s, t);
    FactorsKeepSign(a, s - r1, t - r1, s - r2, t - r2, Quadratic(a, b, c, s), Quadratic(a, b, c, t));
  }

  /** Two products of a with factors of the same sign have the same sign. */
  lemma FactorsKeepSign(a: real, s1: real, t1: real, s2: real, t2: real, qs: real, qt: real)
    requires s1 * t1 >= 0.0 && s2 * t2 >= 0.0
    requires qs == a * s1 * s2 && qt == a * t1 * t2
    ensures SameSign(qs, qt)
  {
    ProductOfSquares(a, s1, t1, s2, t2, qs, qt);
    PairSign(qs, qt);
  }

  lemma SameSide(r: real, lo: real, hi: real, s: real, t: real)
    requires r <= lo || hi <= r
    requires lo <= s <= hi && lo <= t <= hi
    ensures (s - r) * (t - r) >= 0.0
  {
    if r <= lo {
      NonnegativeProduct(s - r, t - r);
    } else {
      NonnegativeProduct(r - s, r - t);
    }
  }

  lemma SquareNonnegative(x: real)
    ensures x * x >= 0.0
  {}

  lemma NonnegativeProduct(x: real, y: real)
    requires x >= 0.0 && y >= 0.0
    ensures x * y >= 0.0
  {}

  lemma ProductOfSquares(a: real, s1: real, t1: real, s2: real, t2: real, qs: real, qt: real)
    requires s1 * t1 >= 0.0 && s2 * t2 >= 0.0
    requires qs == a * s1 * s2 && qt == a * t1 * t2
    ensures qs * qt >= 0.0
  {
    SquareNonnegative(a);
    NonnegativeProduct(s1 * t1, s2 * t2);
    NonnegativeProduct(a * a, (s1 * t1) * (s2 * t2));
    assert (a * s1 * s2) * (a * t1 * t2) == (a * a) * ((s1 * t1) * (s2 * t2));
  }

  lemma BothWithA(a: real, x: real, y: real)
    requires 4.0 * a * x > 0.0 && 4.0 * a * y > 0.0
    ensures SameSign(x, y)
  {
    if a > 0.0 {
      assert x > 0.0 && y > 0.0;
    } else {
      assert x < 0.0 && y < 0.0;
    }
  }

  // ----- Simpson's rule is exact for cubics -----

  lemma Simpson(p0: real, p1: real, p2: real, p3: real, x: real, y: real)
    ensures CubicAt(p0, p1, p2, p3, y) - CubicAt(p0, p1, p2, p3, x)
            == (y - x) / 2.0 * (Slope(p0, p1, p2, p3, x) + 4.0 * Slope(p0, p1, p2, p3, (x + y) / 2.0) + Slope(p0, p1, p2, p3, y))
  {
    hide CubicAt, Quadratic, Power, SlopeA, SlopeB, SlopeC;
    PowerBasis(p0, p1, p2, p3, x);
    PowerBasis(p0, p1, p2, p3, y);
    SimpsonPower(p0, SlopeA(p0, p1, p2, p3), SlopeB(p0, p1, p2), SlopeC(p0, p1), x, y,
                 CubicAt(p0, p1, p2, p3, x), CubicAt(p0, p1, p2, p3, y),
                 Slope(p0, p1, p2, p3, x), Slope(p0, p1, p2, p3, (x + y) / 2.0), Slope(p0, p1, p2, p3, y));
  }

  lemma SimpsonPower(k: real, a: real, b: real, c: real, x: real, y: real, fx: real, fy: real, gx: real, gm: real, gy: real)
    requires fx == Power(k, a, b, c, x) && fy == Power(k, a, b, c, y)
    requires gx == Quadratic(a, b, c, x) && gy == Quadratic(a, b, c, y) && gm == Quadratic(a, b, c, (x + y) / 2.0)
    ensures fy - fx == (y - x) / 2.0 * (gx + 4.0 * gm + gy)
  {
    var s := x * x + x * y + y * y;
    var sum := gx + 4.0 * gm + gy;
    hide Quadratic;
    SimpsonSum(a, b, c, x, y);
    CubeDifference(x, y);
    var d := y - x;
    assert d * (a * s) == a * (d * s) && d * (b * (x + y)) == b * (d * (x + y)) && d * c == c * d;
    assert d / 2.0 * sum == d * (a * s) + 1.5 * (d * (b * (x + y))) + 3.0 * (d * c) by {
      Distribute(d, 2.0 * (a * s), 3.0 * (b * (x + y)), 6.0 * c);
    }
    assert a * (d * s) == a * (y * y * y) - a * (x * x * x);
    assert b * (d * (x + y)) == b * (y * y) - b * (x * x);
  }

  lemma SimpsonSum(a: real, b: real, c: real, x: real, y: real)
    ensures Quadratic(a, b, c, x) + 4.0 * Quadratic(a, b, c, (x + y) / 2.0) + Quadratic(a, b, c, y)
            == 2.0 * (a * (x * x + x * y + y * y)) + 3.0 * (b * (x + y)) + 6.0 * c
  {
    var m := (x + y) / 2.0;
    var s := x * x + x * y + y * y;
    assert 4.0 * (m * m) == x * x + 2.0 * x * y + y * y;
    Distribute(a, x * x, 4.0 * (m * m), y * y);
    Distribute(b, x, 4.0 * m, y);
    assert a * x * x == a * (x * x) && a * m * m == a * (m * m) && a * y * y == a * (y * y);
    assert 2.0 * (a * s) == a * (2.0 * s);
  }

  lemma Distribute(k: real, x: real, y: real, z: real)
    ensures k * (x + y + z) == k * x + k * y + k * z
  {}

  lemma CubeDifference(x: real, y: real)
    ensures (y - x) * (x * x + x * y + y * y) == y * y * y - x * x * x
    ensures (y - x) * (x + y) == y * y - x * x
  {
    Distribute(y - x, x * x, x * y, y * y);
  }

  /** The same cubic in powers of t, with the slope's coefficients. */
  function Power(k: real, a: real, b: real, c: real, t: real): real {
    k + 3.0 * c * t + 1.5 * b * (t * t) + a * (t * t * t)
  }

  lemma PowerBasis(p0: real, p1: real, p2: real, p3: real, t: real)
    ensures CubicAt(p0, p1, p2, p3, t)
            == Power(p0, SlopeA(p0, p1, p2, p3), SlopeB(p0, p1, p2), SlopeC(p0, p1), t)
  {
    var u := 1.0 - t;
    assert u * u == 1.0 - 2.0 * t + t * t;
    assert u * u * u == 1.0 - 3.0 * t + 3.0 * (t * t) - t * t * t;
    assert u * u * t == t - 2.0 * (t * t) + t * t * t;
    assert u * t * t == t * t - t * t * t;
  }

  predicate Between(x: real, y: real, z: real) {
    x <= y <= z || z <= y <= x
  }

  /** With no interior root, the cubic is monotone on [lo, hi]. */
  lemma MonotonePiece(p0: real, p1: real, p2: real, p3: real, sqrt: real -> real, lo: real, t: real, hi: real)
    requires IsSquareRoot(sqrt)
    requires lo <= t <= hi
    requires Separates(CubicExtrema(p0, p1, p2, p3, sqrt), lo, hi)
    ensures Between(CubicAt(p0, p1, p2, p3, lo), CubicAt(p0, p1, p2, p3, t), CubicAt(p0, p1, p2, p3, hi))
  {
    hide CubicAt, Quadratic, QuadraticRoots, Separates, SameSign;
    var a, b, c := SlopeA(p0, p1, p2, p3), SlopeB(p0, p1, p2), SlopeC(p0, p1);
    var m1, m2 := (lo + t) / 2.0, (t + hi) / 2.0;
    Simpson(p0, p1, p2, p3, lo, t);
    Simpson(p0, p1, p2, p3, t, hi);
    OneSign(a, b, c, sqrt, lo, hi, lo, m1, t);
    OneSign(a, b, c, sqrt, lo, hi, t, m2, hi);
    OneSign(a, b, c, sqrt, lo, hi, lo, t, hi);
    OneSign(a, b, c, sqrt, lo, hi, m1, t, m2);
    OneSign(a, b, c, sqrt, lo, hi, lo, m2, m1);
    OneSign(a, b, c, sqrt, lo, hi, m1, hi, m2);
    SameDirection(CubicAt(p0, p1, p2, p3, lo), CubicAt(p0, p1, p2, p3, t), CubicAt(p0, p1, p2, p3, hi), t - lo, hi - t,
                  Slope(p0, p1, p2, p3, lo), Slope(p0, p1, p2, p3, m1), Slope(p0, p1, p2, p3, t),
                  Slope(p0, p1, p2, p3, m2), Slope(p0, p1, p2, p3, hi));
  }

  lemma SameDirection(fl: real, ft: real, fh: real, d1: real, d2: real, a: real, b: real, c: real, d: real, e: real)
    requires d1 >= 0.0 && d2 >= 0.0
    requires SameSign(a, b) && SameSign(a, c) && SameSign(a, d) && SameSign(a, e) && SameSign(b, c)
    requires SameSign(b, d) && SameSign(b, e) && SameSign(c, d) && SameSign(c, e) && SameSign(d, e)
    requires ft - fl == d1 / 2.0 * (a + 4.0 * b + c)
    requires fh - ft == d2 / 2.0 * (c + 4.0 * d + e)
    ensures Between(fl, ft, fh)
  {
    Rises(d1, a, b, c);
    Rises(d2, c, d, e);
  }

  lemma OneSign(a: real, b: real, c: real, sqrt: real -> real, lo: real, hi: real, x: real, y: real, z: real)
    requires IsSquareRoot(sqrt)
    requires Separates(QuadraticRoots(a, b, c, sqrt), lo, hi)
    requires lo <= x <= hi && lo <= y <= hi && lo <= z <= hi
    ensures SameSign(Quadratic(a, b, c, x), Quadratic(a, b, c, y))
    ensures SameSign(Quadratic(a, b, c, y), Quadratic(a, b, c, z))
    ensures SameSign(Quadratic(a, b, c, x), Quadratic(a, b, c, z))
  {
    SignKept(a, b, c, sqrt, lo, hi, x, y);
    SignKept(a, b, c, sqrt, lo, hi, y, z);
    SignKept(a, b, c, sqrt, lo, hi, x, z);
  }

  lemma Rises(k: real, x: real, y: real, z: real)
    requires k >= 0.0
    ensures x >= 0.0 && y >= 0.0 && z >= 0.0 ==> k / 2.0 * (x + 4.0 * y + z) >= 0.0
    ensures x <= 0.0 && y <= 0.0 && z <= 0.0 ==> k / 2.0 * (x + 4.0 * y + z) <= 0.0
  {
    if x >= 0.0 && y >= 0.0 && z >= 0.0 {
      NonnegativeProduct(k / 2.0, x + 4.0 * y + z);
    }
    if x <= 0.0 && y <= 0.0 && z <= 0.0 {
      NonnegativeProduct(k / 2.0, -(x + 4.0 * y + z));
    }
  }

  lemma PairSign(x: real, y: real)
    requires x * y >= 0.0
    ensures SameSign(x, y)
  {
    if x > 0.0 {
      OppositeProduct(x, y);
    } else if y > 0.0 {
      OppositeProduct(y, x);
    }
  }

  lemma OppositeProduct(x: real, y: real)
    requires x > 0.0
    ensures y < 0.0 ==> x * y < 0.0
  {}

  // ----- the nearest stationary parameters around t -----

  /** The last of 0 and the roots inside (0, 1) that is not after t. */
  function Floor(roots: seq<real>, t: real): real {
    if roots == [] then 0.0
    else
      var rest := Floor(roots[1..], t);
      if 0.0 < roots[0] < 1.0 && rest < roots[0] <= t then roots[0] else rest
  }

  /** The first of 1 and the roots inside (0, 1) that is not before t. */
  function Ceiling(roots: seq<real>, t: real): real {
    if roots == [] then 1.0
    else
      var rest := Ceiling(roots[1..], t);
      if 0.0 < roots[0] < 1.0 && t <= roots[0] < rest then roots[0] else rest
  }

  lemma {:induction false} NearestRoots(roots: seq<real>, t: real)
    requires 0.0 <= t <= 1.0
    ensures 0.0 <= Floor(roots, t) <= t <= Ceiling(roots, t) <= 1.0
    ensures Floor(roots, t) == 0.0 || (Floor(roots, t) in roots && Floor(roots, t) < 1.0)
    ensures Ceiling(roots, t) == 1.0 || (Ceiling(roots, t) in roots && 0.0 < Ceiling(roots, t))
    ensures Separates(roots, Floor(roots, t), Ceiling(roots, t))
  {
    if roots != [] {
      NearestRoots(roots[1..], t);
      var lo, hi := Floor(roots, t), Ceiling(roots, t);
      forall i | 0 <= i < |roots|
        ensures roots[i] <= lo || hi <= roots[i]
      {
        if i > 0 {
          assert roots[i] == roots[1..][i - 1];
        }
      }
    }
  }

  /**
   Every point of the segment lies between two of its values at 0, 1 and the
   returned parameters strictly inside (0, 1).
   */
  lemma BoundedByExtrema(p0: real, p1: real, p2: real, p3: real, sqrt: real -> real, t: real) returns (lo: real, hi: real)
    requires IsSquareRoot(sqrt)
    requires 0.0 <= t <= 1.0
    ensures lo == 0.0 || lo == 1.0 || (0.0 < lo < 1.0 && lo in CubicExtrema(p0, p1, p2, p3, sqrt))
    ensures hi == 0.0 || hi == 1.0 || (0.0 < hi < 1.0 && hi in CubicExtrema(p0, p1, p2, p3, sqrt))
    ensures Between(CubicAt(p0, p1, p2, p3, lo), CubicAt(p0, p1, p2, p3, t), CubicAt(p0, p1, p2, p3, hi))
  {
    var roots := CubicExtrema(p0, p1, p2, p3, sqrt);
    NearestRoots(roots, t);
    lo, hi := Floor(roots, t), Ceiling(roots, t);
    MonotonePiece(p0, p1, p2, p3, sqrt, lo, t, hi);
  }
}
