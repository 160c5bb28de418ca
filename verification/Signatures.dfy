/** The signatures of release 2.0: profiles, seeded values, and the outline of every handle. */
module Signatures {
  import opened Wrappers
  import opened Vectors
  import opened Cubics
  import CanonicalJson
  import opened HashScopes
  import opened Outline
  import opened OutlinePaths
  import opened Centring
  import opened Layout
  import opened WeightedLayout
  import opened Geometry

  /** The functions of exact analysis that the renderer calls, and the digest it hashes with. */
  datatype Oracles = Oracles(cos: real -> real, sin: real -> real, pi: real, hypot: (real, real) -> real, digest: CanonicalJson.Text -> (int, int)) {
    ghost predicate Valid() {
      && (forall a :: cos(a) * cos(a) + sin(a) * sin(a) == 1.0)
      && IsHypotenuse(hypot)
      && IsDigest(digest)
    }
  }

  datatype Range = Range(low: real, high: real)

  datatype Profile = Profile(
    handleLength: Range, smoothing: real, balance: real, pulseFactor: real, bezierOutline: bool,
    gap: Range, yRange: Range, yContrast: nat)

  /** The poles of an upper-cased type code: E or I, S or N, T or F, J or P. */
  function ProfileFor(mbti: string): Option<Profile> {
    if |mbti| != 4 || mbti[0] !in "EI" || mbti[1] !in "SN" || mbti[2] !in "TF" || mbti[3] !in "JP" then None
    else
      var intuitive, perceiving := mbti[1] == 'N', mbti[3] == 'P';
      Some(Profile(
             Range(10.0, if intuitive then 120.0 else 40.0),
             if intuitive then 0.5 else 0.1,
             if intuitive then 0.5 else 0.1,
             if intuitive then 0.3 else 0.1,
             mbti[2] == 'F',
             if perceiving then Range(0.45, 1.55) else Range(1.0, 1.0),
             if perceiving then Range(-40.0, 40.0) else Range(-20.0, 20.0),
             if perceiving then 3 else 1))
  }

  ghost predicate IsProfile(p: Profile) {
    exists mbti :: ProfileFor(mbti) == Some(p)
  }

  function MapRange(unit: real, r: Range): real {
    r.low + unit * (r.high - r.low)
  }

  lemma MapRangeBounds(unit: real, r: Range)
    requires 0.0 <= unit <= 1.0 && r.low <= r.high
    ensures r.low <= MapRange(unit, r) <= r.high
  {
    NonnegativeProduct(unit, r.high - r.low);
    NonnegativeProduct(1.0 - unit, r.high - r.low);
  }

  function Unit(o: Oracles, scope: CanonicalJson.Json, parameter: string): (u: real)
    requires o.Valid()
    ensures 0.0 <= u < 1.0
  {
    HashToUnitFloat(o.digest, Label("signature-field"), scope, Label(parameter))
  }

  // ----- vertical shifts -----

  function Power(x: real, n: nat): real {
    if n == 0 then 1.0 else x * Power(x, n - 1)
  }

  lemma {:induction false} PowerSign(x: real, n: nat)
    requires x >= 0.0
    ensures Power(x, n) >= 0.0
    ensures x > 0.0 ==> Power(x, n) > 0.0
  {
    if n > 0 {
      PowerSign(x, n - 1);
      NonnegativeProduct(x, Power(x, n - 1));
      if x > 0.0 {
        PositiveProduct(x, Power(x, n - 1));
      }
    }
  }

  function Magnitude(x: real): real {
    if x < 0.0 then -x else x
  }

  /** An S-shaped curve on [0, 1]. */
  function Contrast(m: real, n: nat): real
    requires 0.0 <= m <= 1.0
  {
    PowerSign(m, n);
    PowerSign(1.0 - m, n);
    Power(m, n) / (Power(m, n) + Power(1.0 - m, n))
  }

  function Extent(r: Range): real {
    if Magnitude(r.low) > Magnitude(r.high) then Magnitude(r.low) else Magnitude(r.high)
  }

  function MapPointY(unit: real, p: Profile): real
    requires 0.0 <= unit <= 1.0
  {
    if p.yContrast <= 1 then MapRange(unit, p.yRange)
    else
      var signed := unit * 2.0 - 1.0;
      SignedValue(SignOf(signed), Extent(p.yRange), Contrast(Magnitude(signed), p.yContrast))
  }

  function SignedValue(sign: real, extent: real, contrast: real): real {
    sign * extent * contrast
  }

  lemma {:induction false} PowerMonotone(x: real, y: real, n: nat)
    requires 0.0 <= x <= y
    ensures Power(x, n) <= Power(y, n)
  {
    if n > 0 {
      PowerMonotone(x, y, n - 1);
      PowerSign(x, n - 1);
      Products(x, y, Power(x, n - 1), Power(y, n - 1));
    }
  }

  lemma Products(a: real, b: real, c: real, d: real)
    requires 0.0 <= a <= b && 0.0 <= c <= d
    ensures a * c <= b * d
  {
    NonnegativeProduct(b - a, c);
    NonnegativeProduct(b, d - c);
  }

  lemma ContrastMonotone(m: real, m': real, n: nat)
    requires 0.0 <= m <= m' <= 1.0
    ensures 0.0 <= Contrast(m, n) <= Contrast(m', n) <= 1.0
  {
    PowerSign(m, n);
    PowerSign(1.0 - m, n);
    PowerSign(m', n);
    PowerSign(1.0 - m', n);
    PowerMonotone(m, m', n);
    PowerMonotone(1.0 - m', 1.0 - m, n);
    hide Power;
    Share(Power(m, n), Power(1.0 - m, n), Power(m', n), Power(1.0 - m', n));
  }

  lemma Share(a: real, b: real, a': real, b': real)
    requires 0.0 <= a <= a' && 0.0 <= b' <= b && a + b > 0.0 && a' + b' > 0.0
    ensures 0.0 <= a / (a + b) <= a' / (a' + b') <= 1.0
  {
    var q, q' := a / (a + b), a' / (a' + b');
    QuotientTimes(a, a + b);
    QuotientTimes(a', a' + b');
    Ratio(a, b, q);
    Ratio(a', b', q');
    NonnegativeProduct(q, b - b');
    NonnegativeProduct(1.0 - q, a' - a);
    Distributed(q, a, b);
    Distributed(q, a', b');
    Cancel(q, q', a' + b');
  }

  lemma Distributed(q: real, a: real, b: real)
    ensures q * (a + b) == q * a + q * b
  {}

  lemma Cancel(x: real, y: real, k: real)
    requires k > 0.0 && x * k <= y * k
    ensures x <= y
  {
    if x > y {
      PositiveProduct(x - y, k);
    }
  }

  lemma Ratio(a: real, b: real, q: real)
    requires a >= 0.0 && b >= 0.0 && a + b > 0.0 && q * (a + b) == a
    ensures 0.0 <= q <= 1.0
  {
    if q < 0.0 {
      PositiveProduct(-q, a + b);
    } else if q > 1.0 {
      PositiveProduct(q - 1.0, a + b);
    }
  }

  /** The vertical shift stays in its range and never decreases with the hashed unit; contrast keeps both. */
  lemma MapPointYMonotone(u: real, v: real, p: Profile)
    requires 0.0 <= u <= v <= 1.0 && p.yRange.high > 0.0 && p.yRange.low == -p.yRange.high
    ensures p.yRange.low <= MapPointY(u, p) <= MapPointY(v, p) <= p.yRange.high
  {
    assert Extent(p.yRange) == p.yRange.high;
    if p.yContrast <= 1 {
      MapRangeBounds(u, p.yRange);
      MapRangeBounds(v, p.yRange);
      NonnegativeProduct(v - u, p.yRange.high - p.yRange.low);
    } else {
      var a, b := u * 2.0 - 1.0, v * 2.0 - 1.0;
      var m, m' := Magnitude(a), Magnitude(b);
      if m <= m' {
        ContrastMonotone(m, m', p.yContrast);
      } else {
        ContrastMonotone(m', m, p.yContrast);
      }
      hide Contrast, MapRange, Extent, SignedValue;
      SignedOrder(Extent(p.yRange), SignOf(a), SignOf(b), Contrast(m, p.yContrast), Contrast(m', p.yContrast));
    }
  }

  function SignOf(x: real): real {
    if x < 0.0 then -1.0 else if x > 0.0 then 1.0 else 0.0
  }

  lemma SignedOrder(extent: real, s: real, s': real, c: real, c': real)
    requires extent > 0.0 && 0.0 <= c <= 1.0 && 0.0 <= c' <= 1.0
    requires s in {-1.0, 0.0, 1.0} && s' in {-1.0, 0.0, 1.0} && s <= s'
    requires s == s' == 1.0 ==> c <= c'
    requires s == s' == -1.0 ==> c >= c'
    ensures -extent <= SignedValue(s, extent, c) <= SignedValue(s', extent, c') <= extent
  {
    NonnegativeProduct(extent, c);
    NonnegativeProduct(extent, c');
    NonnegativeProduct(extent, 1.0 - c);
    NonnegativeProduct(extent, 1.0 - c');
    if c <= c' {
      NonnegativeProduct(extent, c' - c);
    } else {
      NonnegativeProduct(extent, c - c');
    }
    Signed(extent, s, c);
    Signed(extent, s', c');
  }

  lemma Signed(extent: real, s: real, c: real)
    requires s in {-1.0, 0.0, 1.0}
    ensures s * extent * c == if s == 0.0 then 0.0 else if s == 1.0 then extent * c else -(extent * c)
  {}

  // ----- seeded values -----

  datatype Seed = Seed(angle: real, incoming: real, outgoing: real, yShift: real)

  function Seeded(o: Oracles, p: Profile, c: char): Seed
    requires o.Valid()
  {
    var scope := CharacterScope(c);
    var incoming := MapRange(Unit(o, scope, "incoming-handle-length"), p.handleLength);
    var outgoing := MapRange(Unit(o, scope, "outgoing-handle-length"), p.handleLength);
    var mean := (incoming + outgoing) / 2.0;
    Seed(MapRange(Unit(o, scope, "handle-angle"), Range(-180.0, 180.0)) * (o.pi / 180.0),
         incoming * (1.0 - p.balance) + mean * p.balance,
         outgoing * (1.0 - p.balance) + mean * p.balance,
         if c == '_' then MapRange(Unit(o, UNDERSCORE_SCOPE, "point-y-shift"), Range(0.0, 50.0))
         else MapPointY(Unit(o, scope, "point-y-shift"), p))
  }

  lemma SeededHandles(o: Oracles, p: Profile, c: char)
    requires o.Valid() && IsProfile(p)
    ensures Seeded(o, p, c).incoming >= 10.0 && Seeded(o, p, c).outgoing >= 10.0
  {
    var scope := CharacterScope(c);
    var incoming := MapRange(Unit(o, scope, "incoming-handle-length"), p.handleLength);
    var outgoing := MapRange(Unit(o, scope, "outgoing-handle-length"), p.handleLength);
    MapRangeBounds(Unit(o, scope, "incoming-handle-length"), p.handleLength);
    MapRangeBounds(Unit(o, scope, "outgoing-handle-length"), p.handleLength);
    Blend(incoming, (incoming + outgoing) / 2.0, p.balance);
    Blend(outgoing, (incoming + outgoing) / 2.0, p.balance);
    hide Unit, MapRange, MapPointY;
  }

  lemma Blend(x: real, mean: real, balance: real)
    requires x >= 10.0 && mean >= 10.0 && 0.0 <= balance <= 1.0
    ensures x * (1.0 - balance) + mean * balance >= 10.0
  {
    NonnegativeProduct(x - 10.0, 1.0 - balance);
    NonnegativeProduct(mean - 10.0, balance);
  }

  /** The angle of character i, smoothed with its neighbours' (the ends count themselves). */
  function SmoothedAngle(o: Oracles, p: Profile, h: string, i: nat): real
    requires o.Valid() && i < |h|
  {
    var previous := Seeded(o, p, h[if i == 0 then 0 else i - 1]).angle;
    var following := Seeded(o, p, h[if i == |h| - 1 then i else i + 1]).angle;
    Seeded(o, p, h[i]).angle * (1.0 - p.smoothing) + (previous + following) / 2.0 * p.smoothing
  }

  predicate IsUppercase(c: char) {
    'A' <= c <= 'Z'
  }

  function DirectedPoint(style: Style, anchor: Vector, d: Vector, incoming: real, outgoing: real): Point {
    Point(style, anchor, Vector(anchor.x - d.x * incoming, anchor.y - d.y * incoming),
          Vector(anchor.x + d.x * outgoing, anchor.y + d.y * outgoing))
  }

  function IdentityPoint(o: Oracles, p: Profile, h: string, i: nat, x: real): Point
    requires o.Valid() && i < |h|
  {
    var seed, angle := Seeded(o, p, h[i]), SmoothedAngle(o, p, h, i);
    DirectedPoint(Style(h[i], IsUppercase(h[i]), false), Vector(x, 210.0 + seed.yShift),
                  Vector(o.cos(angle), o.sin(angle)), seed.incoming, seed.outgoing)
  }

  lemma IdentityPointSmooth(o: Oracles, p: Profile, h: string, i: nat, x: real)
    requires o.Valid() && IsProfile(p) && i < |h|
    ensures Smooth(IdentityPoint(o, p, h, i, x)) && IdentityPoint(o, p, h, i, x).anchor.x == x
  {
    hide Seeded, SmoothedAngle, IsProfile, Oracles.Valid, Smooth, DirectedPoint;
    SeededHandles(o, p, h[i]);
    var seed, angle := Seeded(o, p, h[i]), SmoothedAngle(o, p, h, i);
    UnitDirection(o, angle);
    DirectedIsSmooth(Style(h[i], IsUppercase(h[i]), false), Vector(x, 210.0 + seed.yShift),
                     Vector(o.cos(angle), o.sin(angle)), seed.incoming, seed.outgoing);
  }

  lemma UnitDirection(o: Oracles, angle: real)
    requires o.Valid()
    ensures o.cos(angle) * o.cos(angle) + o.sin(angle) * o.sin(angle) == 1.0
  {}

  lemma DirectedIsSmooth(style: Style, anchor: Vector, d: Vector, incoming: real, outgoing: real)
    requires d.x * d.x + d.y * d.y == 1.0 && incoming > 0.0 && outgoing > 0.0
    ensures Smooth(DirectedPoint(style, anchor, d, incoming, outgoing))
    ensures DirectedPoint(style, anchor, d, incoming, outgoing).anchor == anchor
  {
    assert Along(DirectedPoint(style, anchor, d, incoming, outgoing), d, incoming, outgoing);
  }

  // ----- weights -----

  function UnderscoreWidth(o: Oracles): real
    requires o.Valid()
  {
    MapRange(Unit(o, UNDERSCORE_SCOPE, "width-weight"), Range(1.0, 2.0))
  }

  function GapWeight(o: Oracles, p: Profile, left: char, right: char): real
    requires o.Valid()
  {
    if left == '_' || right == '_' then UnderscoreWidth(o)
    else MapRange(Unit(o, PairScope(left, right), "point-gap-weight"), p.gap)
  }

  function TransitionWeight(o: Oracles, nonDigit: char): real
    requires o.Valid()
  {
    (if nonDigit == '_' then (1.0 + UnderscoreWidth(o)) / 2.0 else 1.0) * 0.6
  }

  function DigitsOf(h: string): string {
    if h == "" then "" else (if IsDigit(h[0]) then [h[0]] else "") + DigitsOf(h[1..])
  }

  /** The identity point of character i; beyond the handle any point will do. */
  function IdentityAt(o: Oracles, p: Profile, h: string, i: nat, x: real): Point
    requires o.Valid()
  {
    if i < |h| then IdentityPoint(o, p, h, i, x) else SerialPoint('_', x, 210.0, 1.0)
  }

  function ReleaseFor(o: Oracles, p: Profile, h: string): Release
    requires o.Valid()
  {
    var weights := Weights(
                     c => 1.0,
                     (a, b) => GapWeight(o, p, a, b),
                     (digit, nonDigit) => TransitionWeight(o, nonDigit));
    var digitsYShift := MapPointY(Unit(o, DigitsScope(DigitsOf(h)), "point-y-shift"), p);
    Release(weights,
            Pulse(210.0 + 60.0 * 0.5 + digitsYShift, 60.0, p.pulseFactor),
            (i: nat, x: real) => IdentityAt(o, p, h, i, x))
  }

  lemma WeightsPositive(o: Oracles, p: Profile, h: string)
    requires o.Valid() && IsProfile(p)
    ensures Positive(ReleaseFor(o, p, h).weights)
  {
    MapRangeBounds(Unit(o, UNDERSCORE_SCOPE, "width-weight"), Range(1.0, 2.0));
    forall a, b
      ensures GapWeight(o, p, a, b) > 0.0
    {
      MapRangeBounds(Unit(o, PairScope(a, b), "point-gap-weight"), p.gap);
    }
    hide Unit, MapRange, MapPointY, GapWeight;
  }

  /** Release 2.0 meets what the layout asks of a release. */
  lemma ReleaseIsValid(o: Oracles, p: Profile, h: string)
    requires o.Valid() && IsProfile(p)
    ensures ValidRelease(ReleaseFor(o, p, h), h)
  {
    WeightsPositive(o, p, h);
    forall i: nat, x: real
      ensures IdentityAt(o, p, h, i, x).anchor.x == x
      ensures i < |h| ==> Smooth(IdentityAt(o, p, h, i, x))
    {
      if i < |h| {
        IdentityPointSmooth(o, p, h, i, x);
      }
    }
    hide Positive, Smooth, IdentityAt, GapWeight, TransitionWeight, MapPointY, Oracles.Valid;
    var r := ReleaseFor(o, p, h);
    assert forall i: nat, x: real :: r.identity(i, x) == IdentityAt(o, p, h, i, x);
  }

  // ----- the outline of a handle -----

  function WeightAt(style: Style): real {
    if style.character == '_' then 0.0
    else if style.serialTail || IsDigit(style.character) then 5.0
    else 5.0 + (if style.uppercase then 10.0 else 0.0)
  }

  function PenFor(o: Oracles): Pen {
    Pen(WeightAt, o.hypot)
  }

  predicate IsHandle(h: string) {
    1 <= |h| <= 15 && forall i :: 0 <= i < |h| ==> IsDigit(h[i]) || 'a' <= h[i] <= 'z' || IsUppercase(h[i]) || h[i] == '_'
  }

  /** The points of the handle after the first centring pass. */
  function HandleGeometry(o: Oracles, p: Profile, h: string): seq<Point>
    requires o.Valid() && IsProfile(p) && h != ""
  {
    var release := ReleaseFor(o, p, h);
    ReleaseIsValid(o, p, h);
    SpanPositive(|h|, 300.0);
    PlacedNonempty(h, release, 210.0, TargetSpan(|h|, 300.0));
    CenterGeometry(Placed(h, release, 210.0, TargetSpan(|h|, 300.0)), 210.0)
  }

  /** The points that the outline is built from: both centring passes done. */
  function SignaturePoints(o: Oracles, p: Profile, h: string): seq<Point>
    requires o.Valid() && IsProfile(p) && h != ""
  {
    var points := HandleGeometry(o, p, h);
    if |points| < 2 then points else ShiftAll(points, OutlineShift(PenFor(o), points, 210.0))
  }

  datatype RenderError = InvalidHandle | InvalidType

  /** The path commands of a handle's signature for an upper-cased type code. */
  method RenderPath(o: Oracles, h: string, mbti: string) returns (r: Result<seq<PathCommand>, RenderError>)
    requires o.Valid()
    ensures !IsHandle(h) <==> r == Err(InvalidHandle)
    ensures IsHandle(h) && ProfileFor(mbti).None? <==> r == Err(InvalidType)
    ensures r.Ok? ==>
      var p := ProfileFor(mbti).value;
      var points := SignaturePoints(o, p, h);
      && |points| >= 2
      && r.value == OutlineCommands(PenFor(o), points, p.bezierOutline)
  {
    if !IsHandle(h) {
      return Err(InvalidHandle);
    }
    var profile := ProfileFor(mbti);
    if profile.None? {
      return Err(InvalidType);
    }
    var p := profile.value;
    assert IsProfile(p);
    ReleaseIsValid(o, p, h);
    hide IsProfile, Oracles.Valid, ReleaseFor, ProfileFor, BezierCommands, SideSamples, Placed, OutlineShift, CenterGeometry;
    var geometry := GeometryFor(h, ReleaseFor(o, p, h), 210.0, 300.0);
    HandleGeometryShape(o, p, h);
    var points := CenterPointsForOutline(PenFor(o), geometry, 210.0);
    var path;
    if p.bezierOutline {
      path := BezierVariableWidthPath(PenFor(o), points);
    } else {
      path := SampledVariableWidthPath(PenFor(o), points);
    }
    return Ok(path);
  }

  lemma {:induction false} HandleGeometryShape(o: Oracles, p: Profile, h: string)
    requires o.Valid() && IsProfile(p) && h != ""
    ensures WellShaped(HandleGeometry(o, p, h), h, TargetSpan(|h|, 300.0), 210.0)
    ensures |HandleGeometry(o, p, h)| >= 2
  {
    ReleaseIsValid(o, p, h);
    GeometryShape(h, ReleaseFor(o, p, h), 210.0, 300.0);
    hide ReleaseFor, ValidRelease, IsProfile, Oracles.Valid, Placed, CenterGeometry, SpansExactly, AllSmooth, PointCount, TargetSpan, Midpoint;
  }

  /**
   Every handle, in every profile: the outline's points number as the handle
   dictates, their anchors strictly increase over exactly 75 units per character
   up to 300, every joint is smooth, and the sampled outline is centred at 210.
   */
  lemma {:induction false} SignatureShape(o: Oracles, p: Profile, h: string)
    requires o.Valid() && IsProfile(p) && IsHandle(h)
    ensures var points := SignaturePoints(o, p, h);
            && |points| == PointCount(h) >= 2
            && SpansExactly(points, if |h| <= 3 then 75.0 * (|h| as real) else 300.0)
            && AllSmooth(points)
            && Midpoint(OutlineXs(PenFor(o), points, |points| - 1)) == 210.0
  {
    hide HandleGeometry, IsProfile, Oracles.Valid, IsHandle, OutlineXs, Midpoint, SpansExactly, AllSmooth, PointCount, OutlineShift, PenFor;
    HandleNonempty(h);
    HandleGeometryShape(o, p, h);
    SpanPerCharacter(|h|);
    OutlinePassShape(PenFor(o), HandleGeometry(o, p, h), TargetSpan(|h|, 300.0), 210.0);
  }

  lemma HandleNonempty(h: string)
    requires IsHandle(h)
    ensures h != ""
  {}

  lemma SpanPerCharacter(count: nat)
    ensures TargetSpan(count, 300.0) == if count <= 3 then 75.0 * (count as real) else 300.0
  {}

  /** The second centring pass keeps the shape and centres the sampled outline. */
  lemma {:induction false} OutlinePassShape(pen: Pen, geometry: seq<Point>, span: real, center: real)
    requires |geometry| >= 2 && SpansExactly(geometry, span) && AllSmooth(geometry)
    ensures var points := ShiftAll(geometry, OutlineShift(pen, geometry, center));
            && SpansExactly(points, span)
            && AllSmooth(points)
            && Midpoint(OutlineXs(pen, points, |points| - 1)) == center
  {
    var d := OutlineShift(pen, geometry, center);
    OutlineCentered(pen, geometry, center);
    SmoothShifts(geometry, d);
    RunsShift(geometry, geometry[0].anchor.x, geometry[0].anchor.x + span, d);
    hide AllSmooth, OutlineXs, Midpoint, OutlineShift;
    RunsSpan(ShiftAll(geometry, d), geometry[0].anchor.x + d, geometry[0].anchor.x + span + d);
  }

  /** For every handle and every feeling profile, the rendered path draws one closed chain through the offsets of its segments. */
  lemma {:induction false} SignatureOutlineIsClosed(o: Oracles, p: Profile, h: string)
    requires o.Valid() && IsProfile(p) && IsHandle(h) && p.bezierOutline
    ensures var points := SignaturePoints(o, p, h);
            |points| == PointCount(h) >= 2 && DrawsClosedChain(PenFor(o), points)
  {
    SignatureShape(o, p, h);
    assert PenFor(o).Valid();
    hide SignaturePoints, IsProfile, IsHandle, PointCount, AllSmooth, SpansExactly, DrawsClosedChain, Midpoint, OutlineXs, PenFor;
    BezierOutlineDraws(PenFor(o), SignaturePoints(o, p, h));
  }
}
