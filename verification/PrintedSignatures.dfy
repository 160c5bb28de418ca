/** The printed path text of every signature, of both releases: it lexes, draws the outline, and is measured exactly. */
module PrintedSignatures {
  import opened Wrappers
  import opened Vectors
  import opened Cubics
  import opened HashScopes
  import opened PathPrinting
  import opened InkBounds
  import opened Outline
  import opened OutlinePaths
  import opened Centring
  import opened Layout
  import opened WeightedLayout
  import opened Geometry
  import opened OutlineExtent
  import opened PlacedExtent
  import opened PrintedOutlines
  import opened Signatures
  import opened FormalSignatures

  // ----- where characters' points can lie -----

  /** Every point of a signature lies this close to the origin before centring. */
  function Reach(center: real, lineSpan: real): real {
    center + 2.0 * lineSpan + 400.0
  }

  lemma UnitNear(d: Vector)
    requires d.x * d.x + d.y * d.y == 1.0
    ensures Near(d.x, 1.0) && Near(d.y, 1.0)
  {
    LegNear(d.x, d.y, 1.0);
    LegNear(d.y, d.x, 1.0);
  }

  lemma HandleNear(anchor: real, d: real, length: real, k: real, m: real, incoming: real, outgoing: real)
    requires Near(anchor, m) && Near(d, 1.0) && 0.0 <= length <= k
    ensures incoming == anchor - d * length ==> Near(incoming, m + k)
    ensures outgoing == anchor + d * length ==> Near(outgoing, m + k)
  {
    NonnegativeProduct(1.0 - d, length);
    NonnegativeProduct(1.0 + d, length);
  }

  lemma IncomingNear(style: Style, anchor: Vector, d: Vector, incoming: real, outgoing: real, k: real, m: real)
    requires VectorNear(anchor, m) && Near(d.x, 1.0) && Near(d.y, 1.0) && 0.0 <= incoming <= k
    ensures VectorNear(DirectedPoint(style, anchor, d, incoming, outgoing).incoming, m + k)
  {
    hide Near;
    var handle := DirectedPoint(style, anchor, d, incoming, outgoing).incoming;
    HandleNear(anchor.x, d.x, incoming, k, m, handle.x, 0.0);
    HandleNear(anchor.y, d.y, incoming, k, m, handle.y, 0.0);
  }

  lemma OutgoingNear(style: Style, anchor: Vector, d: Vector, incoming: real, outgoing: real, k: real, m: real)
    requires VectorNear(anchor, m) && Near(d.x, 1.0) && Near(d.y, 1.0) && 0.0 <= outgoing <= k
    ensures VectorNear(DirectedPoint(style, anchor, d, incoming, outgoing).outgoing, m + k)
  {
    hide Near;
    var handle := DirectedPoint(style, anchor, d, incoming, outgoing).outgoing;
    HandleNear(anchor.x, d.x, outgoing, k, m, 0.0, handle.x);
    HandleNear(anchor.y, d.y, outgoing, k, m, 0.0, handle.y);
  }

  lemma AnchorNear(style: Style, anchor: Vector, d: Vector, incoming: real, outgoing: real, k: real, m: real)
    requires VectorNear(anchor, m) && k >= 0.0
    ensures VectorNear(DirectedPoint(style, anchor, d, incoming, outgoing).anchor, m + k)
  {}

  lemma DirectedNear(style: Style, anchor: Vector, d: Vector, incoming: real, outgoing: real, k: real, m: real)
    requires d.x * d.x + d.y * d.y == 1.0 && 0.0 <= incoming <= k && 0.0 <= outgoing <= k && VectorNear(anchor, m)
    ensures PointNear(DirectedPoint(style, anchor, d, incoming, outgoing), m + k)
  {
    hide VectorNear, Near, DirectedPoint;
    UnitNear(d);
    AnchorNear(style, anchor, d, incoming, outgoing, k, m);
    IncomingNear(style, anchor, d, incoming, outgoing, k, m);
    OutgoingNear(style, anchor, d, incoming, outgoing, k, m);
  }

  lemma BlendWithin(x: real, mean: real, balance: real, k: real)
    requires x <= k && mean <= k && 0.0 <= balance <= 1.0
    ensures x * (1.0 - balance) + mean * balance <= k
  {
    NonnegativeProduct(k - x, 1.0 - balance);
    NonnegativeProduct(k - mean, balance);
  }

  // ----- from a release to its path -----

  /** Centring twice and drawing with a pen of at most fifteen stays in the decimal range when the reach does. */
  lemma {:induction false} CentredInRange(placed: seq<Point>, pen: Pen, center: real, bezier: bool, m: real)
    requires pen.Valid() && PenWithin(pen, 15.0) && AllNear(placed, m) && Near(center, m) && |placed| >= 2
    requires 0.0 <= m <= 1.8e19
    ensures var geometry := CenterGeometry(placed, center);
            |geometry| >= 2 && PathInRange(OutlineCommands(pen, ShiftAll(geometry, OutlineShift(pen, geometry, center)), bezier))
  {
    hide Pen.Valid, PenWithin, AllNear, PathInRange, OutlineCommands, OutlineShift;
    CentredTwiceNear(placed, pen, center, m, 15.0);
    var geometry := CenterGeometry(placed, center);
    OutlineInRange(pen, ShiftAll(geometry, OutlineShift(pen, geometry, center)), bezier, 9.0 * m + 7.5, 15.0);
  }

  lemma SpanWithin(count: nat, lineSpan: real)
    requires count > 0 && lineSpan > 0.0
    ensures 0.0 < TargetSpan(count, lineSpan) <= lineSpan
  {
    SpanPositive(count, lineSpan);
    if count <= 3 {
      NonnegativeProduct(4.0 - count as real, lineSpan);
    }
  }

  /** A release whose points and pulses lie within the reach, over the span that the layout gives so many characters. */
  ghost predicate Reaches(r: Release, count: nat, center: real, lineSpan: real) {
    var span := TargetSpan(count, lineSpan);
    ReleaseNear(r.pulse, r.identity, center - span / 2.0, center + span / 2.0, Reach(center, lineSpan))
  }

  lemma {:induction false} PlacedWithinReach(h: string, r: Release, center: real, lineSpan: real)
    requires h != "" && ValidRelease(r, h) && lineSpan > 0.0 && Reaches(r, |h|, center, lineSpan)
    ensures AllNear(Placed(h, r, center, TargetSpan(|h|, lineSpan)), Reach(center, lineSpan))
  {
    SpanWithin(|h|, lineSpan);
    hide Reach, TargetSpan, ReleaseNear, Placed, AllNear, Positive;
    PlacedNear(h, r, center, TargetSpan(|h|, lineSpan), Reach(center, lineSpan));
  }

  lemma {:induction false} PlacedAtLeastTwo(h: string, r: Release, center: real, lineSpan: real)
    requires h != "" && ValidRelease(r, h) && lineSpan > 0.0
    ensures |Placed(h, r, center, TargetSpan(|h|, lineSpan))| >= 2
  {
    hide ValidRelease, Placed, TargetSpan, PointCount, AllSmooth, SpansExactly, Midpoint;
    GeometryShape(h, r, center, lineSpan);
  }

  lemma {:induction false} ReleaseInRange(h: string, r: Release, pen: Pen, center: real, lineSpan: real, bezier: bool)
    requires h != "" && ValidRelease(r, h) && lineSpan > 0.0 && Reaches(r, |h|, center, lineSpan)
    requires pen.Valid() && PenWithin(pen, 15.0) && 0.0 <= center && Reach(center, lineSpan) <= 1.8e19
    ensures var placed := Placed(h, r, center, TargetSpan(|h|, lineSpan));
            && |placed| >= 2
            && PathInRange(OutlineCommands(pen, ShiftAll(CenterGeometry(placed, center), OutlineShift(pen, CenterGeometry(placed, center), center)), bezier))
  {
    PlacedWithinReach(h, r, center, lineSpan);
    PlacedAtLeastTwo(h, r, center, lineSpan);
    assert Near(center, Reach(center, lineSpan)) && 0.0 <= Reach(center, lineSpan);
    hide *;
    CentredInRange(Placed(h, r, center, TargetSpan(|h|, lineSpan)), pen, center, bezier, Reach(center, lineSpan));
  }

  // ----- release 2.0 -----

  lemma SeedWithin(o: Oracles, p: Profile, c: char)
    requires o.Valid() && IsProfile(p)
    ensures var seed := Seeded(o, p, c); 0.0 <= seed.incoming <= 120.0 && 0.0 <= seed.outgoing <= 120.0 && Near(seed.yShift, 50.0)
  {
    var scope := CharacterScope(c);
    var incoming := MapRange(Unit(o, scope, "incoming-handle-length"), p.handleLength);
    var outgoing := MapRange(Unit(o, scope, "outgoing-handle-length"), p.handleLength);
    var unit := Unit(o, scope, "point-y-shift");
    SeededHandles(o, p, c);
    MapRangeBounds(Unit(o, scope, "incoming-handle-length"), p.handleLength);
    MapRangeBounds(Unit(o, scope, "outgoing-handle-length"), p.handleLength);
    MapRangeBounds(Unit(o, UNDERSCORE_SCOPE, "point-y-shift"), Range(0.0, 50.0));
    MapPointYMonotone(unit, unit, p);
    hide Unit, MapRange, MapPointY;
    BlendWithin(incoming, (incoming + outgoing) / 2.0, p.balance, 120.0);
    BlendWithin(outgoing, (incoming + outgoing) / 2.0, p.balance, 120.0);
  }

  lemma IdentityPointNear(o: Oracles, p: Profile, h: string, i: nat, x: real, m: real)
    requires o.Valid() && IsProfile(p) && i < |h| && Near(x, m - 120.0) && m >= 400.0
    ensures PointNear(IdentityPoint(o, p, h, i, x), m)
  {
    hide Seeded, SmoothedAngle, IsProfile, Oracles.Valid, DirectedPoint, PointNear;
    SeedWithin(o, p, h[i]);
    var seed, angle := Seeded(o, p, h[i]), SmoothedAngle(o, p, h, i);
    UnitDirection(o, angle);
    DirectedNear(Style(h[i], IsUppercase(h[i]), false), Vector(x, 210.0 + seed.yShift),
                 Vector(o.cos(angle), o.sin(angle)), seed.incoming, seed.outgoing, 120.0, m - 120.0);
  }

  lemma IdentityAtNear(o: Oracles, p: Profile, h: string, i: nat, x: real, m: real)
    requires o.Valid() && IsProfile(p) && Near(x, m - 120.0) && m >= 400.0
    ensures PointNear(IdentityAt(o, p, h, i, x), m)
  {
    hide Oracles.Valid, IsProfile, PointNear, IdentityPoint, SerialPoint;
    if i < |h| {
      IdentityPointNear(o, p, h, i, x, m);
    } else {
      SerialNear('_', x, 210.0, 1.0, x - 1.0, x + 1.0, m);
    }
  }

  lemma SignaturePulseWithin(o: Oracles, p: Profile, h: string, first: real, last: real, m: real)
    requires o.Valid() && IsProfile(p) && m >= 400.0 && -m <= first - (last - first) && last + (last - first) <= m
    ensures PulseWithin(ReleaseFor(o, p, h).pulse, first, last, m)
  {
    var unit := Unit(o, DigitsScope(DigitsOf(h)), "point-y-shift");
    MapPointYMonotone(unit, unit, p);
    hide Unit, MapPointY, Oracles.Valid, IdentityAt, GapWeight, TransitionWeight;
  }

  lemma SignatureIdentityNear(o: Oracles, p: Profile, h: string, first: real, last: real, m: real)
    requires o.Valid() && IsProfile(p) && m >= 400.0 && 120.0 - m <= first && last <= m - 120.0
    ensures IdentityNear(ReleaseFor(o, p, h).identity, first, last, m)
  {
    var r := ReleaseFor(o, p, h);
    hide Unit, MapPointY, Oracles.Valid, IsProfile, PointNear, IdentityAt, GapWeight, TransitionWeight;
    forall i: nat, x: real | first <= x <= last
      ensures PointNear(r.identity(i, x), m)
    {
      IdentityAtNear(o, p, h, i, x, m);
    }
  }

  lemma SignatureReaches(o: Oracles, p: Profile, h: string)
    requires o.Valid() && IsProfile(p) && h != ""
    ensures Reaches(ReleaseFor(o, p, h), |h|, 210.0, 300.0)
  {
    hide ReleaseFor, Oracles.Valid, IsProfile, TargetSpan, PulseWithin, IdentityNear;
    var m, span := Reach(210.0, 300.0), TargetSpan(|h|, 300.0);
    var first, last := 210.0 - span / 2.0, 210.0 + span / 2.0;
    SpanWithin(|h|, 300.0);
    SignaturePulseWithin(o, p, h, first, last, m);
    SignatureIdentityNear(o, p, h, first, last, m);
  }

  lemma PenForWithin(o: Oracles)
    ensures PenWithin(PenFor(o), 15.0)
  {}

  /** The commands that the renderer of release 2.0 prints. */
  function SignaturePath(o: Oracles, p: Profile, h: string): seq<PathCommand>
    requires o.Valid() && IsProfile(p) && h != ""
  {
    HandleGeometryShape(o, p, h);
    OutlineCommands(PenFor(o), SignaturePoints(o, p, h), p.bezierOutline)
  }

  lemma {:induction false} SignatureInRange(o: Oracles, p: Profile, h: string)
    requires o.Valid() && IsProfile(p) && h != ""
    ensures PathInRange(SignaturePath(o, p, h))
  {
    ReleaseIsValid(o, p, h);
    SignatureReaches(o, p, h);
    HandleGeometryShape(o, p, h);
    assert PenFor(o).Valid();
    PenForWithin(o);
    assert Reach(210.0, 300.0) <= 1.8e19;
    hide ReleaseFor, Reaches, PathInRange, OutlineCommands, PenWithin, PenFor, Pen.Valid, Placed, CenterGeometry, OutlineShift, ValidRelease, TargetSpan, WellShaped;
    hide IsProfile, Oracles.Valid;
    ReleaseInRange(h, ReleaseFor(o, p, h), PenFor(o), 210.0, 300.0, p.bezierOutline);
  }

  /**
   The path text of every handle, in every profile: it lexes, and draws exactly
   the closed outline of the signature's points (a chain of cubics for feeling
   types, a polygon of samples for the others) with every coordinate rounded to
   hundredths.
   */
  lemma {:induction false} PrintedSignatureDraws(o: Oracles, p: Profile, h: string)
    requires o.Valid() && IsProfile(p) && IsHandle(h)
    ensures var path, points := SignaturePath(o, p, h), SignaturePoints(o, p, h);
            && |points| == PointCount(h) >= 2 && path != [] && path[0].MoveTo? && DrawnBy(path) != []
            && (if p.bezierOutline then DrawsChain(path, PenFor(o), points) else DrawsPolygon(path, PenFor(o), points))
            && PathSegments(PathText(path)) == Ok(RoundedSegments(DrawnBy(path)))
  {
    HandleNonempty(h);
    assert PenFor(o).Valid();
    hide IsProfile, IsHandle, Oracles.Valid, SignaturePoints, PointCount, AllSmooth, SpansExactly, Midpoint, OutlineXs, OutlineCommands, PenFor, Pen.Valid, PathInRange, PathText, PathSegments, DrawsChain, DrawsPolygon, RoundedSegments;
    SignatureShape(o, p, h);
    SignatureInRange(o, p, h);
    OutlineDraws(PenFor(o), SignaturePoints(o, p, h), p.bezierOutline);
    PrintedOutlineDraws(PenFor(o), SignaturePoints(o, p, h), p.bezierOutline);
  }

  /** Rendering a handle and measuring the printed path. */
  method MeasureSignature(o: Oracles, h: string, mbti: string, sqrt: real -> real) returns (r: Result<Box, RenderError>)
    requires o.Valid() && IsSquareRoot(sqrt)
    ensures !IsHandle(h) <==> r == Err(InvalidHandle)
    ensures IsHandle(h) && ProfileFor(mbti).None? <==> r == Err(InvalidType)
    ensures r.Ok? ==>
      var path := SignaturePath(o, ProfileFor(mbti).value, h);
      && path != [] && path[0].MoveTo?
      && Tight(r.value, RoundedSegments(DrawnBy(path)))
      && forall exact :: Tight(exact, DrawnBy(path)) ==> BoxesClose(exact, r.value)
  {
    var rendered := RenderPath(o, h, mbti);
    if rendered.Err? {
      assert rendered.error == InvalidHandle || rendered.error == InvalidType;
      return Err(rendered.error);
    }
    var path := rendered.value;
    ghost var p := ProfileFor(mbti).value;
    assert IsProfile(p);
    HandleNonempty(h);
    hide IsProfile, IsHandle, ProfileFor, Oracles.Valid, SignaturePoints, OutlineCommands, PointCount, PathInRange, PathText, PathSegments, DrawsChain, DrawsPolygon, RoundedSegments, Tight, BoxesClose, DrawnBy;
    PrintedSignatureDraws(o, p, h);
    SignatureInRange(o, p, h);
    var box := MeasurePrinted(path, sqrt);
    return Ok(box);
  }

  // ----- release 1.0 -----

  lemma VariedWithin(base: real, v: real, share: real, limit: real)
    requires 0.0 <= base <= limit && -1.0 <= v <= 1.0 && 0.0 <= share <= 1.0
    ensures 0.0 <= Varied(base, v, share) <= limit * (1.0 + share)
  {
    NonnegativeProduct(v + 1.0, share);
    NonnegativeProduct(1.0 - v, share);
    NonnegativeProduct(base, 1.0 + v * share);
    NonnegativeProduct(limit - base, 1.0 + share);
    NonnegativeProduct(base, (1.0 - v) * share);
    assert base * (1.0 + share) == base * (1.0 + v * share) + base * ((1.0 - v) * share);
  }

  lemma VariedSeedWithin(o: Oracles, c: char, gr0kRaw: int)
    requires o.Valid()
    ensures var seed := SeededAt(o, c, gr0kRaw);
            0.0 <= seed.incoming <= 108.0 && 0.0 <= seed.outgoing <= 108.0 && Near(seed.yShift, 35.0)
  {
    var scope := CharacterScope(c);
    MapRangeBounds(Unit(o, scope, "incoming-handle-length"), Range(10.0, 90.0));
    MapRangeBounds(Unit(o, scope, "outgoing-handle-length"), Range(10.0, 90.0));
    MapRangeBounds(Unit(o, scope, "point-y-shift"), Range(-30.0, 30.0));
    hide Unit, MapRange, VariantSigned, Varied, Radians;
    VariedWithin(MapRange(Unit(o, scope, "incoming-handle-length"), Range(10.0, 90.0)), VariantSigned(o, scope, "incoming-handle-length", gr0kRaw), 0.2, 90.0);
    VariedWithin(MapRange(Unit(o, scope, "outgoing-handle-length"), Range(10.0, 90.0)), VariantSigned(o, scope, "outgoing-handle-length", gr0kRaw), 0.2, 90.0);
  }

  lemma TextAtNear(o: Oracles, text: string, gr0kRaw: int, i: nat, x: real, m: real)
    requires o.Valid() && Near(x, m - 120.0) && m >= 400.0
    ensures PointNear(TextAt(o, text, gr0kRaw, i, x), m)
  {
    hide SeededAt, AngleAt, Oracles.Valid, DirectedPoint, PointNear, SerialPoint;
    if i < |text| {
      VariedSeedWithin(o, text[i], gr0kRaw);
      var seed, angle := SeededAt(o, text[i], gr0kRaw), AngleAt(o, text, gr0kRaw, i);
      UnitDirection(o, angle);
      DirectedNear(Style(text[i], IsUppercase(text[i]), false), Vector(x, 210.0 + seed.yShift),
                   Vector(o.cos(angle), o.sin(angle)), seed.incoming, seed.outgoing, 120.0, m - 120.0);
    } else {
      SerialNear('_', x, 210.0, 1.0, x - 1.0, x + 1.0, m);
    }
  }

  lemma FormalPulseWithin(o: Oracles, text: string, gr0kRaw: int, first: real, last: real, m: real)
    requires o.Valid() && m >= 400.0 && -m <= first - (last - first) && last + (last - first) <= m
    ensures PulseWithin(FormalRelease(o, text, gr0kRaw).pulse, first, last, m)
  {
    var scope := DigitsScope(DigitsOf(text));
    MapRangeBounds(Unit(o, scope, "point-y-shift"), Range(-30.0, 30.0));
    hide Unit, MapRange, VariantSigned, Varied, TextWeights, TextAt;
    VariedWithin(40.0, VariantSigned(o, scope, "serial-height", gr0kRaw), 0.2, 40.0);
  }

  lemma FormalIdentityNear(o: Oracles, text: string, gr0kRaw: int, first: real, last: real, m: real)
    requires o.Valid() && m >= 400.0 && 120.0 - m <= first && last <= m - 120.0
    ensures IdentityNear(FormalRelease(o, text, gr0kRaw).identity, first, last, m)
  {
    var r := FormalRelease(o, text, gr0kRaw);
    hide Unit, MapRange, VariantSigned, Varied, Oracles.Valid, PointNear, TextAt, TextWeights;
    forall i: nat, x: real | first <= x <= last
      ensures PointNear(r.identity(i, x), m)
    {
      TextAtNear(o, text, gr0kRaw, i, x, m);
    }
  }

  lemma FormalReaches(o: Oracles, text: string, gr0kRaw: int, center: real, lineSpan: real)
    requires o.Valid() && text != "" && lineSpan > 0.0 && center >= 0.0
    ensures Reaches(FormalRelease(o, text, gr0kRaw), |text|, center, lineSpan)
  {
    hide FormalRelease, Oracles.Valid, TargetSpan, PulseWithin, IdentityNear;
    var m, span := Reach(center, lineSpan), TargetSpan(|text|, lineSpan);
    var first, last := center - span / 2.0, center + span / 2.0;
    SpanWithin(|text|, lineSpan);
    FormalPulseWithin(o, text, gr0kRaw, first, last, m);
    FormalIdentityNear(o, text, gr0kRaw, first, last, m);
  }

  lemma FormalPenWithin(o: Oracles)
    ensures PenWithin(FormalPen(o), 15.0)
  {}

  /** The commands that the renderer of release 1.0 prints, on a given centre and span. */
  function FormalPath(o: Oracles, text: string, gr0kRaw: int, center: real, lineSpan: real): seq<PathCommand>
    requires o.Valid() && text != "" && lineSpan > 0.0
  {
    FormalGeometryShape(o, text, gr0kRaw, center, lineSpan);
    OutlineCommands(FormalPen(o), FormalPoints(o, text, gr0kRaw, center, lineSpan), true)
  }

  lemma {:induction false} FormalInRange(o: Oracles, text: string, gr0kRaw: int, center: real, lineSpan: real)
    requires o.Valid() && text != "" && lineSpan > 0.0 && center >= 0.0 && Reach(center, lineSpan) <= 1.8e19
    ensures PathInRange(FormalPath(o, text, gr0kRaw, center, lineSpan))
  {
    FormalReleaseIsValid(o, text, gr0kRaw);
    FormalReaches(o, text, gr0kRaw, center, lineSpan);
    FormalGeometryShape(o, text, gr0kRaw, center, lineSpan);
    FormalPenValid(o);
    FormalPenWithin(o);
    hide FormalRelease, Reaches, Reach, PathInRange, OutlineCommands, PenWithin, FormalPen, Pen.Valid, Placed, CenterGeometry, OutlineShift, ValidRelease, TargetSpan, WellShaped;
    hide Oracles.Valid;
    ReleaseInRange(text, FormalRelease(o, text, gr0kRaw), FormalPen(o), center, lineSpan, true);
  }

  /** ECMAScript strings are shorter than this (ECMA-262, section 6.1.4). */
  const STRING_LIMIT := 9_007_199_254_740_992

  lemma CanvasReach(count: nat)
    requires 0 < count < STRING_LIMIT
    ensures var canvas := ReusableTextCurveLayout(count);
            canvas.curveSpan > 0.0 && canvas.Center() >= 0.0 && Reach(canvas.Center(), canvas.curveSpan) <= 1.8e19
  {
    LongTextKeepsItsSegments(count);
  }

  /** The same for every text that the runtime can hold and every reading, on the canvas that its length asks for. */
  lemma {:induction false} PrintedTextSignatureDraws(o: Oracles, text: string, gr0kRaw: int)
    requires o.Valid() && 0 < |text| < STRING_LIMIT
    ensures var canvas := ReusableTextCurveLayout(|text|);
            canvas.curveSpan > 0.0
            && var path, points := FormalPath(o, text, gr0kRaw, canvas.Center(), canvas.curveSpan), FormalPoints(o, text, gr0kRaw, canvas.Center(), canvas.curveSpan);
            && |points| == PointCount(text) >= 2 && path != [] && path[0].MoveTo? && DrawnBy(path) != []
            && DrawsChain(path, FormalPen(o), points)
            && PathSegments(PathText(path)) == Ok(RoundedSegments(DrawnBy(path)))
  {
    CanvasReach(|text|);
    FormalPenValid(o);
    var canvas := ReusableTextCurveLayout(|text|);
    var center, span := canvas.Center(), canvas.curveSpan;
    hide Oracles.Valid, FormalPoints, PointCount, AllSmooth, SpansExactly, Midpoint, OutlineXs, OutlineCommands, FormalPen, Pen.Valid, PathInRange, PathText, PathSegments, DrawsChain, DrawsPolygon, RoundedSegments, Reach, ReusableTextCurveLayout, Canvas.Center, TargetSpan;
    FormalSignatureShape(o, text, gr0kRaw, center, span);
    FormalInRange(o, text, gr0kRaw, center, span);
    OutlineDraws(FormalPen(o), FormalPoints(o, text, gr0kRaw, center, span), true);
    PrintedOutlineDraws(FormalPen(o), FormalPoints(o, text, gr0kRaw, center, span), true);
  }

  /** Rendering a text and measuring the printed path. */
  method MeasureText(o: Oracles, text: string, gr0kRaw: int, sqrt: real -> real) returns (r: Result<Box, FormalError>)
    requires o.Valid() && IsSquareRoot(sqrt) && |text| < STRING_LIMIT
    ensures r.Err? <==> text == "" || !(1 <= gr0kRaw <= 100)
    ensures r.Ok? ==>
      var canvas := ReusableTextCurveLayout(|text|);
      canvas.curveSpan > 0.0
      && var path := FormalPath(o, text, gr0kRaw, canvas.Center(), canvas.curveSpan);
      && path != [] && path[0].MoveTo?
      && Tight(r.value, RoundedSegments(DrawnBy(path)))
      && forall exact :: Tight(exact, DrawnBy(path)) ==> BoxesClose(exact, r.value)
  {
    var rendered := RenderText(o, text, gr0kRaw);
    if rendered.Err? {
      return Err(rendered.error);
    }
    var path := rendered.value;
    CanvasReach(|text|);
    ghost var canvas := ReusableTextCurveLayout(|text|);
    assert path == OutlineCommands(FormalPen(o), FormalPoints(o, text, gr0kRaw, canvas.Center(), canvas.curveSpan), true);
    hide Oracles.Valid, FormalPoints, OutlineCommands, BezierCommands, PointCount, PathInRange, PathText, PathSegments, DrawsChain, RoundedSegments, Tight, BoxesClose, DrawnBy, FormalPen, Reach, ReusableTextCurveLayout, Canvas.Center;
    PrintedTextSignatureDraws(o, text, gr0kRaw);
    FormalInRange(o, text, gr0kRaw, canvas.Center(), canvas.curveSpan);
    var box := MeasurePrinted(path, sqrt);
    return Ok(box);
  }
}
