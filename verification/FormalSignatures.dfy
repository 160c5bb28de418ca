/** The signatures of release 1.0: a reading from 1 to 100 varies every value, and long texts get a wider canvas. */
module FormalSignatures {
  import opened Wrappers
  import opened Vectors
  import opened Cubics
  import CanonicalJson
  import opened HashScopes
  import opened Outline
  import opened OutlinePaths
  import opened Centring
  import opened Layout
  import opened WeightedLayout
  import opened Geometry
  import opened Signatures

  // ----- the canvas -----

  /** The curve's span, and the width of the canvas that it is centred on. */
  datatype Canvas = Canvas(curveSpan: real, width: real) {
    function Center(): real {
      width / 2.0
    }
  }

  const REFERENCE_SEGMENT := 300.0 / 14.0

  function ReusableTextCurveLayout(count: nat): Canvas
    requires count > 0
  {
    if count > 15 then Canvas(REFERENCE_SEGMENT * ((count - 1) as real), REFERENCE_SEGMENT * ((count - 1) as real) + 120.0)
    else Canvas(300.0, 420.0)
  }

  /**
   From 15 characters on the span grows by one reference segment per character, so
   the mean distance of neighbours never falls below it; below, the canvas is fixed.
   The margins are 60 on both sides throughout.
   */
  lemma LongTextKeepsItsSegments(count: nat)
    requires count > 0
    ensures var canvas := ReusableTextCurveLayout(count);
            && canvas.width - canvas.curveSpan == 120.0 && canvas.curveSpan >= 300.0
            && (count >= 15 ==> canvas.curveSpan == REFERENCE_SEGMENT * ((count - 1) as real))
            && (count > 1 ==> canvas.curveSpan >= REFERENCE_SEGMENT * ((count - 1) as real))
  {
    var n := (count - 1) as real;
    if count <= 15 {
      assert n <= 14.0;
      NonnegativeProduct(14.0 - n, REFERENCE_SEGMENT);
    } else {
      assert n >= 14.0;
      NonnegativeProduct(n - 14.0, REFERENCE_SEGMENT);
    }
  }

  // ----- varied values -----

  function WithReading(scope: CanonicalJson.Json, gr0kRaw: int): CanonicalJson.Json
    requires scope.Object?
  {
    CanonicalJson.Object(scope.fields + [CanonicalJson.Field(Label("gr0k_raw"), CanonicalJson.Integer(gr0kRaw))])
  }

  /** A value in [-1, 1) that depends on the reading as well. */
  function VariantSigned(o: Oracles, scope: CanonicalJson.Json, parameter: string, gr0kRaw: int): (v: real)
    requires o.Valid() && scope.Object?
    ensures -1.0 <= v < 1.0
  {
    2.0 * Unit(o, WithReading(scope, gr0kRaw), "gr0k/" + parameter) - 1.0
  }

  function Radians(o: Oracles, degrees: real): real {
    degrees * (o.pi / 180.0)
  }

  datatype VariedSeed = VariedSeed(angle: real, delta: real, incoming: real, outgoing: real, yShift: real)

  function Varied(base: real, v: real, share: real): real {
    base * (1.0 + v * share)
  }

  function SeededAt(o: Oracles, c: char, gr0kRaw: int): VariedSeed
    requires o.Valid()
  {
    var scope := CharacterScope(c);
    VariedSeed(Radians(o, MapRange(Unit(o, scope, "handle-angle"), Range(-45.0, 45.0))),
         Radians(o, VariantSigned(o, scope, "handle-angle", gr0kRaw) * 10.0),
         Varied(MapRange(Unit(o, scope, "incoming-handle-length"), Range(10.0, 90.0)), VariantSigned(o, scope, "incoming-handle-length", gr0kRaw), 0.2),
         Varied(MapRange(Unit(o, scope, "outgoing-handle-length"), Range(10.0, 90.0)), VariantSigned(o, scope, "outgoing-handle-length", gr0kRaw), 0.2),
         MapRange(Unit(o, scope, "point-y-shift"), Range(-30.0, 30.0)) + VariantSigned(o, scope, "point-y", gr0kRaw) * 5.0)
  }

  lemma VariedIsPositive(base: real, v: real, share: real)
    requires base > 0.0 && -1.0 <= v && 0.0 <= share < 1.0
    ensures Varied(base, v, share) > 0.0
  {
    NonnegativeProduct(v + 1.0, share);
    PositiveProduct(base, 1.0 + v * share);
  }

  lemma SeededHandlesPositive(o: Oracles, c: char, gr0kRaw: int)
    requires o.Valid()
    ensures SeededAt(o, c, gr0kRaw).incoming > 0.0 && SeededAt(o, c, gr0kRaw).outgoing > 0.0
  {
    var scope := CharacterScope(c);
    MapRangeBounds(Unit(o, scope, "incoming-handle-length"), Range(10.0, 90.0));
    MapRangeBounds(Unit(o, scope, "outgoing-handle-length"), Range(10.0, 90.0));
    hide Unit, MapRange, VariantSigned, Varied, Radians;
    VariedIsPositive(MapRange(Unit(o, scope, "incoming-handle-length"), Range(10.0, 90.0)), VariantSigned(o, scope, "incoming-handle-length", gr0kRaw), 0.2);
    VariedIsPositive(MapRange(Unit(o, scope, "outgoing-handle-length"), Range(10.0, 90.0)), VariantSigned(o, scope, "outgoing-handle-length", gr0kRaw), 0.2);
  }

  /** The angle of character i: a quarter, a half and a quarter of its neighbourhood, and its own variation. */
  function AngleAt(o: Oracles, text: string, gr0kRaw: int, i: nat): real
    requires o.Valid() && i < |text|
  {
    var previous := SeededAt(o, text[if i == 0 then 0 else i - 1], gr0kRaw).angle;
    var following := SeededAt(o, text[if i == |text| - 1 then i else i + 1], gr0kRaw).angle;
    var own := SeededAt(o, text[i], gr0kRaw);
    (previous + 2.0 * own.angle + following) / 4.0 + own.delta
  }

  function TextPoint(o: Oracles, text: string, gr0kRaw: int, i: nat, x: real): Point
    requires o.Valid() && i < |text|
  {
    var seed, angle := SeededAt(o, text[i], gr0kRaw), AngleAt(o, text, gr0kRaw, i);
    DirectedPoint(Style(text[i], IsUppercase(text[i]), false), Vector(x, 210.0 + seed.yShift),
                  Vector(o.cos(angle), o.sin(angle)), seed.incoming, seed.outgoing)
  }

  lemma TextPointSmooth(o: Oracles, text: string, gr0kRaw: int, i: nat, x: real)
    requires o.Valid() && i < |text|
    ensures Smooth(TextPoint(o, text, gr0kRaw, i, x)) && TextPoint(o, text, gr0kRaw, i, x).anchor.x == x
  {
    hide SeededAt, AngleAt, Oracles.Valid, Smooth, DirectedPoint;
    SeededHandlesPositive(o, text[i], gr0kRaw);
    var seed, angle := SeededAt(o, text[i], gr0kRaw), AngleAt(o, text, gr0kRaw, i);
    UnitDirection(o, angle);
    DirectedIsSmooth(Style(text[i], IsUppercase(text[i]), false), Vector(x, 210.0 + seed.yShift),
                     Vector(o.cos(angle), o.sin(angle)), seed.incoming, seed.outgoing);
  }

  // ----- weights -----

  function DigitWeight(o: Oracles, digit: char, gr0kRaw: int): real
    requires o.Valid()
  {
    var scope := CharacterScope(digit);
    Varied(MapRange(Unit(o, scope, "serial-width-weight"), Range(0.2, 1.0)), VariantSigned(o, scope, "serial-width", gr0kRaw), 0.2)
  }

  function PairWeight(o: Oracles, left: char, right: char, gr0kRaw: int): real
    requires o.Valid()
  {
    Varied(1.0, VariantSigned(o, PairScope(left, right), "point-gap", gr0kRaw), 0.5)
  }

  function TextWeights(o: Oracles, gr0kRaw: int): Weights
    requires o.Valid()
  {
    Weights(c => DigitWeight(o, c, gr0kRaw), (a, b) => PairWeight(o, a, b, gr0kRaw), (digit, nonDigit) => DigitWeight(o, digit, gr0kRaw) * 0.6)
  }

  /** The point of character i; beyond the text any point will do. */
  function TextAt(o: Oracles, text: string, gr0kRaw: int, i: nat, x: real): Point
    requires o.Valid()
  {
    if i < |text| then TextPoint(o, text, gr0kRaw, i, x) else SerialPoint('_', x, 210.0, 1.0)
  }

  function FormalRelease(o: Oracles, text: string, gr0kRaw: int): Release
    requires o.Valid()
  {
    var scope := DigitsScope(DigitsOf(text));
    var yShift := MapRange(Unit(o, scope, "point-y-shift"), Range(-30.0, 30.0)) + VariantSigned(o, scope, "point-y", gr0kRaw) * 5.0;
    var maxHeight := Varied(40.0, VariantSigned(o, scope, "serial-height", gr0kRaw), 0.2);
    Release(TextWeights(o, gr0kRaw), Pulse(210.0 + maxHeight * 0.5 + yShift, maxHeight, 0.28),
            (i: nat, x: real) => TextAt(o, text, gr0kRaw, i, x))
  }

  lemma TextWeightsPositive(o: Oracles, gr0kRaw: int)
    requires o.Valid()
    ensures Positive(TextWeights(o, gr0kRaw))
  {
    forall c
      ensures DigitWeight(o, c, gr0kRaw) > 0.0 && DigitWeight(o, c, gr0kRaw) * 0.6 > 0.0
    {
      var scope := CharacterScope(c);
      MapRangeBounds(Unit(o, scope, "serial-width-weight"), Range(0.2, 1.0));
      VariedIsPositive(MapRange(Unit(o, scope, "serial-width-weight"), Range(0.2, 1.0)), VariantSigned(o, scope, "serial-width", gr0kRaw), 0.2);
    }
    forall a, b
      ensures PairWeight(o, a, b, gr0kRaw) > 0.0
    {
      VariedIsPositive(1.0, VariantSigned(o, PairScope(a, b), "point-gap", gr0kRaw), 0.5);
    }
    hide Unit, MapRange, VariantSigned, Varied, DigitWeight, PairWeight, Oracles.Valid;
  }

  /** Release 1.0 meets what the layout asks of a release, for every text and reading. */
  lemma FormalReleaseIsValid(o: Oracles, text: string, gr0kRaw: int)
    requires o.Valid()
    ensures ValidRelease(FormalRelease(o, text, gr0kRaw), text)
  {
    TextWeightsPositive(o, gr0kRaw);
    forall i: nat, x: real
      ensures TextAt(o, text, gr0kRaw, i, x).anchor.x == x
      ensures i < |text| ==> Smooth(TextAt(o, text, gr0kRaw, i, x))
    {
      if i < |text| {
        TextPointSmooth(o, text, gr0kRaw, i, x);
      }
    }
    hide Positive, Smooth, TextAt, TextWeights, MapRange, Varied, VariantSigned, Oracles.Valid;
    var r := FormalRelease(o, text, gr0kRaw);
    assert forall i: nat, x: real :: r.identity(i, x) == TextAt(o, text, gr0kRaw, i, x);
  }

  // ----- the outline -----

  function FormalWeightAt(style: Style): real {
    if style.serialTail then 4.0
    else if style.character == '_' then 0.15
    else 4.0 + (if style.uppercase then 10.0 else 0.0)
  }

  function FormalPen(o: Oracles): Pen {
    Pen(FormalWeightAt, o.hypot)
  }

  function TextGeometry(o: Oracles, text: string, gr0kRaw: int, center: real, lineSpan: real): seq<Point>
    requires o.Valid() && text != "" && lineSpan > 0.0
  {
    var release := FormalRelease(o, text, gr0kRaw);
    FormalReleaseIsValid(o, text, gr0kRaw);
    SpanPositive(|text|, lineSpan);
    PlacedNonempty(text, release, center, TargetSpan(|text|, lineSpan));
    CenterGeometry(Placed(text, release, center, TargetSpan(|text|, lineSpan)), center)
  }

  function FormalPoints(o: Oracles, text: string, gr0kRaw: int, center: real, lineSpan: real): seq<Point>
    requires o.Valid() && text != "" && lineSpan > 0.0
  {
    var points := TextGeometry(o, text, gr0kRaw, center, lineSpan);
    if |points| < 2 then points else ShiftAll(points, OutlineShift(FormalPen(o), points, center))
  }

  datatype FormalError = InvalidText | InvalidReading

  /** The path commands of a text for a reading, on the canvas that its length asks for. */
  method RenderText(o: Oracles, text: string, gr0kRaw: int) returns (r: Result<seq<PathCommand>, FormalError>)
    requires o.Valid()
    ensures r.Err? <==> text == "" || !(1 <= gr0kRaw <= 100)
    ensures text == "" ==> r == Err(InvalidText)
    ensures r.Ok? ==>
      var canvas := ReusableTextCurveLayout(|text|);
      canvas.curveSpan > 0.0 && |FormalPoints(o, text, gr0kRaw, canvas.Center(), canvas.curveSpan)| >= 2
      && r.value == BezierCommands(FormalPen(o), FormalPoints(o, text, gr0kRaw, canvas.Center(), canvas.curveSpan))
  {
    if text == "" {
      return Err(InvalidText);
    }
    var canvas := ReusableTextCurveLayout(|text|);
    LongTextKeepsItsSegments(|text|);
    if gr0kRaw < 1 || gr0kRaw > 100 {
      return Err(InvalidReading);
    }
    hide Oracles.Valid, ReusableTextCurveLayout, FormalPoints, BezierCommands, FormalPen, Canvas.Center;
    var path := RenderOn(o, text, gr0kRaw, canvas.Center(), canvas.curveSpan);
    return Ok(path);
  }

  /** The path commands of a handle for a reading, on the reference canvas. */
  method RenderHandle(o: Oracles, handle: string, gr0kRaw: int) returns (r: Result<seq<PathCommand>, FormalError>)
    requires o.Valid()
    ensures !IsHandle(handle) <==> r == Err(InvalidText)
    ensures IsHandle(handle) && !(1 <= gr0kRaw <= 100) <==> r == Err(InvalidReading)
    ensures r.Ok? ==>
      handle != "" && |FormalPoints(o, handle, gr0kRaw, 210.0, 300.0)| >= 2
      && r.value == BezierCommands(FormalPen(o), FormalPoints(o, handle, gr0kRaw, 210.0, 300.0))
  {
    if !IsHandle(handle) {
      return Err(InvalidText);
    }
    if gr0kRaw < 1 || gr0kRaw > 100 {
      return Err(InvalidReading);
    }
    HandleNonempty(handle);
    hide Oracles.Valid, IsHandle, FormalPoints, BezierCommands, FormalPen;
    var path := RenderOn(o, handle, gr0kRaw, 210.0, 300.0);
    return Ok(path);
  }

  /** Both centring passes and the outline, on a given centre and span. */
  method RenderOn(o: Oracles, text: string, gr0kRaw: int, center: real, lineSpan: real) returns (path: seq<PathCommand>)
    requires o.Valid() && text != "" && lineSpan > 0.0
    ensures |FormalPoints(o, text, gr0kRaw, center, lineSpan)| >= 2
    ensures path == BezierCommands(FormalPen(o), FormalPoints(o, text, gr0kRaw, center, lineSpan))
  {
    FormalReleaseIsValid(o, text, gr0kRaw);
    FormalGeometryShape(o, text, gr0kRaw, center, lineSpan);
    hide Oracles.Valid, FormalRelease, BezierCommands, Placed, OutlineShift, CenterGeometry, WellShaped, TargetSpan;
    var geometry := GeometryFor(text, FormalRelease(o, text, gr0kRaw), center, lineSpan);
    var points := CenterPointsForOutline(FormalPen(o), geometry, center);
    path := BezierVariableWidthPath(FormalPen(o), points);
  }

  lemma {:induction false} FormalGeometryShape(o: Oracles, text: string, gr0kRaw: int, center: real, lineSpan: real)
    requires o.Valid() && text != "" && lineSpan > 0.0
    ensures WellShaped(TextGeometry(o, text, gr0kRaw, center, lineSpan), text, TargetSpan(|text|, lineSpan), center)
    ensures |TextGeometry(o, text, gr0kRaw, center, lineSpan)| >= 2
  {
    FormalReleaseIsValid(o, text, gr0kRaw);
    GeometryShape(text, FormalRelease(o, text, gr0kRaw), center, lineSpan);
    hide FormalRelease, ValidRelease, Oracles.Valid, Placed, CenterGeometry, SpansExactly, AllSmooth, PointCount, TargetSpan, Midpoint;
  }

  /**
   Every text and every reading: the outline's points number as the characters
   dictate, their anchors strictly increase over exactly the target span, every
   joint is smooth, and the sampled outline is centred on the canvas.
   */
  lemma {:induction false} FormalSignatureShape(o: Oracles, text: string, gr0kRaw: int, center: real, lineSpan: real)
    requires o.Valid() && text != "" && lineSpan > 0.0
    ensures var points := FormalPoints(o, text, gr0kRaw, center, lineSpan);
            && |points| == PointCount(text) >= 2
            && SpansExactly(points, TargetSpan(|text|, lineSpan))
            && AllSmooth(points)
            && Midpoint(OutlineXs(FormalPen(o), points, |points| - 1)) == center
  {
    hide TextGeometry, Oracles.Valid, OutlineXs, Midpoint, SpansExactly, AllSmooth, PointCount, OutlineShift, FormalPen, TargetSpan;
    FormalGeometryShape(o, text, gr0kRaw, center, lineSpan);
    OutlinePassShape(FormalPen(o), TextGeometry(o, text, gr0kRaw, center, lineSpan), TargetSpan(|text|, lineSpan), center);
  }

  lemma FormalPenValid(o: Oracles)
    requires o.Valid()
    ensures FormalPen(o).Valid()
  {}

  /** For every text and every reading the path draws one closed chain through the offsets of its segments. */
  lemma {:induction false} FormalOutlineIsClosed(o: Oracles, text: string, gr0kRaw: int, center: real, lineSpan: real)
    requires o.Valid() && text != "" && lineSpan > 0.0
    ensures |FormalPoints(o, text, gr0kRaw, center, lineSpan)| >= 2
    ensures DrawsClosedChain(FormalPen(o), FormalPoints(o, text, gr0kRaw, center, lineSpan))
  {
    hide FormalPoints, Oracles.Valid, PointCount, AllSmooth, SpansExactly, DrawsClosedChain, Midpoint, OutlineXs, FormalPen, TargetSpan, Pen.Valid;
    FormalSignatureShape(o, text, gr0kRaw, center, lineSpan);
    FormalPenValid(o);
    BezierOutlineDraws(FormalPen(o), FormalPoints(o, text, gr0kRaw, center, lineSpan));
  }
}
