/** What the hashed fractions become: lengths, angles, shifts and weights in closed form, with their symmetries. */
module SignatureValues {
  import opened Wrappers
  import opened Vectors
  import opened Cubics
  import CanonicalJson
  import opened HashScopes
  import opened HashValues
  import opened Outline
  import opened Layout
  import opened WeightedLayout
  import opened Geometry
  import opened Signatures

  // ----- pulses -----

  /** A pulse stays flat at zero, rises to the full height at nine, and by equal steps between. */
  lemma PulsesRiseEvenly(c: char, height: real)
    requires IsDigit(c)
    ensures c == '0' ==> PulseHeight(c, height) == 0.0
    ensures c == '9' ==> PulseHeight(c, height) == height
    ensures c < '9' ==> 9.0 * (PulseHeight((c as int + 1) as char, height) - PulseHeight(c, height)) == height
  {
    var d := (c as int - '0' as int) as real;
    var next := (c as int + 1 - '0' as int) as real;
    assert next == d + 1.0;
    Ninth(d, height);
    Ninth(next, height);
    Distributed(height, d, 1.0);
  }

  lemma Ninth(digit: real, height: real)
    ensures 9.0 * (digit / 9.0 * height) == digit * height
  {
    assert 9.0 * (digit / 9.0) == digit;
  }

  // ----- release 2.0: the profile -----

  /** The first pole colours the artwork and leaves its geometry alone; each of the others changes it. */
  lemma PolesMatter(mbti: string, other: string)
    requires ProfileFor(mbti).Some? && ProfileFor(other).Some?
    ensures ProfileFor(mbti) == ProfileFor(other) <==> mbti[1..] == other[1..]
  {
    if mbti[1..] == other[1..] {
      assert mbti[1] == mbti[1..][0] == other[1..][0] && mbti[2] == mbti[1..][1] == other[1..][1] && mbti[3] == mbti[1..][2] == other[1..][2];
    }
  }

  // ----- release 2.0: the hashed fractions -----

  lemma SpaceQuoted()
    ensures CanonicalJson.Quoted(Label("signature-field")) == Label("\"signature-field\"")
  {
    QuotedLabel("signature-field", "\"signature-field\"");
    hide Label, CanonicalJson.Quoted;
  }

  /** What is hashed for a fraction: its namespace, parameter, scheme and scope, spelled in this order. */
  lemma UnitIsHashed(o: Oracles, scope: CanonicalJson.Json, parameter: string)
    requires o.Valid()
    ensures var words := o.digest(Braced([FieldText(Label("\"namespace\""), Label("\"signature-field\"")),
                                          FieldText(Label("\"parameter\""), CanonicalJson.Quoted(Label(parameter))),
                                          FieldText(Label("\"scheme\""), Label("\"sha256-labeled-u53\"")),
                                          FieldText(Label("\"scope\""), CanonicalJson.Canonical(scope))]));
            Unit(o, scope, parameter) == UnitFraction(words.0, words.1)
  {
    hide Label, CanonicalJson.Quoted, Braced, FieldText, CanonicalJson.Canonical, UnitFraction;
    SpaceQuoted();
    PayloadText(Label("signature-field"), Label(parameter), scope);
  }

  /** What a profile's pole makes of the handle lengths: how far they reach beyond 10, and how much of their difference stays. */
  function Reach(mbti: string): real
    requires |mbti| == 4
  {
    if mbti[1] == 'N' then 110.0 else 30.0
  }

  /**
   Blending keeps the sum of the two lengths and shrinks their difference, to a half
   for intuitive types and to nine tenths for others; the longer one stays the longer.
   */
  lemma LengthsFromFractions(o: Oracles, mbti: string, p: Profile, c: char)
    requires o.Valid() && ProfileFor(mbti) == Some(p)
    ensures var a, b := Unit(o, CharacterScope(c), "incoming-handle-length"), Unit(o, CharacterScope(c), "outgoing-handle-length");
            var seed := Seeded(o, p, c);
            && seed.incoming + seed.outgoing == 20.0 + (a + b) * Reach(mbti)
            && seed.incoming - seed.outgoing == (a - b) * Reach(mbti) * (if mbti[1] == 'N' then 0.5 else 0.9)
            && (seed.incoming <= seed.outgoing <==> a <= b)
  {
    var a, b := Unit(o, CharacterScope(c), "incoming-handle-length"), Unit(o, CharacterScope(c), "outgoing-handle-length");
    hide Unit, MapPointY, Oracles.Valid;
    var x, y := MapRange(a, p.handleLength), MapRange(b, p.handleLength);
    assert x == 10.0 + a * Reach(mbti) && y == 10.0 + b * Reach(mbti);
    Blended(x, y, p.balance);
  }

  lemma Blended(x: real, y: real, k: real)
    ensures var mean := (x + y) / 2.0;
            && (x * (1.0 - k) + mean * k) + (y * (1.0 - k) + mean * k) == x + y
            && (x * (1.0 - k) + mean * k) - (y * (1.0 - k) + mean * k) == (x - y) * (1.0 - k)
  {}

  /** A fraction spread from minus to plus the extent. */
  function Spread(extent: real, u: real): real {
    extent * (2.0 * u - 1.0)
  }

  /** The angle turns once around over the fractions, from behind through ahead to behind. */
  lemma AngleFromFraction(o: Oracles, p: Profile, c: char)
    requires o.Valid()
    ensures Seeded(o, p, c).angle == Spread(o.pi, Unit(o, CharacterScope(c), "handle-angle"))
  {
    hide Unit, MapPointY, Oracles.Valid, Spread;
    HalfTurn(Unit(o, CharacterScope(c), "handle-angle"), o.pi);
  }

  lemma HalfTurn(u: real, pi: real)
    ensures (-180.0 + u * (180.0 - -180.0)) * (pi / 180.0) == Spread(pi, u)
  {}

  /** An angle is smoothed towards its neighbours' mean: by a half for intuitive types, by a tenth for others. */
  lemma AnglesSmoothed(o: Oracles, mbti: string, p: Profile, h: string, i: nat)
    requires o.Valid() && ProfileFor(mbti) == Some(p) && i < |h|
    ensures var own := Seeded(o, p, h[i]).angle;
            var before := if i > 0 then Seeded(o, p, h[i - 1]).angle else own;
            var after := if i < |h| - 1 then Seeded(o, p, h[i + 1]).angle else own;
            if mbti[1] == 'N' then 4.0 * SmoothedAngle(o, p, h, i) == before + 2.0 * own + after
            else 20.0 * SmoothedAngle(o, p, h, i) == before + 18.0 * own + after
  {
    hide Seeded, Oracles.Valid;
    var own := Seeded(o, p, h[i]).angle;
    var before := if i > 0 then Seeded(o, p, h[i - 1]).angle else own;
    var after := if i < |h| - 1 then Seeded(o, p, h[i + 1]).angle else own;
    assert SmoothedAngle(o, p, h, i) == own * (1.0 - p.smoothing) + (before + after) / 2.0 * p.smoothing;
  }

  // ----- release 2.0: vertical shifts -----

  /** Judging types shift in proportion; underscores too, downwards only and under their own scope. */
  lemma ProportionalShifts(o: Oracles, mbti: string, p: Profile, c: char)
    requires o.Valid() && ProfileFor(mbti) == Some(p)
    ensures c == '_' ==> Seeded(o, p, c).yShift == 50.0 * Unit(o, UNDERSCORE_SCOPE, "point-y-shift")
    ensures c != '_' && mbti[3] == 'J' ==> Seeded(o, p, c).yShift == 40.0 * Unit(o, CharacterScope(c), "point-y-shift") - 20.0
    ensures c != '_' ==> Seeded(o, p, c).yShift == MapPointY(Unit(o, CharacterScope(c), "point-y-shift"), p)
  {
    hide Unit, Oracles.Valid, Contrast, SignedValue;
  }

  function Cubed(x: real): real {
    x * x * x
  }

  lemma Cube(x: real)
    ensures Signatures.Power(x, 3) == Cubed(x)
  {
    assert Signatures.Power(x, 0) == 1.0;
    assert Signatures.Power(x, 1) == x;
    assert Signatures.Power(x, 2) == x * x;
  }

  /** part is to the rest of whole as a is to b. */
  predicate InRatio(part: real, whole: real, a: real, b: real) {
    part * b == (whole - part) * a
  }

  lemma ContrastOfCubes(m: real)
    requires 0.0 <= m <= 1.0
    ensures InRatio(40.0 * Contrast(m, 3), 40.0, Cubed(m), Cubed(1.0 - m))
  {
    PowerSign(m, 3);
    PowerSign(1.0 - m, 3);
    Cube(m);
    Cube(1.0 - m);
    QuotientTimes(Signatures.Power(m, 3), Signatures.Power(m, 3) + Signatures.Power(1.0 - m, 3));
    hide Signatures.Power, Cubed, InRatio;
    CrossRatio(Contrast(m, 3), Cubed(m), Cubed(1.0 - m));
  }

  lemma CrossRatio(k: real, a: real, b: real)
    requires k * (a + b) == a
    ensures InRatio(40.0 * k, 40.0, a, b)
  {
    assert k * (a + b) == k * a + k * b;
  }

  lemma ContrastSign(m: real)
    requires 0.0 <= m <= 1.0
    ensures if m == 0.0 then Contrast(m, 3) == 0.0 else Contrast(m, 3) > 0.0
  {
    PowerSign(m, 3);
    PowerSign(1.0 - m, 3);
    Cube(m);
    if m > 0.0 {
      PositiveQuotient(Signatures.Power(m, 3), Signatures.Power(m, 3) + Signatures.Power(1.0 - m, 3));
    }
    hide Signatures.Power;
  }

  /** A contrasted shift has the sign of its fraction's distance from a half, and 40 times the contrast of twice that distance. */
  lemma ContrastedShift(mbti: string, p: Profile, u: real)
    requires ProfileFor(mbti) == Some(p) && mbti[3] == 'P' && 0.0 <= u <= 1.0
    ensures Magnitude(MapPointY(u, p)) == 40.0 * Contrast(Magnitude(2.0 * u - 1.0), 3)
    ensures SignOf(MapPointY(u, p)) == SignOf(2.0 * u - 1.0)
  {
    var s, k := SignOf(2.0 * u - 1.0), Contrast(Magnitude(2.0 * u - 1.0), 3);
    ContrastSign(Magnitude(2.0 * u - 1.0));
    hide Contrast;
    assert MapPointY(u, p) == SignedValue(s, 40.0, k);
    Signed(40.0, s, k);
  }

  /**
   Perceiving types push shifts away from the middle: with m the distance of the
   fraction from a half, doubled, the shift is to what is left of 40 as m cubed is to
   (1 - m) cubed, downwards above a half and upwards below it.
   */
  lemma ContrastedShifts(mbti: string, p: Profile, u: real)
    requires ProfileFor(mbti) == Some(p) && mbti[3] == 'P' && 0.0 <= u <= 1.0
    ensures var m, y := Magnitude(2.0 * u - 1.0), Magnitude(MapPointY(u, p));
            InRatio(y, 40.0, Cubed(m), Cubed(1.0 - m))
    ensures (u > 0.5 ==> MapPointY(u, p) > 0.0) && (u < 0.5 ==> MapPointY(u, p) < 0.0) && (u == 0.5 ==> MapPointY(u, p) == 0.0)
  {
    var m := Magnitude(2.0 * u - 1.0);
    ContrastedShift(mbti, p, u);
    ContrastOfCubes(m);
    hide Contrast, MapPointY, ProfileFor, Cubed, InRatio;
  }

  /** Opposite fractions shift by opposite amounts, in every profile. */
  lemma ShiftsAreOdd(mbti: string, p: Profile, u: real)
    requires ProfileFor(mbti) == Some(p) && 0.0 <= u <= 1.0
    ensures MapPointY(1.0 - u, p) == -MapPointY(u, p)
  {
    hide Contrast;
    var a, b := u * 2.0 - 1.0, (1.0 - u) * 2.0 - 1.0;
    assert b == -a && Magnitude(a) == Magnitude(b) && SignOf(b) == -SignOf(a);
    Opposite(SignOf(a), Extent(p.yRange), Contrast(Magnitude(a), p.yContrast));
  }

  lemma Opposite(s: real, e: real, c: real)
    ensures SignedValue(-s, e, c) == -SignedValue(s, e, c)
  {}

  // ----- release 2.0: points, weights and strokes -----

  /** v is the given length along the angle. */
  ghost predicate Points(o: Oracles, v: Vector, angle: real, length: real) {
    && v.x * o.cos(angle) + v.y * o.sin(angle) == length
    && v.x * o.sin(angle) == v.y * o.cos(angle)
  }

  lemma LengthAlong(c: real, s: real, length: real)
    requires c * c + s * s == 1.0
    ensures (c * length) * c + (s * length) * s == length
    ensures (c * length) * s == (s * length) * c
  {
    assert (c * length) * c + (s * length) * s == length * (c * c + s * s);
  }

  lemma DirectedPointsAlong(o: Oracles, style: Style, anchor: Vector, angle: real, incoming: real, outgoing: real)
    requires o.Valid()
    ensures var p := DirectedPoint(style, anchor, Vector(o.cos(angle), o.sin(angle)), incoming, outgoing);
            && p.style == style && p.anchor == anchor
            && Points(o, Vector(p.outgoing.x - anchor.x, p.outgoing.y - anchor.y), angle, outgoing)
            && Points(o, Vector(anchor.x - p.incoming.x, anchor.y - p.incoming.y), angle, incoming)
  {
    UnitDirection(o, angle);
    var c, s := o.cos(angle), o.sin(angle);
    LengthAlong(c, s, incoming);
    LengthAlong(c, s, outgoing);
    var p := DirectedPoint(style, anchor, Vector(c, s), incoming, outgoing);
    assert p.outgoing.x - anchor.x == c * outgoing && p.outgoing.y - anchor.y == s * outgoing;
    assert anchor.x - p.incoming.x == c * incoming && anchor.y - p.incoming.y == s * incoming;
    hide Oracles.Valid;
  }

  /** A character's point stands its shift below the middle; its handles point along its smoothed angle, with the seeded lengths. */
  lemma IdentityPointAlong(o: Oracles, p: Profile, h: string, i: nat, x: real)
    requires o.Valid() && i < |h|
    ensures var point, seed, angle := IdentityPoint(o, p, h, i, x), Seeded(o, p, h[i]), SmoothedAngle(o, p, h, i);
            && point.style == Style(h[i], 'A' <= h[i] <= 'Z', false) && point.anchor == Vector(x, 210.0 + seed.yShift)
            && Points(o, Vector(point.outgoing.x - point.anchor.x, point.outgoing.y - point.anchor.y), angle, seed.outgoing)
            && Points(o, Vector(point.anchor.x - point.incoming.x, point.anchor.y - point.incoming.y), angle, seed.incoming)
  {
    hide Seeded, SmoothedAngle, Oracles.Valid, Points, DirectedPoint;
    var seed, angle := Seeded(o, p, h[i]), SmoothedAngle(o, p, h, i);
    DirectedPointsAlong(o, Style(h[i], 'A' <= h[i] <= 'Z', false), Vector(x, 210.0 + seed.yShift), angle, seed.incoming, seed.outgoing);
  }

  lemma DigitsOfFirst(c: char, s: string)
    ensures DigitsOf([c] + s) == (if IsDigit(c) then [c] + DigitsOf(s) else DigitsOf(s))
  {
    assert ([c] + s)[1..] == s && "" + DigitsOf(s) == DigitsOf(s);
  }

  lemma Appended(c: char, a: string, b: string)
    ensures [c] + (a + b) == ([c] + a) + b
  {}

  /** The digits of a text are those of its parts, in order, and a digit is its own. */
  lemma {:induction false} DigitsOfJoin(a: string, b: string)
    ensures DigitsOf(a + b) == DigitsOf(a) + DigitsOf(b)
    ensures |a| == 1 ==> DigitsOf(a) == if IsDigit(a[0]) then a else ""
    decreases |a|
  {
    assert DigitsOf("") == "";
    hide DigitsOf, IsDigit;
    if a == "" {
      assert a + b == b && DigitsOf(a) + DigitsOf(b) == DigitsOf(b);
    } else {
      var c, s := a[0], a[1..];
      assert a == [c] + s;
      DigitsOfJoin(s, b);
      Appended(c, s, b);
      DigitsOfFirst(c, s);
      DigitsOfFirst(c, s + b);
      Appended(c, DigitsOf(s), DigitsOf(b));
    }
  }

  /**
   What the layout of release 2.0 weighs: digits all the same; gaps by their pair
   for perceiving types and all the same for judging ones; an underscore widens what
   it touches by a fraction of its own.
   */
  lemma WeightsFromFractions(o: Oracles, mbti: string, p: Profile, h: string, a: char, b: char)
    requires o.Valid() && ProfileFor(mbti) == Some(p)
    ensures var w, wide := ReleaseFor(o, p, h).weights, Unit(o, UNDERSCORE_SCOPE, "width-weight");
            && w.digit(a) == 1.0
            && w.transition(a, b) == (if b == '_' then 0.6 + 0.3 * wide else 0.6)
            && w.gap(a, b) == if a == '_' || b == '_' then 1.0 + wide
                              else if mbti[3] == 'J' then 1.0
                              else 0.45 + 1.1 * Unit(o, PairScope(a, b), "point-gap-weight")
  {
    hide Unit, Oracles.Valid, MapPointY, DigitsOf;
    assert UnderscoreWidth(o) == 1.0 + Unit(o, UNDERSCORE_SCOPE, "width-weight");
    assert MapRange(Unit(o, PairScope(a, b), "point-gap-weight"), p.gap)
      == if mbti[3] == 'J' then 1.0 else 0.45 + 1.1 * Unit(o, PairScope(a, b), "point-gap-weight");
    hide MapRange, UnderscoreWidth, ProfileFor;
  }

  /** Pulses rise by up to 60, and the middle of the highest is shifted from 210 by one fraction for all digits of the handle. */
  lemma PulseFromFractions(o: Oracles, mbti: string, p: Profile, h: string)
    requires o.Valid() && ProfileFor(mbti) == Some(p)
    ensures var pulse := ReleaseFor(o, p, h).pulse;
            && pulse.maxHeight == 60.0
            && pulse.baselineY - PulseHeight('9', pulse.maxHeight) / 2.0 == 210.0 + MapPointY(Unit(o, DigitsScope(DigitsOf(h)), "point-y-shift"), p)
            && 10.0 * pulse.factor == if mbti[1] == 'N' then 3.0 else 1.0
  {
    PulsesRiseEvenly('9', 60.0);
    hide Unit, Oracles.Valid, MapPointY, DigitsOf, PulseHeight;
  }

  /** Underscores leave no stroke, capitals one three times as wide as everything else. */
  lemma StrokeWidths(style: Style)
    ensures WeightAt(style) == 0.0 <==> style.character == '_'
    ensures WeightAt(style) == 15.0 <==> style.uppercase && !style.serialTail && style.character != '_' && !IsDigit(style.character)
    ensures WeightAt(style) in {0.0, 5.0, 15.0}
  {}

  /** A handle has 1 to 15 letters, digits and underscores; case matters, and nothing else is let through. */
  lemma HandleForm(h: string, i: nat)
    requires i < |h| && forall j :: 0 <= j < |h| && j != i ==> h[j] == 'x'
    ensures IsHandle(h) <==> |h| <= 15 && (h[i] == '_' || '0' <= h[i] <= '9' || 'a' <= h[i] <= 'z' || 'A' <= h[i] <= 'Z')
  {}
}
