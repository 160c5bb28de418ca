/** The values of release 1.0 in closed form: what the character's own fractions give, and what the reading adds. */
module FormalValues {
  import opened Wrappers
  import opened Vectors
  import CanonicalJson
  import opened JsonEquality
  import opened HashScopes
  import opened HashValues
  import opened Outline
  import opened Layout
  import opened WeightedLayout
  import opened Geometry
  import opened Signatures
  import opened SignatureValues
  import opened FormalSignatures

  // ----- the varied scope, as it is hashed -----

  lemma {:induction false} SortedTo(fields: seq<CanonicalJson.Field>, ascending: seq<CanonicalJson.Field>)
    requires DistinctKeys(fields) && Ascending(ascending) && |fields| == |ascending|
    requires forall f :: f in fields ==> f in ascending
    ensures CanonicalJson.Sorted(fields) == ascending
  {
    SortedAscends(fields);
    CanonicalJson.SortedMembers(fields);
    AscendingSubset(CanonicalJson.Sorted(fields), ascending);
    hide Ascending, CanonicalJson.Sorted, DistinctKeys;
  }

  lemma ReadingQuoted()
    ensures CanonicalJson.Quoted(Label("gr0k_raw")) == Label("\"gr0k_raw\"")
  {
    QuotedLabel("gr0k_raw", "\"gr0k_raw\"");
    hide Label, CanonicalJson.Quoted;
  }

  lemma ReadingAscends(f: CanonicalJson.Field, fields: seq<CanonicalJson.Field>)
    requires Ascending(fields) && forall g :: g in fields ==> CanonicalJson.Before(f.key, g.key)
    ensures Ascending([f] + fields) && DistinctKeys(fields + [f])
  {
    forall i, j | 0 <= i < j < |fields + [f]|
      ensures (fields + [f])[i].key != (fields + [f])[j].key
    {
      BeforeIrreflexive((fields + [f])[i].key);
    }
    hide CanonicalJson.Before;
  }

  lemma FirstText(f: CanonicalJson.Field, fields: seq<CanonicalJson.Field>)
    ensures FieldTexts([f] + fields) == [FieldText(CanonicalJson.Quoted(f.key), CanonicalJson.Canonical(f.value))] + FieldTexts(fields)
  {
    hide FieldText, CanonicalJson.Quoted, CanonicalJson.Canonical;
  }

  /** The reading is hashed as the first field of the varied scope, before the scope's own. */
  lemma {:induction false} ReadingText(scope: CanonicalJson.Json, gr0kRaw: int)
    requires scope.Object? && Ascending(scope.fields)
    requires forall g :: g in scope.fields ==> CanonicalJson.Before(Label("gr0k_raw"), g.key)
    ensures CanonicalJson.Canonical(WithReading(scope, gr0kRaw))
         == Braced([FieldText(Label("\"gr0k_raw\""), CanonicalJson.IntegerText(gr0kRaw))] + FieldTexts(scope.fields))
  {
    hide Label, CanonicalJson.Quoted, CanonicalJson.Before, Braced, FieldText, Ascending, DistinctKeys, FieldTexts, CanonicalJson.IntegerText;
    var f := CanonicalJson.Field(Label("gr0k_raw"), CanonicalJson.Integer(gr0kRaw));
    ReadingQuoted();
    ReadingAscends(f, scope.fields);
    SortedTo(scope.fields + [f], [f] + scope.fields);
    SortedText(scope.fields + [f]);
    hide CanonicalJson.Sorted;
    FirstText(f, scope.fields);
  }

  lemma ReadingFirst()
    ensures CanonicalJson.Before(Label("gr0k_raw"), Label("kind")) && CanonicalJson.Before(Label("gr0k_raw"), Label("value"))
    ensures CanonicalJson.Before(Label("gr0k_raw"), Label("left")) && CanonicalJson.Before(Label("gr0k_raw"), Label("right"))
  {
    assert Label("gr0k_raw")[0] == 0x67 && Label("kind")[0] == 0x6B && Label("value")[0] == 0x76 && Label("left")[0] == 0x6C && Label("right")[0] == 0x72;
    hide Label;
    FirstDecides(Label("gr0k_raw"), Label("kind"));
    FirstDecides(Label("gr0k_raw"), Label("value"));
    FirstDecides(Label("gr0k_raw"), Label("left"));
    FirstDecides(Label("gr0k_raw"), Label("right"));
    hide CanonicalJson.Before;
  }

  /** All scopes that are varied take the reading as their first field. */
  lemma VariedScopes(c: char, left: char, right: char, digits: string, gr0kRaw: int)
    ensures var reading := FieldText(Label("\"gr0k_raw\""), CanonicalJson.IntegerText(gr0kRaw));
            && CanonicalJson.Canonical(WithReading(CharacterScope(c), gr0kRaw)) == Braced([reading] + FieldTexts(CharacterScope(c).fields))
            && CanonicalJson.Canonical(WithReading(PairScope(left, right), gr0kRaw)) == Braced([reading] + FieldTexts(PairScope(left, right).fields))
            && CanonicalJson.Canonical(WithReading(DigitsScope(digits), gr0kRaw)) == Braced([reading] + FieldTexts(DigitsScope(digits).fields))
  {
    hide Label, CanonicalJson.Before, CanonicalJson.Canonical, Braced, FieldText, FieldTexts, WithReading, CodeUnits, CanonicalJson.IntegerText;
    ReadingFirst();
    KeysAscend();
    ReadingText(CharacterScope(c), gr0kRaw);
    ReadingText(PairScope(left, right), gr0kRaw);
    ReadingText(DigitsScope(digits), gr0kRaw);
  }

  // ----- seeded values -----

  /** The fraction that a reading adds to a value. */
  function Added(o: Oracles, scope: CanonicalJson.Json, parameter: string, gr0kRaw: int): real
    requires o.Valid() && scope.Object?
  {
    Unit(o, WithReading(scope, gr0kRaw), parameter)
  }

  lemma ScopesAreObjects(c: char, left: char, right: char, digits: string)
    ensures CharacterScope(c).Object? && PairScope(left, right).Object? && DigitsScope(digits).Object?
  {}

  lemma VariantIs(o: Oracles, scope: CanonicalJson.Json, parameter: string, added: string, gr0kRaw: int)
    requires o.Valid() && scope.Object? && added == "gr0k/" + parameter
    ensures VariantSigned(o, scope, parameter, gr0kRaw) == 2.0 * Added(o, scope, added, gr0kRaw) - 1.0
  {
    hide Unit, WithReading, Oracles.Valid;
  }

  lemma VariedByFifth(base: real, w: real)
    ensures 10.0 * Varied(base, 2.0 * w - 1.0, 0.2) == base * (8.0 + 4.0 * w)
  {
    var k := 1.0 + (2.0 * w - 1.0) * 0.2;
    assert 10.0 * k == 8.0 + 4.0 * w;
    TenTimes(base, k);
  }

  lemma TenTimes(x: real, k: real)
    ensures 10.0 * (x * k) == x * (10.0 * k)
  {}

  /** Tenths of a length from 10 to 90, scaled by 0.8 up to 1.2. */
  function LengthTenths(u: real, w: real): real {
    (10.0 + 80.0 * u) * (8.0 + 4.0 * w)
  }

  lemma VariedLength(u: real, w: real, v: real)
    requires v == 2.0 * w - 1.0
    ensures 10.0 * Varied(MapRange(u, Range(10.0, 90.0)), v, 0.2) == LengthTenths(u, w)
  {
    assert MapRange(u, Range(10.0, 90.0)) == 10.0 + 80.0 * u;
    hide MapRange, Varied;
    VariedByFifth(10.0 + 80.0 * u, w);
  }

  /** A character's handles reach from 10 to 90 by its own fractions; the reading scales each by 0.8 up to 1.2. */
  lemma VariedLengths(o: Oracles, c: char, gr0kRaw: int)
    requires o.Valid()
    ensures CharacterScope(c).Object?
    ensures var scope, seed := CharacterScope(c), SeededAt(o, c, gr0kRaw);
            && 10.0 * seed.incoming
               == LengthTenths(Unit(o, scope, "incoming-handle-length"), Added(o, scope, "gr0k/incoming-handle-length", gr0kRaw))
            && 10.0 * seed.outgoing
               == LengthTenths(Unit(o, scope, "outgoing-handle-length"), Added(o, scope, "gr0k/outgoing-handle-length", gr0kRaw))
  {
    hide Unit, Added, VariantSigned, Varied, MapRange, Radians, Oracles.Valid, CharacterScope, LengthTenths, Spread;
    ScopesAreObjects(c, c, c, "");
    var scope := CharacterScope(c);
    VariantIs(o, scope, "incoming-handle-length", "gr0k/incoming-handle-length", gr0kRaw);
    VariantIs(o, scope, "outgoing-handle-length", "gr0k/outgoing-handle-length", gr0kRaw);
    VariedLength(Unit(o, scope, "incoming-handle-length"), Added(o, scope, "gr0k/incoming-handle-length", gr0kRaw),
                 VariantSigned(o, scope, "incoming-handle-length", gr0kRaw));
    VariedLength(Unit(o, scope, "outgoing-handle-length"), Added(o, scope, "gr0k/outgoing-handle-length", gr0kRaw),
                 VariantSigned(o, scope, "outgoing-handle-length", gr0kRaw));
  }

  lemma EighthTurn(o: Oracles, u: real, w: real, v: real)
    requires v == 2.0 * w - 1.0
    ensures 4.0 * Radians(o, MapRange(u, Range(-45.0, 45.0))) == Spread(o.pi, u)
    ensures 18.0 * Radians(o, v * 10.0) == Spread(o.pi, w)
  {}

  lemma VariedShift(u: real, w: real)
    ensures MapRange(u, Range(-30.0, 30.0)) + (2.0 * w - 1.0) * 5.0 == (60.0 * u - 30.0) + (10.0 * w - 5.0)
  {}

  /** Angles spread over a quarter turn, shifts over 60; the reading turns an angle by at most a ninth of a half turn and shifts by at most 5. */
  lemma VariedAnglesAndShifts(o: Oracles, c: char, gr0kRaw: int)
    requires o.Valid()
    ensures CharacterScope(c).Object?
    ensures var scope, seed := CharacterScope(c), SeededAt(o, c, gr0kRaw);
            && 4.0 * seed.angle == Spread(o.pi, Unit(o, scope, "handle-angle"))
            && 18.0 * seed.delta == Spread(o.pi, Added(o, scope, "gr0k/handle-angle", gr0kRaw))
            && seed.yShift == (60.0 * Unit(o, scope, "point-y-shift") - 30.0) + (10.0 * Added(o, scope, "gr0k/point-y", gr0kRaw) - 5.0)
  {
    hide Unit, Added, VariantSigned, Varied, MapRange, Radians, Oracles.Valid, CharacterScope, LengthTenths, Spread;
    ScopesAreObjects(c, c, c, "");
    var scope := CharacterScope(c);
    VariantIs(o, scope, "handle-angle", "gr0k/handle-angle", gr0kRaw);
    VariantIs(o, scope, "point-y", "gr0k/point-y", gr0kRaw);
    EighthTurn(o, Unit(o, scope, "handle-angle"), Added(o, scope, "gr0k/handle-angle", gr0kRaw), VariantSigned(o, scope, "handle-angle", gr0kRaw));
    VariedShift(Unit(o, scope, "point-y-shift"), Added(o, scope, "gr0k/point-y", gr0kRaw));
  }

  /** An angle is its neighbourhood's mean, its own counted twice, turned by its own variation. */
  lemma AngleIsMean(o: Oracles, text: string, gr0kRaw: int, i: nat)
    requires o.Valid() && i < |text|
    ensures var own := SeededAt(o, text[i], gr0kRaw);
            var before := if i > 0 then SeededAt(o, text[i - 1], gr0kRaw).angle else own.angle;
            var after := if i < |text| - 1 then SeededAt(o, text[i + 1], gr0kRaw).angle else own.angle;
            4.0 * (AngleAt(o, text, gr0kRaw, i) - own.delta) == before + own.angle + own.angle + after
  {
    hide SeededAt, Oracles.Valid;
  }

  /** A character's point stands its shift below the middle; its handles point along its angle, with the seeded lengths. */
  lemma TextPointAlong(o: Oracles, text: string, gr0kRaw: int, i: nat, x: real)
    requires o.Valid() && i < |text|
    ensures var point, seed, angle := TextPoint(o, text, gr0kRaw, i, x), SeededAt(o, text[i], gr0kRaw), AngleAt(o, text, gr0kRaw, i);
            && point.style == Style(text[i], 'A' <= text[i] <= 'Z', false) && point.anchor == Vector(x, 210.0 + seed.yShift)
            && Points(o, Vector(point.outgoing.x - point.anchor.x, point.outgoing.y - point.anchor.y), angle, seed.outgoing)
            && Points(o, Vector(point.anchor.x - point.incoming.x, point.anchor.y - point.incoming.y), angle, seed.incoming)
  {
    hide SeededAt, AngleAt, Oracles.Valid, Points, DirectedPoint;
    var seed, angle := SeededAt(o, text[i], gr0kRaw), AngleAt(o, text, gr0kRaw, i);
    DirectedPointsAlong(o, Style(text[i], 'A' <= text[i] <= 'Z', false), Vector(x, 210.0 + seed.yShift), angle, seed.incoming, seed.outgoing);
  }

  // ----- weights and strokes -----

  lemma VariedWidth(u: real, w: real)
    ensures 50.0 * Varied(MapRange(u, Range(0.2, 1.0)), 2.0 * w - 1.0, 0.2) == (1.0 + 4.0 * u) * (8.0 + 4.0 * w)
  {
    var base := MapRange(u, Range(0.2, 1.0));
    assert 5.0 * base == 1.0 + 4.0 * u;
    hide MapRange, Varied;
    VariedByFifth(base, w);
    FiveTimes(base, 8.0 + 4.0 * w);
  }

  lemma FiveTimes(x: real, y: real)
    ensures 5.0 * (x * y) == (5.0 * x) * y
  {}

  lemma VariedAroundOne(w: real)
    ensures Varied(1.0, 2.0 * w - 1.0, 0.5) == 0.5 + w
  {}

  /** Digits weigh from 0.2 to 1 by their own fraction, scaled by the reading; a transition takes six tenths of its digit. */
  lemma VariedDigits(o: Oracles, text: string, gr0kRaw: int, a: char, b: char)
    requires o.Valid()
    ensures CharacterScope(a).Object?
    ensures var w := FormalRelease(o, text, gr0kRaw).weights;
            && 50.0 * w.digit(a) == (1.0 + 4.0 * Unit(o, CharacterScope(a), "serial-width-weight")) * (8.0 + 4.0 * Added(o, CharacterScope(a), "gr0k/serial-width", gr0kRaw))
            && 10.0 * w.transition(a, b) == 6.0 * w.digit(a)
  {
    hide Unit, Added, VariantSigned, Varied, MapRange, Oracles.Valid, CharacterScope, DigitsOf;
    ScopesAreObjects(a, a, b, "");
    VariantIs(o, CharacterScope(a), "serial-width", "gr0k/serial-width", gr0kRaw);
    VariedWidth(Unit(o, CharacterScope(a), "serial-width-weight"), Added(o, CharacterScope(a), "gr0k/serial-width", gr0kRaw));
  }

  /** Gaps vary around 1 by up to a half, by the reading and the ordered pair alone. */
  lemma VariedGaps(o: Oracles, text: string, gr0kRaw: int, a: char, b: char)
    requires o.Valid()
    ensures PairScope(a, b).Object?
    ensures FormalRelease(o, text, gr0kRaw).weights.gap(a, b) == 0.5 + Added(o, PairScope(a, b), "gr0k/point-gap", gr0kRaw)
  {
    hide Unit, Added, VariantSigned, Varied, MapRange, Oracles.Valid, PairScope, DigitsOf;
    ScopesAreObjects(a, a, b, "");
    VariantIs(o, PairScope(a, b), "point-gap", "gr0k/point-gap", gr0kRaw);
    VariedAroundOne(Added(o, PairScope(a, b), "gr0k/point-gap", gr0kRaw));
  }

  /** Pulses rise by up to 32 to 48, by the reading; the middle of the highest is shifted from 210 by the digits' shared fractions. */
  lemma VariedPulse(o: Oracles, text: string, gr0kRaw: int)
    requires o.Valid()
    ensures DigitsScope(DigitsOf(text)).Object?
    ensures var pulse, scope := FormalRelease(o, text, gr0kRaw).pulse, DigitsScope(DigitsOf(text));
            && pulse.maxHeight == 32.0 + 16.0 * Added(o, scope, "gr0k/serial-height", gr0kRaw)
            && pulse.baselineY - PulseHeight('9', pulse.maxHeight) / 2.0
               == 210.0 + ((60.0 * Unit(o, scope, "point-y-shift") - 30.0) + (10.0 * Added(o, scope, "gr0k/point-y", gr0kRaw) - 5.0))
            && 100.0 * pulse.factor == 28.0
  {
    hide Unit, Added, VariantSigned, Varied, MapRange, Oracles.Valid, DigitsOf, DigitsScope, PulseHeight;
    ScopesAreObjects('0', '0', '0', DigitsOf(text));
    var scope := DigitsScope(DigitsOf(text));
    VariantIs(o, scope, "serial-height", "gr0k/serial-height", gr0kRaw);
    VariantIs(o, scope, "point-y", "gr0k/point-y", gr0kRaw);
    VariedByFifth(40.0, Added(o, scope, "gr0k/serial-height", gr0kRaw));
    VariedShift(Unit(o, scope, "point-y-shift"), Added(o, scope, "gr0k/point-y", gr0kRaw));
    PulsesRiseEvenly('9', FormalRelease(o, text, gr0kRaw).pulse.maxHeight);
  }

  /** Capitals are ten wider than everything else, underscores a hairline; a digit's pulse is never either. */
  lemma FormalStrokeWidths(style: Style)
    ensures style.serialTail ==> FormalWeightAt(style) == 4.0
    ensures !style.serialTail ==> (FormalWeightAt(style) < 1.0 <==> style.character == '_')
    ensures FormalWeightAt(style) in {0.15, 4.0, 14.0}
    ensures FormalWeightAt(style) == 14.0 <==> style.uppercase && !style.serialTail && style.character != '_'
  {}
}
