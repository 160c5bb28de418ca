/** The exact text that is hashed for a random value, what its value says of the digest, and when two values are one. */
module HashValues {
  import opened Wrappers
  import opened CanonicalJson
  import opened JsonEquality
  import opened HashScopes

  // ----- the bits -----

  lemma FloorOf(n: int, r: real, x: real)
    requires x == n as real + r && 0.0 <= r < 1.0
    ensures x.Floor == n
  {}

  lemma SplitWord(first: int, low: int, n: int, u: real)
    requires n == first * 0x20_0000 + low && 0 <= low < 0x20_0000 && u * 9007199254740992.0 == n as real
    ensures (u * 9007199254740992.0).Floor == n && (u * 4294967296.0).Floor == first && n % 0x20_0000 == low
  {
    FloorOf(n, 0.0, u * 9007199254740992.0);
    FloorOf(first, low as real / 2097152.0, u * 4294967296.0);
  }

  /** The value has 53 bits: the first word of the digest, then the upper 21 bits of the second. */
  lemma FractionBits(first: int, second: int)
    requires 0 <= first < 0x1_0000_0000 && 0 <= second < 0x1_0000_0000
    ensures var u := UnitFraction(first, second);
            && (u * 9007199254740992.0).Floor as real == u * 9007199254740992.0
            && (u * 4294967296.0).Floor == first
            && (u * 9007199254740992.0).Floor % 0x20_0000 == second / 0x800
  {
    var n := first * 0x20_0000 + second / 0x800;
    assert UnitFraction(first, second) * 9007199254740992.0 == n as real;
    hide UnitFraction;
    SplitWord(first, second / 0x800, n, UnitFraction(first, second));
  }

  // ----- which values are one -----

  /** A digest that tells one text from every other. */
  function Telling(text: Text): Text -> (int, int) {
    (t: Text) => if t == text then (0x8000_0000, 0) else (0, 0)
  }

  /** Two random values are the same under every digest exactly when they are drawn for the same parameter and the same scope, up to key order. */
  lemma {:induction false} ValuesDistinguish(space: Text, p: Text, scope: Json, q: Text, other: Json)
    requires WellFormed(scope) && WellFormed(other)
    ensures (forall digest :: IsDigest(digest) ==> HashToUnitFloat(digest, space, scope, p) == HashToUnitFloat(digest, space, other, q))
       <==> p == q && Same(scope, other)
  {
    PayloadsDistinguish(space, p, q, scope, other);
    var text := Canonical(Payload(space, p, scope));
    var digest := Telling(text);
    assert IsDigest(digest);
    hide Payload, Canonical, Same, WellFormed;
    assert HashToUnitFloat(digest, space, scope, p) == UnitFraction(0x8000_0000, 0);
    assert text != Canonical(Payload(space, q, other)) ==> HashToUnitFloat(digest, space, other, q) == UnitFraction(0, 0);
  }

  // ----- the text that is hashed -----

  lemma {:induction false} SortedAlready(fields: seq<Field>)
    requires Ascending(fields)
    ensures Sorted(fields) == fields
  {
    if fields != [] {
      SortedAlready(fields[1..]);
      if |fields| > 1 {
        assert Before(fields[0].key, fields[1].key);
        BeforeIrreflexive(fields[0].key);
        if Before(fields[1].key, fields[0].key) {
          BeforeTransitive(fields[0].key, fields[1].key, fields[0].key);
        }
      }
      hide Before;
    }
  }

  lemma FirstDecides(a: Text, b: Text)
    requires a != [] && b != [] && a[0] < b[0]
    ensures Before(a, b)
  {}

  lemma SchemeBeforeScope()
    ensures Before(Label("scheme"), Label("scope"))
  {
    var a, b := Label("scheme"), Label("scope");
    assert a[0] == b[0] && a[1] == b[1] && a[2] < b[2];
    assert a[1..][1..][0] == a[2] && b[1..][1..][0] == b[2];
    hide Label;
    FirstDecides(a[1..][1..], b[1..][1..]);
  }

  lemma PayloadAscends(space: Text, parameter: Text, scope: Json)
    ensures Ascending(Payload(space, parameter, scope).fields)
  {
    var n, p, c, s := Label("namespace"), Label("parameter"), Label("scheme"), Label("scope");
    assert n[0] == 0x6E && p[0] == 0x70 && c[0] == 0x73 && s[0] == 0x73;
    SchemeBeforeScope();
    hide Label;
    FirstDecides(n, p);
    FirstDecides(n, c);
    FirstDecides(n, s);
    FirstDecides(p, c);
    FirstDecides(p, s);
    hide Before;
  }

  predicate IsPlain(t: Text) {
    forall i :: 0 <= i < |t| ==> 0x20 <= t[i] < 0x7F && t[i] != QUOTE && t[i] != BACKSLASH
  }

  lemma {:induction false} PlainStays(t: Text)
    requires IsPlain(t)
    ensures Escaped(t, false) == t
    decreases |t|
  {
    if t != [] {
      assert t[1..] == t[1..];
      PlainStays(t[1..]);
      assert t == [t[0]] + t[1..];
    }
  }

  lemma PlainQuoted(s: string)
    requires IsPlain(Label(s))
    ensures Quoted(Label(s)) == [QUOTE] + Label(s) + [QUOTE]
  {
    PlainStays(Label(s));
    hide Escaped, Label;
  }

  /** One field as it is printed. */
  function FieldText(key: Text, value: Text): Text {
    key + [COLON] + value
  }

  function Commas(parts: seq<Text>): Text {
    if parts == [] then [] else if |parts| == 1 then parts[0] else parts[0] + [COMMA] + Commas(parts[1..])
  }

  function FieldTexts(fields: seq<Field>): seq<Text> {
    seq(|fields|, i requires 0 <= i < |fields| => FieldText(Quoted(fields[i].key), Canonical(fields[i].value)))
  }

  lemma {:induction false} FieldsText(v: Json, sorted: seq<Field>)
    requires v.Object? && forall f :: f in sorted ==> f in v.fields
    ensures CanonicalFields(v, sorted) == Commas(FieldTexts(sorted))
    decreases |sorted|
  {
    if sorted != [] {
      hide Quoted, Canonical;
      assert FieldTexts(sorted)[1..] == FieldTexts(sorted[1..]);
      FieldsText(v, sorted[1..]);
      assert |sorted| > 1 ==> CanonicalFields(v, sorted) == FieldTexts(sorted)[0] + [COMMA] + Commas(FieldTexts(sorted[1..]));
    }
  }

  /** An object of the given fields, as it is printed. */
  function Braced(parts: seq<Text>): Text {
    [OPEN_BRACE] + Commas(parts) + [CLOSE_BRACE]
  }

  /** An object is printed field by field, in the order of its sorted fields. */
  lemma {:induction false} SortedText(fields: seq<Field>)
    ensures Canonical(Object(fields)) == Braced(FieldTexts(Sorted(fields)))
  {
    SortedMembers(fields);
    FieldsText(Object(fields), Sorted(fields));
    hide Sorted, Commas, FieldTexts, CanonicalFields;
  }

  /** An object whose keys ascend is printed field by field, as it stands. */
  lemma {:induction false} ObjectText(fields: seq<Field>)
    requires Ascending(fields)
    ensures Canonical(Object(fields)) == Braced(FieldTexts(fields))
  {
    SortedAlready(fields);
    SortedText(fields);
    hide Sorted, Ascending, Braced, FieldTexts, Canonical;
  }

  /** The text that is hashed for a random value. */
  lemma {:induction false} PayloadText(space: Text, parameter: Text, scope: Json)
    ensures Canonical(Payload(space, parameter, scope))
         == Braced([FieldText(Label("\"namespace\""), Quoted(space)), FieldText(Label("\"parameter\""), Quoted(parameter)),
                    FieldText(Label("\"scheme\""), Label("\"sha256-labeled-u53\"")), FieldText(Label("\"scope\""), Canonical(scope))])
  {
    PayloadAscends(space, parameter, scope);
    NamesQuoted();
    var v := Payload(space, parameter, scope);
    var a, b := v.fields[0], v.fields[1];
    var c, d := v.fields[2], v.fields[3];
    assert v == Object([a, b, c, d]) && a.value == Str(space) && b.value == Str(parameter) && d.value == scope;
    SchemeText();
    assert c.value == Str(Label("sha256-labeled-u53"));
    hide Ascending, Quoted, Label, FieldText, Braced, Canonical, Payload;
    ObjectText(v.fields);
    FourTexts(a, b, c, d);
    StringText(space);
    StringText(parameter);
  }

  lemma StringText(s: Text)
    ensures Canonical(Str(s)) == Quoted(s)
  {}

  lemma SchemeText()
    ensures Canonical(Str(Label("sha256-labeled-u53"))) == Label("\"sha256-labeled-u53\"")
  {
    QuotedLabel("sha256-labeled-u53", "\"sha256-labeled-u53\"");
    hide Label, Quoted;
  }

  lemma FourTexts(a: Field, b: Field, c: Field, d: Field)
    ensures FieldTexts([a, b, c, d])
         == [FieldText(Quoted(a.key), Canonical(a.value)), FieldText(Quoted(b.key), Canonical(b.value)),
             FieldText(Quoted(c.key), Canonical(c.value)), FieldText(Quoted(d.key), Canonical(d.value))]
  {
    hide FieldText, Quoted, Canonical;
  }

  lemma NamesQuoted()
    ensures Quoted(Label("namespace")) == Label("\"namespace\"") && Quoted(Label("parameter")) == Label("\"parameter\"")
    ensures Quoted(Label("scheme")) == Label("\"scheme\"") && Quoted(Label("scope")) == Label("\"scope\"")
  {
    hide Label, Quoted;
    QuotedLabel("namespace", "\"namespace\"");
    QuotedLabel("parameter", "\"parameter\"");
    QuotedLabel("scheme", "\"scheme\"");
    QuotedLabel("scope", "\"scope\"");
  }

  lemma QuotedLabel(s: string, quoted: string)
    requires quoted == "\"" + s + "\"" && forall i :: 0 <= i < |s| ==> ' ' <= s[i] <= '~' && s[i] != '"' && s[i] != '\\'
    ensures Quoted(Label(s)) == Label(quoted)
  {
    PlainQuoted(s);
    hide Quoted;
    assert Label(quoted) == [QUOTE] + Label(s) + [QUOTE];
  }

  // ----- the scopes, as they are hashed -----

  lemma KeysQuoted()
    ensures Quoted(Label("kind")) == Label("\"kind\"") && Quoted(Label("value")) == Label("\"value\"")
    ensures Quoted(Label("left")) == Label("\"left\"") && Quoted(Label("right")) == Label("\"right\"")
  {
    hide Label, Quoted;
    QuotedLabel("kind", "\"kind\"");
    QuotedLabel("value", "\"value\"");
    QuotedLabel("left", "\"left\"");
    QuotedLabel("right", "\"right\"");
  }

  lemma KeysAscend()
    ensures Before(Label("kind"), Label("value"))
    ensures Before(Label("kind"), Label("left")) && Before(Label("kind"), Label("right")) && Before(Label("left"), Label("right"))
  {
    assert Label("kind")[0] == 0x6B && Label("value")[0] == 0x76 && Label("left")[0] == 0x6C && Label("right")[0] == 0x72;
    hide Label;
    FirstDecides(Label("kind"), Label("value"));
    FirstDecides(Label("kind"), Label("left"));
    FirstDecides(Label("kind"), Label("right"));
    FirstDecides(Label("left"), Label("right"));
    hide Before;
  }

  lemma {:induction false} KindAndValue(kind: Text, quoted: Text, value: Text)
    requires Quoted(kind) == quoted
    ensures Canonical(Object([Field(Label("kind"), Str(kind)), Field(Label("value"), Str(value))]))
         == Braced([FieldText(Label("\"kind\""), quoted), FieldText(Label("\"value\""), Quoted(value))])
  {
    hide Label, Quoted, FieldText, Braced, Before, Canonical;
    var f, g := Field(Label("kind"), Str(kind)), Field(Label("value"), Str(value));
    KeysQuoted();
    KeysAscend();
    ObjectText([f, g]);
    StringText(kind);
    StringText(value);
    assert FieldTexts([f, g]) == [FieldText(Quoted(f.key), Canonical(f.value)), FieldText(Quoted(g.key), Canonical(g.value))];
  }

  lemma CharacterKind()
    ensures Quoted(Label("x-handle-character")) == Label("\"x-handle-character\"")
  {
    QuotedLabel("x-handle-character", "\"x-handle-character\"");
    hide Label, Quoted;
  }

  lemma UnderscoreKind()
    ensures Quoted(Label("x-handle-underscore")) == Label("\"x-handle-underscore\"")
  {
    QuotedLabel("x-handle-underscore", "\"x-handle-underscore\"");
    hide Label, Quoted;
  }

  lemma DigitsKind()
    ensures Quoted(Label("x-handle-digits")) == Label("\"x-handle-digits\"")
  {
    QuotedLabel("x-handle-digits", "\"x-handle-digits\"");
    hide Label, Quoted;
  }

  lemma PairKind()
    ensures Quoted(Label("ordered-x-handle-character-pair")) == Label("\"ordered-x-handle-character-pair\"")
  {
    QuotedLabel("ordered-x-handle-character-pair", "\"ordered-x-handle-character-pair\"");
    hide Label, Quoted;
  }

  /** The units of a character are its own code, or the high and the low surrogate that stand for it. */
  lemma CharacterUnits(c: char)
    ensures var units, n := CodeUnits(c), c as int;
            if n < 0x1_0000 then units == [n]
            else |units| == 2 && 0xD800 <= units[0] < 0xDC00 <= units[1] < 0xE000
                 && n == 0x1_0000 + (units[0] as int - 0xD800) * 0x400 + (units[1] as int - 0xDC00)
  {}

  /** A character's scope names the character. */
  lemma CharacterText(c: char)
    ensures Canonical(CharacterScope(c))
         == Braced([FieldText(Label("\"kind\""), Label("\"x-handle-character\"")), FieldText(Label("\"value\""), Quoted(CodeUnits(c)))])
  {
    hide Label, Quoted, Braced, Canonical, FieldText, CodeUnits;
    CharacterKind();
    KindAndValue(Label("x-handle-character"), Label("\"x-handle-character\""), CodeUnits(c));
  }

  lemma UnderscoreText()
    ensures Canonical(UNDERSCORE_SCOPE)
         == Braced([FieldText(Label("\"kind\""), Label("\"x-handle-underscore\"")), FieldText(Label("\"value\""), Quoted(Label("_")))])
  {
    hide Label, Quoted, Braced, Canonical, FieldText;
    UnderscoreKind();
    KindAndValue(Label("x-handle-underscore"), Label("\"x-handle-underscore\""), Label("_"));
  }

  /** The digits of a handle share one scope that spells them all, in order. */
  lemma DigitsText(digits: string)
    ensures Canonical(DigitsScope(digits))
         == Braced([FieldText(Label("\"kind\""), Label("\"x-handle-digits\"")), FieldText(Label("\"value\""), Quoted(Label(digits)))])
  {
    hide Label, Quoted, Braced, Canonical, FieldText;
    DigitsKind();
    KindAndValue(Label("x-handle-digits"), Label("\"x-handle-digits\""), Label(digits));
  }

  /** A pair's scope names both characters, the left one as left. */
  lemma {:induction false} PairText(left: char, right: char)
    ensures Canonical(PairScope(left, right))
         == Braced([FieldText(Label("\"kind\""), Label("\"ordered-x-handle-character-pair\"")),
                    FieldText(Label("\"left\""), Canonical(CharacterScope(left))), FieldText(Label("\"right\""), Canonical(CharacterScope(right)))])
  {
    hide Label, Quoted, FieldText, Braced, CharacterScope, Before, Canonical;
    var v := PairScope(left, right);
    var f, g, k := v.fields[0], v.fields[1], v.fields[2];
    KeysQuoted();
    KeysAscend();
    PairKind();
    ObjectText([f, g, k]);
    StringText(Label("ordered-x-handle-character-pair"));
    assert FieldTexts([f, g, k])
      == [FieldText(Quoted(f.key), Canonical(f.value)), FieldText(Quoted(g.key), Canonical(g.value)), FieldText(Quoted(k.key), Canonical(k.value))];
  }
}
