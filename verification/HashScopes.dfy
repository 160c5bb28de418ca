/** The labelled scopes of the artwork's random values, and the payload that is hashed for each. */
module HashScopes {
  import opened CanonicalJson
  import opened JsonEquality

  /** The code units of a character: itself, or a surrogate pair. */
  function CodeUnits(c: char): Text {
    var n := c as int;
    if n < 0x10000 then [n] else [0xD800 + (n - 0x10000) / 0x400, 0xDC00 + (n - 0x10000) % 0x400]
  }

  /** The code units of a label, all of whose characters are ASCII. */
  function Label(s: string): Text {
    seq(|s|, i requires 0 <= i < |s| => CodeUnits(s[i])[0])
  }

  function Payload(space: Text, parameter: Text, scope: Json): Json {
    Object([Field(Label("namespace"), Str(space)), Field(Label("parameter"), Str(parameter)),
            Field(Label("scheme"), Str(Label("sha256-labeled-u53"))), Field(Label("scope"), scope)])
  }

  /** The first two big-endian words of a digest, as a 53-bit fraction. */
  function UnitFraction(first: int, second: int): (u: real)
    requires 0 <= first < 0x1_0000_0000 && 0 <= second < 0x1_0000_0000
    ensures 0.0 <= u < 1.0
  {
    (first * 0x20_0000 + second / 0x800) as real / 9007199254740992.0
  }

  ghost predicate IsDigest(digest: Text -> (int, int)) {
    forall t :: 0 <= digest(t).0 < 0x1_0000_0000 && 0 <= digest(t).1 < 0x1_0000_0000
  }

  function HashToUnitFloat(digest: Text -> (int, int), space: Text, scope: Json, parameter: Text): (u: real)
    requires IsDigest(digest)
    ensures 0.0 <= u < 1.0
  {
    var words := digest(Canonical(Payload(space, parameter, scope)));
    UnitFraction(words.0, words.1)
  }

  lemma LabelsDiffer()
    ensures Label("namespace") != Label("parameter") && Label("namespace") != Label("scheme") && Label("namespace") != Label("scope")
    ensures Label("parameter") != Label("scheme") && Label("parameter") != Label("scope") && Label("scheme") != Label("scope")
  {
    assert Label("scheme")[2] != Label("scope")[2];
    assert |Label("scheme")| == 6 && |Label("scope")| == 5 && |Label("namespace")| == 9 && |Label("parameter")| == 9;
    assert Label("namespace")[0] != Label("parameter")[0];
  }

  /** The payloads of two labelled scopes are the same text only for the same parameter and the same scope, up to key order. */
  lemma {:induction false} PayloadsDistinguish(space: Text, p: Text, q: Text, scope: Json, other: Json)
    requires WellFormed(scope) && WellFormed(other)
    ensures Canonical(Payload(space, p, scope)) == Canonical(Payload(space, q, other)) <==> p == q && Same(scope, other)
  {
    LabelsDiffer();
    hide Label, Same, Canonical;
    var v, w := Payload(space, p, scope), Payload(space, q, other);
    CanonicalDecidesSameness(v, w);
    SameInOrder(v.fields, w.fields);
    SameStrings(space, space);
    SameStrings(p, q);
    SameStrings(Label("sha256-labeled-u53"), Label("sha256-labeled-u53"));
    if Same(v, w) {
      assert Same(v.fields[1].value, w.fields[1].value) && Same(v.fields[3].value, w.fields[3].value);
    }
  }

  lemma SameStrings(s: Text, t: Text)
    ensures Same(Str(s), Str(t)) <==> s == t
  {}

  /** Objects whose keys come in the same order are the same exactly when their values are, one by one. */
  lemma {:induction false} SameInOrder(f: seq<Field>, g: seq<Field>)
    requires DistinctKeys(g) && |f| == |g| && forall i :: 0 <= i < |f| ==> f[i].key == g[i].key
    ensures Same(Object(f), Object(g)) <==> forall i :: 0 <= i < |f| ==> Same(f[i].value, g[i].value)
  {}

  // ----- the scopes -----

  function CharacterScope(c: char): Json {
    Object([Field(Label("kind"), Str(Label("x-handle-character"))), Field(Label("value"), Str(CodeUnits(c)))])
  }

  lemma CodeUnitsDiffer(c: char, d: char)
    ensures CodeUnits(c) == CodeUnits(d) <==> c == d
  {
    if CodeUnits(c) == CodeUnits(d) {
      assert CodeUnits(c)[0] == CodeUnits(d)[0];
      assert |CodeUnits(c)| == 2 ==> CodeUnits(c)[1] == CodeUnits(d)[1];
    }
  }

  lemma ScopeWellFormed(c: char)
    ensures WellFormed(CharacterScope(c)) && DistinctKeys(CharacterScope(c).fields)
    ensures |CharacterScope(c).fields| == 2
  {
    assert |Label("kind")| == 4 && |Label("value")| == 5;
  }

  /** No two characters share a payload, whatever the parameter. */
  lemma CharactersDistinguished(space: Text, parameter: Text, c: char, d: char)
    ensures Canonical(Payload(space, parameter, CharacterScope(c))) == Canonical(Payload(space, parameter, CharacterScope(d))) <==> c == d
  {
    LabelsDiffer();
    CodeUnitsDiffer(c, d);
    ScopeWellFormed(c);
    ScopeWellFormed(d);
    var v, w := CharacterScope(c), CharacterScope(d);
    assert v.fields[0] == w.fields[0] && v.fields[0].value == Str(Label("x-handle-character"));
    assert v.fields[1].key == w.fields[1].key && v.fields[1].value == Str(CodeUnits(c)) && w.fields[1].value == Str(CodeUnits(d));
    hide Label, Same, Canonical, CodeUnits, CharacterScope;
    PayloadsDistinguish(space, parameter, parameter, v, w);
    SameInOrder(v.fields, w.fields);
    SameStrings(CodeUnits(c), CodeUnits(d));
    SameStrings(Label("x-handle-character"), Label("x-handle-character"));
  }

  const UNDERSCORE_SCOPE: Json :=
    Object([Field(Label("kind"), Str(Label("x-handle-underscore"))), Field(Label("value"), Str(Label("_")))])

  function PairScope(left: char, right: char): Json {
    Object([Field(Label("kind"), Str(Label("ordered-x-handle-character-pair"))),
            Field(Label("left"), CharacterScope(left)), Field(Label("right"), CharacterScope(right))])
  }

  function DigitsScope(digits: string): Json {
    Object([Field(Label("kind"), Str(Label("x-handle-digits"))), Field(Label("value"), Str(Label(digits)))])
  }
}
