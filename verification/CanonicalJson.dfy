/**
 Canonical JSON: objects print with their keys sorted, so two values print alike
 exactly when they are equal up to the order of object keys.
 */
module CanonicalJson {
  import opened Wrappers

  /** A UTF-16 code unit. */
  type Unit = x: int | 0 <= x < 0x10000

  type Text = seq<Unit>

  datatype Json =
    | Null
    | Bool(b: bool)
    | Integer(n: int)
    | Str(s: Text)
    | Array(items: seq<Json>)
    | Object(fields: seq<Field>)

  datatype Field = Field(key: Text, value: Json)

  const QUOTE: Unit := 0x22
  const BACKSLASH: Unit := 0x5C
  const COMMA: Unit := 0x2C
  const COLON: Unit := 0x3A
  const OPEN_BRACKET: Unit := 0x5B
  const CLOSE_BRACKET: Unit := 0x5D
  const OPEN_BRACE: Unit := 0x7B
  const CLOSE_BRACE: Unit := 0x7D
  const MINUS: Unit := 0x2D
  const LETTER_U: Unit := 0x75
  const NULL_TEXT: Text := [0x6E, 0x75, 0x6C, 0x6C]
  const TRUE_TEXT: Text := [0x74, 0x72, 0x75, 0x65]
  const FALSE_TEXT: Text := [0x66, 0x61, 0x6C, 0x73, 0x65]

  // ----- strings -----

  predicate IsHigh(c: Unit) {
    0xD800 <= c <= 0xDBFF
  }

  predicate IsLow(c: Unit) {
    0xDC00 <= c <= 0xDFFF
  }

  /** The letter after the backslash of a two-character escape. */
  function ShortEscape(c: Unit): Option<Unit> {
    if c == QUOTE || c == BACKSLASH then Some(c)
    else if c == 0x08 then Some(0x62)
    else if c == 0x09 then Some(0x74)
    else if c == 0x0A then Some(0x6E)
    else if c == 0x0C then Some(0x66)
    else if c == 0x0D then Some(0x72)
    else None
  }

  function Unescape(letter: Unit): Option<Unit> {
    if letter == QUOTE || letter == BACKSLASH then Some(letter)
    else if letter == 0x62 then Some(0x08)
    else if letter == 0x74 then Some(0x09)
    else if letter == 0x6E then Some(0x0A)
    else if letter == 0x66 then Some(0x0C)
    else if letter == 0x72 then Some(0x0D)
    else None
  }

  function HexDigit(d: int): Unit
    requires 0 <= d < 16
  {
    if d < 10 then 0x30 + d else 0x61 + d - 10
  }

  function HexValue(c: Unit): Option<int> {
    if 0x30 <= c <= 0x39 then Some(c - 0x30) else if 0x61 <= c <= 0x66 then Some(c - 0x61 + 10) else None
  }

  function UnicodeEscape(c: Unit): Text {
    [BACKSLASH, LETTER_U, HexDigit(c / 0x1000), HexDigit(c / 0x100 % 16), HexDigit(c / 16 % 16), HexDigit(c % 16)]
  }

  /** Whether the unit needs the \uXXXX form: a control character without a short escape, or a lone surrogate. */
  predicate NeedsUnicodeEscape(c: Unit, paired: bool) {
    ShortEscape(c).None? && (c < 0x20 || ((IsHigh(c) || IsLow(c)) && !paired))
  }

  function EscapeUnit(c: Unit, paired: bool): Text {
    if ShortEscape(c).Some? then [BACKSLASH, ShortEscape(c).value]
    else if NeedsUnicodeEscape(c, paired) then UnicodeEscape(c)
    else [c]
  }

  /** The characters between the quotes; afterHigh says that the previous unit is a high surrogate paired with the first. */
  function Escaped(s: Text, afterHigh: bool): Text {
    if s == [] then []
    else
      var startsPair := !afterHigh && IsHigh(s[0]) && |s| > 1 && IsLow(s[1]);
      EscapeUnit(s[0], startsPair || afterHigh) + Escaped(s[1..], startsPair)
  }

  function Quoted(s: Text): Text {
    [QUOTE] + Escaped(s, false) + [QUOTE]
  }

  // ----- numbers -----

  predicate IsDigitUnit(c: Unit) {
    0x30 <= c <= 0x39
  }

  function NatDigits(n: nat): Text {
    if n < 10 then [0x30 + n] else NatDigits(n / 10) + [0x30 + n % 10]
  }

  function IntegerText(n: int): Text {
    if n < 0 then [MINUS] + NatDigits(-n) else NatDigits(n)
  }

  // ----- canonical text -----

  /** Order by code units, as the default sort of strings does. */
  predicate Before(a: Text, b: Text) {
    if a == [] then b != []
    else b != [] && (a[0] < b[0] || (a[0] == b[0] && Before(a[1..], b[1..])))
  }

  function Insert(f: Field, fields: seq<Field>): seq<Field> {
    if fields == [] || !Before(fields[0].key, f.key) then [f] + fields
    else [fields[0]] + Insert(f, fields[1..])
  }

  function Sorted(fields: seq<Field>): seq<Field> {
    if fields == [] then [] else Insert(fields[0], Sorted(fields[1..]))
  }

  lemma {:induction false} InsertMembers(f: Field, fields: seq<Field>)
    ensures |Insert(f, fields)| == |fields| + 1
    ensures forall g :: g in Insert(f, fields) <==> g == f || g in fields
  {
    if fields != [] && Before(fields[0].key, f.key) {
      InsertMembers(f, fields[1..]);
      assert fields == [fields[0]] + fields[1..];
    }
  }

  lemma {:induction false} SortedMembers(fields: seq<Field>)
    ensures |Sorted(fields)| == |fields|
    ensures forall g :: g in Sorted(fields) <==> g in fields
  {
    if fields != [] {
      SortedMembers(fields[1..]);
      InsertMembers(fields[0], Sorted(fields[1..]));
      assert fields == [fields[0]] + fields[1..];
    }
  }

  /** The canonical text, as the source prints it: object keys in sorted order. */
  function Canonical(v: Json): Text
    decreases v, 1
  {
    match v
    case Null => NULL_TEXT
    case Bool(b) => if b then TRUE_TEXT else FALSE_TEXT
    case Integer(n) => IntegerText(n)
    case Str(s) => Quoted(s)
    case Array(items) => [OPEN_BRACKET] + CanonicalItems(items) + [CLOSE_BRACKET]
    case Object(fields) =>
      SortedMembers(fields);
      [OPEN_BRACE] + CanonicalFields(v, Sorted(fields)) + [CLOSE_BRACE]
  }

  function CanonicalItems(items: seq<Json>): Text
    decreases items, 0
  {
    if items == [] then []
    else Canonical(items[0]) + (if |items| == 1 then [] else [COMMA] + CanonicalItems(items[1..]))
  }

  function CanonicalFields(v: Json, sorted: seq<Field>): Text
    requires v.Object? && forall f :: f in sorted ==> f in v.fields
    decreases v, 0, |sorted|
  {
    if sorted == [] then []
    else
      assert sorted[0] in v.fields;
      Quoted(sorted[0].key) + [COLON] + Canonical(sorted[0].value)
      + (if |sorted| == 1 then [] else [COMMA] + CanonicalFields(v, sorted[1..]))
  }

  // ----- normal form: every object's fields in key order -----

  function Normal(v: Json): Json
    decreases v, 1
  {
    match v
    case Array(items) => Array(NormalItems(items))
    case Object(fields) => Object(Sorted(NormalFields(fields)))
    case _ => v
  }

  function NormalItems(items: seq<Json>): seq<Json>
    decreases items, 0
  {
    if items == [] then [] else [Normal(items[0])] + NormalItems(items[1..])
  }

  function NormalFields(fields: seq<Field>): seq<Field>
    decreases fields, 0
  {
    if fields == [] then [] else [Field(fields[0].key, Normal(fields[0].value))] + NormalFields(fields[1..])
  }

  /** The text of a value with its fields in the order they are stored. */
  function Print(v: Json): Text
    decreases v, 1
  {
    match v
    case Null => NULL_TEXT
    case Bool(b) => if b then TRUE_TEXT else FALSE_TEXT
    case Integer(n) => IntegerText(n)
    case Str(s) => Quoted(s)
    case Array(items) => [OPEN_BRACKET] + PrintItems(items) + [CLOSE_BRACKET]
    case Object(fields) => [OPEN_BRACE] + PrintFields(fields) + [CLOSE_BRACE]
  }

  function PrintItems(items: seq<Json>): Text
    decreases items, 0
  {
    if items == [] then []
    else Print(items[0]) + (if |items| == 1 then [] else [COMMA] + PrintItems(items[1..]))
  }

  function PrintFields(fields: seq<Field>): Text
    decreases fields, 0
  {
    if fields == [] then []
    else
      Quoted(fields[0].key) + [COLON] + Print(fields[0].value)
      + (if |fields| == 1 then [] else [COMMA] + PrintFields(fields[1..]))
  }

  lemma {:induction false} InsertCommutes(f: Field, fields: seq<Field>)
    ensures NormalFields(Insert(f, fields)) == Insert(Field(f.key, Normal(f.value)), NormalFields(fields))
  {
    if fields != [] && Before(fields[0].key, f.key) {
      InsertCommutes(f, fields[1..]);
      assert Insert(f, fields)[1..] == Insert(f, fields[1..]);
    } else {
      assert Insert(f, fields)[1..] == fields;
    }
  }

  lemma {:induction false} SortCommutes(fields: seq<Field>)
    ensures NormalFields(Sorted(fields)) == Sorted(NormalFields(fields))
  {
    if fields != [] {
      SortCommutes(fields[1..]);
      InsertCommutes(fields[0], Sorted(fields[1..]));
    }
  }

  /** Sorting while printing is printing the normal form. */
  lemma {:induction false} CanonicalPrintsNormal(v: Json)
    ensures Canonical(v) == Print(Normal(v))
    decreases v, 1
  {
    match v
    case Array(items) => CanonicalPrintsItems(items);
    case Object(fields) =>
      SortedMembers(fields);
      CanonicalPrintsFields(v, Sorted(fields));
      SortCommutes(fields);
    case _ =>
  }

  lemma {:induction false} CanonicalPrintsItems(items: seq<Json>)
    ensures CanonicalItems(items) == PrintItems(NormalItems(items))
    ensures |NormalItems(items)| == |items|
    decreases items, 0
  {
    if items != [] {
      CanonicalPrintsNormal(items[0]);
      CanonicalPrintsItems(items[1..]);
    }
  }

  lemma {:induction false} CanonicalPrintsFields(v: Json, sorted: seq<Field>)
    requires v.Object? && forall f :: f in sorted ==> f in v.fields
    ensures CanonicalFields(v, sorted) == PrintFields(NormalFields(sorted))
    ensures |NormalFields(sorted)| == |sorted|
    decreases v, 0, |sorted|
  {
    if sorted != [] {
      assert sorted[0] in v.fields;
      CanonicalPrintsNormal(sorted[0].value);
      CanonicalPrintsFields(v, sorted[1..]);
    }
  }
}
