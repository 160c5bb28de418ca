/** The tagged JSON form of a runtime snapshot, and exactly which values survive it. */
module TaggedSnapshot {
  import opened Wrappers
  import opened CanonicalJson
  import opened JsonParsing
  import opened Bytes
  import opened GalleryCursors

  /** A value of the running program. Fields keep their order, and their keys are distinct. */
  datatype Value =
    | VNull
    | VBool(b: bool)
    | VNumber(n: real)
    | VText(s: Text)
    | VBigInt(i: int)
    | VDate(time: Option<int>)
    | VList(items: seq<Value>)
    | VRecord(fields: seq<Member>)
    | VUnsupported

  datatype Member = Member(key: Text, value: Value)

  /** A value of JSON. */
  datatype Tagged =
    | TNull
    | TBool(b: bool)
    | TNumber(n: real)
    | TText(s: Text)
    | TList(items: seq<Tagged>)
    | TRecord(fields: seq<TaggedMember>)

  datatype TaggedMember = TaggedMember(key: Text, value: Tagged)

  datatype SnapshotError = UnsupportedValue | InvalidDate | InvalidBigInt | InvalidText

  const TYPE_KEY: Text := [0x5F, 0x5F, 0x73, 0x67, 0x5F, 0x74, 0x79, 0x70, 0x65]
  const VALUE_KEY: Text := [0x76, 0x61, 0x6C, 0x75, 0x65]
  const BIGINT_TAG: Text := [0x62, 0x69, 0x67, 0x69, 0x6E, 0x74]
  const DATE_TAG: Text := [0x64, 0x61, 0x74, 0x65]
  const TEXT_TAG: Text := [0x75, 0x74, 0x66, 0x38, 0x2D, 0x62, 0x61, 0x73, 0x65, 0x36, 0x34]

  /** ASCII characters as code units. */
  function Units(s: string): (t: Text)
    ensures |t| == |s| && forall i :: 0 <= i < |s| ==> t[i] == if s[i] as int < 0x10000 then s[i] as int else 0xFFFD
  {
    seq(|s|, i requires 0 <= i < |s| => if s[i] as int < 0x10000 then s[i] as int else 0xFFFD)
  }

  function Chars(t: Text): (s: string)
    ensures |s| == |t|
  {
    seq(|t|, i requires 0 <= i < |t| => if IsSurrogate(t[i]) then '?' else t[i] as char)
  }

  /** The marker's two fields and three tags, as they are spelled. */
  lemma MarkerSpelling()
    ensures TYPE_KEY == Units("__sg_type") && VALUE_KEY == Units("value")
    ensures BIGINT_TAG == Units("bigint") && DATE_TAG == Units("date") && TEXT_TAG == Units("utf8-base64")
  {}

  function Reserved(tag: Text, value: Text): Tagged {
    TRecord([TaggedMember(TYPE_KEY, TText(tag)), TaggedMember(VALUE_KEY, TText(value))])
  }

  // ----- encode -----

  function Encode(calendar: Calendar, v: Value): Result<Tagged, SnapshotError>
    decreases v, 1
  {
    match v
    case VNull => Ok(TNull)
    case VBool(b) => Ok(TBool(b))
    case VNumber(n) => Ok(TNumber(n))
    case VText(s) => Ok(if 0 in s then Reserved(TEXT_TAG, Units(Base64(Utf8(s), false))) else TText(s))
    case VBigInt(i) => Ok(Reserved(BIGINT_TAG, IntegerText(i)))
    case VDate(time) => if time.Some? then Ok(Reserved(DATE_TAG, calendar.iso(time.value))) else Err(InvalidDate)
    case VList(items) =>
      var list :- EncodeItems(calendar, items);
      Ok(TList(list))
    case VRecord(fields) =>
      var members :- EncodeFields(calendar, fields);
      Ok(TRecord(members))
    case VUnsupported => Err(UnsupportedValue)
  }

  function EncodeItems(calendar: Calendar, items: seq<Value>): Result<seq<Tagged>, SnapshotError>
    decreases items, 0
  {
    if items == [] then Ok([])
    else
      var first :- Encode(calendar, items[0]);
      var rest :- EncodeItems(calendar, items[1..]);
      Ok([first] + rest)
  }

  function EncodeFields(calendar: Calendar, fields: seq<Member>): Result<seq<TaggedMember>, SnapshotError>
    decreases fields, 0
  {
    if fields == [] then Ok([])
    else
      var first :- Encode(calendar, fields[0].value);
      var rest :- EncodeFields(calendar, fields[1..]);
      Ok([TaggedMember(fields[0].key, first)] + rest)
  }

  // ----- decode -----

  /** The text of the field with the key, if it has one. */
  function TextAt(fields: seq<TaggedMember>, key: Text): Option<Text>
    decreases |fields|
  {
    if fields == [] then None
    else if fields[0].key == key then (if fields[0].value.TText? then Some(fields[0].value.s) else None)
    else TextAt(fields[1..], key)
  }

  function ReadBigInt(t: Text): Result<Value, SnapshotError> {
    match ParseInteger(t)
    case Some((Integer(n), rest)) => if rest == [] then Ok(VBigInt(n)) else Err(InvalidBigInt)
    case _ => Err(InvalidBigInt)
  }

  function ReadDate(calendar: Calendar, t: Text): Result<Value, SnapshotError> {
    match calendar.read(t)
    case Some(time) => Ok(VDate(Some(time)))
    case None => Err(InvalidDate)
  }

  function ReadText(t: Text): Result<Value, SnapshotError> {
    match FromBase64(Chars(t), false)
    case None => Err(InvalidText)
    case Some(bytes) =>
      match FromUtf8(bytes)
      case None => Err(InvalidText)
      case Some(s) => Ok(VText(s))
  }

  predicate IsReserved(fields: seq<TaggedMember>) {
    TextAt(fields, VALUE_KEY).Some?
    && (TextAt(fields, TYPE_KEY) == Some(BIGINT_TAG) || TextAt(fields, TYPE_KEY) == Some(DATE_TAG) || TextAt(fields, TYPE_KEY) == Some(TEXT_TAG))
  }

  function ReadReserved(calendar: Calendar, fields: seq<TaggedMember>): Result<Value, SnapshotError>
    requires IsReserved(fields)
  {
    var value := TextAt(fields, VALUE_KEY).value;
    if TextAt(fields, TYPE_KEY).value == BIGINT_TAG then ReadBigInt(value)
    else if TextAt(fields, TYPE_KEY).value == DATE_TAG then ReadDate(calendar, value)
    else ReadText(value)
  }

  function Decode(calendar: Calendar, t: Tagged): Result<Value, SnapshotError>
    decreases t, 1
  {
    match t
    case TNull => Ok(VNull)
    case TBool(b) => Ok(VBool(b))
    case TNumber(n) => Ok(VNumber(n))
    case TText(s) => Ok(VText(s))
    case TList(items) =>
      var list :- DecodeItems(calendar, items);
      Ok(VList(list))
    case TRecord(fields) =>
      if IsReserved(fields) then ReadReserved(calendar, fields)
      else
        var members :- DecodeFields(calendar, fields);
        Ok(VRecord(members))
  }

  function DecodeItems(calendar: Calendar, items: seq<Tagged>): Result<seq<Value>, SnapshotError>
    decreases items, 0
  {
    if items == [] then Ok([])
    else
      var first :- Decode(calendar, items[0]);
      var rest :- DecodeItems(calendar, items[1..]);
      Ok([first] + rest)
  }

  function DecodeFields(calendar: Calendar, fields: seq<TaggedMember>): Result<seq<Member>, SnapshotError>
    decreases fields, 0
  {
    if fields == [] then Ok([])
    else
      var first :- Decode(calendar, fields[0].value);
      var rest :- DecodeFields(calendar, fields[1..]);
      Ok([Member(fields[0].key, first)] + rest)
  }

  // ----- which values survive -----

  /** The plain text of the field with the key: a text that is stored as it is. */
  function PlainAt(fields: seq<Member>, key: Text): Option<Text>
    decreases |fields|
  {
    if fields == [] then None
    else if fields[0].key == key then (if fields[0].value.VText? && 0 !in fields[0].value.s then Some(fields[0].value.s) else None)
    else PlainAt(fields[1..], key)
  }

  /** A record that looks like the encoder's own marker. */
  predicate Masquerades(fields: seq<Member>) {
    PlainAt(fields, VALUE_KEY).Some?
    && (PlainAt(fields, TYPE_KEY) == Some(BIGINT_TAG) || PlainAt(fields, TYPE_KEY) == Some(DATE_TAG) || PlainAt(fields, TYPE_KEY) == Some(TEXT_TAG))
  }

  /** No record masquerades as a marker, and every text with a NUL is free of lone surrogates. */
  predicate Faithful(v: Value)
    decreases v, 1
  {
    match v
    case VText(s) => 0 in s ==> HasNoLoneSurrogate(s)
    case VList(items) => FaithfulItems(items)
    case VRecord(fields) => !Masquerades(fields) && FaithfulFields(fields)
    case _ => true
  }

  predicate FaithfulItems(items: seq<Value>)
    decreases items, 0
  {
    items == [] || (Faithful(items[0]) && FaithfulItems(items[1..]))
  }

  predicate FaithfulFields(fields: seq<Member>)
    decreases fields, 0
  {
    fields == [] || (Faithful(fields[0].value) && FaithfulFields(fields[1..]))
  }

  /** Only dates of the calendar's range occur, as in the running program. */
  predicate DatesValid(v: Value)
    decreases v, 1
  {
    match v
    case VDate(time) => time.Some? ==> ValidTime(time.value)
    case VList(items) => ItemDatesValid(items)
    case VRecord(fields) => FieldDatesValid(fields)
    case _ => true
  }

  predicate ItemDatesValid(items: seq<Value>)
    decreases items, 0
  {
    items == [] || (DatesValid(items[0]) && ItemDatesValid(items[1..]))
  }

  predicate FieldDatesValid(fields: seq<Member>)
    decreases fields, 0
  {
    fields == [] || (DatesValid(fields[0].value) && FieldDatesValid(fields[1..]))
  }

  // ----- leaves -----

  lemma ReservedParts(tag: Text, value: Text)
    ensures TextAt([TaggedMember(TYPE_KEY, TText(tag)), TaggedMember(VALUE_KEY, TText(value))], TYPE_KEY) == Some(tag)
    ensures TextAt([TaggedMember(TYPE_KEY, TText(tag)), TaggedMember(VALUE_KEY, TText(value))], VALUE_KEY) == Some(value)
  {}

  lemma TagsDiffer()
    ensures BIGINT_TAG != DATE_TAG && BIGINT_TAG != TEXT_TAG && DATE_TAG != TEXT_TAG
  {}

  lemma BigIntSurvives(i: int)
    ensures ReadBigInt(IntegerText(i)) == Ok(VBigInt(i))
  {
    IntegerReads(i, []);
    assert IntegerText(i) + [] == IntegerText(i);
    hide IntegerText, ParseInteger;
  }

  lemma {:induction false} SymbolsAreNotNul(b: seq<Byte>)
    ensures forall i :: 0 <= i < |Base64(b, false)| ==> 0 < Base64(b, false)[i] as int < 128
    decreases |b|
  {
    forall v: Sextet
      ensures 0 < Symbol(v, false) as int < 128
    {}
    if |b| > 2 {
      SymbolsAreNotNul(b[3..]);
    }
    hide Symbol, Group0, Group1, Group2, Group3;
  }

  lemma {:induction false} TextMarkerReads(s: Text)
    ensures ReadText(Units(Base64(Utf8(s), false))) == Ok(VText(WellFormedText(s)))
  {
    var b := Base64(Utf8(s), false);
    SymbolsAreNotNul(Utf8(s));
    hide Base64, Utf8, FromBase64, FromUtf8;
    assert Chars(Units(b)) == b;
    Base64RoundTrip(Utf8(s), false);
    Utf8RoundTrip(s);
  }

  lemma {:induction false} LeafRoundTrip(calendar: Calendar, v: Value)
    requires calendar.Valid() && DatesValid(v) && !v.VList? && !v.VRecord? && Encode(calendar, v).Ok?
    ensures Decode(calendar, Encode(calendar, v).value) == Ok(v) <==> Faithful(v)
  {
    TagsDiffer();
    match v
    case VText(s) =>
      if 0 in s {
        ReservedParts(TEXT_TAG, Units(Base64(Utf8(s), false)));
        TextMarkerReads(s);
        SurvivesWhenWellFormed(s);
      }
      hide Base64, Utf8, ReadText, TextAt, WellFormedText, HasNoLoneSurrogate;
    case VBigInt(i) =>
      ReservedParts(BIGINT_TAG, IntegerText(i));
      BigIntSurvives(i);
      hide IntegerText, ReadBigInt, TextAt;
    case VDate(time) =>
      ReservedParts(DATE_TAG, calendar.iso(time.value));
      hide TextAt;
    case _ =>
  }

  // ----- structures -----

  /** A record's marker fields are the plain ones, and encoding keeps which records look like markers. */
  lemma {:induction false} MarkersKept(calendar: Calendar, fields: seq<Member>, key: Text)
    requires EncodeFields(calendar, fields).Ok?
    ensures TextAt(EncodeFields(calendar, fields).value, key) == PlainAt(fields, key)
    decreases |fields|
  {
    if fields != [] {
      MarkersKept(calendar, fields[1..], key);
      var encoded := EncodeFields(calendar, fields).value;
      var first, rest := Encode(calendar, fields[0].value).value, EncodeFields(calendar, fields[1..]).value;
      assert encoded == [TaggedMember(fields[0].key, first)] + rest && encoded[1..] == rest;
      EncodedText(calendar, fields[0].value);
      hide Encode, EncodeFields;
    }
  }

  lemma EncodedText(calendar: Calendar, v: Value)
    requires Encode(calendar, v).Ok?
    ensures Encode(calendar, v).value.TText? <==> v.VText? && 0 !in v.s
    ensures v.VText? && 0 !in v.s ==> Encode(calendar, v).value.s == v.s
  {}

  /**
   Encoding loses nothing exactly when no record masquerades as one of the
   encoder's own markers and no text with a NUL has a lone surrogate.
   */
  lemma {:induction false} SnapshotRoundTrip(calendar: Calendar, v: Value)
    requires calendar.Valid() && DatesValid(v) && Encode(calendar, v).Ok?
    ensures Decode(calendar, Encode(calendar, v).value) == Ok(v) <==> Faithful(v)
    decreases v, 1
  {
    if v.VList? {
      ItemsRoundTrip(calendar, v.items);
      hide EncodeItems, DecodeItems, FaithfulItems, ItemDatesValid;
    } else if v.VRecord? {
      FieldsRoundTrip(calendar, v.fields);
      MarkersKept(calendar, v.fields, TYPE_KEY);
      MarkersKept(calendar, v.fields, VALUE_KEY);
      MarkersAreNotRecords(calendar, EncodeFields(calendar, v.fields).value);
      hide EncodeFields, DecodeFields, FaithfulFields, FieldDatesValid, TextAt, PlainAt, ReadReserved;
    } else {
      LeafRoundTrip(calendar, v);
      hide Encode, Decode, Faithful, DatesValid;
    }
  }

  lemma MarkersAreNotRecords(calendar: Calendar, fields: seq<TaggedMember>)
    ensures IsReserved(fields) ==> !(ReadReserved(calendar, fields).Ok? && ReadReserved(calendar, fields).value.VRecord?)
  {
    hide TextAt, ParseInteger, FromBase64, FromUtf8;
  }

  lemma {:induction false} ItemsRoundTrip(calendar: Calendar, items: seq<Value>)
    requires calendar.Valid() && ItemDatesValid(items) && EncodeItems(calendar, items).Ok?
    ensures DecodeItems(calendar, EncodeItems(calendar, items).value) == Ok(items) <==> FaithfulItems(items)
    decreases items, 0
  {
    if items != [] {
      SnapshotRoundTrip(calendar, items[0]);
      ItemsRoundTrip(calendar, items[1..]);
      var first, rest := Encode(calendar, items[0]).value, EncodeItems(calendar, items[1..]).value;
      assert ([first] + rest)[1..] == rest;
      assert items == [items[0]] + items[1..];
      hide Encode, Decode, Faithful, DatesValid;
    }
  }

  lemma {:induction false} FieldsRoundTrip(calendar: Calendar, fields: seq<Member>)
    requires calendar.Valid() && FieldDatesValid(fields) && EncodeFields(calendar, fields).Ok?
    ensures DecodeFields(calendar, EncodeFields(calendar, fields).value) == Ok(fields) <==> FaithfulFields(fields)
    decreases fields, 0
  {
    if fields != [] {
      SnapshotRoundTrip(calendar, fields[0].value);
      FieldsRoundTrip(calendar, fields[1..]);
      var first, rest := Encode(calendar, fields[0].value).value, EncodeFields(calendar, fields[1..]).value;
      assert ([TaggedMember(fields[0].key, first)] + rest)[1..] == rest;
      assert fields == [fields[0]] + fields[1..];
      assert fields[0] == Member(fields[0].key, fields[0].value);
      hide Encode, Decode, Faithful, DatesValid;
    }
  }

  lemma EncodeFieldsCons(calendar: Calendar, f: Member, rest: seq<Member>)
    requires Encode(calendar, f.value).Ok? && EncodeFields(calendar, rest).Ok?
    ensures EncodeFields(calendar, [f] + rest) == Ok([TaggedMember(f.key, Encode(calendar, f.value).value)] + EncodeFields(calendar, rest).value)
  {}

  /** The shortest loss: a record that is its own marker comes back as a big integer. */
  lemma MasqueradeIsLost(calendar: Calendar)
    ensures var v := VRecord([Member(TYPE_KEY, VText(BIGINT_TAG)), Member(VALUE_KEY, VText([0x35]))]);
            !Faithful(v) && Encode(calendar, v).Ok? && Decode(calendar, Encode(calendar, v).value) == Ok(VBigInt(5))
  {
    var fields := [Member(TYPE_KEY, VText(BIGINT_TAG)), Member(VALUE_KEY, VText([0x35]))];
    assert fields[1..] == [Member(VALUE_KEY, VText([0x35]))] && fields[1..][1..] == [];
    assert TYPE_KEY[0] != VALUE_KEY[0];
    assert PlainAt(fields, VALUE_KEY) == PlainAt(fields[1..], VALUE_KEY) == Some([0x35]);
    var five: Text := [0x35];
    var marker, value := TaggedMember(TYPE_KEY, TText(BIGINT_TAG)), TaggedMember(VALUE_KEY, TText(five));
    assert Encode(calendar, VText(five)) == Ok(TText(five)) && Encode(calendar, VText(BIGINT_TAG)) == Ok(TText(BIGINT_TAG));
    EncodeFieldsCons(calendar, fields[1], []);
    assert [fields[1]] + [] == fields[1..] && [value] + [] == [value];
    assert EncodeFields(calendar, fields[1..]) == Ok([value]);
    EncodeFieldsCons(calendar, fields[0], fields[1..]);
    assert [fields[0]] + fields[1..] == fields && [marker] + [value] == [marker, value];
    assert EncodeFields(calendar, fields) == Ok([marker, value]);
    ReservedParts(BIGINT_TAG, [0x35]);
    BigIntSurvives(5);
    assert IntegerText(5) == [0x35];
    hide TextAt, EncodeFields, ReadBigInt;
  }

  // ----- what PostgreSQL is given -----

  /** No text value anywhere contains a NUL. */
  predicate NulFree(t: Tagged)
    decreases t, 1
  {
    match t
    case TText(s) => 0 !in s
    case TList(items) => ItemsNulFree(items)
    case TRecord(fields) => FieldsNulFree(fields)
    case _ => true
  }

  predicate ItemsNulFree(items: seq<Tagged>)
    decreases items, 0
  {
    items == [] || (NulFree(items[0]) && ItemsNulFree(items[1..]))
  }

  predicate FieldsNulFree(fields: seq<TaggedMember>)
    decreases fields, 0
  {
    fields == [] || (NulFree(fields[0].value) && FieldsNulFree(fields[1..]))
  }

  lemma MarkerNulFree(tag: Text, value: Text)
    requires 0 !in tag && 0 !in value
    ensures NulFree(Reserved(tag, value))
  {
    var fields := [TaggedMember(TYPE_KEY, TText(tag)), TaggedMember(VALUE_KEY, TText(value))];
    assert fields[1..] == [TaggedMember(VALUE_KEY, TText(value))] && fields[1..][1..] == [];
    assert FieldsNulFree([]) && NulFree(TText(tag)) && NulFree(TText(value));
    assert FieldsNulFree(fields[1..]);
  }

  lemma {:induction false} DigitsNulFree(n: nat)
    ensures 0 !in NatDigits(n)
  {
    if n >= 10 {
      DigitsNulFree(n / 10);
    }
  }

  lemma {:induction false} SymbolsNulFree(b: seq<Byte>)
    ensures 0 !in Units(Base64(b, false))
  {
    SymbolsAreNotNul(b);
    hide Base64;
  }

  /** Whatever is encoded, no text value in the result contains a NUL. */
  lemma {:induction false} EncodedIsNulFree(calendar: Calendar, v: Value)
    requires calendar.Valid() && DatesValid(v) && Encode(calendar, v).Ok?
    ensures NulFree(Encode(calendar, v).value)
    decreases v, 1
  {
    match v
    case VText(s) =>
      SymbolsNulFree(Utf8(s));
      MarkerNulFree(TEXT_TAG, Units(Base64(Utf8(s), false)));
    case VBigInt(i) =>
      DigitsNulFree(if i < 0 then -i else i);
      MarkerNulFree(BIGINT_TAG, IntegerText(i));
    case VDate(time) =>
      MarkerNulFree(DATE_TAG, calendar.iso(time.value));
    case VList(items) => EncodedItemsNulFree(calendar, items);
    case VRecord(fields) => EncodedFieldsNulFree(calendar, fields);
    case _ =>
    hide EncodeItems, EncodeFields, Base64, Utf8, NatDigits, Reserved, ItemsNulFree, FieldsNulFree;
  }

  lemma {:induction false} EncodedItemsNulFree(calendar: Calendar, items: seq<Value>)
    requires calendar.Valid() && ItemDatesValid(items) && EncodeItems(calendar, items).Ok?
    ensures ItemsNulFree(EncodeItems(calendar, items).value)
    decreases items, 0
  {
    if items != [] {
      EncodedIsNulFree(calendar, items[0]);
      EncodedItemsNulFree(calendar, items[1..]);
      var first, rest := Encode(calendar, items[0]).value, EncodeItems(calendar, items[1..]).value;
      assert ([first] + rest)[1..] == rest;
      hide Encode, NulFree, DatesValid;
    }
  }

  lemma {:induction false} EncodedFieldsNulFree(calendar: Calendar, fields: seq<Member>)
    requires calendar.Valid() && FieldDatesValid(fields) && EncodeFields(calendar, fields).Ok?
    ensures FieldsNulFree(EncodeFields(calendar, fields).value)
    decreases fields, 0
  {
    if fields != [] {
      EncodedIsNulFree(calendar, fields[0].value);
      EncodedFieldsNulFree(calendar, fields[1..]);
      var first, rest := Encode(calendar, fields[0].value).value, EncodeFields(calendar, fields[1..]).value;
      assert ([TaggedMember(fields[0].key, first)] + rest)[1..] == rest;
      hide Encode, NulFree, DatesValid;
    }
  }
}
