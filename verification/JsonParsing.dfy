/** A parser for canonical JSON text, and the proof that it undoes the printer. */
module JsonParsing {
  import opened Wrappers
  import opened CanonicalJson

  // ----- the parser -----

  function ParseHex(s: Text): Option<Unit> {
    if |s| < 4 then None
    else
      match (HexValue(s[0]), HexValue(s[1]), HexValue(s[2]), HexValue(s[3]))
      case (Some(a), Some(b), Some(c), Some(d)) => Some(a * 0x1000 + b * 0x100 + c * 16 + d)
      case _ => None
  }

  /** The string up to its closing quote, and what follows the quote. */
  function ParseString(s: Text): (r: Option<(Text, Text)>)
    ensures r.Some? ==> |r.value.1| < |s|
    decreases |s|
  {
    if s == [] || s[0] < 0x20 then None
    else if s[0] == QUOTE then Some(([], s[1..]))
    else if s[0] == BACKSLASH then
      if |s| < 2 then None
      else if s[1] == LETTER_U then
        match ParseHex(s[2..])
        case None => None
        case Some(c) => PrependUnit(c, ParseString(s[6..]))
      else
        match Unescape(s[1])
        case None => None
        case Some(c) => PrependUnit(c, ParseString(s[2..]))
    else PrependUnit(s[0], ParseString(s[1..]))
  }

  function PrependUnit(c: Unit, r: Option<(Text, Text)>): Option<(Text, Text)> {
    if r.None? then None else Some(([c] + r.value.0, r.value.1))
  }

  /** The value of the digits at the start of s, continuing from acc, and what follows them. */
  function ParseDigits(s: Text, acc: nat): (r: (nat, Text))
    ensures |r.1| <= |s|
    decreases |s|
  {
    if s == [] || !IsDigitUnit(s[0]) then (acc, s) else ParseDigits(s[1..], 10 * acc + (s[0] - 0x30))
  }

  function ParseInteger(s: Text): (r: Option<(Json, Text)>)
    ensures r.Some? ==> |r.value.1| < |s|
  {
    if s == [] then None
    else if s[0] == MINUS then
      if |s| < 2 || !IsDigitUnit(s[1]) then None
      else
        var (n, rest) := ParseDigits(s[1..], 0);
        Some((Integer(-(n as int)), rest))
    else if IsDigitUnit(s[0]) then
      var (n, rest) := ParseDigits(s[1..], s[0] - 0x30);
      Some((Integer(n), rest))
    else None
  }

  function ParseValue(s: Text): (r: Option<(Json, Text)>)
    ensures r.Some? ==> |r.value.1| < |s|
    decreases |s|, 1
  {
    if s == [] then None
    else if s[0] == QUOTE then
      match ParseString(s[1..])
      case None => None
      case Some((t, rest)) => Some((Str(t), rest))
    else if s[0] == OPEN_BRACKET then
      if |s| > 1 && s[1] == CLOSE_BRACKET then Some((Array([]), s[2..]))
      else
        match ParseItems(s[1..])
        case None => None
        case Some((items, rest)) => Some((Array(items), rest))
    else if s[0] == OPEN_BRACE then
      if |s| > 1 && s[1] == CLOSE_BRACE then Some((Object([]), s[2..]))
      else
        match ParseFields(s[1..])
        case None => None
        case Some((fields, rest)) => Some((Object(fields), rest))
    else if NULL_TEXT <= s then Some((Null, s[4..]))
    else if TRUE_TEXT <= s then Some((Bool(true), s[4..]))
    else if FALSE_TEXT <= s then Some((Bool(false), s[5..]))
    else ParseInteger(s)
  }

  /** One or more values separated by commas, up to the closing bracket. */
  function ParseItems(s: Text): (r: Option<(seq<Json>, Text)>)
    ensures r.Some? ==> |r.value.1| < |s|
    decreases |s|, 2
  {
    match ParseValue(s)
    case None => None
    case Some((v, rest)) =>
      if rest != [] && rest[0] == CLOSE_BRACKET then Some(([v], rest[1..]))
      else if rest != [] && rest[0] == COMMA then
        match ParseItems(rest[1..])
        case None => None
        case Some((more, after)) => Some(([v] + more, after))
      else None
  }

  /** One or more members separated by commas, up to the closing brace. */
  function ParseFields(s: Text): (r: Option<(seq<Field>, Text)>)
    ensures r.Some? ==> |r.value.1| < |s|
    decreases |s|, 2
  {
    if s == [] || s[0] != QUOTE then None
    else
      match ParseString(s[1..])
      case None => None
      case Some((key, afterKey)) =>
        if afterKey == [] || afterKey[0] != COLON then None
        else
          match ParseValue(afterKey[1..])
          case None => None
          case Some((v, rest)) =>
            if rest != [] && rest[0] == CLOSE_BRACE then Some(([Field(key, v)], rest[1..]))
            else if rest != [] && rest[0] == COMMA then
              match ParseFields(rest[1..])
              case None => None
              case Some((more, after)) => Some(([Field(key, v)] + more, after))
            else None
  }

  // ----- strings read back -----

  lemma HexReads(c: Unit, rest: Text)
    ensures ParseHex(UnicodeEscape(c)[2..] + rest) == Some(c)
  {
    HexDigitReads(c / 0x1000);
    HexDigitReads(c / 0x100 % 16);
    HexDigitReads(c / 16 % 16);
    HexDigitReads(c % 16);
    HexSum(c);
    hide HexDigit, HexValue;
    var t := UnicodeEscape(c)[2..] + rest;
    assert t[0] == HexDigit(c / 0x1000) && t[1] == HexDigit(c / 0x100 % 16) && t[2] == HexDigit(c / 16 % 16) && t[3] == HexDigit(c % 16);
  }

  lemma HexSum(c: Unit)
    ensures c / 0x1000 * 0x1000 + c / 0x100 % 16 * 0x100 + c / 16 % 16 * 16 + c % 16 == c
  {
    assert c / 0x100 == c / 16 / 16 && c / 0x1000 == c / 16 / 16 / 16;
  }

  lemma HexDigitReads(d: int)
    requires 0 <= d < 16
    ensures HexValue(HexDigit(d)) == Some(d)
  {}

  lemma {:induction false} UnitReads(c: Unit, paired: bool, rest: Text)
    ensures ParseString(EscapeUnit(c, paired) + rest) == PrependUnit(c, ParseString(rest))
  {
    var t := EscapeUnit(c, paired) + rest;
    if ShortEscape(c).Some? {
      assert t[2..] == rest;
    } else if NeedsUnicodeEscape(c, paired) {
      HexReads(c, rest);
      assert t[2..] == UnicodeEscape(c)[2..] + rest;
      assert t[6..] == rest;
    } else {
      assert t[1..] == rest;
    }
  }

  lemma Behind(first: Text, more: Text, quote: Text, rest: Text)
    ensures first + more + quote + rest == first + (more + quote + rest)
  {}

  lemma {:induction false} EscapedReads(s: Text, afterHigh: bool, rest: Text)
    ensures ParseString(Escaped(s, afterHigh) + [QUOTE] + rest) == Some((s, rest))
    decreases |s|
  {
    if s == [] {
      ClosingQuoteReads(rest);
      assert [] + [QUOTE] + rest == [QUOTE] + rest;
    } else {
      hide ParseString, EscapeUnit;
      var startsPair := !afterHigh && IsHigh(s[0]) && |s| > 1 && IsLow(s[1]);
      var first := EscapeUnit(s[0], startsPair || afterHigh);
      var more := Escaped(s[1..], startsPair);
      EscapedReads(s[1..], startsPair, rest);
      UnitReads(s[0], startsPair || afterHigh, more + [QUOTE] + rest);
      Behind(first, more, [QUOTE], rest);
      assert [s[0]] + s[1..] == s;
    }
  }

  lemma ClosingQuoteReads(rest: Text)
    ensures ParseString([QUOTE] + rest) == Some(([], rest))
  {}

  lemma {:induction false} QuotedReads(s: Text, rest: Text)
    ensures var t := Quoted(s) + rest;
            t != [] && t[0] == QUOTE && ParseString(t[1..]) == Some((s, rest))
  {
    hide ParseString, Escaped;
    EscapedReads(s, false, rest);
    assert (Quoted(s) + rest)[1..] == Escaped(s, false) + [QUOTE] + rest;
  }

  // ----- numbers read back -----

  predicate EndsNumber(rest: Text) {
    rest == [] || !IsDigitUnit(rest[0])
  }

  function Power10(k: nat): nat {
    if k == 0 then 1 else 10 * Power10(k - 1)
  }

  lemma Shifted(acc: nat, high: nat, n: nat)
    ensures 10 * (acc * high + n / 10) + n % 10 == acc * (10 * high) + n
  {
    assert acc * (10 * high) == 10 * (acc * high);
  }

  lemma {:induction false} DigitsRead(n: nat, acc: nat, rest: Text)
    ensures ParseDigits(NatDigits(n) + rest, acc) == ParseDigits(rest, acc * Power10(|NatDigits(n)|) + n)
    decreases n
  {
    if n < 10 {
      assert (NatDigits(n) + rest)[1..] == rest;
    } else {
      var last := [0x30 + n % 10];
      DigitsRead(n / 10, acc, last + rest);
      assert NatDigits(n) + rest == NatDigits(n / 10) + (last + rest);
      assert (last + rest)[1..] == rest;
      Shifted(acc, Power10(|NatDigits(n / 10)|), n);
    }
  }

  lemma {:induction false} NatReads(n: nat, rest: Text)
    requires EndsNumber(rest)
    ensures var t := NatDigits(n) + rest;
            t != [] && IsDigitUnit(t[0]) && ParseDigits(t, 0) == (n, rest) && ParseDigits(t[1..], t[0] - 0x30) == (n, rest)
  {
    DigitsRead(n, 0, rest);
    NatDigitsStart(n);
    hide NatDigits, Power10;
    assert 0 * Power10(|NatDigits(n)|) == 0;
  }

  lemma {:induction false} IntegerReads(n: int, rest: Text)
    requires EndsNumber(rest)
    ensures ParseInteger(IntegerText(n) + rest) == Some((Integer(n), rest))
  {
    NatReads(if n < 0 then -n else n, rest);
    hide NatDigits, ParseDigits;
    if n < 0 {
      assert (IntegerText(n) + rest)[1..] == NatDigits(-n) + rest;
    }
  }

  lemma {:induction false} NatDigitsStart(n: nat)
    ensures NatDigits(n) != [] && IsDigitUnit(NatDigits(n)[0])
  {
    if n >= 10 {
      NatDigitsStart(n / 10);
    }
  }

  // ----- values read back -----

  /** What may follow a value: the end, a comma or a closing bracket. */
  predicate EndsValue(rest: Text) {
    rest == [] || rest[0] == COMMA || rest[0] == CLOSE_BRACKET || rest[0] == CLOSE_BRACE
  }

  lemma {:induction false} PrintStart(v: Json)
    ensures Print(v) != [] && Print(v)[0] != CLOSE_BRACKET && Print(v)[0] != CLOSE_BRACE
  {
    if v.Integer? {
      NatDigitsStart(if v.n < 0 then -v.n else v.n);
    }
  }

  lemma LiteralReads(v: Json, rest: Text)
    requires v.Null? || v.Bool?
    ensures ParseValue(Print(v) + rest) == Some((v, rest))
  {
    hide ParseItems, ParseFields, ParseString, ParseInteger;
    var t := Print(v) + rest;
    assert t[|Print(v)|..] == rest;
  }

  lemma {:induction false} IntegerValueReads(n: int, rest: Text)
    requires EndsNumber(rest)
    ensures ParseValue(IntegerText(n) + rest) == Some((Integer(n), rest))
  {
    NatDigitsStart(if n < 0 then -n else n);
    IntegerReads(n, rest);
    hide ParseItems, ParseFields, ParseString, ParseInteger, NatDigits;
    var t := IntegerText(n) + rest;
    assert t[0] == MINUS || IsDigitUnit(t[0]);
  }

  lemma {:induction false} PrintReads(v: Json, rest: Text)
    requires EndsValue(rest)
    ensures ParseValue(Print(v) + rest) == Some((v, rest))
    decreases v, 1
  {
    hide ParseItems, ParseFields, ParseString, ParseInteger, PrintItems, PrintFields, Quoted, IntegerText;
    var t := Print(v) + rest;
    match v
    case Null => LiteralReads(v, rest);
    case Bool(b) => LiteralReads(v, rest);
    case Integer(n) => IntegerValueReads(n, rest);
    case Str(s) => QuotedReads(s, rest);
    case Array(items) =>
      if items == [] {
        EmptyReads(rest);
      } else {
        ItemsRead(items, rest);
        assert t[1..] == PrintItems(items) + ([CLOSE_BRACKET] + rest);
      }
    case Object(fields) =>
      if fields == [] {
        EmptyReads(rest);
      } else {
        FieldsRead(fields, rest);
        assert t[1..] == PrintFields(fields) + ([CLOSE_BRACE] + rest);
      }
  }

  lemma EmptyReads(rest: Text)
    ensures ParseValue(Print(Array([])) + rest) == Some((Array([]), rest))
    ensures ParseValue(Print(Object([])) + rest) == Some((Object([]), rest))
  {
    hide ParseItems, ParseFields, ParseString, ParseInteger;
    assert (Print(Array([])) + rest)[2..] == rest;
    assert (Print(Object([])) + rest)[2..] == rest;
  }

  lemma {:induction false} ItemsRead(items: seq<Json>, rest: Text)
    requires items != []
    ensures var t := PrintItems(items) + ([CLOSE_BRACKET] + rest);
            ParseItems(t) == Some((items, rest)) && t[0] != CLOSE_BRACKET
    decreases items, 0
  {
    hide ParseValue, Print, PrintItems;
    var close := [CLOSE_BRACKET] + rest;
    var after := if |items| == 1 then close else [COMMA] + (PrintItems(items[1..]) + close);
    PrintItemsParts(items, close);
    PrintReads(items[0], after);
    PrintStart(items[0]);
    if |items| == 1 {
      assert close[1..] == rest && items == [items[0]];
    } else {
      ItemsRead(items[1..], rest);
      assert after[1..] == PrintItems(items[1..]) + close;
      assert [items[0]] + items[1..] == items;
    }
  }

  lemma {:induction false} PrintItemsParts(items: seq<Json>, close: Text)
    requires items != []
    ensures PrintItems(items) + close
            == Print(items[0]) + (if |items| == 1 then close else [COMMA] + (PrintItems(items[1..]) + close))
  {
    hide Print;
  }

  lemma {:induction false} FieldsRead(fields: seq<Field>, rest: Text)
    requires fields != []
    ensures var t := PrintFields(fields) + ([CLOSE_BRACE] + rest);
            ParseFields(t) == Some((fields, rest)) && t[0] != CLOSE_BRACE
    decreases fields, 0
  {
    hide ParseValue, ParseString, Print, Quoted, PrintFields;
    var f := fields[0];
    var close := [CLOSE_BRACE] + rest;
    var after := if |fields| == 1 then close else [COMMA] + (PrintFields(fields[1..]) + close);
    var afterKey := [COLON] + (Print(f.value) + after);
    PrintFieldsParts(fields, close);
    QuotedReads(f.key, afterKey);
    assert afterKey[1..] == Print(f.value) + after;
    PrintReads(f.value, after);
    if |fields| == 1 {
      assert close[1..] == rest && fields == [f];
    } else {
      FieldsRead(fields[1..], rest);
      assert after[1..] == PrintFields(fields[1..]) + close;
      assert [f] + fields[1..] == fields;
    }
  }

  lemma {:induction false} PrintFieldsParts(fields: seq<Field>, close: Text)
    requires fields != []
    ensures PrintFields(fields) + close
            == Quoted(fields[0].key)
               + ([COLON] + (Print(fields[0].value)
                             + (if |fields| == 1 then close else [COMMA] + (PrintFields(fields[1..]) + close))))
  {
    hide Print, Quoted;
  }

  /** The parser undoes canonical printing: it returns the normal form of the printed value, and nothing is left over. */
  lemma {:induction false} ParseUndoesCanonical(v: Json)
    ensures ParseValue(Canonical(v)) == Some((Normal(v), []))
  {
    CanonicalPrintsNormal(v);
    PrintReads(Normal(v), []);
    assert Print(Normal(v)) + [] == Print(Normal(v));
  }
}
