/** The opaque page cursors: compact JSON in URL-safe base64, checked strictly when they come back. */
module GalleryCursors {
  import opened Wrappers
  import opened CanonicalJson
  import opened JsonParsing
  import opened Bytes
  import opened Gallery

  datatype CursorError = InvalidCursor

  const MAX_SAFE := 9007199254740991

  // ----- tokens -----

  predicate IsTokenText(token: string) {
    1 <= |token| <= 512 && forall i :: 0 <= i < |token| ==> SymbolValue(token[i], true).Some?
  }

  function Token(v: Json): string {
    Base64(Utf8(Print(v)), true)
  }

  /** The value in a token that is its own canonical base64 text; anything else is refused. */
  function TokenValue(token: string): Result<Json, CursorError> {
    if !IsTokenText(token) then Err(InvalidCursor)
    else
      match FromBase64(token, true)
      case None => Err(InvalidCursor)
      case Some(bytes) =>
        if Base64(bytes, true) != token then Err(InvalidCursor)
        else
          match FromUtf8(bytes)
          case None => Err(InvalidCursor)
          case Some(text) =>
            match ParseValue(text)
            case None => Err(InvalidCursor)
            case Some((v, rest)) => if rest == [] then Ok(v) else Err(InvalidCursor)
  }

  /** The printed text has no lone surrogate. */
  predicate Printable(v: Json) {
    HasNoLoneSurrogate(Print(v))
  }

  /** A token that fits gives its value back; a longer one is refused. */
  lemma {:induction false} TokenRoundTrip(v: Json)
    requires Printable(v)
    ensures TokenValue(Token(v)) == if |Token(v)| <= 512 then Ok(v) else Err(InvalidCursor)
  {
    var text := Print(v);
    PrintStart(v);
    PrintReads(v, []);
    assert text + [] == text;
    Utf8RoundTrip(text);
    SurvivesWhenWellFormed(text);
    Base64RoundTrip(Utf8(text), true);
    Base64UrlAlphabet(Utf8(text));
    NonemptyToken(text);
    hide Print, ParseValue, Utf8, FromUtf8, Base64, FromBase64, WellFormedText, HasNoLoneSurrogate, SymbolValue;
  }

  lemma NonemptyToken(text: Text)
    requires text != []
    ensures Base64(Utf8(text), true) != ""
  {}

  // ----- decimal block numbers -----

  predicate IsDecimal(t: Text) {
    && t != [] && (forall i :: 0 <= i < |t| ==> IsDigitUnit(t[i]))
    && (|t| > 1 ==> t[0] != 0x30)
  }

  lemma {:induction false} NatDigitsDecimal(n: nat)
    ensures IsDecimal(NatDigits(n)) && (n > 0 ==> NatDigits(n)[0] != 0x30)
  {
    if n >= 10 {
      NatDigitsDecimal(n / 10);
    }
  }

  lemma {:induction false} DecimalReads(n: nat)
    ensures ParseDigits(NatDigits(n), 0).0 == n
  {
    NatReads(n, []);
    assert NatDigits(n) + [] == NatDigits(n);
    hide NatDigits, ParseDigits;
  }

  // ----- the minted gallery's cursor -----

  predicate IsIdUnit(c: Unit) {
    0x61 <= c <= 0x7A || 0x32 <= c <= 0x37
  }

  /** sg1_ and 52 lower-case base32 symbols. */
  predicate IsSignatureId(t: Text) {
    |t| == 56 && t[..4] == [0x73, 0x67, 0x31, 0x5F] && forall i :: 4 <= i < 56 ==> IsIdUnit(t[i])
  }

  predicate ValidKey(key: MintKey) {
    key.transactionIndex <= MAX_SAFE && key.logIndex <= MAX_SAFE && IsSignatureId(key.signatureId)
  }

  function KeyJson(key: MintKey): Json {
    Array([Str(NatDigits(key.blockNumber)), Integer(key.transactionIndex), Integer(key.logIndex), Str(key.signatureId)])
  }

  function EncodeGalleryCursor(key: MintKey): string {
    Token(KeyJson(key))
  }

  function DecodeGalleryCursor(token: string): Result<MintKey, CursorError> {
    var v :- TokenValue(token);
    if !v.Array? || |v.items| != 4 then Err(InvalidCursor)
    else
      var block, tx, log, id := v.items[0], v.items[1], v.items[2], v.items[3];
      if !block.Str? || !IsDecimal(block.s) || !tx.Integer? || !(0 <= tx.n <= MAX_SAFE)
         || !log.Integer? || !(0 <= log.n <= MAX_SAFE) || !id.Str? || !IsSignatureId(id.s)
      then Err(InvalidCursor)
      else Ok(MintKey(ParseDigits(block.s, 0).0, tx.n, log.n, id.s))
  }

  predicate Ascii(t: Text) {
    forall i :: 0 <= i < |t| ==> 0x20 <= t[i] < 0x7F
  }

  /** Printed as it is between quotes. */
  predicate Plain(t: Text) {
    Ascii(t) && QUOTE !in t && BACKSLASH !in t
  }

  lemma {:induction false} AsciiSurvives(t: Text)
    requires Ascii(t)
    ensures HasNoLoneSurrogate(t)
    decreases |t|
  {
    if t != [] {
      AsciiSurvives(t[1..]);
    }
  }

  lemma {:induction false} EscapedAscii(s: Text, afterHigh: bool)
    requires Ascii(s)
    ensures Ascii(Escaped(s, afterHigh))
    decreases |s|
  {
    if s != [] {
      EscapedAscii(s[1..], false);
      assert s[0] in s;
      assert Ascii(EscapeUnit(s[0], afterHigh));
      hide Escaped;
      assert !IsHigh(s[0]);
      EscapedUnfolds(s, afterHigh);
    }
  }

  lemma EscapedUnfolds(s: Text, afterHigh: bool)
    requires s != [] && !IsHigh(s[0])
    ensures Escaped(s, afterHigh) == EscapeUnit(s[0], afterHigh) + Escaped(s[1..], false)
  {}

  lemma {:induction false} IntegerAscii(n: nat)
    ensures Ascii(NatDigits(n))
  {
    NatDigitsDecimal(n);
    hide NatDigits;
  }

  /** Every part prints in ASCII, so the array does. */
  lemma {:induction false} PartsPrintAscii(items: seq<Json>)
    requires forall i :: 0 <= i < |items| ==> Ascii(Print(items[i]))
    ensures Ascii(PrintItems(items))
    decreases |items|
  {
    if items != [] {
      PartsPrintAscii(items[1..]);
      hide Print;
    }
  }

  lemma {:induction false} TextPrintsAscii(s: Text)
    requires Ascii(s)
    ensures Ascii(Print(Str(s)))
  {
    EscapedAscii(s, false);
    hide Escaped;
  }

  lemma {:induction false} KeyPrintsAscii(key: MintKey)
    requires ValidKey(key)
    ensures Ascii(Print(KeyJson(key)))
  {
    IntegerAscii(key.blockNumber);
    IntegerAscii(key.transactionIndex);
    IntegerAscii(key.logIndex);
    IdIsAscii(key.signatureId);
    TextPrintsAscii(NatDigits(key.blockNumber));
    TextPrintsAscii(key.signatureId);
    assert Print(Integer(key.transactionIndex)) == NatDigits(key.transactionIndex);
    assert Print(Integer(key.logIndex)) == NatDigits(key.logIndex);
    hide NatDigits, Quoted;
    PartsPrintAscii(KeyJson(key).items);
    hide PrintItems;
  }

  lemma IdIsAscii(t: Text)
    requires IsSignatureId(t)
    ensures Ascii(t)
  {}

  /** A valid cursor whose token fits in 512 characters decodes to itself; a longer token is refused. */
  lemma {:induction false} GalleryCursorRoundTrip(key: MintKey)
    requires ValidKey(key)
    ensures DecodeGalleryCursor(EncodeGalleryCursor(key))
         == if |EncodeGalleryCursor(key)| <= 512 then Ok(key) else Err(InvalidCursor)
  {
    KeyPrintsAscii(key);
    AsciiSurvives(Print(KeyJson(key)));
    TokenRoundTrip(KeyJson(key));
    NatDigitsDecimal(key.blockNumber);
    DecimalReads(key.blockNumber);
    hide Print, Token, TokenValue, NatDigits, ParseDigits, HasNoLoneSurrogate, IsDecimal, IsSignatureId;
  }

  // ----- the claimed gallery's cursor -----

  /** The date library: ISO text of a time value, and its reading. */
  datatype Calendar = Calendar(iso: int -> Text, read: Text -> Option<int>) {
    /** Reading undoes writing; the text is plain, with a year of four digits or of a sign and six. */
    ghost predicate Valid() {
      forall t :: ValidTime(t) ==> read(iso(t)) == Some(t) && Plain(iso(t)) && |iso(t)| <= 27
    }
  }

  /** The time values of valid dates, in milliseconds. */
  predicate ValidTime(t: int) {
    -8640000000000000 <= t <= 8640000000000000
  }

  const CLAIMED: Text := [0x63, 0x6C, 0x61, 0x69, 0x6D, 0x65, 0x64]

  function ClaimJson(calendar: Calendar, key: ClaimKey): Json {
    Array([Str(CLAIMED), Str(calendar.iso(key.claimedAt)), Str(key.signatureId)])
  }

  function EncodeClaimCursor(calendar: Calendar, key: ClaimKey): string {
    Token(ClaimJson(calendar, key))
  }

  function DecodeClaimCursor(calendar: Calendar, token: string): Result<ClaimKey, CursorError> {
    var v :- TokenValue(token);
    if !v.Array? || |v.items| != 3 then Err(InvalidCursor)
    else
      var kind, at, id := v.items[0], v.items[1], v.items[2];
      if kind != Str(CLAIMED) || !at.Str? || !id.Str? || !IsSignatureId(id.s) then Err(InvalidCursor)
      else
        match calendar.read(at.s)
        case None => Err(InvalidCursor)
        case Some(t) => if ValidTime(t) && calendar.iso(t) == at.s then Ok(ClaimKey(t, id.s)) else Err(InvalidCursor)
  }

  lemma {:induction false} ClaimPrintsAscii(calendar: Calendar, key: ClaimKey)
    requires calendar.Valid() && ValidTime(key.claimedAt) && IsSignatureId(key.signatureId)
    ensures Ascii(Print(ClaimJson(calendar, key)))
  {
    var v := ClaimJson(calendar, key);
    IdIsAscii(key.signatureId);
    assert Plain(calendar.iso(key.claimedAt));
    TextPrintsAscii(CLAIMED);
    TextPrintsAscii(calendar.iso(key.claimedAt));
    TextPrintsAscii(key.signatureId);
    hide Quoted;
    PartsPrintAscii(v.items);
    ArrayPrintsAscii(v.items);
    hide PrintItems, Calendar.Valid;
  }

  lemma {:induction false} ClaimCursorRoundTrip(calendar: Calendar, key: ClaimKey)
    requires calendar.Valid() && ValidTime(key.claimedAt) && IsSignatureId(key.signatureId)
    ensures DecodeClaimCursor(calendar, EncodeClaimCursor(calendar, key))
         == if |EncodeClaimCursor(calendar, key)| <= 512 then Ok(key) else Err(InvalidCursor)
  {
    var v := ClaimJson(calendar, key);
    ClaimPrintsAscii(calendar, key);
    AsciiSurvives(Print(v));
    TokenRoundTrip(v);
    hide Print, PrintItems, Token, TokenValue, HasNoLoneSurrogate, IsSignatureId;
  }

  lemma ArrayPrintsAscii(items: seq<Json>)
    requires Ascii(PrintItems(items))
    ensures Ascii(Print(Array(items)))
  {}
}
