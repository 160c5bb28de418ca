/** How long cursor tokens are, and so which cursors the decoder's limit of 512 characters shuts out. */
module CursorLengths {
  import opened CanonicalJson
  import opened Bytes
  import opened Wrappers
  import opened Gallery
  import opened GalleryCursors

  lemma {:induction false} PlainIsNotEscaped(s: Text)
    requires Plain(s)
    ensures Escaped(s, false) == s
    decreases |s|
  {
    if s != [] {
      PlainIsNotEscaped(s[1..]);
      assert s[0] in s;
      EscapedUnfolds(s, false);
      assert EscapeUnit(s[0], false) == [s[0]];
    }
  }

  lemma PlainPrints(s: Text)
    requires Plain(s)
    ensures |Print(Str(s))| == |s| + 2
  {
    PlainIsNotEscaped(s);
    hide Escaped;
  }

  lemma {:induction false} OneByteEach(t: Text)
    requires Ascii(t)
    ensures |Utf8(t)| == |t|
    decreases |t|
  {
    if t != [] {
      OneByteEach(t[1..]);
    }
  }

  /** Three bytes give four characters; one or two left over give two or three. */
  lemma {:induction false} Base64Length(b: seq<Byte>)
    ensures |Base64(b, true)| == (4 * |b| + 2) / 3
    decreases |b|
  {
    if |b| > 2 {
      Base64Length(b[3..]);
    }
  }

  lemma TokenLength(v: Json)
    requires Ascii(Print(v))
    ensures |Token(v)| == (4 * |Print(v)| + 2) / 3
  {
    OneByteEach(Print(v));
    Base64Length(Utf8(Print(v)));
    hide Print, Utf8, Base64;
  }

  /** The decimal digits of a cursor's block number, transaction index and log index, together. */
  function Places(key: MintKey): nat {
    |NatDigits(key.blockNumber)| + |NatDigits(key.transactionIndex)| + |NatDigits(key.logIndex)|
  }

  lemma DigitsArePlain(n: nat)
    ensures Plain(NatDigits(n))
  {
    NatDigitsDecimal(n);
    hide NatDigits;
  }

  lemma IdIsPlain(t: Text)
    requires IsSignatureId(t)
    ensures Plain(t)
  {}

  lemma FourParts(a: Json, b: Json, c: Json, d: Json)
    ensures |Print(Array([a, b, c, d]))| == |Print(a)| + |Print(b)| + |Print(c)| + |Print(d)| + 5
  {
    assert [a, b, c, d][1..] == [b, c, d] && [b, c, d][1..] == [c, d] && [c, d][1..] == [d];
    assert |PrintItems([d])| == |Print(d)|;
    assert |PrintItems([c, d])| == |Print(c)| + 1 + |Print(d)|;
    assert |PrintItems([b, c, d])| == |Print(b)| + 1 + |PrintItems([c, d])|;
  }

  lemma ThreeParts(a: Json, b: Json, c: Json)
    ensures |Print(Array([a, b, c]))| == |Print(a)| + |Print(b)| + |Print(c)| + 4
  {
    assert [a, b, c][1..] == [b, c] && [b, c][1..] == [c];
    assert |PrintItems([c])| == |Print(c)|;
    assert |PrintItems([b, c])| == |Print(b)| + 1 + |Print(c)|;
  }

  lemma KeyLength(key: MintKey)
    requires ValidKey(key)
    ensures |Print(KeyJson(key))| == Places(key) + 65
  {
    DigitsArePlain(key.blockNumber);
    IdIsPlain(key.signatureId);
    PlainPrints(NatDigits(key.blockNumber));
    PlainPrints(key.signatureId);
    assert Print(Integer(key.transactionIndex)) == NatDigits(key.transactionIndex);
    assert Print(Integer(key.logIndex)) == NatDigits(key.logIndex);
    hide Print, NatDigits;
    FourParts(Str(NatDigits(key.blockNumber)), Integer(key.transactionIndex), Integer(key.logIndex), Str(key.signatureId));
  }

  /** A cursor survives its token exactly when its three numbers have at most 319 digits together. */
  lemma {:induction false} GalleryCursorFits(key: MintKey)
    requires ValidKey(key)
    ensures DecodeGalleryCursor(EncodeGalleryCursor(key)) == Ok(key) <==> Places(key) <= 319
  {
    KeyPrintsAscii(key);
    KeyLength(key);
    TokenLength(KeyJson(key));
    GalleryCursorRoundTrip(key);
    hide Print, Token, Places, ValidKey, DecodeGalleryCursor, KeyJson;
  }

  /** A claim's cursor always fits, and so always comes back. */
  lemma {:induction false} ClaimCursorFits(calendar: Calendar, key: ClaimKey)
    requires calendar.Valid() && ValidTime(key.claimedAt) && IsSignatureId(key.signatureId)
    ensures DecodeClaimCursor(calendar, EncodeClaimCursor(calendar, key)) == Ok(key)
  {
    var iso := calendar.iso(key.claimedAt);
    IdIsPlain(key.signatureId);
    PlainPrints(CLAIMED);
    PlainPrints(iso);
    PlainPrints(key.signatureId);
    ClaimPrintsAscii(calendar, key);
    assert Plain(iso) && |iso| <= 27;
    hide Print, Plain, Calendar.Valid;
    ThreeParts(Str(CLAIMED), Str(iso), Str(key.signatureId));
    TokenLength(ClaimJson(calendar, key));
    ClaimCursorRoundTrip(calendar, key);
    hide Token, DecodeClaimCursor;
  }
}
