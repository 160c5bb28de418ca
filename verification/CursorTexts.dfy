/** What a page cursor spells, and that the decoders accept exactly the spellings of valid cursors. */
module CursorTexts {
  import opened Wrappers
  import opened CanonicalJson
  import opened JsonParsing
  import opened Gallery
  import opened GalleryCursors
  import opened CursorLengths

  function InQuotes(s: Text): Text {
    [QUOTE] + s + [QUOTE]
  }

  lemma PlainText(s: Text)
    requires Plain(s)
    ensures Print(Str(s)) == InQuotes(s)
  {
    PlainIsNotEscaped(s);
    hide Escaped;
  }

  lemma FourTexts(a: Json, b: Json, c: Json, d: Json)
    ensures Print(Array([a, b, c, d]))
         == [OPEN_BRACKET] + (Print(a) + ([COMMA] + (Print(b) + ([COMMA] + (Print(c) + ([COMMA] + Print(d))))))) + [CLOSE_BRACKET]
  {
    assert [a, b, c, d][1..] == [b, c, d] && [b, c, d][1..] == [c, d] && [c, d][1..] == [d];
    assert PrintItems([d]) == Print(d) + [] == Print(d);
    assert PrintItems([c, d]) == Print(c) + ([COMMA] + PrintItems([d]));
    assert PrintItems([b, c, d]) == Print(b) + ([COMMA] + PrintItems([c, d]));
    assert PrintItems([a, b, c, d]) == Print(a) + ([COMMA] + PrintItems([b, c, d]));
  }

  /** A minted card's cursor is a list of its block in quotes, its transaction and log index, and its id in quotes. */
  lemma KeyText(key: MintKey)
    requires ValidKey(key)
    ensures Print(KeyJson(key))
         == [OPEN_BRACKET]
            + (InQuotes(NatDigits(key.blockNumber)) + ([COMMA] + (NatDigits(key.transactionIndex) + ([COMMA]
               + (NatDigits(key.logIndex) + ([COMMA] + InQuotes(key.signatureId)))))))
            + [CLOSE_BRACKET]
  {
    DigitsArePlain(key.blockNumber);
    IdIsPlain(key.signatureId);
    PlainText(NatDigits(key.blockNumber));
    PlainText(key.signatureId);
    assert Print(Integer(key.transactionIndex)) == NatDigits(key.transactionIndex);
    assert Print(Integer(key.logIndex)) == NatDigits(key.logIndex);
    hide Print, NatDigits, InQuotes;
    FourTexts(Str(NatDigits(key.blockNumber)), Integer(key.transactionIndex), Integer(key.logIndex), Str(key.signatureId));
  }

  lemma {:induction false} DigitsReadBack(t: Text, acc: nat)
    requires forall i :: 0 <= i < |t| ==> IsDigitUnit(t[i])
    requires acc > 0
    ensures NatDigits(ParseDigits(t, acc).0) == NatDigits(acc) + t
    decreases |t|
  {
    if t == [] {
      assert NatDigits(acc) + [] == NatDigits(acc);
    } else {
      var d := t[0] - 0x30;
      DigitsReadBack(t[1..], 10 * acc + d);
      assert NatDigits(10 * acc + d) == NatDigits(acc) + [0x30 + d];
      assert t == [t[0]] + t[1..];
      assert (NatDigits(acc) + [t[0]]) + t[1..] == NatDigits(acc) + t;
    }
  }

  /** A decimal without leading zeros is the spelling of its value. */
  lemma DecimalIsSpelling(t: Text)
    requires IsDecimal(t)
    ensures NatDigits(ParseDigits(t, 0).0) == t
  {
    var d := t[0] - 0x30;
    assert ParseDigits(t, 0) == ParseDigits(t[1..], d);
    if d == 0 {
      assert t == [0x30] && t[1..] == [];
    } else {
      DigitsReadBack(t[1..], d);
      assert t == [t[0]] + t[1..];
    }
  }

  lemma DecodedIsKey(v: Json, block: Text, tx: nat, log: nat, id: Text)
    requires v.Array? && |v.items| == 4 && v.items[0] == Str(block) && v.items[1] == Integer(tx) && v.items[2] == Integer(log) && v.items[3] == Str(id)
    requires IsDecimal(block)
    ensures v == KeyJson(MintKey(ParseDigits(block, 0).0, tx, log, id))
  {
    DecimalIsSpelling(block);
    hide NatDigits, ParseDigits, IsDecimal;
    assert v.items == [v.items[0], v.items[1], v.items[2], v.items[3]];
  }

  /** The decoder accepts exactly the tokens whose value is a valid cursor's own. */
  lemma {:induction false} GalleryDecodesExactly(token: string, key: MintKey)
    ensures DecodeGalleryCursor(token) == Ok(key) <==> ValidKey(key) && TokenValue(token) == Ok(KeyJson(key))
  {
    hide TokenValue, NatDigits, ParseDigits, IsDecimal, IsSignatureId;
    if DecodeGalleryCursor(token) == Ok(key) {
      var items := TokenValue(token).value.items;
      DecodedIsKey(TokenValue(token).value, items[0].s, items[1].n, items[2].n, items[3].s);
    }
    if ValidKey(key) && TokenValue(token) == Ok(KeyJson(key)) {
      NatDigitsDecimal(key.blockNumber);
      DecimalReads(key.blockNumber);
    }
  }

  /** A claim's cursor names its tab, its time and its id. */
  lemma {:induction false} ClaimDecodesExactly(calendar: Calendar, token: string, key: ClaimKey)
    requires calendar.Valid()
    ensures DecodeClaimCursor(calendar, token) == Ok(key)
       <==> ValidTime(key.claimedAt) && IsSignatureId(key.signatureId) && TokenValue(token) == Ok(ClaimJson(calendar, key))
    ensures CLAIMED == seq(7, i requires 0 <= i < 7 => "claimed"[i] as int)
  {
    hide TokenValue, IsSignatureId;
    if DecodeClaimCursor(calendar, token) == Ok(key) {
      var items := TokenValue(token).value.items;
      assert items == [items[0], items[1], items[2]];
    }
  }
}
