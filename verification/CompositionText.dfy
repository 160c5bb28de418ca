/** Display text of a composition: its canonical spacing, and its words with their places. */
module CompositionText {
  import opened Wrappers

  datatype CompositionError =
    | InvalidSpec | InvalidWord | InvalidGr0k | RenderFailed
    | LockMissing | LockMismatch | LockStale
    | InvalidSnapshot | MissingGlyph | LocksDiffer | InvalidPresentation | Unresolved

  const MAX_DISPLAY := 512
  const MAX_WORDS := 64
  const MAX_PHRASE := 96

  // ----- canonical spacing -----

  /** What trimming removes at both ends. */
  predicate IsSpace(c: char) {
    var n := c as int;
    9 <= n <= 13 || n == 0x20 || n == 0xA0 || n == 0x1680 || 0x2000 <= n <= 0x200A
    || n == 0x2028 || n == 0x2029 || n == 0x202F || n == 0x205F || n == 0x3000 || n == 0xFEFF
  }

  /** What is collapsed to one space inside; a vertical tab is not. */
  predicate IsCollapsed(c: char) {
    c as int == 9 || c as int == 10 || c as int == 12 || c as int == 13 || c == ' '
  }

  function TrimStart(s: string): (t: string)
    ensures t == "" || !IsSpace(t[0])
    decreases |s|
  {
    if s != "" && IsSpace(s[0]) then TrimStart(s[1..]) else s
  }

  function TrimEnd(s: string): (t: string)
    ensures t == "" || !IsSpace(t[|t| - 1])
    ensures t <= s
    decreases |s|
  {
    if s != "" && IsSpace(s[|s| - 1]) then TrimEnd(s[..|s| - 1]) else s
  }

  /** Runs of blanks become one space; inRun says that the last character was blank. */
  function Collapse(s: string, inRun: bool): string
    decreases |s|
  {
    if s == "" then ""
    else if IsCollapsed(s[0]) then (if inRun then "" else " ") + Collapse(s[1..], true)
    else [s[0]] + Collapse(s[1..], false)
  }

  predicate IsPrintable(s: string) {
    forall i :: 0 <= i < |s| ==> ' ' <= s[i] <= '~'
  }

  /** Unicode composition, from the platform; ASCII text is already composed. */
  ghost predicate IsNfc(nfc: string -> string) {
    forall s :: IsPrintable(s) ==> nfc(s) == s
  }

  function Normalized(nfc: string -> string, value: string): Result<string, CompositionError> {
    var t := Collapse(TrimEnd(TrimStart(nfc(value))), false);
    if t == "" || |t| > MAX_DISPLAY then Err(InvalidSpec)
    else if !IsPrintable(t) then Err(InvalidWord)
    else Ok(t)
  }

  /** No blank at either end, and no two spaces in a row. */
  predicate IsCanonical(t: string) {
    && t != "" && |t| <= MAX_DISPLAY && IsPrintable(t)
    && t[0] != ' ' && t[|t| - 1] != ' ' && NoDoubleSpace(t)
  }

  predicate NoDoubleSpace(t: string) {
    forall i :: 0 <= i < |t| - 1 ==> !(t[i] == ' ' && t[i + 1] == ' ')
  }

  lemma PrependStaysSingle(c: char, t: string)
    requires NoDoubleSpace(t) && (c == ' ' && t != "" ==> t[0] != ' ')
    ensures NoDoubleSpace([c] + t)
  {}

  lemma {:induction false} CollapseCanonical(s: string, inRun: bool)
    requires s == "" || !IsSpace(s[|s| - 1])
    ensures var t := Collapse(s, inRun);
            && NoDoubleSpace(t)
            && (inRun && t != "" ==> t[0] != ' ')
            && (s != "" ==> t != "" && t[|t| - 1] != ' ')
            && (s != "" && !IsCollapsed(s[0]) ==> t[0] == s[0])
    decreases |s|
  {
    if s != "" {
      var blank := IsCollapsed(s[0]);
      var u := Collapse(s[1..], blank);
      CollapseCanonical(s[1..], blank);
      assert |s| > 1 ==> s[1..][|s| - 2] == s[|s| - 1];
      assert |s| == 1 ==> !blank;
      PrependStaysSingle(if blank then ' ' else s[0], u);
      hide NoDoubleSpace;
      if blank && inRun {
        assert "" + u == u;
      }
    }
  }

  /** What normalization accepts it returns in canonical spacing. */
  lemma {:induction false} NormalizedIsCanonical(nfc: string -> string, value: string)
    requires Normalized(nfc, value).Ok?
    ensures IsCanonical(Normalized(nfc, value).value)
  {
    var a := TrimStart(nfc(value));
    var b := TrimEnd(a);
    CollapseCanonical(b, false);
    assert b != "" ==> b[0] == a[0];
    hide TrimStart, TrimEnd, Collapse;
  }

  lemma {:induction false} CollapseKeeps(t: string, inRun: bool)
    requires IsPrintable(t) && (inRun && t != "" ==> t[0] != ' ')
    requires NoDoubleSpace(t)
    ensures Collapse(t, inRun) == t
    decreases |t|
  {
    if t != "" {
      CollapseKeeps(t[1..], t[0] == ' ');
      assert t == [t[0]] + t[1..];
    }
  }

  /** Canonical text is left as it is; so normalizing is idempotent, and it accepts exactly what it would return. */
  lemma {:induction false} CanonicalStays(nfc: string -> string, t: string)
    requires IsNfc(nfc)
    ensures Normalized(nfc, t) == Ok(t) <==> IsCanonical(t)
  {
    if IsCanonical(t) {
      CollapseKeeps(t, false);
      TrimmedStays(t);
    } else if Normalized(nfc, t) == Ok(t) {
      NormalizedIsCanonical(nfc, t);
    }
    hide TrimStart, TrimEnd, Collapse;
  }

  lemma {:induction false} TrimmedStays(t: string)
    requires t != "" && IsPrintable(t) && t[0] != ' ' && t[|t| - 1] != ' '
    ensures TrimEnd(TrimStart(t)) == t
  {}

  // ----- words -----

  predicate IsWordChar(c: char) {
    'A' <= c <= 'Z' || 'a' <= c <= 'z' || '0' <= c <= '9' || c == '_'
  }

  /** A word as it stands in the text, from start up to end. */
  datatype Token = Token(tokenIndex: nat, displayWord: string, rendererInput: string, start: nat, end: nat)

  /** The first position from i on whose character is not in the class. */
  function RunEnd(text: string, i: nat, member: char -> bool): (j: nat)
    requires i <= |text|
    ensures i <= j <= |text| && (forall k :: i <= k < j ==> member(text[k])) && (j < |text| ==> !member(text[j]))
    decreases |text| - i
  {
    if i < |text| && member(text[i]) then RunEnd(text, i + 1, member) else i
  }

  predicate IsQuestion(c: char) {
    c == '?'
  }

  /** A word of up to 15, or underscore-joined words of up to 15 each; one question mark may end it, 96 characters in all. */
  predicate ValidInput(value: string) {
    var word := if value != "" && value[|value| - 1] == '?' then value[..|value| - 1] else value;
    |value| <= MAX_PHRASE
    && ((1 <= |word| <= 15 && forall i :: 0 <= i < |word| ==> IsWordChar(word[i])) || IsPhrase(word))
  }

  predicate IsPhrasePart(part: string) {
    1 <= |part| <= 15 && forall i :: 0 <= i < |part| ==> IsWordChar(part[i]) && part[i] != '_'
  }

  predicate IsPhrase(word: string)
    decreases |word|
  {
    exists i :: 0 < i < |word| && word[i] == '_' && IsPhrasePart(word[..i]) && (IsPhrasePart(word[i + 1..]) || IsPhrase(word[i + 1..]))
  }

  function Tokens(text: string, from: nat, index: nat): Result<seq<Token>, CompositionError>
    requires from <= |text|
    decreases |text| - from
  {
    if from == |text| then Ok([])
    else if !IsWordChar(text[from]) then Tokens(text, from + 1, index)
    else
      var end := RunEnd(text, RunEnd(text, from, IsWordChar), IsQuestion);
      var word := text[from..end];
      if !ValidInput(word) then Err(InvalidWord)
      else
        var rest :- Tokens(text, end, index + 1);
        Ok([Token(index, word, word, from, end)] + rest)
  }

  function TokensOf(displayText: string): Result<seq<Token>, CompositionError> {
    var tokens :- Tokens(displayText, 0, 0);
    if tokens == [] || |tokens| > MAX_WORDS then Err(InvalidWord) else Ok(tokens)
  }

  /** The tokens found so far, followed by those still to come. */
  function Prefixed(tokens: seq<Token>, rest: Result<seq<Token>, CompositionError>): Result<seq<Token>, CompositionError> {
    if rest.Err? then rest else Ok(tokens + rest.value)
  }

  /** The scanning loop. */
  method TokenizeSignatureWords(displayText: string) returns (r: Result<seq<Token>, CompositionError>)
    ensures r == TokensOf(displayText)
  {
    hide Tokens, RunEnd, ValidInput, Prefixed;
    var tokens: seq<Token> := [];
    var i := 0;
    PrefixedEnds(tokens, displayText);
    while i < |displayText|
      invariant 0 <= i <= |displayText|
      invariant Tokens(displayText, 0, 0) == Prefixed(tokens, Tokens(displayText, i, |tokens|))
    {
      ScanStep(displayText, i, tokens);
      if !IsWordChar(displayText[i]) {
        i := i + 1;
        continue;
      }
      var wordEnd := ScanRun(displayText, i, IsWordChar);
      var end := ScanRun(displayText, wordEnd, IsQuestion);
      var word := displayText[i..end];
      if !ValidInput(word) {
        return Err(InvalidWord);
      }
      tokens := tokens + [Token(|tokens|, word, word, i, end)];
      i := end;
    }
    PrefixedEnds(tokens, displayText);
    if tokens == [] || |tokens| > MAX_WORDS {
      return Err(InvalidWord);
    }
    return Ok(tokens);
  }

  method ScanRun(text: string, from: nat, member: char -> bool) returns (end: nat)
    requires from <= |text|
    ensures end == RunEnd(text, from, member)
  {
    end := from;
    while end < |text| && member(text[end])
      invariant from <= end <= |text| && RunEnd(text, from, member) == RunEnd(text, end, member)
    {
      end := end + 1;
    }
  }

  lemma PrefixedEnds(tokens: seq<Token>, text: string)
    ensures Prefixed(tokens, Tokens(text, |text|, |tokens|)) == Ok(tokens)
    ensures Tokens(text, 0, 0) == Prefixed([], Tokens(text, 0, 0))
  {
    assert tokens + [] == tokens;
    assert Tokens(text, 0, 0).Ok? ==> [] + Tokens(text, 0, 0).value == Tokens(text, 0, 0).value;
    hide RunEnd, ValidInput;
  }

  /** One turn of the scan. */
  lemma ScanStep(text: string, i: nat, tokens: seq<Token>)
    requires i < |text|
    ensures !IsWordChar(text[i]) ==> Tokens(text, i, |tokens|) == Tokens(text, i + 1, |tokens|)
    ensures IsWordChar(text[i]) ==>
              var end := RunEnd(text, RunEnd(text, i, IsWordChar), IsQuestion);
              && i < end
              && (!ValidInput(text[i..end]) ==> Prefixed(tokens, Tokens(text, i, |tokens|)) == Err(InvalidWord))
              && (ValidInput(text[i..end]) ==>
                    Prefixed(tokens, Tokens(text, i, |tokens|))
                    == Prefixed(tokens + [Token(|tokens|, text[i..end], text[i..end], i, end)], Tokens(text, end, |tokens| + 1)))
  {
    if IsWordChar(text[i]) {
      var end := RunEnd(text, RunEnd(text, i, IsWordChar), IsQuestion);
      var rest := Tokens(text, end, |tokens| + 1);
      if rest.Ok? {
        Regroup(tokens, [Token(|tokens|, text[i..end], text[i..end], i, end)], rest.value);
      }
    }
    hide RunEnd, ValidInput;
  }

  /** A token is exactly its stretch of the text, and its spelling is what the renderer gets. */
  predicate TokenAt(text: string, t: Token, from: nat) {
    && from <= t.start < t.end <= |text|
    && t.displayWord == t.rendererInput == text[t.start..t.end]
    && ValidInput(t.rendererInput)
  }

  /** The position belongs to one of the tokens. */
  ghost predicate Covered(tokens: seq<Token>, p: nat) {
    exists i :: 0 <= i < |tokens| && tokens[i].start <= p < tokens[i].end
  }

  /**
   The tokens stand in the text in order without overlapping, number from the
   given index on, and together contain every word character.
   */
  lemma {:induction false} TokensPartition(text: string, from: nat, index: nat)
    requires from <= |text| && Tokens(text, from, index).Ok?
    ensures var tokens := Tokens(text, from, index).value;
            && (forall i :: 0 <= i < |tokens| ==> TokenAt(text, tokens[i], from) && tokens[i].tokenIndex == index + i)
            && (forall i, j :: 0 <= i < j < |tokens| ==> tokens[i].end <= tokens[j].start)
            && (forall p :: from <= p < |text| && IsWordChar(text[p]) ==> Covered(tokens, p))
    decreases |text| - from
  {
    if from < |text| {
      if !IsWordChar(text[from]) {
        TokensPartition(text, from + 1, index);
      } else {
        var end := RunEnd(text, RunEnd(text, from, IsWordChar), IsQuestion);
        TokensPartition(text, end, index + 1);
        var rest := Tokens(text, end, index + 1).value;
        var first := Token(index, text[from..end], text[from..end], from, end);
        var tokens := Tokens(text, from, index).value;
        assert tokens == [first] + rest;
        FirstToken(text, from, end, tokens, rest, first);
      }
    }
    hide RunEnd, ValidInput, Tokens;
  }

  lemma FirstToken(text: string, from: nat, end: nat, tokens: seq<Token>, rest: seq<Token>, first: Token)
    requires from < end <= |text| && tokens == [first] + rest && first.start == from && first.end == end
    requires forall i :: 0 <= i < |rest| ==> TokenAt(text, rest[i], end)
    requires forall i, j :: 0 <= i < j < |rest| ==> rest[i].end <= rest[j].start
    requires forall p :: end <= p < |text| && IsWordChar(text[p]) ==> Covered(rest, p)
    ensures forall i, j :: 0 <= i < j < |tokens| ==> tokens[i].end <= tokens[j].start
    ensures forall p :: from <= p < |text| && IsWordChar(text[p]) ==> Covered(tokens, p)
    ensures forall i :: 0 < i < |tokens| ==> TokenAt(text, tokens[i], from)
  {
    assert forall i :: 0 < i < |tokens| ==> tokens[i] == rest[i - 1];
    forall p | from <= p < |text| && IsWordChar(text[p])
      ensures Covered(tokens, p)
    {
      if p < end {
        assert tokens[0].start <= p < tokens[0].end;
      } else {
        assert Covered(rest, p);
        var i :| 0 <= i < |rest| && rest[i].start <= p < rest[i].end;
        assert tokens[i + 1] == rest[i];
      }
    }
    hide ValidInput;
  }
}
