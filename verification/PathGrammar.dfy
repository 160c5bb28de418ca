/** What path texts look like: the grammar of tokens and separators, and the decimal value of a number, said without the lexer. */
module PathGrammar {
  import opened Wrappers
  import opened PathSyntax
  import opened PathPrinting

  // ----- tokens and separators -----

  predicate AllBlank(s: string) {
    forall k :: 0 <= k < |s| ==> s[k] in {' ', '\t', '\r', '\n', '\U{000C}'}
  }

  ghost predicate IsNumber(n: NumberText, text: string, value: real) {
    n.WellFormed() && n.Text() == text && n.Value() == value && !Overflows(value)
  }

  /** A token as it is spelled: its letter, or a finite number of its value. */
  ghost predicate Spells(text: string, t: Token) {
    match t
    case Letter(M) => text == "M"
    case Letter(L) => text == "L"
    case Letter(C) => text == "C"
    case Letter(Z) => text == "Z"
    case Number(value) => exists n :: IsNumber(n, text, value)
  }

  /** No number that the text and what follows start with is longer than the text. */
  ghost predicate Longest(text: string, rest: string) {
    forall n: NumberText :: n.WellFormed() && n.Text() <= text + rest ==> |n.Text()| <= |text|
  }

  /** Blanks; between two numbers there may be one comma among them. */
  ghost predicate Separates(sep: string, numbers: bool) {
    AllBlank(sep) || (numbers && exists k :: 0 <= k < |sep| && sep[k] == ',' && AllBlank(sep[..k]) && AllBlank(sep[k + 1..]))
  }

  /** The first token of s is spelled from i to j. */
  ghost predicate StartsWith(s: string, t: Token, afterNumber: bool, i: nat, j: nat) {
    && i <= j <= |s|
    && Separates(s[..i], afterNumber && t.Number?)
    && Spells(s[i..j], t)
    && (t.Number? ==> Longest(s[i..j], s[j..]))
  }

  /** s spells the tokens, separated, with nothing but blanks behind them. */
  ghost predicate Reads(s: string, tokens: seq<Token>, afterNumber: bool)
    decreases |tokens|
  {
    if tokens == [] then AllBlank(s)
    else exists i: nat, j: nat :: StartsWith(s, tokens[0], afterNumber, i, j) && Reads(s[j..], tokens[1..], tokens[0].Number?)
  }

  // ----- a number is spelled in one way -----

  lemma ExponentScanned(e: Exponent)
    requires e.WellFormed()
    ensures ScanExponent(e.Text()) == e
  {
    if e.Exponent? {
      DigitRunLongest(e.digits, "");
      var s := e.Text();
      assert e.digits + "" == e.digits;
      assert s[1..] == e.sign + e.digits && s[0] == e.mark;
      assert SignOf(s[1..]) == e.sign;
      assert s[1 + |e.sign|..] == e.digits && e.digits[..|e.digits|] == e.digits;
    }
  }

  /** Scanning the text of a number gives the number back. */
  lemma NumberScanned(n: NumberText)
    requires n.WellFormed()
    ensures ScanNumber(n.Text()) == Some(n)
  {
    hide ScanMantissa, ScanExponent, SignOf, Mantissa.Text, Mantissa.WellFormed, Exponent.WellFormed, Exponent.Text;
    var tail := n.exponent.Text();
    var unsigned := n.mantissa.Text() + tail;
    SignScanned(n.sign, n.mantissa, tail);
    assert n.Text()[|n.sign|..] == unsigned;
    TailStarts(n.exponent);
    MantissaLongest(n.mantissa, tail);
    assert unsigned[|n.mantissa.Text()|..] == tail;
    ExponentScanned(n.exponent);
  }

  lemma TailStarts(e: Exponent)
    requires e.WellFormed()
    ensures !Continues(e.Text())
  {
    if e.Exponent? {
      ExponentStarts(e, "");
      assert e.Text() + "" == e.Text();
    }
  }

  /** Two spellings of the same text are the same, so a text has at most one value. */
  lemma NumberIsUnique(n: NumberText, m: NumberText)
    requires n.WellFormed() && m.WellFormed() && n.Text() == m.Text()
    ensures n == m
  {
    NumberScanned(n);
    NumberScanned(m);
  }

  /** The scanner finds the longest number, and finds one exactly when there is one. */
  lemma ScanFindsLongest(s: string)
    ensures ScanNumber(s).None? ==> forall n: NumberText :: n.WellFormed() ==> !(n.Text() <= s)
    ensures ScanNumber(s).Some? ==>
              var n := ScanNumber(s).value;
              n.WellFormed() && 0 < |n.Text()| <= |s| && s[..|n.Text()|] == n.Text() && Longest(n.Text(), s[|n.Text()|..])
  {
    ScanIsPrefix(s);
    hide ScanNumber, NumberText.Text, NumberText.WellFormed;
    forall n: NumberText | n.WellFormed() && n.Text() <= s
      ensures ScanNumber(s).Some? && |n.Text()| <= |ScanNumber(s).value.Text()|
    {
      ScanIsLongest(n, s[|n.Text()|..]);
      assert n.Text() + s[|n.Text()|..] == s;
    }
    if ScanNumber(s).Some? {
      var text := ScanNumber(s).value.Text();
      assert text + s[|text|..] == s;
    }
  }

  // ----- the lexer reads exactly the grammar -----

  lemma {:induction false} SkipBlanks(blanks: string, s: string, comma: bool, afterNumber: bool)
    requires AllBlank(blanks)
    ensures Lex(blanks + s, comma, afterNumber) == Lex(s, comma, afterNumber)
    decreases |blanks|
  {
    if blanks == "" {
      assert blanks + s == s;
    } else {
      assert (blanks + s)[0] == blanks[0] && (blanks + s)[1..] == blanks[1..] + s;
      SkipBlanks(blanks[1..], s, comma, afterNumber);
      hide ScanNumber;
    }
  }

  lemma SkipComma(s: string)
    ensures Lex("," + s, false, true) == Lex(s, true, true)
  {
    assert ("," + s)[1..] == s;
    hide ScanNumber;
  }

  lemma AtComma(sep: string, s: string, k: nat)
    requires k < |sep| && sep[k] == ','
    ensures sep + s == sep[..k] + ("," + (sep[k + 1..] + s))
  {}

  /** A separator leaves the lexer with a comma pending, or not. */
  lemma SkipSeparator(sep: string, s: string, afterNumber: bool, numbers: bool)
    requires Separates(sep, numbers) && (numbers ==> afterNumber)
    ensures Lex(sep + s, false, afterNumber) == Lex(s, false, afterNumber)
         || (numbers && Lex(sep + s, false, afterNumber) == Lex(s, true, true))
  {
    hide Lex;
    if AllBlank(sep) {
      SkipBlanks(sep, s, false, afterNumber);
    } else {
      var k :| 0 <= k < |sep| && sep[k] == ',' && AllBlank(sep[..k]) && AllBlank(sep[k + 1..]);
      hide AllBlank;
      AtComma(sep, s, k);
      SkipBlanks(sep[..k], "," + (sep[k + 1..] + s), false, true);
      SkipComma(sep[k + 1..] + s);
      SkipBlanks(sep[k + 1..], s, true, true);
    }
  }

  lemma NumberStarts(n: NumberText)
    requires n.WellFormed()
    ensures n.Text() != "" && var c := n.Text()[0]; IsDigit(c) || c in {'+', '-', '.'}
  {
    var m := n.mantissa.Text();
    assert m != "" && (IsDigit(m[0]) || m[0] == '.');
    assert n.sign == "" ==> n.Text()[0] == m[0];
    assert n.sign != "" ==> n.Text()[0] == n.sign[0];
    hide Exponent.Text, Exponent.WellFormed;
  }

  lemma StartsNumber(s: string, n: NumberText)
    requires n.WellFormed() && n.Text() <= s
    ensures s != "" && !IsBlank(s[0]) && s[0] != ',' && !IsCommand(s[0])
  {
    NumberStarts(n);
    hide NumberText.Text, NumberText.WellFormed;
    assert s[0] == n.Text()[0];
  }

  lemma LexScanned(s: string, m: NumberText, comma: bool, afterNumber: bool)
    requires s != "" && !IsBlank(s[0]) && s[0] != ',' && !IsCommand(s[0])
    requires ScanNumber(s) == Some(m) && m.WellFormed() && 0 < |m.Text()| <= |s| && !Overflows(m.Value())
    ensures Lex(s, comma, afterNumber) == Prepend([Number(m.Value())], Lex(s[|m.Text()|..], false, true))
  {
    hide ScanNumber, NumberText.Text, NumberText.Value, NumberText.WellFormed, Overflows;
  }

  lemma LongestIsScanned(s: string, j: nat, n: NumberText)
    requires j <= |s| && n.WellFormed() && n.Text() == s[..j] && Longest(s[..j], s[j..])
    ensures ScanNumber(s) == Some(n) && j > 0
  {
    ScanFindsLongest(s);
    hide ScanNumber, NumberText.Text, NumberText.WellFormed;
    assert s[..j] + s[j..] == s && n.Text() <= s;
    var m := ScanNumber(s).value;
    var k := |m.Text()|;
    assert s[..k] + s[k..] == s && m.Text() <= s;
    assert k == j;
    NumberIsUnique(n, m);
  }

  lemma LexNumber(s: string, j: nat, value: real, comma: bool, afterNumber: bool)
    requires j <= |s| && Spells(s[..j], Number(value)) && Longest(s[..j], s[j..])
    ensures Lex(s, comma, afterNumber) == Prepend([Number(value)], Lex(s[j..], false, true))
  {
    var n :| IsNumber(n, s[..j], value);
    LongestIsScanned(s, j, n);
    hide Lex, ScanNumber, NumberText.Text, NumberText.Value, NumberText.WellFormed, Overflows, Longest;
    StartsNumber(s, n);
    LexScanned(s, n, comma, afterNumber);
  }

  lemma LexLetter(s: string, t: Token, afterNumber: bool)
    requires s != "" && t.Letter? && Spells(s[..1], t)
    ensures Lex(s, false, afterNumber) == Prepend([t], Lex(s[1..], false, false))
  {
    assert s[..1][0] == s[0];
    hide ScanNumber;
  }

  lemma LexToken(s: string, t: Token, k: nat, afterNumber: bool)
    requires k <= |s| && Spells(s[..k], t) && (t.Number? ==> Longest(s[..k], s[k..]))
    ensures Lex(s, false, afterNumber) == Prepend([t], Lex(s[k..], false, t.Number?))
    ensures t.Number? ==> Lex(s, true, true) == Prepend([t], Lex(s[k..], false, true))
  {
    hide Lex, Longest, Prepend;
    if t.Number? {
      LexNumber(s, k, t.value, false, afterNumber);
      LexNumber(s, k, t.value, true, true);
    } else {
      assert |s[..k]| == 1;
      LexLetter(s, t, afterNumber);
    }
  }

  lemma Cuts(s: string, i: nat, j: nat)
    requires i <= j <= |s|
    ensures s[..i] + s[i..] == s && s[i..][j - i..] == s[j..] && s[i..][..j - i] == s[i..j]
  {}

  lemma LexFirst(s: string, t: Token, afterNumber: bool, i: nat, j: nat)
    requires StartsWith(s, t, afterNumber, i, j)
    ensures Lex(s, false, afterNumber) == Prepend([t], Lex(s[j..], false, t.Number?))
  {
    hide Lex, Separates, Spells, Longest, Prepend;
    Cuts(s, i, j);
    LexToken(s[i..], t, j - i, afterNumber);
    SkipSeparator(s[..i], s[i..], afterNumber, afterNumber && t.Number?);
  }

  lemma Restored(tokens: seq<Token>)
    requires tokens != []
    ensures Prepend([tokens[0]], Ok(tokens[1..])) == Ok(tokens)
  {
    assert [tokens[0]] + tokens[1..] == tokens;
  }

  /** Whatever the grammar reads, the lexer reads as the same tokens. */
  lemma {:induction false} GrammarLexes(s: string, tokens: seq<Token>, afterNumber: bool)
    requires Reads(s, tokens, afterNumber)
    ensures Lex(s, false, afterNumber) == Ok(tokens)
    decreases |tokens|
  {
    if tokens == [] {
      SkipBlanks(s, "", false, afterNumber);
      assert s + "" == s;
    } else {
      var i: nat, j: nat :| StartsWith(s, tokens[0], afterNumber, i, j) && Reads(s[j..], tokens[1..], tokens[0].Number?);
      hide Lex, Reads, Prepend;
      LexFirst(s, tokens[0], afterNumber, i, j);
      hide StartsWith;
      GrammarLexes(s[j..], tokens[1..], tokens[0].Number?);
      Restored(tokens);
    }
  }

  /** One more character in front, taken by the separator. */
  lemma StartsLater(s: string, t: Token, before: bool, after: bool, i: nat, j: nat)
    requires s != "" && StartsWith(s[1..], t, before, i, j) && Separates(s[..i + 1], after && t.Number?)
    ensures StartsWith(s, t, after, i + 1, j + 1) && s[1..][j..] == s[j + 1..]
  {
    assert s[1..][i..j] == s[i + 1..j + 1] && s[1..][j..] == s[j + 1..];
    hide Separates, Spells, Longest;
  }

  lemma BlankFirst(s: string, tokens: seq<Token>, afterNumber: bool)
    requires s != "" && IsBlank(s[0]) && Reads(s[1..], tokens, afterNumber)
    ensures Reads(s, tokens, afterNumber)
  {
    if tokens == [] {
      assert s == [s[0]] + s[1..];
    } else {
      var i: nat, j: nat :| StartsWith(s[1..], tokens[0], afterNumber, i, j) && Reads(s[1..][j..], tokens[1..], tokens[0].Number?);
      BlankBefore(s, i, afterNumber && tokens[0].Number?);
      StartsLater(s, tokens[0], afterNumber, afterNumber, i, j);
      hide StartsWith;
    }
  }

  lemma BlankBefore(s: string, i: nat, numbers: bool)
    requires i < |s| && IsBlank(s[0]) && Separates(s[1..][..i], numbers)
    ensures Separates(s[..i + 1], numbers)
  {
    var sep := s[1..][..i];
    assert s[..i + 1] == [s[0]] + sep;
    if !AllBlank(sep) {
      var k :| 0 <= k < |sep| && sep[k] == ',' && AllBlank(sep[..k]) && AllBlank(sep[k + 1..]);
      BlankAround(s[0], sep, k);
    }
  }

  lemma BlankAround(c: char, sep: string, k: nat)
    requires IsBlank(c) && k < |sep| && sep[k] == ',' && AllBlank(sep[..k]) && AllBlank(sep[k + 1..])
    ensures Separates([c] + sep, true)
  {
    var more, l := [c] + sep, k + 1;
    assert more[l] == ',' && more[..l] == [c] + sep[..k] && more[l + 1..] == sep[k + 1..];
    assert AllBlank(more[..l]) && AllBlank(more[l + 1..]);
  }

  lemma CommaBefore(s: string, i: nat)
    requires i < |s| && s[0] == ',' && AllBlank(s[1..][..i])
    ensures Separates(s[..i + 1], true)
  {
    var sep := s[..i + 1];
    assert sep[..0] == "" && sep[1..] == s[1..][..i] && sep[0] == ',';
    assert AllBlank(sep[..0]) && AllBlank(sep[0 + 1..]);
  }

  lemma CommaFirst(s: string, tokens: seq<Token>)
    requires s != "" && s[0] == ',' && tokens != [] && tokens[0].Number? && Reads(s[1..], tokens, false)
    ensures Reads(s, tokens, true)
  {
    var i: nat, j: nat :| StartsWith(s[1..], tokens[0], false, i, j) && Reads(s[1..][j..], tokens[1..], true);
    CommaBefore(s, i);
    StartsLater(s, tokens[0], false, true, i, j);
    hide StartsWith;
  }

  lemma TokenFirst(s: string, t: Token, j: nat, rest: seq<Token>, afterNumber: bool)
    requires j <= |s| && Spells(s[..j], t) && (t.Number? ==> Longest(s[..j], s[j..])) && Reads(s[j..], rest, t.Number?)
    ensures Reads(s, [t] + rest, afterNumber)
  {
    var tokens, i := [t] + rest, 0;
    assert tokens[0] == t && tokens[1..] == rest;
    assert s[i..j] == s[..j] && s[..i] == "" && Separates(s[..i], afterNumber && t.Number?);
    hide Spells, Longest, Separates;
    assert StartsWith(s, tokens[0], afterNumber, i, j);
  }

  /** Whatever the lexer reads, the grammar reads; after a comma a number must follow. */
  lemma {:induction false} LexedReads(s: string, comma: bool, afterNumber: bool, tokens: seq<Token>)
    requires Lex(s, comma, afterNumber) == Ok(tokens) && (comma ==> afterNumber)
    ensures Reads(s, tokens, afterNumber && !comma)
    ensures comma ==> tokens != [] && tokens[0].Number?
    decreases |s|
  {
    hide ScanNumber, NumberText.Text, NumberText.Value, NumberText.WellFormed, Overflows, Reads;
    if s == "" {
      NothingReads(afterNumber);
    } else if IsBlank(s[0]) {
      LexedReads(s[1..], comma, afterNumber, tokens);
      BlankFirst(s, tokens, afterNumber && !comma);
    } else if s[0] == ',' {
      LexedReads(s[1..], true, true, tokens);
      CommaFirst(s, tokens);
    } else if IsCommand(s[0]) {
      var t := Letter(CommandOf(s[0]));
      LexedReads(s[1..], false, false, tokens[1..]);
      assert s[..1] == [s[0]];
      TokenFirst(s, t, 1, tokens[1..], afterNumber);
      assert tokens == [t] + tokens[1..];
    } else {
      var n := ScanNumber(s).value;
      ScanFindsLongest(s);
      var t, j := Number(n.Value()), |n.Text()|;
      assert IsNumber(n, s[..j], n.Value());
      LexedReads(s[j..], false, true, tokens[1..]);
      TokenFirst(s, t, j, tokens[1..], afterNumber && !comma);
      assert tokens == [t] + tokens[1..];
    }
  }

  lemma NothingReads(afterNumber: bool)
    ensures Reads("", [], afterNumber)
  {}

  /** The lexer accepts exactly the texts of the grammar, as their tokens; no text has two readings. */
  lemma {:induction false} LexerIsGrammar(s: string, tokens: seq<Token>)
    ensures Lex(s, false, false) == Ok(tokens) <==> Reads(s, tokens, false)
  {
    if Lex(s, false, false) == Ok(tokens) {
      LexedReads(s, false, false, tokens);
    }
    if Reads(s, tokens, false) {
      GrammarLexes(s, tokens, false);
    }
  }

  // ----- why a text is refused -----

  /** A comma that is not behind a number, or that no number follows. */
  ghost predicate Misplaced(s: string, afterNumber: bool, i: nat) {
    && i <= |s|
    && if AllBlank(s[..i]) then i < |s| && s[i] == ',' && !afterNumber
       else Separates(s[..i], afterNumber) && (i == |s| || s[i] in {',', 'M', 'L', 'C', 'Z'})
  }

  /** Behind the separator at i comes the reason: nothing that a path may hold, or a number that is too large. */
  ghost predicate Refused(s: string, afterNumber: bool, i: nat, e: LexError) {
    match e
    case InvalidSeparator => Misplaced(s, afterNumber, i)
    case UnsupportedSyntax =>
      && i < |s| && Separates(s[..i], afterNumber)
      && !AllBlank([s[i]]) && s[i] !in {',', 'M', 'L', 'C', 'Z'}
      && forall n: NumberText :: n.WellFormed() ==> !(n.Text() <= s[i..])
    case NonFiniteCoordinate =>
      && i < |s| && Separates(s[..i], afterNumber)
      && exists n: NumberText :: n.WellFormed() && n.Text() <= s[i..] && Longest(n.Text(), s[i + |n.Text()|..]) && Overflows(n.Value())
  }

  /** The text is refused here, or behind a first token. */
  ghost predicate Fails(s: string, afterNumber: bool, e: LexError)
    decreases |s|
  {
    || (exists i: nat :: Refused(s, afterNumber, i, e))
    || (exists t, i: nat, j: nat :: StartsWith(s, t, afterNumber, i, j) && j > 0 && Fails(s[j..], t.Number?, e))
  }

  lemma RefusedHere(s: string, afterNumber: bool, i: nat, e: LexError)
    requires Refused(s, afterNumber, i, e)
    ensures Fails(s, afterNumber, e)
  {}

  lemma RefusedLater(s: string, t: Token, afterNumber: bool, i: nat, j: nat, e: LexError)
    requires StartsWith(s, t, afterNumber, i, j) && j > 0 && Fails(s[j..], t.Number?, e)
    ensures Fails(s, afterNumber, e)
  {}

  lemma Longer(sep: string, c: char, afterNumber: bool)
    requires Separates(sep, afterNumber)
    requires IsBlank(c) || (c == ',' && AllBlank(sep) && afterNumber)
    ensures Separates(sep + [c], afterNumber)
    ensures AllBlank(sep + [c]) <==> AllBlank(sep) && c != ','
  {
    var more := sep + [c];
    assert more[|sep|] == c && forall k :: 0 <= k < |sep| ==> more[k] == sep[k];
    if c == ',' {
      assert more[..|sep|] == sep && more[|sep| + 1..] == "";
      assert AllBlank(more[..|sep|]) && AllBlank(more[|sep| + 1..]);
    } else if !AllBlank(sep) {
      var k :| 0 <= k < |sep| && sep[k] == ',' && AllBlank(sep[..k]) && AllBlank(sep[k + 1..]);
      assert more[..k] == sep[..k] && more[k + 1..] == sep[k + 1..] + [c];
    }
  }

  lemma MoveOver(sep: string, s: string)
    requires s != ""
    ensures (sep + [s[0]]) + s[1..] == sep + s
  {}

  lemma Behind(sep: string, s: string)
    ensures (sep + s)[..|sep|] == sep && (sep + s)[|sep|..] == s && (s != "" ==> (sep + s)[|sep|] == s[0])
  {}

  lemma BehindMore(sep: string, s: string, k: nat)
    requires k <= |s|
    ensures "" + s[k..] == (sep + s)[|sep| + k..]
  {}

  lemma CommaMisplaced(sep: string, s: string, afterNumber: bool)
    requires Separates(sep, afterNumber)
    requires if AllBlank(sep) then s != "" && s[0] == ',' && !afterNumber else s == "" || s[0] == ',' || IsCommand(s[0])
    ensures Fails(sep + s, afterNumber, InvalidSeparator)
  {
    Behind(sep, s);
    hide Separates, AllBlank, Fails;
    RefusedHere(sep + s, afterNumber, |sep|, InvalidSeparator);
  }

  lemma NumberRefused(sep: string, s: string, afterNumber: bool, n: NumberText)
    requires Separates(sep, afterNumber) && ScanNumber(s) == Some(n) && n.WellFormed() && Overflows(n.Value())
    ensures Fails(sep + s, afterNumber, NonFiniteCoordinate)
  {
    hide NumberText.Text, NumberText.Value, NumberText.WellFormed, Overflows, Separates, Fails, Longest, ScanNumber;
    Behind(sep, s);
    ScanFindsLongest(s);
    TooLarge(sep + s, |sep|, afterNumber, n);
  }

  /** Every refusal has its reason in the text; sep is what separates s from the token before it. */
  lemma {:induction false} RefusalHasReason(sep: string, s: string, afterNumber: bool, e: LexError)
    requires Separates(sep, afterNumber) && Lex(s, !AllBlank(sep), afterNumber) == Err(e)
    ensures Fails(sep + s, afterNumber, e)
    decreases |s|
  {
    hide ScanNumber, NumberText.Text, NumberText.Value, NumberText.WellFormed, Overflows, Separates, AllBlank, Fails, Longest;
    Behind(sep, s);
    if s == "" {
      CommaMisplaced(sep, s, afterNumber);
    } else if IsBlank(s[0]) || (s[0] == ',' && AllBlank(sep) && afterNumber) {
      Longer(sep, s[0], afterNumber);
      RefusalHasReason(sep + [s[0]], s[1..], afterNumber, e);
      MoveOver(sep, s);
    } else if s[0] == ',' || (IsCommand(s[0]) && !AllBlank(sep)) {
      CommaMisplaced(sep, s, afterNumber);
    } else if IsCommand(s[0]) {
      NothingSeparates(false);
      RefusalHasReason("", s[1..], false, e);
      BehindMore(sep, s, 1);
      LetterThenFails(sep + s, |sep|, afterNumber, e);
    } else {
      ScanFindsLongest(s);
      if ScanNumber(s).None? {
        NothingStarts(sep + s, |sep|, afterNumber);
      } else {
        var n := ScanNumber(s).value;
        if Overflows(n.Value()) {
          NumberRefused(sep, s, afterNumber, n);
        } else {
          NothingSeparates(true);
          RefusalHasReason("", s[|n.Text()|..], true, e);
          BehindMore(sep, s, |n.Text()|);
          NumberThenFails(sep + s, |sep|, n, afterNumber, e);
        }
      }
    }
  }

  lemma NothingSeparates(afterNumber: bool)
    ensures AllBlank("") && Separates("", afterNumber)
  {}

  lemma LetterThenFails(s: string, i: nat, afterNumber: bool, e: LexError)
    requires i < |s| && IsCommand(s[i]) && AllBlank(s[..i]) && Fails(s[i + 1..], false, e)
    ensures Fails(s, afterNumber, e)
  {
    var t := Letter(CommandOf(s[i]));
    assert s[i..i + 1] == [s[i]];
    assert StartsWith(s, t, afterNumber, i, i + 1);
    hide Fails, StartsWith;
    RefusedLater(s, t, afterNumber, i, i + 1, e);
  }

  lemma NumberThenFails(s: string, i: nat, n: NumberText, afterNumber: bool, e: LexError)
    requires i <= |s| && Separates(s[..i], afterNumber) && n.WellFormed() && !Overflows(n.Value())
    requires 0 < |n.Text()| <= |s| - i && s[i..][..|n.Text()|] == n.Text() && Longest(n.Text(), s[i..][|n.Text()|..])
    requires Fails(s[i + |n.Text()|..], true, e)
    ensures Fails(s, afterNumber, e)
  {
    hide Separates, Fails, Longest, NumberText.Text, NumberText.Value, NumberText.WellFormed, Overflows;
    var t, j := Number(n.Value()), i + |n.Text()|;
    assert s[i..j] == n.Text() && s[i..][|n.Text()|..] == s[j..];
    assert IsNumber(n, s[i..j], n.Value());
    assert StartsWith(s, t, afterNumber, i, j);
    hide StartsWith;
    RefusedLater(s, t, afterNumber, i, j, e);
  }

  lemma NothingStarts(s: string, i: nat, afterNumber: bool)
    requires i < |s| && Separates(s[..i], afterNumber) && !IsBlank(s[i]) && s[i] != ',' && !IsCommand(s[i])
    requires forall n: NumberText :: n.WellFormed() ==> !(n.Text() <= s[i..])
    ensures Fails(s, afterNumber, UnsupportedSyntax)
  {
    assert !AllBlank([s[i]]) by {
      assert [s[i]][0] == s[i];
    }
    hide Separates, Fails, NumberText.Text, NumberText.WellFormed;
    RefusedHere(s, afterNumber, i, UnsupportedSyntax);
  }

  lemma TooLarge(s: string, i: nat, afterNumber: bool, n: NumberText)
    requires i < |s| && Separates(s[..i], afterNumber) && n.WellFormed() && Overflows(n.Value())
    requires |n.Text()| <= |s| - i && s[i..][..|n.Text()|] == n.Text() && Longest(n.Text(), s[i..][|n.Text()|..])
    ensures Fails(s, afterNumber, NonFiniteCoordinate)
  {
    hide Separates, Fails, Longest, NumberText.Text, NumberText.Value, NumberText.WellFormed, Overflows;
    assert s[i..][|n.Text()|..] == s[i + |n.Text()|..] && n.Text() <= s[i..];
    RefusedHere(s, afterNumber, i, NonFiniteCoordinate);
  }

  // ----- the value of a number -----

  function TenTo(k: nat): nat {
    if k == 0 then 1 else 10 * TenTo(k - 1)
  }

  lemma {:induction false} TenToPositive(k: nat)
    ensures TenTo(k) > 0
  {
    if k > 0 {
      TenToPositive(k - 1);
    }
  }

  lemma {:induction false} DigitsBounded(s: string)
    requires AllDigits(s)
    ensures DigitsValue(s) < TenTo(|s|)
    decreases |s|
  {
    if s != "" {
      DigitsBounded(s[..|s| - 1]);
    }
  }

  lemma LastDigit(s: string)
    requires AllDigits(s) && s != ""
    ensures 0 <= s[|s| - 1] as int - '0' as int < 10
    ensures DigitsValue(s) == 10 * DigitsValue(s[..|s| - 1]) + (s[|s| - 1] as int - '0' as int)
  {}

  lemma UnitsOf(v: nat, d: int)
    requires 0 <= d < 10
    ensures (10 * v + d) / 1 % 10 == d
  {}

  /** Each digit is the one that its place gives it. */
  lemma {:induction false} DigitsInPlace(s: string, k: nat)
    requires AllDigits(s) && k < |s|
    ensures TenTo(|s| - 1 - k) > 0 && DigitsValue(s) / TenTo(|s| - 1 - k) % 10 == s[k] as int - '0' as int
    decreases |s|
  {
    var init, d := s[..|s| - 1], s[|s| - 1] as int - '0' as int;
    var n := |s| - 1 - k;
    TenToPositive(n);
    LastDigit(s);
    hide DigitsValue, IsDigit;
    if n == 0 {
      assert TenTo(n) == 1;
      UnitsOf(DigitsValue(init), d);
    } else {
      DigitsInPlace(init, k);
      assert TenTo(n) == 10 * TenTo(n - 1);
      hide TenTo, AllDigits;
      Quotient(DigitsValue(init), d, TenTo(n - 1));
    }
  }

  lemma Quotient(v: nat, d: int, place: nat)
    requires 0 <= d < 10 && place > 0
    ensures (10 * v + d) / (10 * place) == v / place
  {
    var q, r := v / place, v % place;
    assert v == q * place + r;
    assert 10 * v + d == q * (10 * place) + (10 * r + d);
    QuotientIs(10 * v + d, 10 * place, q, 10 * r + d);
  }

  lemma QuotientIs(n: int, m: int, q: int, r: int)
    requires m > 0 && n == q * m + r && 0 <= r < m
    ensures n / m == q
  {
    var p, t := n / m, n % m;
    assert n == p * m + t;
    Apart(p, q, m, t, r);
  }

  lemma Apart(p: int, q: int, m: int, t: int, r: int)
    requires p * m + t == q * m + r && 0 <= t < m && 0 <= r < m
    ensures p == q
  {
    assert (p - q) * m == r - t;
    if p > q {
      Multiple(p - q, m);
    } else if p < q {
      Multiple(q - p, m);
    }
  }

  lemma Multiple(k: int, m: int)
    requires k >= 1 && m > 0
    ensures k * m >= m && (-k) * m <= -m
  {}

  lemma PowerSteps(k: int)
    ensures Power10(k + 1) == 10.0 * Power10(k)
  {}

  lemma {:induction false} PowersUp(k: nat)
    ensures Power10(k) == TenTo(k) as real
  {
    if k > 0 {
      PowersUp(k - 1);
      assert TenTo(k) as real == 10.0 * (TenTo(k - 1) as real);
    }
  }

  /** A power of ten, as a quotient of two whole ones. */
  lemma {:induction false} PowersDown(up: nat, down: nat)
    ensures Power10(up - down) * (TenTo(down) as real) == TenTo(up) as real
    decreases down
  {
    if down == 0 {
      PowersUp(up);
    } else {
      PowersDown(up, down - 1);
      PowerSteps(up - down);
      assert TenTo(down) as real == 10.0 * (TenTo(down - 1) as real);
      MoveTen(Power10(up - down), TenTo(down - 1) as real);
      hide Power10;
    }
  }

  lemma MoveTen(x: real, y: real)
    ensures x * (10.0 * y) == (10.0 * x) * y
  {}

  function Times(x: real, y: real): real {
    x * y
  }

  function Unsigned(n: NumberText): real
    requires n.WellFormed()
  {
    if n.sign == "-" then -n.Value() else n.Value()
  }

  lemma UnsignedIs(n: NumberText)
    requires n.WellFormed()
    ensures AllDigits(n.mantissa.Digits())
    ensures Unsigned(n) == Times(DigitsValue(n.mantissa.Digits()) as real, Power10(n.exponent.Power() - n.mantissa.Places()))
  {
    hide DigitsValue, Power10, Exponent.Power, Mantissa.Places;
  }

  /** The digits of a number, without its point. */
  predicate HasDigits(n: NumberText, digits: string) {
    match n.mantissa
    case Integer(whole) => digits == whole
    case Decimal(whole, fraction) => digits == whole + fraction
  }

  /** How far the point moves: down by the places behind it, and by the exponent in its direction. */
  predicate Moves(n: NumberText, up: nat, down: nat)
    requires n.WellFormed()
  {
    var places := if n.mantissa.Decimal? then |n.mantissa.fraction| else 0;
    if n.exponent.NoExponent? then up == 0 && down == places
    else if n.exponent.sign == "-" then up == 0 && down == places + DigitsValue(n.exponent.digits)
    else up == DigitsValue(n.exponent.digits) && down == places
  }

  lemma MovesBy(n: NumberText, up: nat, down: nat)
    requires n.WellFormed() && Moves(n, up, down)
    ensures n.exponent.Power() - n.mantissa.Places() == up - down
  {
    hide DigitsValue;
  }

  lemma PowersTimes(up: nat, down: nat)
    ensures Times(Power10(up - down), TenTo(down) as real) == TenTo(up) as real
  {
    PowersDown(up, down);
  }

  /** What a number means: its digits read as a whole number, its point moved, negative behind a minus sign. */
  lemma ValueIs(n: NumberText, digits: string, up: nat, down: nat)
    requires n.WellFormed() && HasDigits(n, digits) && Moves(n, up, down)
    ensures AllDigits(digits)
    ensures Times(Unsigned(n), TenTo(down) as real) == Times(DigitsValue(digits) as real, TenTo(up) as real)
  {
    assert digits == n.mantissa.Digits();
    hide DigitsValue, Power10, TenTo, Exponent.Power, Mantissa.Places, Mantissa.Digits, Moves, Unsigned, Times;
    UnsignedIs(n);
    MovesBy(n, up, down);
    PowersTimes(up, down);
    Scaled(Unsigned(n), DigitsValue(digits) as real, Power10(up - down), TenTo(down) as real, TenTo(up) as real);
  }

  lemma Scaled(value: real, digits: real, power: real, below: real, above: real)
    requires value == Times(digits, power) && Times(power, below) == above
    ensures Times(value, below) == Times(digits, above)
  {
    assert (digits * power) * below == digits * (power * below);
  }

  lemma NextPower(k: nat)
    ensures Power2(k + 1) == 2 * Power2(k)
  {}

  lemma Halfway(power: int, unit: int, largest: int)
    requires power == largest * (2 * unit)
    ensures 2 * (power - unit) == (largest - 1) * (2 * unit) + power
  {}

  /** A number overflows from the middle between the largest double and the power of two behind it. */
  lemma OverflowIsHalfway(v: real)
    ensures Overflows(v) <==> 2.0 * (if v < 0.0 then -v else v) >= ((Power2(53) - 1) * Power2(971) + Power2(1024)) as real
  {
    hide Power2;
    NextPower(970);
    Power2Sum(971, 53);
    Swap(Power2(971), Power2(53));
    Halfway(Power2(1024), Power2(970), Power2(53));
  }

  lemma Swap(x: int, y: int)
    ensures x * y == y * x
  {}
}
