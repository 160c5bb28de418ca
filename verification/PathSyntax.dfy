/**
 The text of an SVG path: the lexer that reads it, and the printer that the
 outline builders use.
 */
module PathSyntax {
  import opened Wrappers

  datatype Command = M | L | C | Z

  datatype Token = Letter(command: Command) | Number(value: real)

  datatype LexError = InvalidSeparator | UnsupportedSyntax | NonFiniteCoordinate

  type LexResult = Result<seq<Token>, LexError>

  // ----- numbers -----

  predicate AllDigits(s: string) {
    forall i :: 0 <= i < |s| ==> IsDigit(s[i])
  }

  predicate IsSign(s: string) {
    s == "" || s == "+" || s == "-"
  }

  datatype Exponent = NoExponent | Exponent(mark: char, sign: string, digits: string) {
    predicate WellFormed() {
      NoExponent? || ((mark == 'e' || mark == 'E') && IsSign(sign) && digits != "" && AllDigits(digits))
    }

    function Text(): string {
      if NoExponent? then "" else [mark] + sign + digits
    }

    function Power(): int
      requires WellFormed()
    {
      if NoExponent? then 0 else if sign == "-" then -(DigitsValue(digits) as int) else DigitsValue(digits)
    }
  }

  /** Whole digits, and after a decimal point the fraction digits. */
  datatype Mantissa = Integer(whole: string) | Decimal(whole: string, fraction: string) {
    predicate WellFormed() {
      AllDigits(whole) && if Integer? then whole != "" else AllDigits(fraction) && (whole != "" || fraction != "")
    }

    function Text(): string {
      if Integer? then whole else whole + "." + fraction
    }

    function Digits(): string {
      if Integer? then whole else whole + fraction
    }

    function Places(): nat {
      if Integer? then 0 else |fraction|
    }
  }

  datatype NumberText = NumberText(sign: string, mantissa: Mantissa, exponent: Exponent) {
    predicate WellFormed() {
      IsSign(sign) && mantissa.WellFormed() && exponent.WellFormed()
    }

    function Text(): string {
      sign + (mantissa.Text() + exponent.Text())
    }

    function Value(): real
      requires WellFormed()
    {
      var digits := DigitsValue(mantissa.Digits()) as real * Power10(exponent.Power() - mantissa.Places());
      if sign == "-" then -digits else digits
    }
  }

  function DigitsValue(s: string): nat
    requires AllDigits(s)
  {
    if s == "" then 0 else 10 * DigitsValue(s[..|s| - 1]) + (s[|s| - 1] as int - '0' as int)
  }

  function Power10(k: int): real
    decreases if k < 0 then -k else k
  {
    if k == 0 then 1.0 else if k > 0 then 10.0 * Power10(k - 1) else Power10(k + 1) / 10.0
  }

  function Power2(k: nat): nat {
    if k == 0 then 1 else 2 * Power2(k - 1)
  }

  /** Decimal text of at least this magnitude reads as an infinite double. */
  predicate Overflows(v: real) {
    var limit := (Power2(1024) - Power2(970)) as real;
    v >= limit || v <= -limit
  }

  function DigitRun(s: string): (n: nat)
    ensures n <= |s| && AllDigits(s[..n])
    ensures n < |s| ==> !IsDigit(s[n])
  {
    if s != "" && IsDigit(s[0]) then
      var n := DigitRun(s[1..]);
      assert s[..1 + n] == [s[0]] + s[1..][..n];
      1 + n
    else 0
  }

  function SignOf(s: string): string {
    if s != "" && (s[0] == '+' || s[0] == '-') then s[..1] else ""
  }

  function ScanExponent(s: string): Exponent {
    if s != "" && (s[0] == 'e' || s[0] == 'E') then
      var sign := SignOf(s[1..]);
      var rest := s[1 + |sign|..];
      var n := DigitRun(rest);
      if n > 0 then Exponent(s[0], sign, rest[..n]) else NoExponent
    else NoExponent
  }

  /** A fraction needs digits of its own only when there are no whole ones. */
  function ScanMantissa(s: string): Option<Mantissa> {
    var n := DigitRun(s);
    if n < |s| && s[n] == '.' && (n > 0 || DigitRun(s[n + 1..]) > 0) then
      Some(Decimal(s[..n], s[n + 1..][..DigitRun(s[n + 1..])]))
    else if n > 0 then Some(Integer(s[..n]))
    else None
  }

  /** The number at the start of s, as the sticky pattern of the lexer matches it. */
  function ScanNumber(s: string): Option<NumberText> {
    var sign := SignOf(s);
    var unsigned := s[|sign|..];
    match ScanMantissa(unsigned)
    case None => None
    case Some(mantissa) =>
      MantissaIsPrefix(unsigned);
      Some(NumberText(sign, mantissa, ScanExponent(unsigned[|mantissa.Text()|..])))
  }

  lemma MantissaIsPrefix(s: string)
    ensures ScanMantissa(s).Some? ==>
      var mantissa := ScanMantissa(s).value;
      mantissa.WellFormed() && 0 < |mantissa.Text()| <= |s| && mantissa.Text() <= s
  {
    var n := DigitRun(s);
    if ScanMantissa(s).Some? && ScanMantissa(s).value.Decimal? {
      var fraction := s[n + 1..][..DigitRun(s[n + 1..])];
      assert s == s[..n] + "." + s[n + 1..];
      assert s[..n] + "." + fraction <= s;
    }
  }

  // ----- the lexer -----

  predicate IsBlank(c: char) {
    c == ' ' || c == '\t' || c == '\r' || c == '\n' || c == '\U{000C}'
  }

  predicate IsCommand(c: char) {
    c == 'M' || c == 'L' || c == 'C' || c == 'Z'
  }

  function CommandOf(c: char): Command
    requires IsCommand(c)
  {
    if c == 'M' then M else if c == 'L' then L else if c == 'C' then C else Z
  }

  function Prepend(tokens: seq<Token>, r: LexResult): LexResult {
    if r.Ok? then Ok(tokens + r.value) else r
  }

  /**
   Reads the tokens of s. comma: a separating comma is waiting for its number;
   afterNumber: the previous token is a number.
   */
  function Lex(s: string, comma: bool, afterNumber: bool): LexResult
    decreases |s|
  {
    if s == "" then
      if comma then Err(InvalidSeparator) else Ok([])
    else if IsBlank(s[0]) then Lex(s[1..], comma, afterNumber)
    else if s[0] == ',' then
      if comma || !afterNumber then Err(InvalidSeparator) else Lex(s[1..], true, afterNumber)
    else if IsCommand(s[0]) then
      if comma then Err(InvalidSeparator) else Prepend([Letter(CommandOf(s[0]))], Lex(s[1..], false, false))
    else
      match ScanNumber(s)
      case None => Err(UnsupportedSyntax)
      case Some(number) =>
        ScanIsPrefix(s);
        if Overflows(number.Value()) then Err(NonFiniteCoordinate)
        else Prepend([Number(number.Value())], Lex(s[|number.Text()|..], false, true))
  }

  method PathTokens(d: string) returns (r: LexResult)
    ensures r == Lex(d, false, false)
  {
    hide ScanNumber, NumberText.Text, NumberText.Value, NumberText.WellFormed, Overflows;
    var tokens: seq<Token> := [];
    var comma := false;
    var offset := 0;
    assert d[offset..] == d;
    PrependNothing(Lex(d, false, false));
    while offset < |d|
      invariant offset <= |d|
      invariant Lex(d, false, false) == Prepend(tokens, Lex(d[offset..], comma, tokens != [] && tokens[|tokens| - 1].Number?))
    {
      var character := d[offset];
      ghost var rest := d[offset..];
      assert rest[1..] == d[offset + 1..];
      if IsBlank(character) {
        offset := offset + 1;
      } else if character == ',' {
        if comma || tokens == [] || !tokens[|tokens| - 1].Number? {
          return Err(InvalidSeparator);
        }
        comma := true;
        offset := offset + 1;
      } else if IsCommand(character) {
        if comma {
          return Err(InvalidSeparator);
        }
        PrependTwice(tokens, [Letter(CommandOf(character))], Lex(d[offset + 1..], false, false));
        tokens := tokens + [Letter(CommandOf(character))];
        offset := offset + 1;
      } else {
        var matched := ScanNumber(d[offset..]);
        if matched.None? {
          return Err(UnsupportedSyntax);
        }
        ScanIsPrefix(d[offset..]);
        var value, length := matched.value.Value(), |matched.value.Text()|;
        if Overflows(value) {
          return Err(NonFiniteCoordinate);
        }
        assert rest[length..] == d[offset + length..];
        PrependTwice(tokens, [Number(value)], Lex(d[offset + length..], false, true));
        tokens := tokens + [Number(value)];
        comma := false;
        offset := offset + length;
      }
    }
    assert d[offset..] == "";
    if comma {
      return Err(InvalidSeparator);
    }
    assert tokens + [] == tokens;
    return Ok(tokens);
  }

  lemma PrependNothing(r: LexResult)
    ensures Prepend([], r) == r
  {
    if r.Ok? {
      assert [] + r.value == r.value;
    }
  }

  lemma PrependTwice(a: seq<Token>, b: seq<Token>, r: LexResult)
    ensures Prepend(a, Prepend(b, r)) == Prepend(a + b, r)
  {
    if r.Ok? {
      assert a + (b + r.value) == (a + b) + r.value;
    }
  }

  // ----- the scanner reads the longest number -----

  lemma ScanExponentIsPrefix(s: string)
    ensures ScanExponent(s).WellFormed()
    ensures ScanExponent(s).Text() <= s
  {
    var e := ScanExponent(s);
    if e.Exponent? {
      var rest := s[1 + |e.sign|..];
      assert s == [s[0]] + e.sign + rest;
    }
  }

  lemma PrefixOfConcat(a: string, b: string, s: string)
    requires a <= s && b <= s[|a|..]
    ensures a + b <= s
  {}

  /** A scanned number is a number, is not empty and is the text that s starts with. */
  lemma ScanIsPrefix(s: string)
    ensures ScanNumber(s).Some? ==>
      var number := ScanNumber(s).value;
      number.WellFormed() && 0 < |number.Text()| <= |s| && number.Text() <= s
  {
    hide ScanMantissa, ScanExponent, Mantissa.Text, Exponent.Text, Mantissa.WellFormed, Exponent.WellFormed;
    if ScanNumber(s).Some? {
      var number := ScanNumber(s).value;
      var unsigned := s[|number.sign|..];
      MantissaIsPrefix(unsigned);
      ScanExponentIsPrefix(unsigned[|number.mantissa.Text()|..]);
      PrefixOfConcat(number.mantissa.Text(), number.exponent.Text(), unsigned);
      PrefixOfConcat(number.sign, number.mantissa.Text() + number.exponent.Text(), s);
    }
  }

  lemma {:induction false} DigitRunLongest(digits: string, rest: string)
    requires AllDigits(digits)
    ensures |digits| <= DigitRun(digits + rest)
    ensures (rest == "" || !IsDigit(rest[0])) ==> DigitRun(digits + rest) == |digits|
  {
    if digits != "" {
      assert (digits + rest)[1..] == digits[1..] + rest;
      DigitRunLongest(digits[1..], rest);
    } else {
      assert digits + rest == rest;
    }
  }

  lemma ExponentLongest(e: Exponent, rest: string)
    requires e.WellFormed()
    ensures |e.Text()| <= |ScanExponent(e.Text() + rest).Text()|
  {}

  predicate Continues(s: string) {
    s != "" && (IsDigit(s[0]) || s[0] == '.')
  }

  /** The scanned mantissa is at least as long, and is the same when no digit or point follows. */
  lemma MantissaLongest(mantissa: Mantissa, rest: string)
    requires mantissa.WellFormed()
    ensures ScanMantissa(mantissa.Text() + rest).Some?
    ensures |mantissa.Text()| <= |ScanMantissa(mantissa.Text() + rest).value.Text()|
    ensures !Continues(rest) ==> ScanMantissa(mantissa.Text() + rest).value == mantissa
  {
    if mantissa.Integer? {
      DigitRunLongest(mantissa.whole, rest);
      assert !Continues(rest) ==> (mantissa.whole + rest)[..|mantissa.whole|] == mantissa.whole;
    } else {
      DecimalLongest(mantissa.whole, mantissa.fraction, rest);
    }
  }

  lemma DecimalLongest(whole: string, fraction: string, rest: string)
    requires Decimal(whole, fraction).WellFormed()
    ensures ScanMantissa(whole + "." + fraction + rest).Some?
    ensures |whole + "." + fraction| <= |ScanMantissa(whole + "." + fraction + rest).value.Text()|
    ensures !Continues(rest) ==> ScanMantissa(whole + "." + fraction + rest).value == Decimal(whole, fraction)
  {
    var s := whole + "." + fraction + rest;
    var tail := "." + fraction + rest;
    var n := |whole|;
    assert s == whole + tail;
    DigitRunLongest(whole, tail);
    DigitRunLongest(fraction, rest);
    hide AllDigits, DigitRun;
    assert DigitRun(s) == n && s[..n] == whole && s[n] == '.';
    assert s[n + 1..] == fraction + rest;
    if !Continues(rest) {
      assert s[n + 1..][..|fraction|] == fraction;
    }
  }

  lemma SignScanned(sign: string, mantissa: Mantissa, rest: string)
    requires IsSign(sign) && mantissa.WellFormed()
    ensures SignOf(sign + (mantissa.Text() + rest)) == sign
  {}

  /** Maximal munch: no number that s starts with is longer than the scanned one. */
  lemma ScanIsLongest(number: NumberText, rest: string)
    requires number.WellFormed()
    ensures ScanNumber(number.Text() + rest).Some?
    ensures |number.Text()| <= |ScanNumber(number.Text() + rest).value.Text()|
  {
    hide ScanMantissa, ScanExponent, SignOf, Mantissa.Text, Mantissa.WellFormed, Exponent.WellFormed;
    var s := number.Text() + rest;
    var tail := number.exponent.Text() + rest;
    var unsigned := number.mantissa.Text() + tail;
    assert s == number.sign + unsigned;
    SignScanned(number.sign, number.mantissa, tail);
    assert s[|number.sign|..] == unsigned;
    MantissaLongest(number.mantissa, tail);
    if number.exponent.Exponent? {
      ExponentStarts(number.exponent, rest);
      assert unsigned[|number.mantissa.Text()|..] == tail;
      ExponentLongest(number.exponent, rest);
    }
  }

  lemma ExponentStarts(e: Exponent, rest: string)
    requires e.WellFormed() && e.Exponent?
    ensures !Continues(e.Text() + rest)
  {}
}
