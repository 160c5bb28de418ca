/**
 The path text that the outline builders write, and its round trip through the
 lexer: every printed path reads back as its commands with each coordinate
 rounded to hundredths.
 */
module PathPrinting {
  import opened Wrappers
  import opened Vectors
  import opened PathSyntax

  // ----- coordinates with two decimals -----

  function DigitChar(d: nat): (c: char)
    requires d < 10
    ensures IsDigit(c) && c as int - '0' as int == d
  {
    ('0' as int + d) as char
  }

  function NatText(n: nat): string {
    if n < 10 then [DigitChar(n)] else NatText(n / 10) + [DigitChar(n % 10)]
  }

  /** n hundredths, written with two decimals. */
  function HundredthsText(n: nat): string {
    NatText(n / 100) + "." + [DigitChar(n / 10 % 10), DigitChar(n % 10)]
  }

  /** The nearest integer to v >= 0, the larger one of two. */
  function Nearest(v: real): nat
    requires v >= 0.0
  {
    (v + 0.5).Floor
  }

  /** Two-decimal formatting: the sign is printed whenever v is negative. */
  function ToFixed2(v: real): string {
    if v < 0.0 then "-" + HundredthsText(Nearest(-100.0 * v)) else HundredthsText(Nearest(100.0 * v))
  }

  function Snapped(v: real): real {
    if -0.005 < v < 0.005 then 0.0 else v
  }

  function Coordinate(v: real): string {
    ToFixed2(Snapped(v))
  }

  /** The value that the printed coordinate denotes. */
  function Rounded(v: real): real {
    var w := Snapped(v);
    if w < 0.0 then -(Nearest(-100.0 * w) as real) / 100.0 else Nearest(100.0 * w) as real / 100.0
  }

  lemma NearestIsClose(v: real)
    requires v >= 0.0
    ensures -0.5 <= Nearest(v) as real - v <= 0.5
    ensures v >= 0.5 ==> Nearest(v) >= 1
  {}

  lemma NearestOfInteger(n: nat)
    ensures Nearest(n as real) == n
  {}

  /** Printing moves a coordinate by at most half a hundredth, and printed values stay put. */
  lemma RoundedIsClose(v: real)
    ensures -0.005 <= Rounded(v) - v <= 0.005
    ensures Rounded(Rounded(v)) == Rounded(v)
  {
    var w := Snapped(v);
    var r := Rounded(v);
    hide Nearest;
    if w < 0.0 {
      var n := Nearest(-100.0 * w);
      NearestIsClose(-100.0 * w);
      assert -100.0 * r == n as real;
      NearestOfInteger(n);
    } else {
      var n := Nearest(100.0 * w);
      NearestIsClose(100.0 * w);
      assert 100.0 * r == n as real;
      NearestOfInteger(n);
    }
  }

  lemma NearestIsUpper(v: real)
    requires v >= 0.0
    ensures v - 0.5 < Nearest(v) as real <= v + 0.5
  {}

  lemma WholeFloor(n: int, x: real)
    requires x == n as real
    ensures x.Floor as real == x
  {}

  /** A coordinate is rounded to the nearest hundredth, the one further from zero of two. */
  lemma RoundedExactly(v: real)
    ensures (100.0 * Rounded(v)).Floor as real == 100.0 * Rounded(v)
    ensures v >= 0.0 ==> v - 0.005 < Rounded(v) <= v + 0.005
    ensures v <= 0.0 ==> v - 0.005 <= Rounded(v) < v + 0.005
  {
    var w := Snapped(v);
    hide Nearest;
    if w < 0.0 {
      NearestIsUpper(-100.0 * w);
      WholeFloor(0 - Nearest(-100.0 * w), 100.0 * Rounded(v));
    } else {
      NearestIsUpper(100.0 * w);
      WholeFloor(Nearest(100.0 * w), 100.0 * Rounded(v));
    }
  }

  lemma {:induction false} NatTextForm(n: nat)
    ensures NatText(n) != "" && AllDigits(NatText(n)) && (NatText(n)[0] == '0' <==> n == 0) && (n < 10 <==> |NatText(n)| == 1)
  {
    if n >= 10 {
      NatTextForm(n / 10);
    }
  }

  /** A printed coordinate: a minus sign exactly for values below zero, whole digits without leading zeros, a point and two digits. */
  lemma CoordinateForm(v: real) returns (whole: string, cents: string)
    ensures Coordinate(v) == (if Rounded(v) < 0.0 then "-" else "") + (whole + "." + cents)
    ensures AllDigits(whole) && AllDigits(cents) && |cents| == 2
    ensures whole != "" && (whole[0] == '0' ==> |whole| == 1)
  {
    var w := Snapped(v);
    var n := if w < 0.0 then Nearest(-100.0 * w) else Nearest(100.0 * w);
    whole, cents := NatText(n / 100), [DigitChar(n / 10 % 10), DigitChar(n % 10)];
    NatTextForm(n / 100);
    NearestIsClose(if w < 0.0 then -100.0 * w else 100.0 * w);
    assert "" + (whole + "." + cents) == whole + "." + cents;
    hide NatText, DigitChar;
  }

  /** Decimal notation is used below this magnitude; from there on an exponent would be printed. */
  const DECIMAL_LIMIT := 1.0e21

  predicate InDecimalRange(v: real) {
    -DECIMAL_LIMIT < v < DECIMAL_LIMIT
  }

  lemma DigitsValueAppend(s: string, c: char)
    requires AllDigits(s) && IsDigit(c)
    ensures AllDigits(s + [c])
    ensures DigitsValue(s + [c]) == 10 * DigitsValue(s) + (c as int - '0' as int)
  {
    assert (s + [c])[..|s|] == s;
  }

  lemma {:induction false} NatTextValue(n: nat)
    ensures NatText(n) != "" && AllDigits(NatText(n)) && DigitsValue(NatText(n)) == n
  {
    if n < 10 {
      DigitsValueAppend("", DigitChar(n));
      assert "" + [DigitChar(n)] == NatText(n);
    } else {
      NatTextValue(n / 10);
      DigitsValueAppend(NatText(n / 10), DigitChar(n % 10));
    }
  }

  function HundredthsMantissa(n: nat): Mantissa {
    Decimal(NatText(n / 100), [DigitChar(n / 10 % 10), DigitChar(n % 10)])
  }

  lemma HundredthsValue(n: nat)
    ensures HundredthsMantissa(n).WellFormed() && HundredthsMantissa(n).Text() == HundredthsText(n)
    ensures DigitsValue(HundredthsMantissa(n).Digits()) == n
  {
    NatTextValue(n / 100);
    TwoMoreDigits(NatText(n / 100), DigitChar(n / 10 % 10), DigitChar(n % 10));
    DecimalDigits(n);
    hide DigitsValue, NatText, DigitChar;
    assert AllDigits([DigitChar(n / 10 % 10), DigitChar(n % 10)]);
  }

  lemma DecimalDigits(n: nat)
    ensures 100 * (n / 100) + 10 * (n / 10 % 10) + n % 10 == n
  {
    var tens := n / 10;
    assert n == 10 * tens + n % 10;
    assert tens == 10 * (tens / 10) + tens % 10;
    assert tens / 10 == n / 100;
  }

  lemma TwoMoreDigits(whole: string, tens: char, ones: char)
    requires AllDigits(whole) && IsDigit(tens) && IsDigit(ones)
    ensures AllDigits(whole + [tens, ones])
    ensures DigitsValue(whole + [tens, ones])
            == 100 * DigitsValue(whole) + 10 * (tens as int - '0' as int) + (ones as int - '0' as int)
  {
    DigitsValueAppend(whole, tens);
    DigitsValueAppend(whole + [tens], ones);
    assert whole + [tens, ones] == whole + [tens] + [ones];
  }

  function CoordinateNumber(v: real): NumberText {
    var w := Snapped(v);
    if w < 0.0 then NumberText("-", HundredthsMantissa(Nearest(-100.0 * w)), NoExponent)
    else NumberText("", HundredthsMantissa(Nearest(100.0 * w)), NoExponent)
  }

  lemma HundredthsNumber(sign: string, n: nat)
    requires sign == "" || sign == "-"
    ensures var number := NumberText(sign, HundredthsMantissa(n), NoExponent);
            && number.WellFormed()
            && number.Text() == sign + HundredthsText(n)
            && number.Value() == (if sign == "-" then -(n as real) / 100.0 else n as real / 100.0)
  {
    HundredthsValue(n);
    HundredthsPower();
    hide HundredthsText, DigitsValue, Power10, Mantissa.Text, Mantissa.Digits, Mantissa.WellFormed;
    assert HundredthsText(n) + "" == HundredthsText(n);
  }

  lemma CoordinateValue(v: real)
    ensures CoordinateNumber(v).WellFormed()
    ensures CoordinateNumber(v).Text() == Coordinate(v)
    ensures CoordinateNumber(v).Value() == Rounded(v)
  {
    var w := Snapped(v);
    hide Nearest, HundredthsMantissa, HundredthsText, NumberText.Text, NumberText.Value, NumberText.WellFormed, Snapped;
    if w < 0.0 {
      HundredthsNumber("-", Nearest(-100.0 * w));
    } else {
      HundredthsNumber("", Nearest(100.0 * w));
      assert "" + HundredthsText(Nearest(100.0 * w)) == HundredthsText(Nearest(100.0 * w));
    }
  }

  lemma HundredthsPower()
    ensures Power10(-2) == 0.01
  {
    assert Power10(-1) == 0.1;
  }

  lemma {:induction false} Power2Sum(a: nat, b: nat)
    ensures Power2(a + b) == Power2(a) * Power2(b)
  {
    if a > 0 {
      Power2Sum(a - 1, b);
    }
  }

  lemma {:induction false} Power2Monotone(a: nat, b: nat)
    requires a <= b
    ensures Power2(a) <= Power2(b)
  {
    if a < b {
      Power2Monotone(a, b - 1);
      Power2Positive(b - 1);
    }
  }

  lemma OverflowLimit()
    ensures Power2(1024) - Power2(970) >= 1_100_000_000_000_000_000_000
  {
    Power2At70();
    Power2Monotone(70, 970);
    Power2Monotone(970, 1023);
    assert Power2(1024) == 2 * Power2(1023);
    hide Power2;
  }

  lemma InRangeIsFinite(v: real)
    requires -1.1e21 < v < 1.1e21
    ensures !Overflows(v)
  {
    OverflowLimit();
    hide Power2;
  }

  lemma {:induction false} Power2Positive(k: nat)
    ensures Power2(k) >= 1
  {
    if k > 0 {
      Power2Positive(k - 1);
    }
  }

  lemma Power2At70()
    ensures Power2(70) >= 1_100_000_000_000_000_000_000
  {
    assert Power2(5) == 32;
    Power2Sum(5, 5);
    Power2Sum(10, 10);
    Power2Sum(20, 20);
    Power2Sum(40, 20);
    Power2Sum(60, 10);
    hide Power2;
    assert Power2(10) == 1024;
    assert Power2(20) == 1_048_576;
    assert Power2(40) == 1_099_511_627_776;
    assert Power2(60) == 1_152_921_504_606_846_976;
  }

  // ----- path text -----

  function Pair(p: Vector): string {
    Coordinate(p.x) + "," + Coordinate(p.y)
  }

  function CommandText(c: PathCommand): string {
    match c
    case MoveTo(p) => "M" + Pair(p)
    case LineTo(p) => "L" + Pair(p)
    case CurveTo(c1, c2, p) => "C" + Pair(c1) + " " + Pair(c2) + " " + Pair(p)
    case Close => "Z"
  }

  function PathText(commands: seq<PathCommand>): string {
    if commands == [] then "" else CommandText(commands[0]) + PathText(commands[1..])
  }

  function RoundedPoint(p: Vector): Vector {
    Vector(Rounded(p.x), Rounded(p.y))
  }

  function RoundedCommand(c: PathCommand): PathCommand {
    match c
    case MoveTo(p) => MoveTo(RoundedPoint(p))
    case LineTo(p) => LineTo(RoundedPoint(p))
    case CurveTo(c1, c2, p) => CurveTo(RoundedPoint(c1), RoundedPoint(c2), RoundedPoint(p))
    case Close => Close
  }

  function RoundedPath(commands: seq<PathCommand>): (rounded: seq<PathCommand>)
    ensures |rounded| == |commands|
    ensures forall i :: 0 <= i < |commands| ==> rounded[i] == RoundedCommand(commands[i])
  {
    if commands == [] then [] else [RoundedCommand(commands[0])] + RoundedPath(commands[1..])
  }

  predicate PointInRange(p: Vector) {
    InDecimalRange(p.x) && InDecimalRange(p.y)
  }

  predicate CommandInRange(c: PathCommand) {
    match c
    case MoveTo(p) => PointInRange(p)
    case LineTo(p) => PointInRange(p)
    case CurveTo(c1, c2, p) => PointInRange(c1) && PointInRange(c2) && PointInRange(p)
    case Close => true
  }

  predicate PathInRange(commands: seq<PathCommand>) {
    forall i :: 0 <= i < |commands| ==> CommandInRange(commands[i])
  }

  function PairTokens(p: Vector): seq<Token> {
    [Number(p.x), Number(p.y)]
  }

  function CommandTokens(c: PathCommand): seq<Token> {
    match c
    case MoveTo(p) => [Letter(M)] + PairTokens(p)
    case LineTo(p) => [Letter(L)] + PairTokens(p)
    case CurveTo(c1, c2, p) => [Letter(C)] + PairTokens(c1) + PairTokens(c2) + PairTokens(p)
    case Close => [Letter(Z)]
  }

  function PathTokensOf(commands: seq<PathCommand>): seq<Token> {
    if commands == [] then [] else CommandTokens(commands[0]) + PathTokensOf(commands[1..])
  }

  // ----- printing, then lexing -----

  /** What may follow a printed number: the end, a comma, a blank or a command. */
  predicate Delimited(s: string) {
    s == "" || s[0] == ',' || s[0] == ' ' || IsCommand(s[0])
  }

  lemma CoordinateLexes(v: real, rest: string, afterNumber: bool)
    requires InDecimalRange(v) && Delimited(rest)
    ensures Lex(Coordinate(v) + rest, false, afterNumber) == Prepend([Number(Rounded(v))], Lex(rest, false, true))
    ensures Lex(Coordinate(v) + rest, true, afterNumber) == Prepend([Number(Rounded(v))], Lex(rest, false, true))
  {
    var number := CoordinateNumber(v);
    var s := Coordinate(v) + rest;
    CoordinateValue(v);
    CoordinateScans(number, rest);
    ScanIsPrefix(s);
    RoundedIsClose(v);
    InRangeIsFinite(Rounded(v));
    CoordinateStart(number);
    hide *;
    assert s[|number.Text()|..] == rest;
    LexNumber(s, number, rest, false, afterNumber);
    LexNumber(s, number, rest, true, afterNumber);
  }

  lemma LexNumber(s: string, number: NumberText, rest: string, comma: bool, afterNumber: bool)
    requires s != "" && (IsDigit(s[0]) || s[0] == '-')
    requires ScanNumber(s) == Some(number) && number.WellFormed() && 0 < |number.Text()| <= |s|
    requires s[|number.Text()|..] == rest && !Overflows(number.Value())
    ensures Lex(s, comma, afterNumber) == Prepend([Number(number.Value())], Lex(rest, false, true))
  {
    hide ScanNumber, Overflows, NumberText.Value, NumberText.Text, NumberText.WellFormed;
  }

  lemma CoordinateStart(number: NumberText)
    requires number.WellFormed() && (number.sign == "" || number.sign == "-") && number.mantissa.whole != ""
    ensures number.Text() != "" && (IsDigit(number.Text()[0]) || number.Text()[0] == '-')
  {}

  lemma CoordinateScans(number: NumberText, rest: string)
    requires number.WellFormed() && number.exponent.NoExponent? && Delimited(rest)
    ensures ScanNumber(number.Text() + rest) == Some(number)
  {
    hide ScanNumber, ScanMantissa, ScanExponent, SignOf, Mantissa.Text, Mantissa.WellFormed, IsDigit, IsCommand, Continues;
    var unsigned := number.mantissa.Text() + rest;
    DelimitedEndsNumber(rest);
    SignScanned(number.sign, number.mantissa, rest);
    MantissaLongest(number.mantissa, rest);
    assert number.Text() + rest == number.sign + unsigned;
    assert unsigned[|number.mantissa.Text()|..] == rest;
    ScanParts(number.sign, number.mantissa, unsigned);
  }

  lemma DelimitedEndsNumber(rest: string)
    requires Delimited(rest)
    ensures !Continues(rest) && ScanExponent(rest) == NoExponent
  {}

  lemma ScanParts(sign: string, mantissa: Mantissa, unsigned: string)
    requires SignOf(sign + unsigned) == sign && ScanMantissa(unsigned) == Some(mantissa)
    requires |mantissa.Text()| <= |unsigned|
    ensures ScanNumber(sign + unsigned) == Some(NumberText(sign, mantissa, ScanExponent(unsigned[|mantissa.Text()|..])))
  {
    hide ScanMantissa, ScanExponent, SignOf, Mantissa.Text;
    assert (sign + unsigned)[|sign|..] == unsigned;
  }

  lemma CommaLexes(rest: string)
    ensures Lex("," + rest, false, true) == Lex(rest, true, true)
  {
    assert ("," + rest)[1..] == rest;
  }

  lemma PairLexes(p: Vector, rest: string, afterNumber: bool)
    requires PointInRange(p) && Delimited(rest)
    ensures Lex(Pair(p) + rest, false, afterNumber) == Prepend(PairTokens(RoundedPoint(p)), Lex(rest, false, true))
  {
    hide Lex, Prepend, Coordinate, InDecimalRange, IsCommand;
    var second := Coordinate(p.y) + rest;
    assert Pair(p) + rest == Coordinate(p.x) + ("," + second);
    CoordinateLexes(p.x, "," + second, afterNumber);
    CommaLexes(second);
    CoordinateLexes(p.y, rest, true);
    PrependTwice([Number(Rounded(p.x))], [Number(Rounded(p.y))], Lex(rest, false, true));
    assert PairTokens(RoundedPoint(p)) == [Number(Rounded(p.x))] + [Number(Rounded(p.y))];
  }

  lemma LetterLexes(letter: char, rest: string, afterNumber: bool)
    requires IsCommand(letter)
    ensures Lex([letter] + rest, false, afterNumber) == Prepend([Letter(CommandOf(letter))], Lex(rest, false, false))
  {
    assert ([letter] + rest)[1..] == rest;
  }

  lemma BlankLexes(rest: string)
    ensures Lex(" " + rest, false, true) == Lex(rest, false, true)
  {
    assert (" " + rest)[1..] == rest;
  }

  lemma CurveLexes(c1: Vector, c2: Vector, p: Vector, rest: string, afterNumber: bool)
    requires PointInRange(c1) && PointInRange(c2) && PointInRange(p) && Delimited(rest)
    ensures Lex(Pair(c1) + " " + Pair(c2) + " " + Pair(p) + rest, false, afterNumber)
            == Prepend(PairTokens(RoundedPoint(c1)) + PairTokens(RoundedPoint(c2)) + PairTokens(RoundedPoint(p)), Lex(rest, false, true))
  {
    hide Lex, Prepend, Pair, PairTokens, RoundedPoint, PointInRange, IsCommand;
    var third := Pair(p) + rest;
    var second := Pair(c2) + (" " + third);
    assert Pair(c1) + " " + Pair(c2) + " " + Pair(p) + rest == Pair(c1) + (" " + second);
    PairLexes(c1, " " + second, afterNumber);
    BlankLexes(second);
    PairLexes(c2, " " + third, true);
    BlankLexes(third);
    PairLexes(p, rest, true);
    PrependTwice(PairTokens(RoundedPoint(c2)), PairTokens(RoundedPoint(p)), Lex(rest, false, true));
    PrependTwice(PairTokens(RoundedPoint(c1)), PairTokens(RoundedPoint(c2)) + PairTokens(RoundedPoint(p)), Lex(rest, false, true));
    assert PairTokens(RoundedPoint(c1)) + (PairTokens(RoundedPoint(c2)) + PairTokens(RoundedPoint(p)))
           == PairTokens(RoundedPoint(c1)) + PairTokens(RoundedPoint(c2)) + PairTokens(RoundedPoint(p));
  }

  lemma LetterThenLexes(letter: char, body: string, tokens: seq<Token>, rest: string, afterNumber: bool)
    requires IsCommand(letter)
    requires Lex(body + rest, false, false) == Prepend(tokens, Lex(rest, false, true))
    ensures Lex([letter] + body + rest, false, afterNumber)
            == Prepend([Letter(CommandOf(letter))] + tokens, Lex(rest, false, true))
  {
    hide Lex, Prepend;
    assert [letter] + body + rest == [letter] + (body + rest);
    LetterLexes(letter, body + rest, afterNumber);
    PrependTwice([Letter(CommandOf(letter))], tokens, Lex(rest, false, true));
  }

  lemma CommandLexes(c: PathCommand, rest: string, afterNumber: bool)
    requires CommandInRange(c) && Delimited(rest)
    ensures Lex(CommandText(c) + rest, false, afterNumber) == Prepend(CommandTokens(RoundedCommand(c)), Lex(rest, false, !c.Close?))
  {
    hide Lex, Prepend, Pair, PairTokens, RoundedPoint, PointInRange;
    match c
    case MoveTo(p) =>
      PairLexes(p, rest, false);
      LetterThenLexes('M', Pair(p), PairTokens(RoundedPoint(p)), rest, afterNumber);
    case LineTo(p) =>
      PairLexes(p, rest, false);
      LetterThenLexes('L', Pair(p), PairTokens(RoundedPoint(p)), rest, afterNumber);
    case CurveTo(c1, c2, p) =>
      CurveCommandLexes(c1, c2, p, rest, afterNumber);
    case Close =>
      LetterLexes('Z', rest, afterNumber);
  }

  lemma CurveCommandLexes(c1: Vector, c2: Vector, p: Vector, rest: string, afterNumber: bool)
    requires PointInRange(c1) && PointInRange(c2) && PointInRange(p) && Delimited(rest)
    ensures Lex(CommandText(CurveTo(c1, c2, p)) + rest, false, afterNumber)
            == Prepend(CommandTokens(CurveTo(RoundedPoint(c1), RoundedPoint(c2), RoundedPoint(p))), Lex(rest, false, true))
  {
    hide Lex, Prepend, Pair, PairTokens, RoundedPoint, PointInRange;
    var body := Pair(c1) + " " + Pair(c2) + " " + Pair(p);
    var tokens := PairTokens(RoundedPoint(c1)) + PairTokens(RoundedPoint(c2)) + PairTokens(RoundedPoint(p));
    CurveLexes(c1, c2, p, rest, false);
    LetterThenLexes('C', body, tokens, rest, afterNumber);
    assert CommandText(CurveTo(c1, c2, p)) == ['C'] + body;
    assert [Letter(C)] + tokens == CommandTokens(CurveTo(RoundedPoint(c1), RoundedPoint(c2), RoundedPoint(p)));
  }

  lemma PathTextStart(commands: seq<PathCommand>)
    ensures Delimited(PathText(commands))
  {
    if commands != [] {
      hide Pair;
    }
  }

  /** Printing and lexing: the printed path reads as exactly its commands, each coordinate rounded to hundredths. */
  lemma {:induction false} PrintedPathLexes(commands: seq<PathCommand>, afterNumber: bool)
    requires PathInRange(commands)
    ensures Lex(PathText(commands), false, afterNumber) == Ok(PathTokensOf(RoundedPath(commands)))
  {
    if commands != [] {
      var rest := commands[1..];
      PathTextStart(rest);
      CommandLexes(commands[0], PathText(rest), afterNumber);
      PrintedPathLexes(rest, !commands[0].Close?);
      assert RoundedPath(commands)[1..] == RoundedPath(rest);
    }
  }
}
