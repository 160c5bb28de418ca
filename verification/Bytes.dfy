/** UTF-8 of UTF-16 text, and base64 of bytes, each with the decoder that undoes it. */
module Bytes {
  import opened Wrappers
  import opened CanonicalJson

  type Byte = x: int | 0 <= x < 256

  // ----- UTF-8 (RFC 3629): lone surrogates are written as U+FFFD -----

  const REPLACEMENT: Unit := 0xFFFD

  predicate StartsPair(s: Text) {
    |s| > 1 && IsHigh(s[0]) && IsLow(s[1])
  }

  predicate IsSurrogate(c: int) {
    0xD800 <= c <= 0xDFFF
  }

  function Continuation(x: int): Byte {
    0x80 + x % 64
  }

  function EncodeUnit(c: Unit): seq<Byte>
    requires !IsSurrogate(c)
  {
    if c < 0x80 then [c]
    else if c < 0x800 then [0xC0 + c / 64, Continuation(c)]
    else [0xE0 + c / 4096, Continuation(c / 64), Continuation(c)]
  }

  /** The code point of a surrogate pair. */
  function PairValue(high: Unit, low: Unit): int {
    0x10000 + (high - 0xD800) * 1024 + (low - 0xDC00)
  }

  function EncodePair(p: int): seq<Byte>
    requires 0x10000 <= p < 0x110000
  {
    [0xF0 + p / 262144, Continuation(p / 4096), Continuation(p / 64), Continuation(p)]
  }

  function Utf8(s: Text): seq<Byte>
    decreases |s|
  {
    if s == [] then []
    else if StartsPair(s) then EncodePair(PairValue(s[0], s[1])) + Utf8(s[2..])
    else EncodeUnit(if IsSurrogate(s[0]) then REPLACEMENT else s[0]) + Utf8(s[1..])
  }

  predicate IsContinuation(b: Byte) {
    0x80 <= b < 0xC0
  }

  function Join2(a: int, b: int): int {
    a * 64 + (b - 0x80)
  }

  function Join3(a: int, b: int, c: int): int {
    Join2(a, b) * 64 + (c - 0x80)
  }

  function Join4(a: int, b: int, c: int, d: int): int {
    Join3(a, b, c) * 64 + (d - 0x80)
  }

  /** Well-formed bytes only; what a lenient decoder substitutes for others is not modelled. */
  function FromUtf8(b: seq<Byte>): Option<Text>
    decreases |b|
  {
    if b == [] then Some([])
    else if b[0] < 0x80 then Prepend([b[0]], FromUtf8(b[1..]))
    else if 0xC2 <= b[0] < 0xE0 then
      if |b| < 2 || !IsContinuation(b[1]) then None
      else Prepend([Join2(b[0] - 0xC0, b[1])], FromUtf8(b[2..]))
    else if 0xE0 <= b[0] < 0xF0 then
      if |b| < 3 || !IsContinuation(b[1]) || !IsContinuation(b[2]) then None
      else
        var c := Join3(b[0] - 0xE0, b[1], b[2]);
        if c < 0x800 || IsSurrogate(c) then None else Prepend([c], FromUtf8(b[3..]))
    else if 0xF0 <= b[0] < 0xF5 then
      if |b| < 4 || !IsContinuation(b[1]) || !IsContinuation(b[2]) || !IsContinuation(b[3]) then None
      else
        var p := Join4(b[0] - 0xF0, b[1], b[2], b[3]);
        if !(0x10000 <= p < 0x110000) then None
        else Prepend([0xD800 + (p - 0x10000) / 1024, 0xDC00 + (p - 0x10000) % 1024], FromUtf8(b[4..]))
    else None
  }

  function Prepend(t: Text, rest: Option<Text>): Option<Text> {
    if rest.None? then None else Some(t + rest.value)
  }

  /** The text with every lone surrogate replaced. */
  function WellFormedText(s: Text): Text
    decreases |s|
  {
    if s == [] then []
    else if StartsPair(s) then s[..2] + WellFormedText(s[2..])
    else [if IsSurrogate(s[0]) then REPLACEMENT else s[0]] + WellFormedText(s[1..])
  }

  predicate HasNoLoneSurrogate(s: Text)
    decreases |s|
  {
    s == [] || if StartsPair(s) then HasNoLoneSurrogate(s[2..]) else !IsSurrogate(s[0]) && HasNoLoneSurrogate(s[1..])
  }

  lemma Joined(c: int)
    requires c >= 0
    ensures Join2(c / 64, Continuation(c)) == c
    ensures Join3(c / 4096, Continuation(c / 64), Continuation(c)) == c
    ensures Join4(c / 262144, Continuation(c / 4096), Continuation(c / 64), Continuation(c)) == c
  {
    assert c / 4096 == c / 64 / 64 && c / 262144 == c / 4096 / 64;
  }

  lemma UnitDecodes(c: Unit, rest: seq<Byte>)
    requires !IsSurrogate(c)
    ensures FromUtf8(EncodeUnit(c) + rest) == Prepend([c], FromUtf8(rest))
  {
    if c < 0x80 {
      OneByteDecodes(c, rest);
    } else if c < 0x800 {
      TwoBytesDecode(c, rest);
    } else {
      ThreeBytesDecode(c, rest);
    }
    hide FromUtf8, Continuation;
  }

  lemma OneByteDecodes(c: Byte, rest: seq<Byte>)
    requires c < 0x80
    ensures FromUtf8([c] + rest) == Prepend([c], FromUtf8(rest))
  {}

  lemma TwoBytesDecode(c: Unit, rest: seq<Byte>)
    requires 0x80 <= c < 0x800
    ensures FromUtf8([0xC0 + c / 64, Continuation(c)] + rest) == Prepend([c], FromUtf8(rest))
  {}

  lemma ThreeBytesDecode(c: Unit, rest: seq<Byte>)
    requires 0x800 <= c && !IsSurrogate(c)
    ensures FromUtf8([0xE0 + c / 4096, Continuation(c / 64), Continuation(c)] + rest) == Prepend([c], FromUtf8(rest))
  {
    var b := [0xE0 + c / 4096, Continuation(c / 64), Continuation(c)] + rest;
    Joined(c);
    assert b[3..] == rest && b[0] == 0xE0 + c / 4096 && b[1] == Continuation(c / 64) && b[2] == Continuation(c);
    hide Join2, Join3, Join4;
  }

  lemma PairSplits(high: Unit, low: Unit)
    requires IsHigh(high) && IsLow(low)
    ensures var p := PairValue(high, low);
            && 0x10000 <= p < 0x110000
            && 0xD800 + (p - 0x10000) / 1024 == high && 0xDC00 + (p - 0x10000) % 1024 == low
            && 0xF0 <= 0xF0 + p / 262144 < 0xF5
  {}

  lemma PairDecodes(high: Unit, low: Unit, rest: seq<Byte>)
    requires IsHigh(high) && IsLow(low)
    ensures 0x10000 <= PairValue(high, low) < 0x110000
    ensures FromUtf8(EncodePair(PairValue(high, low)) + rest) == Prepend([high, low], FromUtf8(rest))
  {
    PairSplits(high, low);
    hide PairValue;
    FourBytesDecode(PairValue(high, low), rest);
  }

  lemma FourBytesDecode(p: int, rest: seq<Byte>)
    requires 0x10000 <= p < 0x110000
    ensures FromUtf8(EncodePair(p) + rest) == Prepend([0xD800 + (p - 0x10000) / 1024, 0xDC00 + (p - 0x10000) % 1024], FromUtf8(rest))
  {
    var b := EncodePair(p) + rest;
    Joined(p);
    assert b[0] == 0xF0 + p / 262144 && b[1] == Continuation(p / 4096) && b[2] == Continuation(p / 64) && b[3] == Continuation(p);
    assert b[4..] == rest;
    hide Join2, Join3, Join4;
  }

  /** Decoding undoes encoding, up to the replacement of lone surrogates. */
  lemma {:induction false} Utf8RoundTrip(s: Text)
    ensures FromUtf8(Utf8(s)) == Some(WellFormedText(s))
    decreases |s|
  {
    if s != [] {
      if StartsPair(s) {
        Utf8RoundTrip(s[2..]);
        PairDecodes(s[0], s[1], Utf8(s[2..]));
        assert s[..2] == [s[0], s[1]];
      } else {
        Utf8RoundTrip(s[1..]);
        UnitDecodes(if IsSurrogate(s[0]) then REPLACEMENT else s[0], Utf8(s[1..]));
      }
      hide FromUtf8, EncodeUnit, EncodePair;
    }
  }

  /** A text survives exactly when it has no lone surrogate. */
  lemma {:induction false} SurvivesWhenWellFormed(s: Text)
    ensures |WellFormedText(s)| == |s|
    ensures WellFormedText(s) == s <==> HasNoLoneSurrogate(s)
    decreases |s|
  {
    if s != [] {
      var n := if StartsPair(s) then 2 else 1;
      SurvivesWhenWellFormed(s[n..]);
      assert s == s[..n] + s[n..];
      var w := WellFormedText(s);
      assert w[n..] == WellFormedText(s[n..]);
      if w == s {
        assert w[n..] == s[n..] && w[0] == s[0];
      }
    }
  }

  // ----- base64 (RFC 4648, sections 4 and 5) -----

  /** The alphabet: url is the URL- and filename-safe one, without padding. */
  function Symbol(v: int, url: bool): char
    requires 0 <= v < 64
  {
    if v < 26 then 'A' + v as char
    else if v < 52 then 'a' + (v - 26) as char
    else if v < 62 then '0' + (v - 52) as char
    else if v == 62 then (if url then '-' else '+')
    else (if url then '_' else '/')
  }

  function SymbolValue(c: char, url: bool): Option<int> {
    if 'A' <= c <= 'Z' then Some((c - 'A') as int)
    else if 'a' <= c <= 'z' then Some((c - 'a') as int + 26)
    else if '0' <= c <= '9' then Some((c - '0') as int + 52)
    else if c == (if url then '-' else '+') then Some(62)
    else if c == (if url then '_' else '/') then Some(63)
    else None
  }

  /** A six-bit group. */
  type Sextet = v: int | 0 <= v < 64

  /** The four groups of three bytes. */
  function Group0(x: Byte): Sextet {
    x / 4
  }

  function Group1(x: Byte, y: Byte): Sextet {
    x % 4 * 16 + y / 16
  }

  function Group2(y: Byte, z: Byte): Sextet {
    y % 16 * 4 + z / 64
  }

  function Group3(z: Byte): Sextet {
    z % 64
  }

  /** The three bytes of four groups. */
  function Byte0(v0: Sextet, v1: Sextet): Byte {
    v0 * 4 + v1 / 16
  }

  function Byte1(v1: Sextet, v2: Sextet): Byte {
    v1 % 16 * 16 + v2 / 4
  }

  function Byte2(v2: Sextet, v3: Sextet): Byte {
    v2 % 4 * 64 + v3
  }

  lemma GroupsJoin(x: Byte, y: Byte, z: Byte)
    ensures Byte0(Group0(x), Group1(x, y)) == x
    ensures Byte1(Group1(x, y), Group2(y, z)) == y
    ensures Byte2(Group2(y, z), Group3(z)) == z
  {}

  function Base64(b: seq<Byte>, url: bool): string
    decreases |b|
  {
    if b == [] then ""
    else if |b| == 1 then [Symbol(Group0(b[0]), url), Symbol(Group1(b[0], 0), url)] + (if url then "" else "==")
    else if |b| == 2 then
      [Symbol(Group0(b[0]), url), Symbol(Group1(b[0], b[1]), url), Symbol(Group2(b[1], 0), url)] + (if url then "" else "=")
    else Quad(b[0], b[1], b[2], url) + Base64(b[3..], url)
  }

  /** The four symbols of three bytes. */
  function Quad(x: Byte, y: Byte, z: Byte, url: bool): string {
    [Symbol(Group0(x), url), Symbol(Group1(x, y), url), Symbol(Group2(y, z), url), Symbol(Group3(z), url)]
  }

  /** Whole groups, then a shorter last one; bits left over are dropped, padding ends the text. */
  function FromBase64(s: string, url: bool): Option<seq<Byte>>
    decreases |s|
  {
    if |s| <= 1 then Some([])
    else
      match (SymbolValue(s[0], url), SymbolValue(s[1], url))
      case (Some(v0), Some(v1)) =>
        if |s| == 2 || s[2] == '=' then Some([Byte0(v0, v1)])
        else
          (match SymbolValue(s[2], url)
           case None => None
           case Some(v2) =>
             if |s| == 3 || s[3] == '=' then Some([Byte0(v0, v1), Byte1(v1, v2)])
             else
               (match (SymbolValue(s[3], url), FromBase64(s[4..], url))
                case (Some(v3), Some(rest)) => Some([Byte0(v0, v1), Byte1(v1, v2), Byte2(v2, v3)] + rest)
                case _ => None))
      case _ => None
  }

  lemma SymbolReads(v: Sextet, url: bool)
    ensures SymbolValue(Symbol(v, url), url) == Some(v) && Symbol(v, url) != '='
  {}

  lemma Base64One(x: Byte, url: bool)
    ensures Base64([x], url) == [Symbol(Group0(x), url), Symbol(Group1(x, 0), url)] + (if url then "" else "==")
  {}

  lemma LastByteReads(x: Byte, url: bool)
    ensures FromBase64(Base64([x], url), url) == Some([x])
  {
    Base64One(x, url);
    TwoSymbolsRead(Group0(x), Group1(x, 0), url);
    GroupsJoin(x, 0, 0);
    hide *;
  }

  lemma TwoSymbolsRead(v0: Sextet, v1: Sextet, url: bool)
    ensures FromBase64([Symbol(v0, url), Symbol(v1, url)] + (if url then "" else "=="), url) == Some([Byte0(v0, v1)])
  {
    SymbolReads(v0, url);
    SymbolReads(v1, url);
    hide Symbol, SymbolValue, Byte0, Byte1, Byte2;
    var s := [Symbol(v0, url), Symbol(v1, url)] + (if url then "" else "==");
    assert s[0] == Symbol(v0, url) && s[1] == Symbol(v1, url);
    assert |s| == 2 || s[2] == '=';
  }

  lemma LastTwoRead(x: Byte, y: Byte, url: bool)
    ensures FromBase64(Base64([x, y], url), url) == Some([x, y])
  {
    SymbolReads(Group0(x), url);
    SymbolReads(Group1(x, y), url);
    SymbolReads(Group2(y, 0), url);
    GroupsJoin(x, y, 0);
    hide Symbol, SymbolValue, Group0, Group1, Group2, Group3, Byte0, Byte1, Byte2;
    var s := Base64([x, y], url);
    assert s[0] == Symbol(Group0(x), url) && s[1] == Symbol(Group1(x, y), url) && s[2] == Symbol(Group2(y, 0), url);
  }

  lemma GroupReads(x: Byte, y: Byte, z: Byte, rest: string, url: bool)
    ensures FromBase64(Quad(x, y, z, url) + rest, url)
         == if FromBase64(rest, url).None? then None else Some([x, y, z] + FromBase64(rest, url).value)
  {
    SymbolReads(Group0(x), url);
    SymbolReads(Group1(x, y), url);
    SymbolReads(Group2(y, z), url);
    SymbolReads(Group3(z), url);
    GroupsJoin(x, y, z);
    hide Symbol, SymbolValue, Group0, Group1, Group2, Group3, Byte0, Byte1, Byte2;
    var s := Quad(x, y, z, url) + rest;
    assert s[4..] == rest;
    assert s[0] == Symbol(Group0(x), url) && s[1] == Symbol(Group1(x, y), url) && s[2] == Symbol(Group2(y, z), url) && s[3] == Symbol(Group3(z), url);
  }

  lemma Base64Empty(url: bool)
    ensures FromBase64(Base64([], url), url) == Some([])
  {}

  lemma Base64Unfolds(b: seq<Byte>, url: bool)
    requires |b| > 2
    ensures Base64(b, url) == Quad(b[0], b[1], b[2], url) + Base64(b[3..], url)
  {}

  lemma LongReads(b: seq<Byte>, url: bool)
    requires |b| > 2 && FromBase64(Base64(b[3..], url), url) == Some(b[3..])
    ensures FromBase64(Base64(b, url), url) == Some(b)
  {
    GroupReads(b[0], b[1], b[2], Base64(b[3..], url), url);
    Base64Unfolds(b, url);
    assert b == [b[0], b[1], b[2]] + b[3..];
    hide FromBase64, Base64, Quad;
  }

  /** Decoding undoes encoding, with and without padding, in both alphabets. */
  lemma {:induction false} Base64RoundTrip(b: seq<Byte>, url: bool)
    ensures FromBase64(Base64(b, url), url) == Some(b)
    decreases |b|
  {
    if |b| == 1 {
      LastByteReads(b[0], url);
      assert b == [b[0]];
    } else if |b| == 2 {
      LastTwoRead(b[0], b[1], url);
      assert b == [b[0], b[1]];
    } else if |b| > 2 {
      Base64RoundTrip(b[3..], url);
      LongReads(b, url);
    } else {
      Base64Empty(url);
    }
    hide FromBase64, Base64;
  }

  /** The text stays within its alphabet. */
  lemma {:induction false} Base64UrlAlphabet(b: seq<Byte>)
    ensures forall i :: 0 <= i < |Base64(b, true)| ==> SymbolValue(Base64(b, true)[i], true).Some?
    decreases |b|
  {
    forall v: Sextet
      ensures SymbolValue(Symbol(v, true), true).Some?
    {
      SymbolReads(v, true);
    }
    if |b| > 2 {
      Base64UrlAlphabet(b[3..]);
    }
    hide Symbol, SymbolValue, Group0, Group1, Group2, Group3;
  }

  /** From the examples of section 7 of RFC 3629: one, two, three and four bytes. */
  lemma Utf8Examples()
    ensures Utf8([0x41]) == [0x41] && Utf8([0x391]) == [0xCE, 0x91] && Utf8([0x2262]) == [0xE2, 0x89, 0xA2]
    ensures Utf8([0xD84C, 0xDFB4]) == [0xF0, 0xA3, 0x8E, 0xB4]
  {
    assert EncodeUnit(0x391) == [0xCE, 0x91] && EncodeUnit(0x2262) == [0xE2, 0x89, 0xA2];
    assert EncodePair(PairValue(0xD84C, 0xDFB4)) == [0xF0, 0xA3, 0x8E, 0xB4];
    assert Utf8([]) == [];
    hide EncodeUnit, EncodePair, PairValue;
  }

  /** The examples of section 10 of RFC 4648, and the two letters of its URL alphabet. */
  lemma Base64Examples()
    ensures Base64([0x66], false) == "Zg==" && Base64([0x66, 0x6F], false) == "Zm8=" && Base64([0x66, 0x6F, 0x6F], false) == "Zm9v"
    ensures Base64([0x66], true) == "Zg" && Base64([0xFB, 0xFF], true) == "-_8" && Base64([0xFB, 0xFF], false) == "+/8="
  {}
}
