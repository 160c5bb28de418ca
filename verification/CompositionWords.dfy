/** What normalizing, splitting and locking do to the words of a composition, said without the functions that do it. */
module CompositionWords {
  import opened Wrappers
  import opened CompositionText
  import opened Composition
  import opened CompositionGuarantees
  import opened CompiledCompositions

  // ----- normalization keeps the words -----

  /** The stretches between blanks; word is what the last stretch has so far. */
  function WordsFrom(s: string, word: string): seq<string>
    decreases |s|
  {
    if s == "" then if word == "" then [] else [word]
    else if IsSpace(s[0]) then (if word == "" then [] else [word]) + WordsFrom(s[1..], "")
    else WordsFrom(s[1..], word + [s[0]])
  }

  lemma {:induction false} TrimStartKeepsWords(s: string)
    ensures WordsFrom(TrimStart(s), "") == WordsFrom(s, "")
    decreases |s|
  {
    if s != "" && IsSpace(s[0]) {
      TrimStartKeepsWords(s[1..]);
      assert [] + WordsFrom(s[1..], "") == WordsFrom(s[1..], "");
    }
  }

  lemma {:induction false} BlankAtEnd(s: string, c: char, word: string)
    requires IsSpace(c)
    ensures WordsFrom(s + [c], word) == WordsFrom(s, word)
    decreases |s|
  {
    if s == "" {
      assert (s + [c])[1..] == "";
      assert WordsFrom("", "") == [];
      assert (if word == "" then [] else [word]) + [] == if word == "" then [] else [word];
    } else {
      assert (s + [c])[0] == s[0] && (s + [c])[1..] == s[1..] + [c];
      BlankAtEnd(s[1..], c, if IsSpace(s[0]) then "" else word + [s[0]]);
    }
  }

  lemma {:induction false} TrimEndKeepsWords(s: string)
    ensures WordsFrom(TrimEnd(s), "") == WordsFrom(s, "")
    decreases |s|
  {
    if s != "" && IsSpace(s[|s| - 1]) {
      TrimEndKeepsWords(s[..|s| - 1]);
      BlankAtEnd(s[..|s| - 1], s[|s| - 1], "");
      assert s[..|s| - 1] + [s[|s| - 1]] == s;
    }
  }

  lemma {:induction false} CollapseKeepsWords(s: string, inRun: bool, word: string)
    requires inRun ==> word == ""
    ensures WordsFrom(Collapse(s, inRun), word) == WordsFrom(s, word)
    decreases |s|
  {
    if s != "" {
      if IsCollapsed(s[0]) {
        assert IsSpace(s[0]) && IsSpace(' ');
        CollapseKeepsWords(s[1..], true, "");
        if inRun {
          assert "" + Collapse(s[1..], true) == Collapse(s[1..], true);
          assert [] + WordsFrom(s[1..], "") == WordsFrom(s[1..], "");
        } else {
          assert (" " + Collapse(s[1..], true))[1..] == Collapse(s[1..], true);
        }
      } else {
        assert ([s[0]] + Collapse(s[1..], false))[1..] == Collapse(s[1..], false);
        CollapseKeepsWords(s[1..], false, if IsSpace(s[0]) then "" else word + [s[0]]);
      }
    }
  }

  /** Normalizing changes nothing but the blanks: the same words, letter by letter, in the same order. */
  lemma {:induction false} NormalizedKeepsWords(nfc: string -> string, value: string)
    requires Normalized(nfc, value).Ok?
    ensures WordsFrom(Normalized(nfc, value).value, "") == WordsFrom(nfc(value), "")
  {
    TrimStartKeepsWords(nfc(value));
    TrimEndKeepsWords(TrimStart(nfc(value)));
    CollapseKeepsWords(TrimEnd(TrimStart(nfc(value))), false, "");
    hide WordsFrom, TrimStart, TrimEnd, Collapse;
  }

  lemma {:induction false} TrimStartShrinks(s: string)
    ensures |TrimStart(s)| <= |s| && forall c :: c in TrimStart(s) ==> c in s
    decreases |s|
  {
    if s != "" && IsSpace(s[0]) {
      TrimStartShrinks(s[1..]);
    }
  }

  lemma {:induction false} TrimEndShrinks(s: string)
    ensures |TrimEnd(s)| <= |s| && forall c :: c in TrimEnd(s) ==> c in s
    decreases |s|
  {
    if s != "" && IsSpace(s[|s| - 1]) {
      TrimEndShrinks(s[..|s| - 1]);
    }
  }

  lemma {:induction false} CollapseShrinks(s: string, inRun: bool)
    ensures |Collapse(s, inRun)| <= |s| && forall c :: c in Collapse(s, inRun) ==> c in s || c == ' '
    decreases |s|
  {
    if s != "" {
      CollapseShrinks(s[1..], IsCollapsed(s[0]));
    }
  }

  lemma {:induction false} StartedWord(s: string, word: string)
    requires word != ""
    ensures WordsFrom(s, word) != []
    decreases |s|
  {
    if s != "" && !IsSpace(s[0]) {
      StartedWord(s[1..], word + [s[0]]);
    }
  }

  lemma FirstWord(s: string)
    ensures s == "" ==> WordsFrom(s, "") == []
    ensures s != "" && !IsSpace(s[0]) ==> WordsFrom(s, "") != []
  {
    if s != "" && !IsSpace(s[0]) {
      StartedWord(s[1..], [s[0]]);
      assert "" + [s[0]] == [s[0]];
    }
  }

  /** A text without words is refused as such; only characters beyond printable ASCII are refused as bad words; everything else is refused for its length alone. */
  lemma {:induction false} NormalizedErrors(nfc: string -> string, value: string)
    ensures var r, text := Normalized(nfc, value), nfc(value);
            && (r == Err(InvalidWord) ==> exists c :: c in text && !(' ' <= c <= '~'))
            && (r.Err? ==> r.error == InvalidWord || r.error == InvalidSpec)
            && (WordsFrom(text, "") != [] && |text| <= 512 && (forall c :: c in text ==> ' ' <= c <= '~') ==> r.Ok?)
            && (WordsFrom(text, "") == [] ==> r == Err(InvalidSpec))
  {
    var text := nfc(value);
    TrimStartKeepsWords(text);
    TrimEndKeepsWords(TrimStart(text));
    CollapseKeepsWords(TrimEnd(TrimStart(text)), false, "");
    TrimStartShrinks(text);
    TrimEndShrinks(TrimStart(text));
    var trimmed := TrimEnd(TrimStart(text));
    CollapseShrinks(trimmed, false);
    FirstWord(trimmed);
    FirstWord("");
    assert trimmed == "" ==> Collapse(trimmed, false) == "";
    hide WordsFrom, TrimStart, TrimEnd, Collapse;
    var t := Collapse(trimmed, false);
    if !IsPrintable(t) {
      var i :| 0 <= i < |t| && !(' ' <= t[i] <= '~');
      assert t[i] in t && t[i] in text;
    }
  }

  // ----- words of the text -----

  /** A stretch of word characters and then question marks that cannot be made longer on either side. */
  ghost predicate IsWordAt(text: string, start: nat, end: nat) {
    && start < end <= |text|
    && (start > 0 ==> !IsWordChar(text[start - 1]))
    && exists middle: nat :: IsStretch(text, start, middle, end)
  }

  predicate IsStretch(text: string, start: nat, middle: nat, end: nat)
    requires start < end <= |text|
  {
    && start < middle <= end
    && (forall k :: start <= k < middle ==> IsWordChar(text[k]))
    && (forall k :: middle <= k < end ==> text[k] == '?')
    && (middle < |text| ==> !IsWordChar(text[middle]))
    && (end < |text| ==> text[end] != '?')
  }

  lemma StretchEnd(text: string, start: nat, middle: nat, end: nat)
    requires start < end <= |text| && IsStretch(text, start, middle, end)
    ensures RunEnd(text, start, IsWordChar) == middle && RunEnd(text, middle, IsQuestion) == end
  {
    var m := RunEnd(text, start, IsWordChar);
    assert m == middle;
    var e := RunEnd(text, middle, IsQuestion);
    assert e == end;
    hide IsWordChar;
  }

  /** The tokens are the words of the text, and all of them; the text is refused as soon as one of them is no input for a renderer. */
  lemma {:induction false} TokensAreWords(text: string, from: nat, index: nat)
    requires from <= |text| && (from > 0 && from < |text| && IsWordChar(text[from]) ==> !IsWordChar(text[from - 1]))
    ensures Tokens(text, from, index).Ok? <==>
              forall start: nat, end: nat :: from <= start && IsWordAt(text, start, end) ==> ValidInput(text[start..end])
    ensures Tokens(text, from, index).Ok? ==>
              forall i :: 0 <= i < |Tokens(text, from, index).value| ==>
                IsWordAt(text, Tokens(text, from, index).value[i].start, Tokens(text, from, index).value[i].end)
    decreases |text| - from
  {
    hide ValidInput;
    if from == |text| {
    } else if !IsWordChar(text[from]) {
      TokensAreWords(text, from + 1, index);
    } else {
      var middle := RunEnd(text, from, IsWordChar);
      var end := RunEnd(text, middle, IsQuestion);
      assert IsStretch(text, from, middle, end);
      assert IsWordAt(text, from, end);
      assert end < |text| && IsWordChar(text[end]) ==> !IsWordChar(text[end - 1]);
      TokensAreWords(text, end, index + 1);
      forall start: nat, e: nat | from <= start < end && IsWordAt(text, start, e)
        ensures start == from && e == end
      {
        OneWordHere(text, from, middle, end, start, e);
      }
      hide IsWordAt, RunEnd, IsWordChar;
    }
  }

  lemma OneWordHere(text: string, from: nat, middle: nat, end: nat, start: nat, e: nat)
    requires from < end <= |text| && IsStretch(text, from, middle, end) && from <= start < end && IsWordAt(text, start, e)
    ensures start == from && e == end
  {
    var m: nat :| IsStretch(text, start, m, e);
    assert IsWordChar(text[start]);
    assert start < middle;
    assert start == from;
    StretchEnd(text, from, middle, end);
    StretchEnd(text, start, m, e);
  }

  // ----- phrases -----

  function Joined(parts: seq<string>): string {
    if parts == [] then "" else if |parts| == 1 then parts[0] else parts[0] + "_" + Joined(parts[1..])
  }

  ghost predicate IsPartList(parts: seq<string>) {
    |parts| >= 2 && forall i :: 0 <= i < |parts| ==> IsPhrasePart(parts[i])
  }

  /** A phrase is two or more parts of up to fifteen letters and digits, joined by single underscores. */
  lemma {:induction false} JoinedIsPhrase(parts: seq<string>)
    requires IsPartList(parts)
    ensures IsPhrase(Joined(parts))
    decreases |parts|
  {
    var word, rest := Joined(parts), Joined(parts[1..]);
    var i := |parts[0]|;
    assert word == parts[0] + "_" + rest;
    assert word[..i] == parts[0] && word[i] == '_' && word[i + 1..] == rest;
    if |parts| == 2 {
      assert rest == parts[1];
    } else {
      JoinedIsPhrase(parts[1..]);
    }
    assert IsPhrasePart(word[..i]) && (IsPhrasePart(word[i + 1..]) || IsPhrase(word[i + 1..]));
    hide IsPhrasePart;
  }

  ghost predicate CutsAt(word: string, i: nat) {
    0 < i < |word| && word[i] == '_' && IsPhrasePart(word[..i]) && (IsPhrasePart(word[i + 1..]) || IsPhrase(word[i + 1..]))
  }

  lemma PhraseCut(word: string)
    requires IsPhrase(word)
    ensures exists i :: CutsAt(word, i)
  {
    var i :| 0 < i < |word| && word[i] == '_' && IsPhrasePart(word[..i]) && (IsPhrasePart(word[i + 1..]) || IsPhrase(word[i + 1..]));
    hide IsPhrasePart, IsPhrase;
    assert CutsAt(word, i);
  }

  lemma CutAt(word: string, i: nat)
    requires i < |word| && word[i] == '_'
    ensures word == word[..i] + "_" + word[i + 1..]
  {}

  lemma JoinedFrom(part: string, rest: seq<string>)
    requires rest != []
    ensures Joined([part] + rest) == part + "_" + Joined(rest)
  {
    assert ([part] + rest)[1..] == rest;
  }

  lemma {:induction false} PhraseIsJoined(word: string) returns (parts: seq<string>)
    requires IsPhrase(word)
    ensures IsPartList(parts) && word == Joined(parts)
    decreases |word|
  {
    hide IsPhrase, IsPhrasePart;
    PhraseCut(word);
    var i: nat :| CutsAt(word, i);
    CutAt(word, i);
    var rest := [word[i + 1..]];
    if !IsPhrasePart(word[i + 1..]) {
      rest := PhraseIsJoined(word[i + 1..]);
    }
    parts := [word[..i]] + rest;
    JoinedFrom(word[..i], rest);
  }

  // ----- limits -----

  /** A text has from one to 64 words. */
  lemma WordCount(text: string)
    ensures TokensOf(text).Ok? <==> Tokens(text, 0, 0).Ok? && 1 <= |Tokens(text, 0, 0).value| <= 64
    ensures TokensOf(text).Ok? ==> TokensOf(text) == Tokens(text, 0, 0)
  {
    hide Tokens;
  }

  predicate Letters(s: string) {
    forall i :: 0 <= i < |s| ==> s[i] == 'a'
  }

  /** A word alone has at most 15 characters and an input at most 96; both are reached, and a question mark comes on top of a word. */
  lemma InputLimits(word: string)
    requires Letters(word)
    ensures ValidInput(word) <==> 1 <= |word| <= 15
    ensures ValidInput(word + "?") <==> 1 <= |word| <= 15
  {
    assert (word + "?")[..|word|] == word && (word + "?")[|word|] == '?';
    assert forall i :: 0 <= i < |word| ==> IsWordChar(word[i]);
    NoPhrase(word);
    hide IsPhrase, IsWordChar;
  }

  /** Of texts of one letter, ids have up to 80, versions up to 128 and digests exactly 64 characters; capitals are for versions only. */
  lemma FormLimits(s: string, capitals: string)
    requires Letters(s) && |capitals| == |s| && forall i :: 0 <= i < |s| ==> capitals[i] == 'A'
    ensures IsId(s) <==> 1 <= |s| <= 80
    ensures IsVersion(s) <==> 1 <= |s| <= 128
    ensures IsHash(s) <==> |s| == 64
    ensures !IsId(capitals) && !IsHash(capitals) && (IsVersion(capitals) <==> 1 <= |s| <= 128)
  {}

  lemma NoPhrase(word: string)
    requires Letters(word)
    ensures !IsPhrase(word)
  {}

  /** Six words of fifteen letters make the longest phrase, which still takes a question mark. */
  lemma LongestPhrase(part: string, extra: string)
    requires |part| == 15 && Letters(part) && |extra| == 1 && Letters(extra)
    ensures var phrase := Joined([part, part, part, part, part, part]);
            |phrase| == 95 && ValidInput(phrase + "?") && !ValidInput(phrase + extra + "?")
  {
    var parts := [part, part, part, part, part, part];
    var phrase := Joined(parts);
    JoinedIsPhrase(parts);
    JoinedLength(part, 6);
    assert parts == Repeat(part, 6);
    assert (phrase + "?")[..|phrase|] == phrase;
    hide IsPhrase, Joined;
  }

  function Repeat(part: string, n: nat): seq<string> {
    seq(n, i => part)
  }

  lemma {:induction false} JoinedLength(part: string, n: nat)
    requires n > 0
    ensures |Joined(Repeat(part, n))| == n * (|part| + 1) - 1
  {
    if n > 1 {
      JoinedLength(part, n - 1);
      assert Repeat(part, n)[1..] == Repeat(part, n - 1);
    }
  }

  // ----- first tokens, locks, older inputs -----

  ghost predicate IsFirst(tokens: seq<Token>, t: Token) {
    exists i :: 0 <= i < |tokens| && tokens[i] == t && forall j :: 0 <= j < i ==> tokens[j].rendererInput != t.rendererInput
  }

  lemma FirstStays(tokens: seq<Token>, n: nat, t: Token)
    requires n < |tokens| && IsFirst(tokens[..n], t)
    ensures IsFirst(tokens, t)
  {
    var i :| 0 <= i < n && tokens[..n][i] == t && forall j :: 0 <= j < i ==> tokens[..n][j].rendererInput != t.rendererInput;
    assert tokens[i] == t && forall j :: 0 <= j < i ==> tokens[j] == tokens[..n][j];
  }

  lemma NewIsFirst(tokens: seq<Token>, n: nat)
    requires n < |tokens| && forall j :: 0 <= j < n ==> tokens[..n][j].rendererInput != tokens[n].rendererInput
    ensures IsFirst(tokens, tokens[n])
  {
    assert forall j :: 0 <= j < n ==> tokens[j] == tokens[..n][j];
  }

  /** Each of the first tokens is the first one in the text with its input. */
  lemma {:induction false} FirstTokensAreFirst(tokens: seq<Token>)
    ensures forall t :: t in FirstTokens(tokens) ==> IsFirst(tokens, t)
    decreases |tokens|
  {
    hide IsFirst;
    if tokens != [] {
      var n := |tokens| - 1;
      FirstTokensAreFirst(tokens[..n]);
      FirstTokensCover(tokens[..n]);
      forall t | t in FirstTokens(tokens)
        ensures IsFirst(tokens, t)
      {
        if t in FirstTokens(tokens[..n]) {
          FirstStays(tokens, n, t);
        } else {
          NewIsFirst(tokens, n);
        }
      }
    }
  }

  /** Which error a lock gives: the first glyph that is not locked as it is decides; with none, an input too many. */
  lemma {:induction false} LockErrors(glyphs: seq<Glyph>, lock: map<string, string>, k: nat)
    requires k <= |glyphs| && forall i :: 0 <= i < k ==> LockedAs(lock, glyphs[i])
    requires k < |glyphs| ==> !LockedAs(lock, glyphs[k])
    ensures k < |glyphs| && glyphs[k].rendererInput !in lock ==> ShapeLock(glyphs, lock) == Err(LockMissing)
    ensures k < |glyphs| && glyphs[k].rendererInput in lock ==> ShapeLock(glyphs, lock) == Err(LockMismatch)
    ensures k == |glyphs| && (exists input :: input in lock && !HasGlyph(glyphs, input)) ==> ShapeLock(glyphs, lock) == Err(LockStale)
  {
    FirstUnlocked(glyphs, lock, k);
    hide Fold, HasGlyph, IsHash;
  }

  lemma {:induction false} FirstUnlocked(glyphs: seq<Glyph>, lock: map<string, string>, k: nat)
    requires k <= |glyphs| && forall i :: 0 <= i < k ==> LockedAs(lock, glyphs[i])
    requires k < |glyphs| ==> !LockedAs(lock, glyphs[k])
    ensures Fold(LockStep(lock), true, glyphs)
         == if k == |glyphs| then Ok(true) else if glyphs[k].rendererInput in lock then Err(LockMismatch) else Err(LockMissing)
    decreases k
  {
    hide IsHash;
    if k > 0 {
      FirstUnlocked(glyphs[1..], lock, k - 1);
      assert LockedAs(lock, glyphs[0]);
    }
  }

  /** Inputs of the older schema: every capital is its small letter, everything else stays, and doing it twice changes nothing. */
  lemma LowerCaseIs(s: string)
    ensures |LowerCase(s)| == |s| && LowerCase(LowerCase(s)) == LowerCase(s)
    ensures forall i :: 0 <= i < |s| ==>
              if 'A' <= s[i] <= 'Z' then 'a' <= LowerCase(s)[i] <= 'z' && LowerCase(s)[i] as int - 'a' as int == s[i] as int - 'A' as int
              else LowerCase(s)[i] == s[i]
  {}

  // ----- captured glyphs -----

  /** The canvas and the one path of a shape, as they are digested. */
  lemma DescriptionText(lib: Library, width: real, height: real, d: string)
    ensures ShapeDescriptor(lib, width, height, Fill(d))
         == "shape-v1\ncanvas=" + lib.numberText(width) + "x" + lib.numberText(height) + "\nmode=fill\nd=" + d
  {}

  /** The lines of a stroke name its width, cap and join, then its path. */
  lemma StrokeText(d: string, strokeWidth: string)
    ensures DrawingLines(Stroke(d, strokeWidth, RoundCap, MiterJoin))
         == "mode=stroke\nstroke-width=" + (strokeWidth + ("\nstroke-linecap=round" + ("\nstroke-linejoin=miter" + ("\nd=" + d))))
  {
    var path := "\n" + ("d=" + d);
    assert path == "\nd=" + d;
    var join := "\n" + ("stroke-linejoin=" + ("miter" + path));
    assert join == "\nstroke-linejoin=miter" + path;
    assert "\n" + ("stroke-linecap=" + ("round" + join)) == "\nstroke-linecap=round" + join;
  }

  lemma CapsAndJoins()
    ensures CapText(ButtCap) == "butt" && CapText(SquareCap) == "square"
    ensures JoinText(ArcsJoin) == "arcs" && JoinText(BevelJoin) == "bevel" && JoinText(MiterClipJoin) == "miter-clip" && JoinText(RoundJoin) == "round"
  {}

  /** A glyph is the rendering of its own input, named after the first word that shows it, with the digest of its shape. */
  ghost predicate IsRendered(lib: Library, renderer: Renderer, gr0kRaw: int, word: Token, g: Glyph) {
    exists r :: renderer.render(word.rendererInput, gr0kRaw) == Ok(r)
                && g.rendererInput == word.rendererInput && g.firstDisplayWord == word.displayWord
                && g.width == r.width && g.height == r.height && g.drawing == r.drawing
                && g.svgSha256 == r.svgSha256 && g.elementSha256 == r.elementSha256
                && g.shapeSha256 == lib.sha256(ShapeDescriptor(lib, r.width, r.height, r.drawing))
  }

  lemma OneIsRendered(lib: Library, renderer: Renderer, gr0kRaw: int, word: Token, g: Glyph)
    requires CaptureOne(lib, renderer, gr0kRaw, word) == Ok(g)
    ensures IsRendered(lib, renderer, gr0kRaw, word, g)
  {
    var r := renderer.render(word.rendererInput, gr0kRaw).value;
    assert renderer.render(word.rendererInput, gr0kRaw) == Ok(r);
    hide ShapeDescriptor;
  }

  /** A compiled composition: its header as given, its text normalized, one rendering for every first word, in text order. */
  lemma {:induction false} CompiledFromParts(lib: Library, renderer: Renderer, id: string, displayText: string, gr0kRaw: int, lock: map<string, string>)
    requires Compile(lib, renderer, id, displayText, gr0kRaw, lock).Ok?
    ensures var c := Compile(lib, renderer, id, displayText, gr0kRaw, lock).value;
            && c.schema == Current && c.id == id && c.gr0kRaw == gr0kRaw && c.gr0kScale == 1
            && c.rendererVersion == renderer.version && c.rendererApproved == renderer.approved
            && Normalized(lib.nfc, displayText) == Ok(c.displayText)
            && |c.glyphs| == |FirstTokens(c.tokens)|
            && forall i :: 0 <= i < |c.glyphs| ==> IsRendered(lib, renderer, gr0kRaw, FirstTokens(c.tokens)[i], c.glyphs[i])
  {
    CompiledParts(lib, renderer, id, displayText, gr0kRaw, lock);
    hide TokensOf, FirstTokens, CaptureOne, IsRendered, ShapeLock, LockOf, SoundText, ExactLock, Normalized, Fold, CaptureStep;
    var c := Compile(lib, renderer, id, displayText, gr0kRaw, lock).value;
    forall i | 0 <= i < |c.glyphs|
      ensures IsRendered(lib, renderer, gr0kRaw, FirstTokens(c.tokens)[i], c.glyphs[i])
    {
      OneIsRendered(lib, renderer, gr0kRaw, FirstTokens(c.tokens)[i], c.glyphs[i]);
    }
  }

  /** What is refused before anything is rendered: first a bad id, then a bad reading, then a bad text, then a bad word. */
  lemma {:induction false} RefusedInOrder(lib: Library, renderer: Renderer, id: string, displayText: string, gr0kRaw: int, lock: map<string, string>)
    ensures var r := Compile(lib, renderer, id, displayText, gr0kRaw, lock);
            && (!IsId(id) ==> r == Err(InvalidSpec))
            && (IsId(id) && !(1 <= gr0kRaw <= 100) ==> r == Err(InvalidGr0k))
            && (IsId(id) && 1 <= gr0kRaw <= 100 ==>
                  match Normalized(lib.nfc, displayText)
                  case Err(e) => r == Err(e)
                  case Ok(text) => TokensOf(text).Err? ==> r == Err(TokensOf(text).error))
  {
    hide IsId, Normalized, TokensOf, ShapeLock, FirstTokens, Fold, LockOf;
  }

  /** The words of a composition that restores are those of its own text, spelled as they stand there; the older schema folds the case of what is rendered. */
  lemma {:induction false} RestoredWords(lib: Library, c: Compiled)
    requires lib.Valid() && Restored(lib, c).Ok?
    ensures 1 <= |c.tokens| <= 64
    ensures forall i :: 0 <= i < |c.tokens| ==>
              var t := c.tokens[i];
              && t.tokenIndex == i && t.start < t.end <= |c.displayText| && t.displayWord == c.displayText[t.start..t.end]
              && IsWordAt(c.displayText, t.start, t.end)
              && t.rendererInput == if c.schema == Legacy then LowerCase(t.displayWord) else t.displayWord
  {
    RestoringIsAFixedPoint(lib, c);
    hide Restored, SoundGlyphs, SoundLocks, Tokens, IsWordAt, IsCanonical, IsId, IsVersion, LowerCase;
    var text := c.displayText;
    WordCount(text);
    TokensAreWords(text, 0, 0);
    TokensPartition(text, 0, 0);
    hide TokensOf;
    forall i | 0 <= i < |c.tokens|
      ensures var t := c.tokens[i];
              && t.tokenIndex == i && t.start < t.end <= |c.displayText| && t.displayWord == c.displayText[t.start..t.end]
              && IsWordAt(c.displayText, t.start, t.end)
              && t.rendererInput == if c.schema == Legacy then LowerCase(t.displayWord) else t.displayWord
    {
      assert TokenAt(text, Tokens(text, 0, 0).value[i], 0);
    }
  }
}
