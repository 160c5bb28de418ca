/** What a checked lock and a restored composition guarantee. */
module CompositionGuarantees {
  import opened Wrappers
  import opened CompositionText
  import opened Composition

  // ----- the lock covers the glyphs exactly -----

  /** Every glyph is locked with its own digest, and nothing else is locked. */
  ghost predicate ExactLock(glyphs: seq<Glyph>, lock: map<string, string>) {
    && (forall i :: 0 <= i < |glyphs| ==> LockedAs(lock, glyphs[i]))
    && (forall input :: input in lock ==> HasGlyph(glyphs, input))
  }

  predicate LockedAs(lock: map<string, string>, g: Glyph) {
    g.rendererInput in lock && lock[g.rendererInput] == g.shapeSha256 && IsHash(g.shapeSha256)
  }

  lemma {:induction false} LockFold(glyphs: seq<Glyph>, lock: map<string, string>)
    ensures Fold(LockStep(lock), true, glyphs).Ok? <==> forall i :: 0 <= i < |glyphs| ==> LockedAs(lock, glyphs[i])
    ensures Fold(LockStep(lock), true, glyphs) in {Ok(true), Err(LockMissing), Err(LockMismatch)}
    decreases |glyphs|
  {
    if glyphs != [] {
      LockFold(glyphs[1..], lock);
      assert glyphs == [glyphs[0]] + glyphs[1..];
    }
    hide IsHash;
  }

  /** The lock is accepted exactly when it covers the glyphs and only them, each with its digest. */
  lemma {:induction false} LockIsExact(glyphs: seq<Glyph>, lock: map<string, string>)
    ensures ShapeLock(glyphs, lock).Ok? <==> ExactLock(glyphs, lock)
    ensures ShapeLock(glyphs, lock).Err? ==> ShapeLock(glyphs, lock).error in {LockMissing, LockMismatch, LockStale}
  {
    LockFold(glyphs, lock);
    hide Fold, LockedAs, HasGlyph;
  }

  // ----- first tokens -----

  predicate DistinctInputs(tokens: seq<Token>) {
    forall i, j :: 0 <= i < j < |tokens| ==> tokens[i].rendererInput != tokens[j].rendererInput
  }

  /** One token for every input, each with an input of its own. */
  lemma {:induction false} FirstTokensCover(tokens: seq<Token>)
    ensures DistinctInputs(FirstTokens(tokens))
    ensures forall i :: 0 <= i < |tokens| ==> HasInput(FirstTokens(tokens), tokens[i].rendererInput)
    ensures forall t :: t in FirstTokens(tokens) ==> t in tokens
    decreases |tokens|
  {
    if tokens != [] {
      var n := |tokens| - 1;
      var before, all := FirstTokens(tokens[..n]), FirstTokens(tokens);
      FirstTokensCover(tokens[..n]);
      assert tokens == tokens[..n] + [tokens[n]];
      forall i | 0 <= i < |tokens|
        ensures HasInput(all, tokens[i].rendererInput)
      {
        if i < n {
          assert HasInput(before, tokens[..n][i].rendererInput);
        }
        GrowsInput(before, tokens[n], all, tokens[i].rendererInput);
      }
    }
    hide HasInput;
  }

  lemma GrowsInput(before: seq<Token>, last: Token, all: seq<Token>, input: string)
    requires all == if HasInput(before, last.rendererInput) then before else before + [last]
    ensures HasInput(before, input) || last.rendererInput == input ==> HasInput(all, input)
    ensures !HasInput(before, last.rendererInput) ==> forall i :: 0 <= i < |before| ==> before[i].rendererInput != last.rendererInput
  {
    if HasInput(before, input) {
      var i :| 0 <= i < |before| && before[i].rendererInput == input;
      assert all[i] == before[i];
    } else if last.rendererInput == input {
      assert all[|all| - 1] == last;
    }
  }

  // ----- restoring rebuilds what it is given -----

  /** Everything that is checked about one stored glyph. */
  ghost predicate SoundGlyph(lib: Library, first: seq<Token>, g: Glyph) {
    && FindToken(first, g.rendererInput).Some? && g.firstDisplayWord == FindToken(first, g.rendererInput).value.displayWord
    && 0.0 < g.width <= MAX_DIMENSION && 0.0 < g.height <= MAX_DIMENSION
    && ValidDrawing(lib, g.drawing)
    && IsHash(g.shapeSha256) && g.shapeSha256 == lib.sha256(ShapeDescriptor(lib, g.width, g.height, g.drawing))
    && IsHash(g.svgSha256) && IsHash(g.elementSha256)
  }

  ghost predicate DistinctGlyphs(glyphs: seq<Glyph>) {
    forall i, j :: 0 <= i < j < |glyphs| ==> glyphs[i].rendererInput != glyphs[j].rendererInput
  }

  function Inputs(glyphs: seq<Glyph>): set<string> {
    set i | 0 <= i < |glyphs| :: glyphs[i].rendererInput
  }

  lemma OneGlyph(lib: Library, first: seq<Token>, acc: Restoring, g: Glyph)
    ensures RestoreGlyph(lib, first, acc, g)
         == if SoundGlyph(lib, first, g) && g.rendererInput !in acc.seen
            then Ok(Restoring(acc.seen + {g.rendererInput}, acc.glyphs + [g])) else Err(InvalidSnapshot)
  {
    assert g.(firstDisplayWord := g.firstDisplayWord) == g;
    hide FindToken, IsHash, ValidDrawing, ShapeDescriptor;
  }

  ghost predicate GlyphsFit(lib: Library, first: seq<Token>, seen: set<string>, glyphs: seq<Glyph>) {
    && (forall i :: 0 <= i < |glyphs| ==> SoundGlyph(lib, first, glyphs[i]) && glyphs[i].rendererInput !in seen)
    && DistinctGlyphs(glyphs)
  }

  lemma FitsFirst(lib: Library, first: seq<Token>, seen: set<string>, glyphs: seq<Glyph>)
    requires glyphs != []
    ensures GlyphsFit(lib, first, seen, glyphs)
       <==> SoundGlyph(lib, first, glyphs[0]) && glyphs[0].rendererInput !in seen
            && GlyphsFit(lib, first, seen + {glyphs[0].rendererInput}, glyphs[1..])
    ensures Inputs(glyphs) == {glyphs[0].rendererInput} + Inputs(glyphs[1..])
  {
    hide SoundGlyph;
    assert forall i :: 0 <= i < |glyphs[1..]| ==> glyphs[1..][i] == glyphs[i + 1];
    assert forall i :: 0 < i < |glyphs| ==> glyphs[i] == glyphs[1..][i - 1];
  }

  lemma FoldOne(lib: Library, first: seq<Token>, acc: Restoring, glyphs: seq<Glyph>)
    requires glyphs != []
    ensures var g := glyphs[0];
            Fold(GlyphStep(lib, first), acc, glyphs)
            == if SoundGlyph(lib, first, g) && g.rendererInput !in acc.seen
               then Fold(GlyphStep(lib, first), Restoring(acc.seen + {g.rendererInput}, acc.glyphs + [g]), glyphs[1..])
               else Err(InvalidSnapshot)
  {
    OneGlyph(lib, first, acc, glyphs[0]);
    hide RestoreGlyph, SoundGlyph;
  }

  lemma {:induction false} GlyphFold(lib: Library, first: seq<Token>, acc: Restoring, glyphs: seq<Glyph>)
    ensures Fold(GlyphStep(lib, first), acc, glyphs)
         == if GlyphsFit(lib, first, acc.seen, glyphs)
            then Ok(Restoring(acc.seen + Inputs(glyphs), acc.glyphs + glyphs)) else Err(InvalidSnapshot)
    decreases |glyphs|
  {
    if glyphs == [] {
      assert acc.seen + Inputs(glyphs) == acc.seen && acc.glyphs + glyphs == acc.glyphs;
      hide GlyphStep;
    } else {
      hide Fold, GlyphStep, SoundGlyph, GlyphsFit, Inputs;
      var g := glyphs[0];
      var next := Restoring(acc.seen + {g.rendererInput}, acc.glyphs + [g]);
      FoldOne(lib, first, acc, glyphs);
      FitsFirst(lib, first, acc.seen, glyphs);
      GlyphFold(lib, first, next, glyphs[1..]);
      assert acc.seen + ({g.rendererInput} + Inputs(glyphs[1..])) == next.seen + Inputs(glyphs[1..]);
      assert acc.glyphs + glyphs == next.glyphs + glyphs[1..];
    }
  }

  // ----- as many distinct glyphs as words means every word -----

  function TokenInputs(tokens: seq<Token>): set<string> {
    set i | 0 <= i < |tokens| :: tokens[i].rendererInput
  }

  lemma {:induction false} GlyphCount(glyphs: seq<Glyph>)
    requires DistinctGlyphs(glyphs)
    ensures |Inputs(glyphs)| == |glyphs|
    decreases |glyphs|
  {
    if glyphs == [] {
      assert Inputs(glyphs) == {};
    } else {
      assert forall i :: 0 <= i < |glyphs[1..]| ==> glyphs[1..][i] == glyphs[i + 1];
      GlyphCount(glyphs[1..]);
      assert glyphs[0].rendererInput !in Inputs(glyphs[1..]);
      assert Inputs(glyphs) == {glyphs[0].rendererInput} + Inputs(glyphs[1..]) by {
        assert forall i :: 0 < i < |glyphs| ==> glyphs[i] == glyphs[1..][i - 1];
      }
    }
  }

  lemma {:induction false} TokenCount(tokens: seq<Token>)
    requires DistinctInputs(tokens)
    ensures |TokenInputs(tokens)| == |tokens|
    decreases |tokens|
  {
    if tokens == [] {
      assert TokenInputs(tokens) == {};
    } else {
      assert forall i :: 0 <= i < |tokens[1..]| ==> tokens[1..][i] == tokens[i + 1];
      TokenCount(tokens[1..]);
      assert tokens[0].rendererInput !in TokenInputs(tokens[1..]);
      assert TokenInputs(tokens) == {tokens[0].rendererInput} + TokenInputs(tokens[1..]) by {
        assert forall i :: 0 < i < |tokens| ==> tokens[i] == tokens[1..][i - 1];
      }
    }
  }

  lemma FullSubset(a: set<string>, b: set<string>)
    requires a <= b && |a| == |b|
    ensures a == b
  {
    if exists x :: x in b && x !in a {
      var x :| x in b && x !in a;
      SubsetSize(a, b - {x});
    }
  }

  /** Distinct glyphs that all belong to the words, and as many as there are words, leave no word without a glyph. */
  lemma {:induction false} EveryWordHasItsGlyph(lib: Library, first: seq<Token>, glyphs: seq<Glyph>)
    requires DistinctInputs(first) && GlyphsFit(lib, first, {}, glyphs) && |glyphs| == |first|
    ensures Inputs(glyphs) == TokenInputs(first)
    ensures forall t :: t in first ==> t.rendererInput in Inputs(glyphs)
  {
    GlyphCount(glyphs);
    TokenCount(first);
    assert Inputs(glyphs) <= TokenInputs(first) by {
      hide ValidDrawing, ShapeDescriptor, IsHash;
    }
    FullSubset(Inputs(glyphs), TokenInputs(first));
    hide SoundGlyph, FindToken;
  }

  // ----- what is accepted -----

  ghost predicate SoundText(c: Compiled) {
    && !c.schema.UnknownSchema? && IsId(c.id)
    && GR0K_MIN <= c.gr0kRaw <= GR0K_MAX && c.gr0kScale == GR0K_SCALE
    && IsCanonical(c.displayText) && IsVersion(c.rendererVersion)
    && TokensOf(c.displayText).Ok? && c.tokens == ExpectedTokens(c.schema, TokensOf(c.displayText).value)
  }

  ghost predicate SoundGlyphs(lib: Library, tokens: seq<Token>, glyphs: seq<Glyph>) {
    GlyphsFit(lib, FirstTokens(tokens), {}, glyphs) && |glyphs| == |FirstTokens(tokens)|
  }

  ghost predicate SoundLocks(glyphs: seq<Glyph>, proposed: map<string, string>, verified: map<string, string>) {
    ValidLock(proposed) && ValidLock(verified) && ExactLock(glyphs, proposed) && ExactLock(glyphs, verified)
  }

  /** The stored composition agrees with itself in every part. */
  ghost predicate Sound(lib: Library, c: Compiled) {
    SoundText(c) && SoundGlyphs(lib, c.tokens, c.glyphs) && SoundLocks(c.glyphs, c.proposed, c.verified)
  }

  /** Two exact locks of the same glyphs are the same lock. */
  lemma ExactLocksAgree(glyphs: seq<Glyph>, a: map<string, string>, b: map<string, string>)
    requires ExactLock(glyphs, a) && ExactLock(glyphs, b)
    ensures a == b
  {}

  lemma TextRestores(lib: Library, c: Compiled)
    requires lib.Valid()
    ensures StoredTokens(lib, c).Ok? <==> SoundText(c)
    ensures StoredTokens(lib, c).Ok? ==> StoredTokens(lib, c).value == c.tokens
    ensures StoredTokens(lib, c).Err? ==> StoredTokens(lib, c).error !in {MissingGlyph, LocksDiffer}
  {
    TextAccepted(lib, c);
    TokenErrors(c.displayText);
    hide CheckedText, TokensOf, IsVersion, IsId, ExpectedTokens, IsCanonical, Library.Valid;
  }

  lemma {:induction false} GlyphsRestore(lib: Library, tokens: seq<Token>, glyphs: seq<Glyph>)
    ensures StoredGlyphs(lib, tokens, glyphs) == if SoundGlyphs(lib, tokens, glyphs) then Ok(glyphs) else Err(InvalidSnapshot)
  {
    var first := FirstTokens(tokens);
    GlyphFold(lib, first, Restoring({}, []), glyphs);
    assert [] + glyphs == glyphs && {} + Inputs(glyphs) == Inputs(glyphs);
    FirstTokensCover(tokens);
    hide Fold, FirstTokens, GlyphsFit, Inputs, DistinctInputs, HasInput;
    if GlyphsFit(lib, first, {}, glyphs) && |glyphs| == |first| {
      EveryWordHasItsGlyph(lib, first, glyphs);
    }
  }

  lemma LocksRestore(glyphs: seq<Glyph>, proposed: map<string, string>, verified: map<string, string>)
    ensures StoredLocks(glyphs, proposed, verified).Ok? <==> SoundLocks(glyphs, proposed, verified)
    ensures StoredLocks(glyphs, proposed, verified).Err? ==> StoredLocks(glyphs, proposed, verified).error !in {MissingGlyph, LocksDiffer}
  {
    hide ShapeLock, ValidLock, ExactLock;
    LockIsExact(glyphs, proposed);
    LockIsExact(glyphs, verified);
    if ExactLock(glyphs, proposed) && ExactLock(glyphs, verified) {
      ExactLocksAgree(glyphs, proposed, verified);
    }
  }

  /**
   A stored composition is restored exactly when it is sound, and then unchanged:
   restoring is a fixed point. The two last defences, a word without its glyph and
   locks that differ, can never be what refuses it.
   */
  lemma {:induction false} RestoringIsAFixedPoint(lib: Library, c: Compiled)
    requires lib.Valid()
    ensures Restored(lib, c).Ok? <==> Sound(lib, c)
    ensures Restored(lib, c).Ok? ==> Restored(lib, c).value == c
    ensures Restored(lib, c) != Err(MissingGlyph) && Restored(lib, c) != Err(LocksDiffer)
  {
    TextRestores(lib, c);
    GlyphsRestore(lib, c.tokens, c.glyphs);
    LocksRestore(c.glyphs, c.proposed, c.verified);
    assert SoundText(c) ==> c.gr0kScale == GR0K_SCALE;
    hide StoredTokens, StoredGlyphs, StoredLocks, SoundText, SoundGlyphs, SoundLocks, Library.Valid;
  }

  /** The checks of id, reading and text, together. */
  lemma TextAccepted(lib: Library, c: Compiled)
    requires lib.Valid()
    ensures CheckedText(lib, c.id, c.displayText, c.gr0kRaw) == Ok(c.displayText)
       <==> IsId(c.id) && GR0K_MIN <= c.gr0kRaw <= GR0K_MAX && IsCanonical(c.displayText)
    ensures CheckedText(lib, c.id, c.displayText, c.gr0kRaw).Err?
            ==> CheckedText(lib, c.id, c.displayText, c.gr0kRaw).error in {InvalidSpec, InvalidGr0k, InvalidWord}
  {
    CanonicalStays(lib.nfc, c.displayText);
    hide IsId, Collapse, TrimStart, TrimEnd, IsPrintable, IsCanonical;
  }

  lemma {:induction false} TokenErrors(text: string)
    ensures TokensOf(text).Err? ==> TokensOf(text).error == InvalidWord
  {
    ScanErrors(text, 0, 0);
    hide Tokens;
  }

  lemma {:induction false} ScanErrors(text: string, from: nat, index: nat)
    requires from <= |text|
    ensures Tokens(text, from, index).Err? ==> Tokens(text, from, index).error == InvalidWord
    decreases |text| - from
  {
    if from < |text| {
      if IsWordChar(text[from]) {
        ScanErrors(text, RunEnd(text, RunEnd(text, from, IsWordChar), IsQuestion), index + 1);
      } else {
        ScanErrors(text, from + 1, index);
      }
    }
    hide ValidInput, RunEnd;
  }
}
