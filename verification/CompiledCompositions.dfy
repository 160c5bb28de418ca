/** A compiled composition survives being stored, and every presentation of it finds its glyphs. */
module CompiledCompositions {
  import opened Wrappers
  import opened CompositionText
  import opened Composition
  import opened CompositionGuarantees

  // ----- captured glyphs -----

  /** The glyphs are what the renderer gave for the tokens, one by one. */
  ghost predicate GlyphsOf(lib: Library, renderer: Renderer, gr0kRaw: int, tokens: seq<Token>, glyphs: seq<Glyph>) {
    |glyphs| == |tokens| && forall i :: 0 <= i < |tokens| ==> CaptureOne(lib, renderer, gr0kRaw, tokens[i]) == Ok(glyphs[i])
  }

  lemma {:induction false} CaptureFold(lib: Library, renderer: Renderer, gr0kRaw: int, acc: seq<Glyph>, tokens: seq<Token>) returns (made: seq<Glyph>)
    requires Fold(CaptureStep(lib, renderer, gr0kRaw), acc, tokens).Ok?
    ensures Fold(CaptureStep(lib, renderer, gr0kRaw), acc, tokens).value == acc + made
    ensures GlyphsOf(lib, renderer, gr0kRaw, tokens, made)
    decreases |tokens|
  {
    if tokens == [] {
      made := [];
      assert acc + made == acc;
    } else {
      CaptureUnfolds(lib, renderer, gr0kRaw, acc, tokens);
      hide Fold, CaptureStep, CaptureOne;
      var g := CaptureOne(lib, renderer, gr0kRaw, tokens[0]).value;
      var rest := CaptureFold(lib, renderer, gr0kRaw, acc + [g], tokens[1..]);
      made := [g] + rest;
      Regroup(acc, [g], rest);
      GlyphsPrepend(lib, renderer, gr0kRaw, tokens, g, rest);
      hide GlyphsOf;
    }
  }

  lemma GlyphsPrepend(lib: Library, renderer: Renderer, gr0kRaw: int, tokens: seq<Token>, g: Glyph, rest: seq<Glyph>)
    requires tokens != [] && CaptureOne(lib, renderer, gr0kRaw, tokens[0]) == Ok(g) && GlyphsOf(lib, renderer, gr0kRaw, tokens[1..], rest)
    ensures GlyphsOf(lib, renderer, gr0kRaw, tokens, [g] + rest)
  {}

  lemma CaptureUnfolds(lib: Library, renderer: Renderer, gr0kRaw: int, acc: seq<Glyph>, tokens: seq<Token>)
    requires tokens != [] && Fold(CaptureStep(lib, renderer, gr0kRaw), acc, tokens).Ok?
    ensures CaptureOne(lib, renderer, gr0kRaw, tokens[0]).Ok?
    ensures Fold(CaptureStep(lib, renderer, gr0kRaw), acc, tokens)
         == Fold(CaptureStep(lib, renderer, gr0kRaw), acc + [CaptureOne(lib, renderer, gr0kRaw, tokens[0]).value], tokens[1..])
  {}

  predicate SafeDimensions(glyphs: seq<Glyph>) {
    forall i :: 0 <= i < |glyphs| ==> glyphs[i].width <= MAX_DIMENSION && glyphs[i].height <= MAX_DIMENSION
  }

  /** A captured glyph is sound exactly when its dimensions are safe. */
  lemma CapturedIsSound(lib: Library, renderer: Renderer, gr0kRaw: int, first: seq<Token>, i: nat, g: Glyph)
    requires lib.Valid() && renderer.Valid(lib) && DistinctInputs(first) && i < |first| && CaptureOne(lib, renderer, gr0kRaw, first[i]) == Ok(g)
    ensures SoundGlyph(lib, first, g) <==> g.width <= MAX_DIMENSION && g.height <= MAX_DIMENSION
    ensures g.rendererInput == first[i].rendererInput && IsHash(g.shapeSha256)
  {}

  lemma CapturedFit(lib: Library, renderer: Renderer, gr0kRaw: int, first: seq<Token>, glyphs: seq<Glyph>)
    requires lib.Valid() && renderer.Valid(lib) && DistinctInputs(first) && GlyphsOf(lib, renderer, gr0kRaw, first, glyphs)
    ensures GlyphsFit(lib, first, {}, glyphs) <==> SafeDimensions(glyphs)
    ensures DistinctGlyphs(glyphs)
    ensures forall i :: 0 <= i < |glyphs| ==> IsHash(glyphs[i].shapeSha256) && glyphs[i].rendererInput == first[i].rendererInput
  {
    forall i: nat | i < |glyphs|
      ensures SoundGlyph(lib, first, glyphs[i]) <==> glyphs[i].width <= MAX_DIMENSION && glyphs[i].height <= MAX_DIMENSION
      ensures IsHash(glyphs[i].shapeSha256) && glyphs[i].rendererInput == first[i].rendererInput
    {
      CapturedIsSound(lib, renderer, gr0kRaw, first, i, glyphs[i]);
    }
    hide SoundGlyph, CaptureOne, IsHash, Library.Valid, Renderer.Valid;
  }

  // ----- locks of captured glyphs -----

  lemma {:induction false} LockOfIsExact(glyphs: seq<Glyph>)
    requires DistinctGlyphs(glyphs) && forall i :: 0 <= i < |glyphs| ==> IsHash(glyphs[i].shapeSha256)
    ensures ExactLock(glyphs, LockOf(glyphs))
    decreases |glyphs|
  {
    if glyphs != [] {
      var n := |glyphs| - 1;
      var before, lock := LockOf(glyphs[..n]), LockOf(glyphs);
      LockOfIsExact(glyphs[..n]);
      forall i | 0 <= i < |glyphs|
        ensures LockedAs(lock, glyphs[i])
      {
        if i < n {
          assert LockedAs(before, glyphs[..n][i]);
        }
      }
      forall input | input in lock
        ensures HasGlyph(glyphs, input)
      {
        if input in before {
          var i :| 0 <= i < n && glyphs[..n][i].rendererInput == input;
          assert glyphs[i].rendererInput == input;
        } else {
          assert glyphs[n].rendererInput == input;
        }
      }
    }
    hide IsHash;
  }

  lemma ExactLockIsValid(glyphs: seq<Glyph>, lock: map<string, string>)
    requires ExactLock(glyphs, lock) && forall i :: 0 <= i < |glyphs| ==> ValidInput(glyphs[i].rendererInput)
    ensures ValidLock(lock)
  {}

  // ----- compiled, stored, restored -----

  lemma ExpectedCurrent(tokens: seq<Token>)
    ensures ExpectedTokens(Current, tokens) == tokens
  {}

  /** The parts of a captured composition. */
  lemma {:induction false} CapturedParts(lib: Library, renderer: Renderer, id: string, displayText: string, gr0kRaw: int)
    requires Captured(lib, renderer, id, displayText, gr0kRaw).Ok?
    ensures var c := Captured(lib, renderer, id, displayText, gr0kRaw).value;
            && TokensOf(c.displayText) == Ok(c.tokens)
            && c.schema == Current && IsId(c.id) && GR0K_MIN <= c.gr0kRaw <= GR0K_MAX && c.gr0kScale == GR0K_SCALE
            && IsCanonical(c.displayText) && c.rendererVersion == renderer.version
            && GlyphsOf(lib, renderer, gr0kRaw, FirstTokens(c.tokens), c.glyphs)
            && c.proposed == LockOf(c.glyphs)
  {
    hide Fold, TokensOf, Normalized, IsCanonical, FirstTokens, GlyphsOf, IsId, LockOf, CaptureStep;
    var c := Captured(lib, renderer, id, displayText, gr0kRaw).value;
    NormalizedIsCanonical(lib.nfc, displayText);
    var made := CaptureFold(lib, renderer, gr0kRaw, [], FirstTokens(c.tokens));
    assert [] + made == made;
  }

  lemma {:induction false} CompiledParts(lib: Library, renderer: Renderer, id: string, displayText: string, gr0kRaw: int, lock: map<string, string>)
    requires Compile(lib, renderer, id, displayText, gr0kRaw, lock).Ok?
    ensures var c := Compile(lib, renderer, id, displayText, gr0kRaw, lock).value;
            && TokensOf(c.displayText) == Ok(c.tokens)
            && (SoundText(c) <==> IsVersion(renderer.version))
            && GlyphsOf(lib, renderer, gr0kRaw, FirstTokens(c.tokens), c.glyphs)
            && c.proposed == LockOf(c.glyphs) && c.verified == lock && ExactLock(c.glyphs, lock)
  {
    hide Captured, ShapeLock, TokensOf, IsCanonical, FirstTokens, ExpectedTokens, GlyphsOf, ExactLock, IsId, IsVersion, LockOf;
    var c := Compile(lib, renderer, id, displayText, gr0kRaw, lock).value;
    CapturedParts(lib, renderer, id, displayText, gr0kRaw);
    ExpectedCurrent(c.tokens);
    LockIsExact(c.glyphs, lock);
  }

  /** The renderer inputs of accepted text are valid. */
  lemma TokensAreValid(text: string)
    requires TokensOf(text).Ok?
    ensures forall t :: t in TokensOf(text).value ==> ValidInput(t.rendererInput)
  {
    TokensPartition(text, 0, 0);
    hide Tokens, ValidInput, Covered;
  }

  /**
   A compiled composition, stored as it is, restores unchanged exactly when its
   renderer's version is printable and every glyph's dimensions are safe integers' size.
   */
  lemma {:induction false} CompiledRestores(lib: Library, renderer: Renderer, id: string, displayText: string, gr0kRaw: int, lock: map<string, string>)
    requires lib.Valid() && renderer.Valid(lib) && Compile(lib, renderer, id, displayText, gr0kRaw, lock).Ok?
    ensures var c := Compile(lib, renderer, id, displayText, gr0kRaw, lock).value;
            Restored(lib, c) == Ok(c) <==> IsVersion(renderer.version) && SafeDimensions(c.glyphs)
  {
    var c := Compile(lib, renderer, id, displayText, gr0kRaw, lock).value;
    CompiledParts(lib, renderer, id, displayText, gr0kRaw, lock);
    hide Compile, Restored, SoundText, TokensOf, FirstTokens, GlyphsOf, ExactLock, LockOf, Library.Valid, Renderer.Valid, IsVersion, SafeDimensions, IsHash, ValidInput, ValidLock, GlyphsFit, DistinctGlyphs;
    var first := FirstTokens(c.tokens);
    FirstTokensCover(c.tokens);
    CapturedFit(lib, renderer, gr0kRaw, first, c.glyphs);
    LockOfIsExact(c.glyphs);
    TokensAreValid(c.displayText);
    GlyphInputsAreValid(lib, renderer, gr0kRaw, c.tokens, c.glyphs);
    ExactLockIsValid(c.glyphs, c.proposed);
    ExactLockIsValid(c.glyphs, c.verified);
    GlyphCounts(lib, renderer, gr0kRaw, first, c.glyphs);
    RestoringIsAFixedPoint(lib, c);
  }

  // ----- two compositions that are lost -----

  /** A renderer that draws every word as one point on a square canvas. */
  function SampleRenderer(version: string, size: real): Renderer {
    Renderer(version, true, (input, gr0k) => Ok(Rendered(size, size, SampleHash(), SampleHash(), Fill("M0,0"))))
  }

  lemma LetterTokens()
    ensures TokensOf("a") == Ok([Token(0, "a", "a", 0, 1)])
  {
    var first := Token(0, "a", "a", 0, 1);
    ScanStep("a", 0, []);
    PrefixedEnds([], "a");
    PrefixedEnds([first], "a");
    assert RunEnd("a", 0, IsWordChar) == 1 && RunEnd("a", 1, IsQuestion) == 1 && "a"[0..1] == "a";
    assert ValidInput("a");
    assert [] + [first] == [first];
    hide RunEnd, ValidInput, Tokens, Prefixed;
  }

  function LetterGlyph(size: real): Glyph {
    Glyph("a", "a", size, size, SampleHash(), SampleHash(), SampleHash(), Fill("M0,0"))
  }

  lemma SampleIsValid(version: string, size: real)
    requires version != "" && size > 0.0
    ensures SampleLibrary().Valid() && SampleRenderer(version, size).Valid(SampleLibrary())
  {}

  lemma LetterIsCaptured(version: string, size: real, t: Token)
    requires t == Token(0, "a", "a", 0, 1)
    ensures FirstTokens([t]) == [t]
    ensures Fold(CaptureStep(SampleLibrary(), SampleRenderer(version, size), 1), [], [t]) == Ok([LetterGlyph(size)])
  {
    var lib, renderer := SampleLibrary(), SampleRenderer(version, size);
    assert [t][..0] == [] && FirstTokens([]) == [];
    assert CaptureOne(lib, renderer, 1, t) == Ok(LetterGlyph(size));
    assert [t][1..] == [] && [] + [LetterGlyph(size)] == [LetterGlyph(size)];
    hide CaptureOne;
  }

  lemma {:induction false} LetterIsLocked(g: Glyph, lock: map<string, string>)
    requires g.rendererInput == "a" && IsHash(g.shapeSha256) && lock == map["a" := g.shapeSha256]
    ensures LockOf([g]) == lock && ShapeLock([g], lock) == Ok(true)
  {
    assert [g][..0] == [] && LockOf([]) == map[];
    LockIsExact([g], lock);
    assert ExactLock([g], lock) by {
      assert LockedAs(lock, [g][0]);
      assert [g][0].rendererInput == "a";
    }
    hide IsHash, ExactLock;
  }

  lemma {:induction false} LetterCompiles(version: string, size: real) returns (c: Compiled)
    requires version != "" && size > 0.0
    ensures SampleLibrary().Valid() && SampleRenderer(version, size).Valid(SampleLibrary())
    ensures Compile(SampleLibrary(), SampleRenderer(version, size), "a", "a", 1, map["a" := SampleHash()]) == Ok(c)
    ensures c.glyphs == [LetterGlyph(size)]
  {
    var lib, lock, g, t := SampleLibrary(), map["a" := SampleHash()], LetterGlyph(size), Token(0, "a", "a", 0, 1);
    SampleIsValid(version, size);
    CanonicalStays(lib.nfc, "a");
    assert IsCanonical("a") && IsId("a");
    LetterTokens();
    LetterIsCaptured(version, size, t);
    LetterIsLocked(g, lock);
    hide TokensOf, FirstTokens, Fold, LockOf, ShapeLock, Normalized, CaptureStep, IsId, IsHash, Library.Valid, Renderer.Valid;
    c := Compiled(Current, "a", "a", version, true, 1, GR0K_SCALE, [t], [g], lock, lock);
  }

  /** Compiling accepts a version with a blank and a canvas beyond the safe integers; restoring refuses what it made. */
  lemma {:induction false} CompiledIsLost(version: string, size: real) returns (c: Compiled)
    requires (version == "v 1" && size == 1.0) || (version == "v1" && size == MAX_DIMENSION + 1.0)
    ensures Compile(SampleLibrary(), SampleRenderer(version, size), "a", "a", 1, map["a" := SampleHash()]) == Ok(c)
    ensures Restored(SampleLibrary(), c).Err?
  {
    c := LetterCompiles(version, size);
    CompiledRestores(SampleLibrary(), SampleRenderer(version, size), "a", "a", 1, map["a" := SampleHash()]);
    RestoringIsAFixedPoint(SampleLibrary(), c);
    assert version == "v 1" ==> version[1] == ' ' && !IsVersion(version);
    hide Compile, Restored, Sound, SampleLibrary, SampleRenderer;
  }

  lemma GlyphCounts(lib: Library, renderer: Renderer, gr0kRaw: int, first: seq<Token>, glyphs: seq<Glyph>)
    requires GlyphsOf(lib, renderer, gr0kRaw, first, glyphs)
    ensures |glyphs| == |first|
  {}

  lemma GlyphInputsAreValid(lib: Library, renderer: Renderer, gr0kRaw: int, tokens: seq<Token>, glyphs: seq<Glyph>)
    requires GlyphsOf(lib, renderer, gr0kRaw, FirstTokens(tokens), glyphs)
    requires forall t :: t in tokens ==> ValidInput(t.rendererInput)
    ensures forall i :: 0 <= i < |glyphs| ==> ValidInput(glyphs[i].rendererInput)
  {
    FirstTokensCover(tokens);
    forall i | 0 <= i < |glyphs|
      ensures ValidInput(glyphs[i].rendererInput)
    {
      assert CaptureOne(lib, renderer, gr0kRaw, FirstTokens(tokens)[i]) == Ok(glyphs[i]);
      assert FirstTokens(tokens)[i] in tokens;
    }
    hide ValidInput, FirstTokens;
  }

  // ----- presentations -----

  datatype Placement = Placement(tokenIndex: int, x: real, y: real, scale: real)

  datatype Resolved = Resolved(placement: Placement, displayWord: string, rendererInput: string, shapeSha256: string)

  /** Placements by token index; one out of range, repeated or without a positive scale is refused. */
  function PlaceStep(count: nat): (map<int, Placement>, Placement) -> Result<map<int, Placement>, CompositionError> {
    (acc: map<int, Placement>, p: Placement) => Place(count, acc, p)
  }

  function Place(count: nat, acc: map<int, Placement>, p: Placement): Result<map<int, Placement>, CompositionError> {
    var _ :- Require(0 <= p.tokenIndex < count, InvalidPresentation);
    var _ :- Require(p.tokenIndex !in acc, InvalidPresentation);
    var _ :- Require(p.scale > 0.0, InvalidPresentation);
    Ok(acc[p.tokenIndex := p])
  }

  function FindGlyph(glyphs: seq<Glyph>, input: string): (r: Option<Glyph>)
    ensures r.Some? <==> HasGlyph(glyphs, input)
    ensures r.Some? ==> r.value.rendererInput == input && r.value in glyphs
    decreases |glyphs|
  {
    if glyphs == [] then None
    else if glyphs[0].rendererInput == input then Some(glyphs[0])
    else
      assert forall i :: 0 <= i < |glyphs[1..]| ==> glyphs[1..][i] == glyphs[i + 1];
      FindGlyph(glyphs[1..], input)
  }

  function ResolveStep(glyphs: seq<Glyph>, byIndex: map<int, Placement>): (seq<Resolved>, Token) -> Result<seq<Resolved>, CompositionError> {
    (acc: seq<Resolved>, t: Token) => Resolve(glyphs, byIndex, acc, t)
  }

  function Resolve(glyphs: seq<Glyph>, byIndex: map<int, Placement>, acc: seq<Resolved>, t: Token): Result<seq<Resolved>, CompositionError> {
    var glyph := FindGlyph(glyphs, t.rendererInput);
    var _ :- Require(t.tokenIndex in byIndex && glyph.Some?, Unresolved);
    Ok(acc + [Resolved(byIndex[t.tokenIndex], t.displayWord, t.rendererInput, glyph.value.shapeSha256)])
  }

  function Placed(c: Compiled, placements: seq<Placement>): Result<map<int, Placement>, CompositionError> {
    var _ :- Require(|placements| == |c.tokens|, InvalidPresentation);
    Fold(PlaceStep(|c.tokens|), map[], placements)
  }

  method ResolvePlacements(c: Compiled, placements: seq<Placement>) returns (r: Result<seq<Resolved>, CompositionError>)
    ensures r == match Placed(c, placements)
                 case Err(e) => Err(e)
                 case Ok(byIndex) => Fold(ResolveStep(c.glyphs, byIndex), [], c.tokens)
  {
    if |placements| != |c.tokens| {
      return Err(InvalidPresentation);
    }
    var byIndex: map<int, Placement> := map[];
    ghost var place := PlaceStep(|c.tokens|);
    for i := 0 to |placements|
      invariant Fold(place, byIndex, placements[i..]) == Fold(place, map[], placements)
    {
      FoldUnfolds(place, byIndex, placements, i);
      var next := Place(|c.tokens|, byIndex, placements[i]);
      if next.Err? {
        return Err(next.error);
      }
      byIndex := next.value;
    }
    var resolved: seq<Resolved> := [];
    ghost var resolve := ResolveStep(c.glyphs, byIndex);
    for i := 0 to |c.tokens|
      invariant Fold(resolve, resolved, c.tokens[i..]) == Fold(resolve, [], c.tokens)
    {
      FoldUnfolds(resolve, resolved, c.tokens, i);
      var next := Resolve(c.glyphs, byIndex, resolved, c.tokens[i]);
      if next.Err? {
        return Err(next.error);
      }
      resolved := next.value;
    }
    return Ok(resolved);
  }

  /** Every placement names a word that no earlier placement names, and has a positive scale. */
  ghost predicate Fits(count: nat, taken: set<int>, placements: seq<Placement>) {
    && (forall i :: 0 <= i < |placements| ==>
          0 <= placements[i].tokenIndex < count && placements[i].tokenIndex !in taken && placements[i].scale > 0.0)
    && (forall i, j :: 0 <= i < j < |placements| ==> placements[i].tokenIndex != placements[j].tokenIndex)
  }

  lemma FitsFirst(count: nat, taken: set<int>, placements: seq<Placement>)
    requires placements != []
    ensures var p := placements[0];
            Fits(count, taken, placements)
            <==> 0 <= p.tokenIndex < count && p.tokenIndex !in taken && p.scale > 0.0 && Fits(count, taken + {p.tokenIndex}, placements[1..])
  {
    var p, rest := placements[0], placements[1..];
    if 0 <= p.tokenIndex < count && p.tokenIndex !in taken && p.scale > 0.0 && Fits(count, taken + {p.tokenIndex}, rest) {
      assert forall i :: 0 < i < |placements| ==> placements[i] == rest[i - 1];
    }
    if Fits(count, taken, placements) {
      assert forall i :: 0 <= i < |rest| ==> rest[i] == placements[i + 1];
    }
  }

  lemma {:induction false} PlacesWhenFit(count: nat, acc: map<int, Placement>, placements: seq<Placement>)
    ensures var r := Fold(PlaceStep(count), acc, placements);
            (r.Ok? <==> Fits(count, acc.Keys, placements)) && (r.Err? ==> r.error == InvalidPresentation)
    decreases |placements|
  {
    if placements != [] {
      FitsFirst(count, acc.Keys, placements);
      var next := Place(count, acc, placements[0]);
      if next.Ok? {
        assert next.value.Keys == acc.Keys + {placements[0].tokenIndex};
        PlacesWhenFit(count, next.value, placements[1..]);
      }
    }
  }

  /** Placements are accepted exactly when there is one for every word, each word once, all with positive scales. */
  lemma PlacedExactly(c: Compiled, placements: seq<Placement>)
    ensures Placed(c, placements).Ok? <==>
              && |placements| == |c.tokens|
              && (forall i :: 0 <= i < |placements| ==> 0 <= placements[i].tokenIndex < |c.tokens| && placements[i].scale > 0.0)
              && (forall i, j :: 0 <= i < j < |placements| ==> placements[i].tokenIndex != placements[j].tokenIndex)
    ensures Placed(c, placements).Err? ==> Placed(c, placements).error == InvalidPresentation
  {
    hide Fold, PlaceStep;
    PlacesWhenFit(|c.tokens|, map[], placements);
  }

  /** Accepted placements have distinct indices in range, one for each placement. */
  lemma {:induction false} PlacedIndices(count: nat, acc: map<int, Placement>, placements: seq<Placement>)
    requires Fold(PlaceStep(count), acc, placements).Ok?
    requires forall k :: k in acc ==> 0 <= k < count
    ensures var byIndex := Fold(PlaceStep(count), acc, placements).value;
            && |byIndex| == |acc| + |placements|
            && (forall k :: k in byIndex ==> 0 <= k < count)
    decreases |placements|
  {
    if placements != [] {
      var next := Place(count, acc, placements[0]).value;
      assert |next| == |acc| + 1 by {
        assert next.Keys == acc.Keys + {placements[0].tokenIndex};
      }
      hide Place;
      PlacedIndices(count, next, placements[1..]);
    }
  }

  function Indices(n: nat): (r: set<int>)
    ensures forall k :: k in r <==> 0 <= k < n
  {
    if n == 0 then {} else Indices(n - 1) + {n - 1}
  }

  lemma {:induction false} CountIndices(n: nat)
    ensures |Indices(n)| == n
  {
    if n > 0 {
      CountIndices(n - 1);
    }
  }

  lemma FullRange(keys: set<int>, n: nat)
    requires |keys| == n && forall k :: k in keys ==> 0 <= k < n
    ensures forall k :: 0 <= k < n ==> k in keys
  {
    CountIndices(n);
    var all := Indices(n);
    assert keys <= all;
    if exists k :: k in all && k !in keys {
      var k :| k in all && k !in keys;
      SubsetSize(keys, all - {k});
    }
  }

  /** The entry is for this token's word, with the digest of that word's own glyph. */
  ghost predicate Shows(glyphs: seq<Glyph>, t: Token, made: Resolved) {
    && made.displayWord == t.displayWord && made.rendererInput == t.rendererInput
    && exists g :: g in glyphs && g.rendererInput == t.rendererInput && made.shapeSha256 == g.shapeSha256
  }

  lemma OneResolved(glyphs: seq<Glyph>, byIndex: map<int, Placement>, acc: seq<Resolved>, t: Token)
    requires t.tokenIndex in byIndex && HasGlyph(glyphs, t.rendererInput)
    ensures Resolve(glyphs, byIndex, acc, t).Ok?
    ensures var next := Resolve(glyphs, byIndex, acc, t).value;
            |next| == |acc| + 1 && next[..|acc|] == acc && next[|acc|].placement == byIndex[t.tokenIndex] && Shows(glyphs, t, next[|acc|])
  {
    var g := FindGlyph(glyphs, t.rendererInput);
    assert g.value in glyphs;
    hide HasGlyph;
  }

  lemma {:induction false} ResolveFold(glyphs: seq<Glyph>, byIndex: map<int, Placement>, acc: seq<Resolved>, tokens: seq<Token>) returns (made: seq<Resolved>)
    requires forall i :: 0 <= i < |tokens| ==> tokens[i].tokenIndex in byIndex && HasGlyph(glyphs, tokens[i].rendererInput)
    ensures Fold(ResolveStep(glyphs, byIndex), acc, tokens) == Ok(acc + made)
    ensures |made| == |tokens|
    ensures forall i :: 0 <= i < |tokens| ==> made[i].placement == byIndex[tokens[i].tokenIndex] && Shows(glyphs, tokens[i], made[i])
    decreases |tokens|
  {
    if tokens == [] {
      made := [];
      assert acc + made == acc;
    } else {
      OneResolved(glyphs, byIndex, acc, tokens[0]);
      hide Resolve, Shows;
      var next := Resolve(glyphs, byIndex, acc, tokens[0]).value;
      var one := next[|acc|];
      var rest := ResolveFold(glyphs, byIndex, next, tokens[1..]);
      made := [one] + rest;
      assert acc + made == next + rest;
      hide FindGlyph, HasGlyph;
      assert forall i :: 0 < i < |tokens| ==> tokens[i] == tokens[1..][i - 1] && made[i] == rest[i - 1];
    }
  }

  lemma TokenNumbers(text: string)
    requires TokensOf(text).Ok?
    ensures forall i :: 0 <= i < |TokensOf(text).value| ==> TokensOf(text).value[i].tokenIndex == i
  {
    TokensPartition(text, 0, 0);
    hide Tokens, TokenAt, Covered;
  }

  /**
   For a restored composition, placements that pass their checks place every token
   exactly once: no token is ever left without a placement or a locked glyph, and
   the resolved list follows the text.
   */
  lemma {:induction false} EveryTokenIsResolved(lib: Library, c: Compiled, placements: seq<Placement>) returns (made: seq<Resolved>)
    requires lib.Valid() && Restored(lib, c).Ok? && Placed(c, placements).Ok?
    ensures Fold(ResolveStep(c.glyphs, Placed(c, placements).value), [], c.tokens) == Ok(made)
    ensures |made| == |c.tokens|
    ensures forall i :: 0 <= i < |made| ==>
              && made[i].placement.tokenIndex == i && made[i].placement in placements
              && made[i].displayWord == c.tokens[i].displayWord && made[i].rendererInput == c.tokens[i].rendererInput
              && made[i].rendererInput in c.verified && made[i].shapeSha256 == c.verified[made[i].rendererInput]
  {
    hide Restored, Fold, SoundText, SoundGlyphs, SoundLocks, HasGlyph, PlaceStep, ResolveStep;
    var byIndex := Placed(c, placements).value;
    RestoringIsAFixedPoint(lib, c);
    PlacesAll(c, placements);
    NumbersKept(c);
    TokensHaveGlyphs(lib, c);
    made := ResolveFold(c.glyphs, byIndex, [], c.tokens);
    assert [] + made == made;
    forall i | 0 <= i < |made|
      ensures made[i].rendererInput in c.verified && made[i].shapeSha256 == c.verified[made[i].rendererInput]
    {
      assert Shows(c.glyphs, c.tokens[i], made[i]);
      ShownIsLocked(lib, c, c.tokens[i], made[i]);
    }
  }

  lemma ShownIsLocked(lib: Library, c: Compiled, t: Token, made: Resolved)
    requires Sound(lib, c) && Shows(c.glyphs, t, made)
    ensures made.rendererInput in c.verified && made.shapeSha256 == c.verified[made.rendererInput]
  {
    hide SoundText, SoundGlyphs, ValidLock, IsHash;
    var g :| g in c.glyphs && g.rendererInput == t.rendererInput && made.shapeSha256 == g.shapeSha256;
    var i :| 0 <= i < |c.glyphs| && c.glyphs[i] == g;
    assert LockedAs(c.verified, c.glyphs[i]);
  }

  lemma PlacesAll(c: Compiled, placements: seq<Placement>)
    requires Placed(c, placements).Ok?
    ensures var byIndex := Placed(c, placements).value;
            forall k :: 0 <= k < |c.tokens| ==> k in byIndex && byIndex[k].tokenIndex == k && byIndex[k] in placements
  {
    hide Fold, PlaceStep;
    PlacedIndices(|c.tokens|, map[], placements);
    PlacedFrom(|c.tokens|, map[], placements);
    FullRange(Placed(c, placements).value.Keys, |c.tokens|);
  }

  lemma NumbersKept(c: Compiled)
    requires SoundText(c)
    ensures forall i :: 0 <= i < |c.tokens| ==> c.tokens[i].tokenIndex == i
  {
    TokenNumbers(c.displayText);
    hide TokensOf, IsCanonical, IsVersion, IsId;
  }

  lemma {:induction false} PlacedFrom(count: nat, acc: map<int, Placement>, placements: seq<Placement>)
    requires Fold(PlaceStep(count), acc, placements).Ok?
    requires forall k :: k in acc ==> acc[k].tokenIndex == k
    ensures var byIndex := Fold(PlaceStep(count), acc, placements).value;
            forall k :: k in byIndex ==> byIndex[k].tokenIndex == k && (byIndex[k] in placements || (k in acc && acc[k] == byIndex[k]))
    decreases |placements|
  {
    if placements != [] {
      var next := Place(count, acc, placements[0]).value;
      PlacedFrom(count, next, placements[1..]);
      assert placements == [placements[0]] + placements[1..];
    }
  }

  lemma {:induction false} TokensHaveGlyphs(lib: Library, c: Compiled)
    requires Sound(lib, c)
    ensures forall i :: 0 <= i < |c.tokens| ==> HasGlyph(c.glyphs, c.tokens[i].rendererInput)
  {
    var first := FirstTokens(c.tokens);
    FirstTokensCover(c.tokens);
    EveryWordHasItsGlyph(lib, first, c.glyphs);
    hide FirstTokens, GlyphsFit, SoundText, SoundLocks, DistinctInputs;
    forall i | 0 <= i < |c.tokens|
      ensures HasGlyph(c.glyphs, c.tokens[i].rendererInput)
    {
      var input := c.tokens[i].rendererInput;
      var j :| 0 <= j < |first| && first[j].rendererInput == input;
      assert first[j] in first;
      assert input in Inputs(c.glyphs);
    }
  }
}
