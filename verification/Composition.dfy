/** Compositions of locked signature glyphs: capturing them, checking their lock, and restoring a stored one. */
module Composition {
  import opened Wrappers
  import opened CompositionText

  datatype Cap = ButtCap | RoundCap | SquareCap

  datatype Join = ArcsJoin | BevelJoin | MiterJoin | MiterClipJoin | RoundJoin

  datatype Drawing =
    | Fill(d: string)
    | Stroke(d: string, strokeWidth: string, cap: Cap, join: Join)

  datatype Glyph = Glyph(
    rendererInput: string, firstDisplayWord: string, width: real, height: real,
    svgSha256: string, elementSha256: string, shapeSha256: string, drawing: Drawing)

  datatype Schema = Current | Legacy | UnknownSchema

  /** A compiled composition, or a stored one that has the fields of one. */
  datatype Compiled = Compiled(
    schema: Schema, id: string, displayText: string, rendererVersion: string, rendererApproved: bool,
    gr0kRaw: int, gr0kScale: int, tokens: seq<Token>, glyphs: seq<Glyph>,
    proposed: map<string, string>, verified: map<string, string>)

  /** What the platform provides: Unicode composition, the digest, number spelling, and two tests of renderer text. */
  datatype Library = Library(
    nfc: string -> string, sha256: string -> string, numberText: real -> string,
    isPathData: string -> bool, isPositiveNumber: string -> bool)
  {
    ghost predicate Valid() {
      IsNfc(nfc) && forall s :: IsHash(sha256(s))
    }
  }

  const GR0K_MIN := 1
  const GR0K_MAX := 100
  const GR0K_SCALE := 1
  const MAX_DIMENSION := 9007199254740991.0

  predicate IsHash(s: string) {
    |s| == 64 && forall i :: 0 <= i < 64 ==> 'a' <= s[i] <= 'f' || '0' <= s[i] <= '9'
  }

  predicate IsIdStart(c: char) {
    'a' <= c <= 'z' || '0' <= c <= '9'
  }

  predicate IsId(s: string) {
    1 <= |s| <= 80 && IsIdStart(s[0]) && forall i :: 0 < i < |s| ==> IsIdStart(s[i]) || s[i] == '.' || s[i] == '_' || s[i] == '-'
  }

  predicate IsVersion(s: string) {
    1 <= |s| <= 128 && forall i :: 0 <= i < |s| ==> '!' <= s[i] <= '~'
  }

  function Require(condition: bool, error: CompositionError): Result<bool, CompositionError> {
    if condition then Ok(true) else Err(error)
  }

  /** The source's id, reading and display text are checked in this order; the text comes back normalized. */
  function CheckedText(lib: Library, id: string, displayText: string, gr0kRaw: int): Result<string, CompositionError> {
    var _ :- Require(IsId(id), InvalidSpec);
    var _ :- Require(GR0K_MIN <= gr0kRaw <= GR0K_MAX, InvalidGr0k);
    Normalized(lib.nfc, displayText)
  }

  function SampleHash(): (h: string)
    ensures IsHash(h)
  {
    seq(64, i => 'a')
  }

  /** A library for examples: it spells all numbers alike and digests all texts alike. */
  function SampleLibrary(): Library {
    Library(s => s, s => SampleHash(), x => "1", s => true, s => s == "1")
  }

  // ----- shapes -----

  function CapText(c: Cap): string {
    match c
    case ButtCap => "butt"
    case RoundCap => "round"
    case SquareCap => "square"
  }

  function JoinText(j: Join): string {
    match j
    case ArcsJoin => "arcs"
    case BevelJoin => "bevel"
    case MiterJoin => "miter"
    case MiterClipJoin => "miter-clip"
    case RoundJoin => "round"
  }

  /** The digested description of a shape: its canvas, then the lines of its drawing. */
  function ShapeDescriptor(lib: Library, width: real, height: real, drawing: Drawing): string {
    "shape-v1\ncanvas=" + (lib.numberText(width) + ("x" + (lib.numberText(height) + ("\n" + DrawingLines(drawing)))))
  }

  function DrawingLines(drawing: Drawing): string {
    match drawing
    case Fill(d) => "mode=fill\nd=" + d
    case Stroke(d, strokeWidth, cap, join) =>
      "mode=stroke\nstroke-width=" + (strokeWidth + ("\n" + ("stroke-linecap=" + (CapText(cap)
      + ("\n" + ("stroke-linejoin=" + (JoinText(join) + ("\n" + ("d=" + d)))))))))
  }

  predicate ValidDrawing(lib: Library, drawing: Drawing) {
    lib.isPathData(drawing.d) && (drawing.Stroke? ==> lib.isPositiveNumber(drawing.strokeWidth))
  }

  // ----- capturing -----

  /** What is read off a renderer's output: its viewport, its two digests and its one path. */
  datatype Rendered = Rendered(width: real, height: real, svgSha256: string, elementSha256: string, drawing: Drawing)

  datatype Renderer = Renderer(version: string, approved: bool, render: (string, int) -> Result<Rendered, CompositionError>) {
    /** What the extraction of a rendering guarantees before a glyph is made of it. */
    ghost predicate Valid(lib: Library) {
      && version != ""
      && forall input, gr0k :: render(input, gr0k).Ok? ==>
                                 var r := render(input, gr0k).value;
                                 r.width > 0.0 && r.height > 0.0 && IsHash(r.svgSha256) && IsHash(r.elementSha256) && ValidDrawing(lib, r.drawing)
    }
  }

  /** The first token of every distinct renderer input, in text order. */
  function FirstTokens(tokens: seq<Token>): seq<Token>
    decreases |tokens|
  {
    if tokens == [] then []
    else
      var before, last := FirstTokens(tokens[..|tokens| - 1]), tokens[|tokens| - 1];
      if HasInput(before, last.rendererInput) then before else before + [last]
  }

  predicate HasInput(tokens: seq<Token>, input: string) {
    exists i :: 0 <= i < |tokens| && tokens[i].rendererInput == input
  }

  function CaptureStep(lib: Library, renderer: Renderer, gr0kRaw: int): (seq<Glyph>, Token) -> Result<seq<Glyph>, CompositionError> {
    (acc: seq<Glyph>, token: Token) => AddGlyph(lib, renderer, gr0kRaw, acc, token)
  }

  function AddGlyph(lib: Library, renderer: Renderer, gr0kRaw: int, acc: seq<Glyph>, token: Token): Result<seq<Glyph>, CompositionError> {
    var g :- CaptureOne(lib, renderer, gr0kRaw, token);
    Ok(acc + [g])
  }

  function CaptureOne(lib: Library, renderer: Renderer, gr0kRaw: int, token: Token): Result<Glyph, CompositionError> {
    var r :- renderer.render(token.rendererInput, gr0kRaw);
    Ok(Glyph(token.rendererInput, token.displayWord, r.width, r.height, r.svgSha256, r.elementSha256,
             lib.sha256(ShapeDescriptor(lib, r.width, r.height, r.drawing)), r.drawing))
  }

  /** The lock proposed by the glyphs: each input with its shape's digest. */
  function LockOf(glyphs: seq<Glyph>): map<string, string>
    decreases |glyphs|
  {
    if glyphs == [] then map[]
    else LockOf(glyphs[..|glyphs| - 1])[glyphs[|glyphs| - 1].rendererInput := glyphs[|glyphs| - 1].shapeSha256]
  }

  /** Everything of a composition but its verified lock. */
  function Captured(lib: Library, renderer: Renderer, id: string, displayText: string, gr0kRaw: int): Result<Compiled, CompositionError> {
    var text :- CheckedText(lib, id, displayText, gr0kRaw);
    var tokens :- TokensOf(text);
    var glyphs :- Fold(CaptureStep(lib, renderer, gr0kRaw), [], FirstTokens(tokens));
    Ok(Compiled(Current, id, text, renderer.version, renderer.approved, gr0kRaw, GR0K_SCALE, tokens, glyphs, LockOf(glyphs), map[]))
  }

  method CaptureSignatureComposition(lib: Library, renderer: Renderer, id: string, displayText: string, gr0kRaw: int)
    returns (r: Result<Compiled, CompositionError>)
    ensures r == Captured(lib, renderer, id, displayText, gr0kRaw)
  {
    var text :- CheckedText(lib, id, displayText, gr0kRaw);
    var tokens := TokenizeSignatureWords(text);
    if tokens.Err? {
      return Err(tokens.error);
    }
    var firstTokens := CollectFirstTokens(tokens.value);
    var glyphs: seq<Glyph> := [];
    ghost var step := CaptureStep(lib, renderer, gr0kRaw);
    for i := 0 to |firstTokens|
      invariant Fold(step, glyphs, firstTokens[i..]) == Fold(step, [], firstTokens)
    {
      FoldUnfolds(step, glyphs, firstTokens, i);
      var next := AddGlyph(lib, renderer, gr0kRaw, glyphs, firstTokens[i]);
      if next.Err? {
        return Err(next.error);
      }
      glyphs := next.value;
    }
    var proposed: map<string, string> := map[];
    for i := 0 to |glyphs|
      invariant proposed == LockOf(glyphs[..i])
    {
      proposed := proposed[glyphs[i].rendererInput := glyphs[i].shapeSha256];
      assert glyphs[..i + 1][..i] == glyphs[..i];
    }
    assert glyphs[..|glyphs|] == glyphs;
    return Ok(Compiled(Current, id, text, renderer.version, renderer.approved, gr0kRaw, GR0K_SCALE, tokens.value, glyphs, proposed, map[]));
  }

  method CollectFirstTokens(tokens: seq<Token>) returns (first: seq<Token>)
    ensures first == FirstTokens(tokens)
  {
    first := [];
    for i := 0 to |tokens|
      invariant first == FirstTokens(tokens[..i])
    {
      assert tokens[..i + 1][..i] == tokens[..i];
      if !HasInput(first, tokens[i].rendererInput) {
        first := first + [tokens[i]];
      }
    }
    assert tokens[..|tokens|] == tokens;
  }

  // ----- the lock -----

  function LockStep(lock: map<string, string>): (bool, Glyph) -> Result<bool, CompositionError> {
    (acc: bool, g: Glyph) => CheckGlyphLock(lock, acc, g)
  }

  function CheckGlyphLock(lock: map<string, string>, acc: bool, g: Glyph): Result<bool, CompositionError> {
    var _ :- Require(g.rendererInput in lock, LockMissing);
    var _ :- Require(IsHash(lock[g.rendererInput]) && lock[g.rendererInput] == g.shapeSha256, LockMismatch);
    Ok(acc)
  }

  predicate HasGlyph(glyphs: seq<Glyph>, input: string) {
    exists i :: 0 <= i < |glyphs| && glyphs[i].rendererInput == input
  }

  function ShapeLock(glyphs: seq<Glyph>, lock: map<string, string>): Result<bool, CompositionError> {
    var _ :- Fold(LockStep(lock), true, glyphs);
    Require(forall input :: input in lock ==> HasGlyph(glyphs, input), LockStale)
  }

  method AssertSignatureShapeLock(glyphs: seq<Glyph>, lock: map<string, string>) returns (r: Result<bool, CompositionError>)
    ensures r == ShapeLock(glyphs, lock)
  {
    for i := 0 to |glyphs|
      invariant Fold(LockStep(lock), true, glyphs[i..]) == Fold(LockStep(lock), true, glyphs)
    {
      FoldUnfolds(LockStep(lock), true, glyphs, i);
      var checked := CheckGlyphLock(lock, true, glyphs[i]);
      if checked.Err? {
        return Err(checked.error);
      }
    }
    return Require(forall input :: input in lock ==> HasGlyph(glyphs, input), LockStale);
  }

  /** Captures, then fails unless the reviewed lock is exact. */
  function Compile(lib: Library, renderer: Renderer, id: string, displayText: string, gr0kRaw: int, lock: map<string, string>): Result<Compiled, CompositionError> {
    var capture :- Captured(lib, renderer, id, displayText, gr0kRaw);
    var _ :- ShapeLock(capture.glyphs, lock);
    Ok(capture.(verified := lock))
  }

  // ----- restoring -----

  function Lower(c: char): char {
    if 'A' <= c <= 'Z' then (c as int + 32) as char else c
  }

  function LowerCase(s: string): string {
    seq(|s|, i requires 0 <= i < |s| => Lower(s[i]))
  }

  /** A token as a stored composition of this schema has it: the older one folded the case of renderer inputs. */
  function Expected(schema: Schema, t: Token): Token {
    if schema == Legacy then t.(rendererInput := LowerCase(t.rendererInput)) else t
  }

  function ExpectedTokens(schema: Schema, tokens: seq<Token>): seq<Token> {
    seq(|tokens|, i requires 0 <= i < |tokens| => Expected(schema, tokens[i]))
  }

  function FindToken(tokens: seq<Token>, input: string): (r: Option<Token>)
    ensures r.Some? <==> HasInput(tokens, input)
    ensures r.Some? ==> r.value.rendererInput == input && r.value in tokens
    decreases |tokens|
  {
    if tokens == [] then None
    else if tokens[0].rendererInput == input then Some(tokens[0])
    else
      assert forall i :: 0 <= i < |tokens[1..]| ==> tokens[1..][i] == tokens[i + 1];
      FindToken(tokens[1..], input)
  }

  /** The inputs seen so far, and the glyphs rebuilt so far. */
  datatype Restoring = Restoring(seen: set<string>, glyphs: seq<Glyph>)

  function GlyphStep(lib: Library, first: seq<Token>): (Restoring, Glyph) -> Result<Restoring, CompositionError> {
    (acc: Restoring, g: Glyph) => RestoreGlyph(lib, first, acc, g)
  }

  function RestoreGlyph(lib: Library, first: seq<Token>, acc: Restoring, g: Glyph): Result<Restoring, CompositionError> {
    var token := FindToken(first, g.rendererInput);
    var _ :- Require(token.Some? && g.rendererInput !in acc.seen, InvalidSnapshot);
    var _ :- Require(g.firstDisplayWord == token.value.displayWord, InvalidSnapshot);
    var _ :- Require(0.0 < g.width <= MAX_DIMENSION && 0.0 < g.height <= MAX_DIMENSION, InvalidSnapshot);
    var _ :- Require(ValidDrawing(lib, g.drawing), InvalidSnapshot);
    var _ :- Require(IsHash(g.shapeSha256) && g.shapeSha256 == lib.sha256(ShapeDescriptor(lib, g.width, g.height, g.drawing)), InvalidSnapshot);
    var _ :- Require(IsHash(g.svgSha256) && IsHash(g.elementSha256), InvalidSnapshot);
    Ok(Restoring(acc.seen + {g.rendererInput}, acc.glyphs + [g.(firstDisplayWord := token.value.displayWord)]))
  }

  predicate ValidLock(lock: map<string, string>) {
    forall input :: input in lock ==> ValidInput(input) && IsHash(lock[input])
  }

  /** Header, text and tokens: the tokens are those of the text itself. */
  function StoredTokens(lib: Library, c: Compiled): Result<seq<Token>, CompositionError> {
    var _ :- Require(!c.schema.UnknownSchema?, InvalidSnapshot);
    var _ :- Require(GR0K_MIN <= c.gr0kRaw <= GR0K_MAX, InvalidSnapshot);
    var text :- CheckedText(lib, c.id, c.displayText, c.gr0kRaw);
    var _ :- Require(text == c.displayText, InvalidSnapshot);
    var _ :- Require(c.gr0kScale == GR0K_SCALE, InvalidSnapshot);
    var _ :- Require(IsVersion(c.rendererVersion), InvalidSnapshot);
    var literal :- TokensOf(c.displayText);
    var tokens := ExpectedTokens(c.schema, literal);
    var _ :- Require(c.tokens == tokens, InvalidSnapshot);
    Ok(tokens)
  }

  /** The glyphs: as many as distinct inputs, each checked, and finally none missing. */
  function StoredGlyphs(lib: Library, tokens: seq<Token>, glyphs: seq<Glyph>): Result<seq<Glyph>, CompositionError> {
    var first := FirstTokens(tokens);
    var _ :- Require(|glyphs| == |first|, InvalidSnapshot);
    var restoring :- Fold(GlyphStep(lib, first), Restoring({}, []), glyphs);
    var _ :- Require(forall t :: t in first ==> t.rendererInput in restoring.seen, MissingGlyph);
    Ok(restoring.glyphs)
  }

  /** Both locks: well formed, exact, and finally equal. */
  function StoredLocks(glyphs: seq<Glyph>, proposed: map<string, string>, verified: map<string, string>): Result<bool, CompositionError> {
    var _ :- Require(ValidLock(proposed), InvalidSnapshot);
    var _ :- Require(ValidLock(verified), InvalidSnapshot);
    var _ :- ShapeLock(glyphs, proposed);
    var _ :- ShapeLock(glyphs, verified);
    Require(forall input :: input in proposed ==> input in verified && proposed[input] == verified[input], LocksDiffer)
  }

  function Restored(lib: Library, c: Compiled): Result<Compiled, CompositionError> {
    var tokens :- StoredTokens(lib, c);
    var glyphs :- StoredGlyphs(lib, tokens, c.glyphs);
    var _ :- StoredLocks(glyphs, c.proposed, c.verified);
    Ok(Compiled(c.schema, c.id, c.displayText, c.rendererVersion, c.rendererApproved, c.gr0kRaw, GR0K_SCALE,
                tokens, glyphs, c.proposed, c.verified))
  }

  method RestoreSignatureCompositionSnapshot(lib: Library, c: Compiled) returns (r: Result<Compiled, CompositionError>)
    ensures r == Restored(lib, c)
  {
    hide Fold, ShapeLock, ValidLock, CheckedText, TokensOf, IsVersion, FirstTokens, ExpectedTokens;
    var _ :- Require(!c.schema.UnknownSchema?, InvalidSnapshot);
    var _ :- Require(GR0K_MIN <= c.gr0kRaw <= GR0K_MAX, InvalidSnapshot);
    var text :- CheckedText(lib, c.id, c.displayText, c.gr0kRaw);
    var _ :- Require(text == c.displayText, InvalidSnapshot);
    var _ :- Require(c.gr0kScale == GR0K_SCALE, InvalidSnapshot);
    var _ :- Require(IsVersion(c.rendererVersion), InvalidSnapshot);
    var literal :- TokenizeSignatureWords(c.displayText);
    var tokens := ExpectedTokens(c.schema, literal);
    if c.tokens != tokens {
      return Err(InvalidSnapshot);
    }
    var first := CollectFirstTokens(tokens);
    if |c.glyphs| != |first| {
      return Err(InvalidSnapshot);
    }
    var restoring :- RestoreGlyphs(lib, first, c.glyphs);
    for i := 0 to |first|
      invariant forall j :: 0 <= j < i ==> first[j].rendererInput in restoring.seen
    {
      if first[i].rendererInput !in restoring.seen {
        assert first[i] in first;
        return Err(MissingGlyph);
      }
    }
    var _ :- Require(ValidLock(c.proposed), InvalidSnapshot);
    var _ :- Require(ValidLock(c.verified), InvalidSnapshot);
    var _ :- AssertSignatureShapeLock(restoring.glyphs, c.proposed);
    var _ :- AssertSignatureShapeLock(restoring.glyphs, c.verified);
    var _ :- Require(forall input :: input in c.proposed ==> input in c.verified && c.proposed[input] == c.verified[input], LocksDiffer);
    return Ok(Compiled(c.schema, c.id, c.displayText, c.rendererVersion, c.rendererApproved, c.gr0kRaw, GR0K_SCALE,
                       tokens, restoring.glyphs, c.proposed, c.verified));
  }

  method RestoreGlyphs(lib: Library, first: seq<Token>, glyphs: seq<Glyph>) returns (r: Result<Restoring, CompositionError>)
    ensures r == Fold(GlyphStep(lib, first), Restoring({}, []), glyphs)
  {
    var restoring := Restoring({}, []);
    ghost var step := GlyphStep(lib, first);
    for i := 0 to |glyphs|
      invariant Fold(step, restoring, glyphs[i..]) == Fold(step, Restoring({}, []), glyphs)
    {
      FoldUnfolds(step, restoring, glyphs, i);
      var next := RestoreGlyph(lib, first, restoring, glyphs[i]);
      if next.Err? {
        return Err(next.error);
      }
      restoring := next.value;
    }
    return Ok(restoring);
  }
}
