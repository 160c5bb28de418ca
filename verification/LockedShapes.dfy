/** What a shape digest locks, what a compiled composition is worth when stored, and how its words are placed. */
module LockedShapes {
  import opened Composition
  import opened CompositionGuarantees

  // ----- the description determines the shape -----

  predicate Lacks(s: string, c: char) {
    forall i :: 0 <= i < |s| ==> s[i] != c
  }

  /** No spelling of a number contains what separates it from what follows. */
  ghost predicate PlainNumbers(lib: Library) {
    && (forall x :: Lacks(lib.numberText(x), 'x') && Lacks(lib.numberText(x), '\n'))
    && (forall s :: lib.isPositiveNumber(s) ==> Lacks(s, '\n'))
  }

  /** A canvas as it is spelled. */
  function CanvasText(lib: Library, width: real, height: real): (string, string) {
    (lib.numberText(width), lib.numberText(height))
  }

  function IndexOf(s: string, c: char): nat
    decreases |s|
  {
    if s == "" || s[0] == c then 0 else 1 + IndexOf(s[1..], c)
  }

  lemma {:induction false} SeparatorAt(a: string, c: char, x: string)
    requires Lacks(a, c)
    ensures IndexOf(a + ([c] + x), c) == |a|
    decreases |a|
  {
    if a != "" {
      SeparatorAt(a[1..], c, x);
      assert (a + ([c] + x))[1..] == a[1..] + ([c] + x);
    } else {
      assert (a + ([c] + x))[0] == c;
    }
  }

  /** Texts that end at the same first separator are equal, and so is what follows. */
  lemma {:induction false} CutFirst(a: string, b: string, c: char, x: string, y: string)
    requires Lacks(a, c) && Lacks(b, c) && a + ([c] + x) == b + ([c] + y)
    ensures a == b && x == y
  {
    var s, t := a + ([c] + x), b + ([c] + y);
    SeparatorAt(a, c, x);
    SeparatorAt(b, c, y);
    assert a == s[..|a|] && b == t[..|b|];
    assert x == s[|a| + 1..] && y == t[|b| + 1..];
  }

  lemma CutPrefix(p: string, x: string, y: string)
    requires p + x == p + y
    ensures x == y
  {
    assert x == (p + x)[|p|..] && y == (p + y)[|p|..];
  }

  lemma KeywordTexts(a: Cap, b: Cap, j: Join, k: Join)
    ensures Lacks(CapText(a), '\n') && Lacks(JoinText(j), '\n')
    ensures CapText(a) == CapText(b) ==> a == b
    ensures JoinText(j) == JoinText(k) ==> j == k
  {}

  lemma {:induction false} LinesDetermine(a: Drawing, b: Drawing)
    requires DrawingLines(a) == DrawingLines(b)
    requires a.Stroke? ==> Lacks(a.strokeWidth, '\n')
    requires b.Stroke? ==> Lacks(b.strokeWidth, '\n')
    ensures a == b
  {
    ModeLetter(a);
    ModeLetter(b);
    if a.Fill? {
      CutPrefix("mode=fill\nd=", a.d, b.d);
    } else {
      StrokesDetermine(a, b);
    }
  }

  lemma ModeLetter(d: Drawing)
    ensures |DrawingLines(d)| > 5 && DrawingLines(d)[5] == if d.Fill? then 'f' else 's'
  {}

  lemma {:induction false} StrokesDetermine(a: Drawing, b: Drawing)
    requires a.Stroke? && b.Stroke? && DrawingLines(a) == DrawingLines(b)
    requires Lacks(a.strokeWidth, '\n') && Lacks(b.strokeWidth, '\n')
    ensures a == b
  {
    KeywordTexts(a.cap, b.cap, a.join, b.join);
    KeywordTexts(b.cap, a.cap, b.join, a.join);
    var joinA, joinB := JoinText(a.join) + ("\n" + ("d=" + a.d)), JoinText(b.join) + ("\n" + ("d=" + b.d));
    var capA, capB := CapText(a.cap) + ("\n" + ("stroke-linejoin=" + joinA)), CapText(b.cap) + ("\n" + ("stroke-linejoin=" + joinB));
    hide Lacks, CapText, JoinText;
    CutPrefix("mode=stroke\nstroke-width=", a.strokeWidth + ("\n" + ("stroke-linecap=" + capA)), b.strokeWidth + ("\n" + ("stroke-linecap=" + capB)));
    CutFirst(a.strokeWidth, b.strokeWidth, '\n', "stroke-linecap=" + capA, "stroke-linecap=" + capB);
    CutPrefix("stroke-linecap=", capA, capB);
    CutFirst(CapText(a.cap), CapText(b.cap), '\n', "stroke-linejoin=" + joinA, "stroke-linejoin=" + joinB);
    CutPrefix("stroke-linejoin=", joinA, joinB);
    CutFirst(JoinText(a.join), JoinText(b.join), '\n', "d=" + a.d, "d=" + b.d);
    CutPrefix("d=", a.d, b.d);
  }

  /** Two descriptions are the same text exactly when the canvases are spelled alike and the drawings are the same. */
  lemma {:induction false} DescriptionDetermines(lib: Library, w: real, h: real, a: Drawing, w': real, h': real, b: Drawing)
    requires PlainNumbers(lib) && ValidDrawing(lib, a) && ValidDrawing(lib, b)
    ensures ShapeDescriptor(lib, w, h, a) == ShapeDescriptor(lib, w', h', b)
       <==> CanvasText(lib, w, h) == CanvasText(lib, w', h') && a == b
  {
    if ShapeDescriptor(lib, w, h, a) == ShapeDescriptor(lib, w', h', b) {
      var restA, restB := lib.numberText(h) + ("\n" + DrawingLines(a)), lib.numberText(h') + ("\n" + DrawingLines(b));
      assert Lacks(lib.numberText(w), 'x') && Lacks(lib.numberText(w'), 'x') && Lacks(lib.numberText(h), '\n') && Lacks(lib.numberText(h'), '\n');
      assert a.Stroke? ==> Lacks(a.strokeWidth, '\n');
      assert b.Stroke? ==> Lacks(b.strokeWidth, '\n');
      hide Lacks, DrawingLines;
      CutPrefix("shape-v1\ncanvas=", lib.numberText(w) + ("x" + restA), lib.numberText(w') + ("x" + restB));
      CutFirst(lib.numberText(w), lib.numberText(w'), 'x', restA, restB);
      CutFirst(lib.numberText(h), lib.numberText(h'), '\n', DrawingLines(a), DrawingLines(b));
      LinesDetermine(a, b);
    }
  }

  function Description(lib: Library, g: Glyph): string {
    ShapeDescriptor(lib, g.width, g.height, g.drawing)
  }

  /** The digest sends these two different texts to one hash. */
  predicate Collides(lib: Library, s: string, t: string) {
    s != t && lib.sha256(s) == lib.sha256(t)
  }

  /**
   Two restored compositions with the same verified lock draw every word they
   share alike, paint mode, path and canvas as spelled, unless the descriptions
   of those two glyphs are a collision of the digest; and never otherwise.
   */
  lemma {:induction false} LockFixesGeometry(lib: Library, c: Compiled, e: Compiled, i: nat, j: nat)
    requires lib.Valid() && PlainNumbers(lib)
    requires Restored(lib, c).Ok? && Restored(lib, e).Ok? && c.verified == e.verified
    requires i < |c.glyphs| && j < |e.glyphs| && c.glyphs[i].rendererInput == e.glyphs[j].rendererInput
    ensures var g, f := c.glyphs[i], e.glyphs[j];
            CanvasText(lib, g.width, g.height) == CanvasText(lib, f.width, f.height) && g.drawing == f.drawing
            <==> !Collides(lib, Description(lib, g), Description(lib, f))
  {
    RestoringIsAFixedPoint(lib, c);
    RestoringIsAFixedPoint(lib, e);
    var g, f := c.glyphs[i], e.glyphs[j];
    assert LockedAs(c.verified, g) && LockedAs(e.verified, f);
    assert SoundGlyph(lib, FirstTokens(c.tokens), g) && SoundGlyph(lib, FirstTokens(e.tokens), f);
    DescriptionDetermines(lib, g.width, g.height, g.drawing, f.width, f.height, f.drawing);
    hide Restored, SoundText, FirstTokens, FindToken, ShapeDescriptor, IsHash, ValidDrawing, ValidLock, PlainNumbers, DistinctGlyphs, HasGlyph, CanvasText;
  }

  /** The hypotheses above can all be met at once. */
  lemma SampleIsPlain()
    ensures SampleLibrary().Valid() && PlainNumbers(SampleLibrary())
  {}
}
