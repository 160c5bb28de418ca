# Signature gallery: a verified model

Signatures are drawn from X handles: a handle becomes weighted anchors with Bézier handles, then a closed
outline of varying width, printed as SVG path text. Around that drawing the repository keeps a claim service,
a gallery, a local mint rehearsal with a single database writer, and a reconciler that follows a local chain.
This project models those parts in Dafny and proves what they are for. Arithmetic is over exact reals and
unbounded integers; object fields, in-place loops and methods keep the form they have in the source, each
proved equal to a specification function whose own properties are then proved.

## What is modelled

- **Ink bounds** (`Cubics`, `PathSyntax`, `PathGrammar`, `InkBounds`, `PathReadings`). The path lexer, the path
  interpreter and the extrema of cubic segments. The box is proved tight without calculus: a third of a cubic's
  derivative is a quadratic `g`, and Simpson's rule `f(y) - f(x) = (y - x)/2 * (g(x) + 4 g((x+y)/2) + g(y))` is exact,
  so a cubic is monotone between two roots of `g`. A grammar and a look-back reading, neither of which mentions lexer
  or interpreter, say what a path text is and what it draws.
- **Printing paths** (`PathPrinting`, `PrintedBounds`, `PrintedOutlines`). Coordinates with two decimals, what the
  lexer and the interpreter make of the printed text, and how far the measured ink can be from the outline's own.
- **Outlines** (`Outline`, `OutlinePaths`, `Centring`, `OffsetGeometry`, `OutlineSides`). Offsets, joints, the cubic
  through four points, the two path builders, and the two centring passes; and where, seen from the curve, the drawn
  outline lies.
- **Layout and signatures** (`Layout`, `WeightedLayout`, `Geometry`, `Signatures`, `FormalSignatures`, `FixedLayout`,
  `PlacedPoints`, `SignatureValues`, `FormalValues`). One walk along the characters serves releases 2.0 and 1.0, which
  differ in weights and points, and the older layout with fixed digit widths. Releases are records that satisfy
  `ValidRelease`; both are proved to do so. `PlacedPoints` accounts for every point, and
  `SignatureValues` and `FormalValues` for every hashed number.
- **From handle to measured ink** (`OutlineExtent`, `PlacedExtent`, `PrintedSignatures`). Bounds on every coordinate,
  from the hashed values through both centring passes to the emitted controls, so that what is proved about printed
  paths holds for every handle, and for every text that an ECMAScript string can hold.
- **Hash payloads** (`CanonicalJson`, `JsonParsing`, `JsonEquality`, `KeyOrder`, `HashScopes`, `HashValues`).
  Canonical JSON over UTF-16 code units, a parser that undoes it, the texts that are hashed, and when two values are
  one.
- **Single-writer runtime** (`RuntimeSteps`, `RuntimeSafety`, `RuntimeGuarantees`, `RuntimeVerdicts`, `MintRuntime`).
  A step system of submissions, mutations, saves row by row and saves refused before their transaction, commits whose
  reply is lost, ownership loss, release and restart; and the two classes of the source, whose queue and save methods
  are proved to be those steps. A new process starts only once it holds the session lock, so a commit left in doubt
  has by then happened or never will.
- **Chain reconciler** (`ChainReconciler` and the `Reconciler...` files). One tick as a chain of folds, the loops that
  compute them, what the checks establish, what every sequence of ticks and other store operations keeps, and that
  ticks over an unchanging chain succeed and reach its head. The indexer's reducer is an abstract record with the
  contract `Reducer.Valid`.
- **OAuth provider** (`OAuthSteps`, `OAuthTraces`, `OAuthAnswers`, `XOAuthEmulator`). Three one-shot maps, what each
  call answers, and the trace behind every identity.
- **Galleries** (`Paging`, `Gallery`, `GalleryOrder`, `Bytes`, `GalleryCursors`, `CursorLengths`, `CursorTexts`).
  Keyset paging with suppression, newest first, and the opaque cursor tokens with their texts and exact lengths.
- **Snapshots** (`TaggedSnapshot`) and **compositions** (`CompositionText`, `Composition`, `CompositionGuarantees`,
  `CompositionWords`, `LockedShapes`, `CompiledCompositions`). Tagged JSON, and glyphs that are captured, locked,
  stored and restored.

## What turned out to hold only under a condition

- `decode(encode(v))` is `v` exactly for values that are `Faithful`: no record has both a text field `value` and a text
  field `__sg_type` naming one of the three markers, and a text with a NUL has no lone surrogate. `MasqueradeIsLost`
  is the shortest record that comes back as something else.
- A compiled composition restores unchanged exactly when the renderer's version is printable and every dimension is at
  most 2^53 - 1; compiling checks neither (`CompiledRestores`). `CompiledIsLost` compiles one letter with version `v 1`,
  and on a canvas one wider than that, and shows restoring refuse both.
- After a recorded failure no body starts and nothing is acknowledged, but a save can still begin. It begins exactly
  when the body that was active publishes a reconciled projection while the writer is owned, because that path asks only
  for ownership; with ownership gone it never does (`NothingAfterFailure`). `SavedAfterFailure` is such a run: a
  checkpoint that cannot encode its values, then a reconciliation that is stored.
- A shape lock fixes the geometry of a word, with dimensions as they are spelled, exactly when the two descriptions are
  not a collision of the digest (`LockFixesGeometry`). Nothing is assumed of the digest but its form.
- In the older layout the used width meets the target span exactly when the fixed widths already equal it, or some
  boundary can flex and they leave room (`UsedWidthMeetsTarget`); the walk always ends at the centre plus half the used
  width.
- A gallery cursor decodes to itself exactly when its three numbers have at most 319 digits together; a longer one is
  refused by the decoder that the same file provides (`GalleryCursorFits`). A claim's cursor always fits
  (`ClaimCursorFits`).
- The two missing-point checks of the path interpreter and the last two checks of restoring a composition can never
  fail.

## Model

| member | source | states |
|---|---|---|
| Cubics.QuadraticRootsExact | src/brand/sloganStudyBounds.ts:46-57 | the listed parameters are exactly the roots of the slope in every degenerate case, and none are listed for the zero slope |
| Cubics.SignKept | src/brand/sloganStudyBounds.ts:46-57 | between neighbouring listed roots the slope never changes sign |
| Cubics.Simpson | src/brand/sloganStudyBounds.ts:59-62 | the difference of a cubic at two parameters is Simpson's combination of its slope, exactly |
| Cubics.MonotonePiece | src/brand/sloganStudyBounds.ts:46-62 | a cubic is monotone between two parameters with no listed root strictly between them |
| Cubics.BoundedByExtrema | src/brand/sloganStudyBounds.ts:120-128 | every value on [0, 1] lies between the values at two of: the ends and the listed roots strictly inside |
| PathSyntax.PathTokens | src/brand/sloganStudyBounds.ts:8-43 | the lexing loop computes the recursive reading of the text, errors included |
| PathSyntax.ScanIsPrefix | src/brand/sloganStudyBounds.ts:32-39 | a matched number is a well-formed, nonempty prefix of what is left |
| PathSyntax.ScanIsLongest | src/brand/sloganStudyBounds.ts:10-39 | no well-formed number that the text starts with is longer than the matched one |
| PathGrammar.LexerIsGrammar | src/brand/sloganStudyBounds.ts:8-43 | the lexer accepts exactly the texts of the grammar, as the tokens they spell: blanks anywhere, one comma between two numbers, each number the longest there is |
| PathGrammar.RefusalHasReason | src/brand/sloganStudyBounds.ts:18-41 | a refused text has its reason at some place: a comma not between two numbers, something that starts no number, or a number too large |
| PathGrammar.NumberIsUnique | src/brand/sloganStudyBounds.ts:10 | a text spells at most one number |
| PathGrammar.ValueIs | src/brand/sloganStudyBounds.ts:35 | the value of a number is its digits as a whole number, moved by the places behind the point and by the exponent, with its sign |
| PathGrammar.DigitsInPlace | src/brand/sloganStudyBounds.ts:35 | each digit of a number is the one that its place gives it |
| PathGrammar.OverflowIsHalfway | src/brand/sloganStudyBounds.ts:36 | a number is refused as infinite exactly from half way between the largest double and the power of two behind it |
| PathPrinting.RoundedIsClose | src/algorithmV2/index.ts:281-283 | printing moves a coordinate by at most half a hundredth and leaves printed values where they are |
| PathPrinting.RoundedExactly | src/algorithmV2/index.ts:281-283 | a coordinate is rounded to the nearest hundredth, the one further from zero of two |
| PathPrinting.CoordinateForm | src/algorithmV2/index.ts:281-283 | a printed coordinate has a minus sign exactly below zero, whole digits without leading zeros, a point and two digits |
| PathPrinting.CoordinateValue | src/algorithmV2/index.ts:281-283 | a printed coordinate is a well-formed number whose value is the rounded coordinate |
| PathPrinting.InRangeIsFinite | src/brand/sloganStudyBounds.ts:35-36 | a number in the decimal range passes the finiteness check |
| PathPrinting.PrintedPathLexes | src/brand/sloganStudyBounds.ts:8-43 | lexing a printed path gives exactly its commands and rounded coordinates, with nothing lost or split, below the magnitude at which an exponent is printed |
| InkBounds.TightIsUnique | src/brand/sloganStudyBounds.ts:64-65 | at most one box contains all drawn points and is touched on all four sides |
| InkBounds.KeyPointsBound | src/brand/sloganStudyBounds.ts:110-128 | a box around a segment's ends and inner stationary points is around the whole segment |
| InkBounds.IncludeSegment | src/brand/sloganStudyBounds.ts:110-128 | the loop over stationary parameters includes the segment's key points, in order |
| InkBounds.GrowTight | src/brand/sloganStudyBounds.ts:74-82 | including one more segment's key points keeps the box tight around everything drawn |
| InkBounds.Execute | src/brand/sloganStudyBounds.ts:92-130 | one turn of the interpreter obeys one command: the segment it draws, the state it leaves, the error it raises |
| InkBounds.PathInkBounds | src/brand/sloganStudyBounds.ts:65-133 | for every text the result is the lexing or drawing error, the nothing-drawn error, or the tight box of the drawn segments |
| InkBounds.MissingPointChecksNeverFail | src/brand/sloganStudyBounds.ts:94-109 | no path text reaches the closepath-without-subpath or the no-current-point error |
| PathReadings.PathMeans | src/brand/sloganStudyBounds.ts:65-131 | every text is refused for a reason in it, or spells commands and draws what each of them draws by itself: from where the command before it ends, a closing line to where the last move went |
| PathReadings.SpellingsDraw | src/brand/sloganStudyBounds.ts:65-131 | all texts that spell the same commands draw the same: letters left off after a move, line or curve, blanks and commas make no difference |
| PathReadings.CommandsDraw | src/brand/sloganStudyBounds.ts:92-130 | what a command list draws is what each command draws when it looks back at the ones before it |
| InkBounds.UnionInkBounds | src/brand/sloganStudyBounds.ts:135-152 | empty lists and reversed boxes are refused; otherwise the result is the least box around all given ones |
| PrintedBounds.TokensDraw | src/brand/sloganStudyBounds.ts:92-130 | the tokens of a command list draw exactly the segments of those commands |
| PrintedBounds.PrintedPathDraws | src/algorithmV2/index.ts:281-337 | printing, lexing and interpreting a path draws its own segments with rounded points, below the same magnitude |
| PrintedOutlines.RoundingCommutes | src/algorithmV2/index.ts:281-337 | drawing the rounded commands draws the drawn segments rounded, for every command list |
| PrintedOutlines.PrintedTextDraws | src/brand/sloganStudyBounds.ts:65-133 | the printed text of a path draws exactly its own segments with rounded points |
| PrintedOutlines.RoundedSegmentIsClose | src/algorithmV2/index.ts:281-283 | no point of a printed segment is more than half a hundredth away, in x or y, from the same point of the exact one |
| PrintedOutlines.MeasuredBoxIsClose | src/brand/sloganStudyBounds.ts:64-133 | the tight box of the printed outline differs from the exact outline's by at most half a hundredth on every side |
| PrintedOutlines.MeasurePrinted | src/brand/sloganStudyBounds.ts:65-133 | measuring a printed path succeeds, with the tight box of its rounded segments, half a hundredth from the exact box |
| Outline.RootIsUnique | src/algorithmV2/index.ts:259 | a nonnegative root is determined by its square, so the hypotenuse is |
| Outline.OffsetAtStart | src/algorithmV2/index.ts:256-263 | at t = 0 the offset lies half the point's weight along the normal of its handle direction |
| Outline.OffsetAtEnd | src/algorithmV2/index.ts:256-263 | at t = 1 the offset lies half the following point's weight along the normal of its handle direction |
| Outline.JointContinuity | src/algorithmV2/index.ts:237-263 | each side of the outline is continuous at every anchor whose handles lie on one direction with positive lengths |
| Outline.ThroughThirdsInterpolates | src/algorithmV2/index.ts:302-309 | the cubic with the computed controls passes through the given values at 1/3 and 2/3 |
| Outline.CubicReversed | src/algorithmV2/index.ts:326-335 | swapping ends and controls runs the same cubic backwards |
| OutlinePaths.Interpolates | src/algorithmV2/index.ts:302-335 | each emitted curve starts and ends at its offsets and passes through the third ones, in reverse on the inner side |
| OutlinePaths.QuadsLinked | src/algorithmV2/index.ts:315-335 | every segment's offsets start where the previous segment's end, on either side |
| OutlinePaths.ChainDraws | src/algorithmV2/index.ts:311-337 | the emitted commands draw the outer curves, the crossing line, the inner curves backwards, and the closing line |
| OutlinePaths.SegmentCurve | src/algorithmV2/index.ts:318-322 | a segment's curve has the offsets at 0 and 1 as ends and the controls through its third offsets; where these lie says `OffsetIsBeside` |
| OutlinePaths.BezierVariableWidthPath | src/algorithmV2/index.ts:311-337 | the two loops emit the closed chain of commands; fewer than two points give no path. Where its curves run says `BezierKeepsSides` |
| OutlinePaths.BezierOutlineDraws | src/algorithmV2/index.ts:311-337 | for smooth points the path draws one closed chain of 2(n-1) cubics, each piece starting where the one before ends and passing through its offsets |
| OutlinePaths.SampledVariableWidthPath | src/algorithmV2/index.ts:286-300 | the sampling loops emit the polygon through the outer samples and then the inner ones reversed. Where its vertices lie says `PolygonKeepsSides` |
| OutlinePaths.PolygonDraws | src/algorithmV2/index.ts:299 | the polygon's commands draw each vertex joined to the next and the last to the first |
| OffsetGeometry.CubicInterpolates | src/algorithmV2/index.ts:229-235 | a cubic point is three rounds of linear interpolation between the control points |
| OffsetGeometry.DerivativeIntegrates | src/algorithmV2/index.ts:237-243 | the derivative adds up to the change of the cubic between any two parameters, by Simpson's rule, exactly |
| OffsetGeometry.WidthIsCubic | src/algorithmV2/index.ts:251-254 | the stroke width is a cubic of its own whose control values are the two weights, each twice, so it is flat at both ends |
| OffsetGeometry.WidthRises | src/algorithmV2/index.ts:251-254 | the width is the mean of the weights half way, lies between them, and is monotone |
| OffsetGeometry.OffsetIsBeside | src/algorithmV2/index.ts:256-263 | at every parameter the offset is perpendicular to the curve, on the given side, half the width away; where the curve has no direction it is on the curve |
| OutlineSides.BezierKeepsSides | src/algorithmV2/index.ts:311-337 | the drawn curve of every segment lies beside it on the left at its ends and thirds, the curve coming back on the right |
| OutlineSides.SamplesEnough | src/algorithmV2/index.ts:290 | a segment gets the fewest samples that make 240 in all, but at least 8 and at most 32 |
| OutlineSides.PolygonKeepsSides | src/algorithmV2/index.ts:286-300 | the sampled outline is one closed polygon whose vertices lie beside their segments at the sample parameters, left going out and right coming back |
| Centring.OffsetShifts | src/algorithmV2/index.ts:146-153 | moving two neighbouring points sideways moves every offset between them by the same amount and changes nothing else |
| Centring.SmoothShifts | src/algorithmV2/index.ts:146-153 | moving points sideways keeps their handles smooth |
| Centring.CenterGeometryCenters | src/algorithmV2/index.ts:155-159 | all points move equally in x, the re-measured midpoint is the centre, and centring again changes nothing |
| Centring.CenterPointsForOutline | src/algorithmV2/index.ts:265-279 | the sampling loops find the extent of both sides and shift all points by one amount; fewer than two points stay put |
| Centring.OutlineCentered | src/algorithmV2/index.ts:265-279 | after the shift the sampled outline's midpoint is the centre, and the pass is idempotent |
| OutlineSides.MidpointBalances | src/algorithmV2/index.ts:155-159 | values have their midpoint at the centre exactly when they reach equally far to both sides of it |
| OutlineSides.FirstPassBalances | src/algorithmV2/index.ts:155-159 | after the first pass anchors and handles reach equally far to both sides of the centre |
| OutlineSides.OutlineXsAt | src/algorithmV2/index.ts:265-276 | the sampled outline consists of both sides of every segment at 0, 1/64, ..., 1 |
| OutlineSides.SecondPassBalances | src/algorithmV2/index.ts:265-279 | after the second pass the sampled outline reaches equally far to both sides of the centre |
| CanonicalJson.CanonicalPrintsNormal | src/algorithm/hash.ts:16-28 | sorting keys while printing is printing the value with its keys sorted throughout |
| JsonParsing.ParseUndoesCanonical | src/algorithm/hash.ts:16-28 | a JSON parser reads canonical text back as the normal form, with nothing left over |
| JsonEquality.BeforeTotal | src/algorithm/hash.ts:22-23 | the order of keys by code units decides between any two different keys |
| KeyOrder.BeforeIsDictionary | src/algorithm/hash.ts:22-23 | a key comes before another exactly when it is a proper prefix of it, or has the smaller unit at the first difference |
| KeyOrder.PrintedKeysAscend | src/algorithm/hash.ts:20-26 | what canonical text reads back as has ascending keys in every object, at every depth |
| KeyOrder.ShortestEscape | src/algorithm/hash.ts:24-27 | each unit is printed as itself, by its two-character escape, or by its code, whichever a reader of JSON allows and is shortest |
| JsonEquality.CanonicalDecidesSameness | src/algorithm/hash.ts:16-28 | canonical texts are equal exactly when the values are equal up to key order |
| HashScopes.PayloadsDistinguish | src/algorithmV2/index.ts:60-61 | two labelled scopes have the same payload text exactly when parameter and scope agree |
| HashScopes.CharactersDistinguished | src/algorithmV2/index.ts:60-72 | no two characters share a hash payload, whatever the parameter; a character beyond U+FFFF is its surrogate pair |
| HashValues.FractionBits | src/algorithmV2/index.ts:63 | the value is a 53-bit fraction: its first 32 bits are the first word of the digest, the next 21 the upper bits of the second |
| HashValues.ValuesDistinguish | src/algorithmV2/index.ts:60-64 | two hashed values are the same under every digest exactly when parameter and scope are the same; any other pair is told apart by a digest that is given |
| HashScopes.HashToUnitFloat | src/algorithm/hash.ts:38-51 | the hashed value of every scope and parameter lies in [0, 1); which value it is say the two rows above and the two below |
| HashValues.PayloadText | src/algorithmV2/index.ts:60-61 | the hashed text is an object of namespace, parameter, scheme and scope, in this order |
| SignatureValues.UnitIsHashed | src/algorithmV2/index.ts:60-64 | the fraction of a parameter and scope is that of the digest of this very text, with the namespace of the release |
| HashValues.ObjectText | src/algorithm/hash.ts:20-26 | an object with ascending keys is printed field by field, as it stands |
| HashValues.CharacterUnits | src/algorithmV2/index.ts:62 | a character is hashed as its own code, or as the surrogate pair that stands for it |
| HashValues.CharacterText | src/algorithmV2/index.ts:87 | the scope of a character spells its kind and the character |
| HashValues.UnderscoreText | src/algorithmV2/index.ts:88 | the scope of the underscore has a kind of its own |
| HashValues.DigitsText | src/algorithmV2/index.ts:186 | the scope of the digits spells all digits of the handle, in order |
| HashValues.PairText | src/algorithmV2/index.ts:128 | the scope of a pair spells both characters, the left one as left |
| Layout.SerialPointSmooth | src/algorithmV2/index.ts:142-144 | a digit's point has both handles on the horizontal with equal positive lengths |
| Layout.WalkLayout | src/algorithmV2/index.ts:208-225 | the cursor loop emits, character by character, the points at the positions that the plan's advances give |
| Layout.WalkedCount | src/algorithmV2/index.ts:208-225 | a walk emits one point a non-digit, two a digit and one more for every run of digits |
| Layout.WalkedAnchors | src/algorithmV2/index.ts:208-225 | anchor x values strictly increase from the start of the plan to its end |
| Layout.WalkedSmooth | src/algorithmV2/index.ts:208-225 | every emitted point is smooth when the points of non-digits are |
| WeightedLayout.TotalsRegroup | src/algorithmV2/index.ts:194-204 | the weight walked up to a character is the sum of its digit, transition and flexible totals |
| WeightedLayout.LayoutTotalPositive | src/algorithmV2/index.ts:204-205 | the total of every placeable handle is positive, so the scale's fallback is never taken |
| WeightedLayout.SpanIsSpent | src/algorithmV2/index.ts:188-225 | the walk over any mix of characters ends exactly at start plus target span |
| WeightedLayout.PlanAdvances | src/algorithmV2/index.ts:204-207 | every digit and every boundary that is not between two digits moves the cursor forward |
| PlacedPoints.SharesSpendSpan | src/algorithmV2/index.ts:194-207 | every digit and boundary gets its weight's worth of one unit, nothing lies between two digits, and together they are exactly the span |
| Geometry.GapTotal | src/algorithmV2/index.ts:179-180 | the sum of the gap weights is the layout total of a handle without digits, and positive |
| Geometry.Positions | src/algorithmV2/index.ts:181-182 | the running sum gives the cursor positions of the same weighted walk |
| Geometry.PlanWithDigits | src/algorithmV2/index.ts:188-207 | collecting boundaries, weights and sums gives the plan of the weighted walk |
| Geometry.PointsWithoutDigits | src/algorithmV2/index.ts:174-184 | the branch for handles without digits places the points of the common walk |
| Geometry.PointsWithDigits | src/algorithmV2/index.ts:186-225 | the branch for handles with digits places the points of the common walk |
| Geometry.GeometryFor | src/algorithmV2/index.ts:161-227 | all three branches give the placed points, centred |
| Geometry.PlacedShape | src/algorithmV2/index.ts:171-225 | placed points number nonDigits + 2 digits + digitRuns, run from target start to target end strictly increasing, and are smooth |
| PlacedPoints.WalkedInPlace | src/algorithmV2/index.ts:208-225 | a complete account of the points: where each character stands, which points are its own, a digit's two base points and its peak half way, risen by its ninths of the full height, and none left over |
| PlacedPoints.PlacedInPlace | src/algorithmV2/index.ts:161-225 | for every release the points are in place on shares of the span, from its start to its end; a lone character stands at both ends |
| Geometry.GeometryShape | src/algorithmV2/index.ts:161-227 | the same holds after centring: count, exact span, smoothness, and the midpoint at the centre |
| Signatures.MapRangeBounds | src/algorithmV2/index.ts:86 | a unit value maps into its range |
| Signatures.MapPointYMonotone | src/algorithmV2/index.ts:93-103 | the vertical shift stays in its range and never decreases with the unit, with and without contrast |
| SignatureValues.ShiftsAreOdd | src/algorithmV2/index.ts:93-103 | opposite fractions shift by opposite amounts, in every profile |
| SignatureValues.ContrastedShifts | src/algorithmV2/index.ts:95-102 | for perceiving types the shift is to what is left of 40 as the cube of the fraction's distance from a half is to the cube of the rest |
| SignatureValues.ProportionalShifts | src/algorithmV2/index.ts:93-118 | judging types shift in proportion to their fraction, underscores downwards by a fraction of their own |
| Signatures.SeededHandles | src/algorithmV2/index.ts:105-120 | both blended handle lengths are at least 10 for every character and profile |
| SignatureValues.PolesMatter | src/algorithmV2/index.ts:66-84 | two types have the same geometry exactly when their last three letters agree |
| SignatureValues.LengthsFromFractions | src/algorithmV2/index.ts:105-116 | blending keeps the sum of the two lengths and shrinks their difference to the profile's share; the incoming one is the shorter exactly when its fraction is |
| SignatureValues.AngleFromFraction | src/algorithmV2/index.ts:111 | a fraction turns the angle once around |
| SignatureValues.AnglesSmoothed | src/algorithmV2/index.ts:165-169 | an angle is drawn towards the mean of its neighbours by a half or a tenth; the ends count themselves |
| Signatures.IdentityPointSmooth | src/algorithmV2/index.ts:132-140 | a character's point is smooth and keeps the x it is given |
| SignatureValues.IdentityPointAlong | src/algorithmV2/index.ts:132-140 | a character's point is its shift below the middle, and both handles lie along its smoothed angle with the seeded lengths |
| Signatures.WeightsPositive | src/algorithmV2/index.ts:122-130 | digit, gap and transition weights are positive in every profile |
| SignatureValues.WeightsFromFractions | src/algorithmV2/index.ts:122-203 | digits weigh alike, gaps by their ordered pair for perceiving types and alike for judging ones, and an underscore widens what it touches |
| SignatureValues.PulseFromFractions | src/algorithmV2/index.ts:187-216 | pulses rise by up to 60 around a middle that one fraction for all digits shifts from 210 |
| SignatureValues.PulsesRiseEvenly | src/algorithmV2/index.ts:216 | a pulse is flat at zero, has the full height at nine, and equal steps between |
| SignatureValues.StrokeWidths | src/algorithmV2/index.ts:245-249 | underscores leave no stroke, capitals one three times as wide as everything else |
| SignatureValues.DigitsOfJoin | src/algorithmV2/index.ts:186 | the digits of a text are those of its parts, in order |
| Signatures.ReleaseIsValid | src/algorithmV2/index.ts:122-203 | release 2.0 meets what the layout asks for, for every handle and profile |
| Signatures.RenderPath | src/algorithmV2/index.ts:362-377 | exactly malformed handles and unknown types are refused; otherwise the profile's builder emits the path of the twice centred points. What its numbers are say the rows of `SignatureValues`, `PlacedPoints` and `OutlineSides` |
| Signatures.OutlinePassShape | src/algorithmV2/index.ts:265-279 | the second centring pass keeps span and smoothness and centres the sampled outline |
| Signatures.SignatureShape | src/algorithmV2/index.ts:161-279 | for every handle and type the final points have the counted number, span 75n up to three characters and 300 beyond, and an outline centred at 210 |
| Signatures.SignatureOutlineIsClosed | src/algorithmV2/index.ts:302-376 | for every handle and feeling type the rendered path draws one closed continuous chain |
| FormalSignatures.LongTextKeepsItsSegments | src/algorithmV1/index.ts:40-58 | the canvas leaves 120 beside the curve, and beyond 15 characters the curve grows so that segments never get narrower |
| FormalSignatures.VariantSigned | src/algorithmV1/index.ts:82-84 | a varied value lies in [-1, 1) |
| FormalSignatures.SeededHandlesPositive | src/algorithmV1/index.ts:92-106 | both varied handle lengths are positive for every character and reading |
| FormalValues.VariedLengths | src/algorithmV1/index.ts:92-101 | a handle length runs from 10 to 90 with its fraction and is scaled by 0.8 up to 1.2 with the reading's own |
| FormalValues.VariedAnglesAndShifts | src/algorithmV1/index.ts:98-103 | angles and shifts spread over their ranges, and the reading adds at most a ninth of a half turn and 5 |
| FormalValues.AngleIsMean | src/algorithmV1/index.ts:144 | an angle is its neighbourhood's mean with its own counted twice, turned by its own variation |
| FormalValues.VariedScopes | src/algorithmV1/index.ts:82-84 | a varied value is hashed with the reading as the first field of its scope |
| FormalSignatures.TextPointSmooth | src/algorithmV1/index.ts:112-124 | a character's point is smooth and keeps its x, for every reading |
| FormalValues.TextPointAlong | src/algorithmV1/index.ts:112-124 | a character's point is its shift below the middle, and both handles lie along its angle with the seeded lengths |
| FormalSignatures.TextWeightsPositive | src/algorithmV1/index.ts:108-175 | hashed digit widths, gaps and transitions stay positive under every variation |
| FormalValues.VariedDigits | src/algorithmV1/index.ts:169-175 | a digit weighs from 0.2 to 1 by its fraction, scaled by the reading; a transition takes six tenths of its digit |
| FormalValues.VariedGaps | src/algorithmV1/index.ts:108-110 | a gap varies around 1 by up to a half, by the reading and the ordered pair |
| FormalValues.VariedPulse | src/algorithmV1/index.ts:159-189 | pulses rise by up to 32 to 48 around a middle that the digits' shared fractions shift from 210 |
| FormalValues.FormalStrokeWidths | src/algorithmV1/index.ts:212-216 | capitals are ten wider than everything else, underscores a hairline, and a pulse is neither |
| FormalSignatures.FormalReleaseIsValid | src/algorithmV1/index.ts:140-200 | release 1.0 meets what the layout asks for, for every text and reading |
| FormalSignatures.RenderText | src/algorithmV1/index.ts:329-335 | exactly the empty text and readings outside 1 to 100 are refused; otherwise the outline of the points on the text's canvas is emitted |
| FormalSignatures.RenderHandle | src/algorithmV1/index.ts:314-321 | exactly malformed handles and readings outside 1 to 100 are refused; otherwise the outline of the handle's points on the reference canvas is emitted |
| FormalSignatures.RenderOn | src/algorithmV1/index.ts:316-333 | both centring passes and the outline on a given centre and span, as for handles and for texts |
| FormalSignatures.FormalGeometryShape | src/algorithmV1/index.ts:140-200 | count, exact span, smoothness and centre of the points of release 1.0 |
| FormalSignatures.FormalSignatureShape | src/algorithmV1/index.ts:140-242 | the same after the outline pass, which centres the sampled outline |
| FormalSignatures.FormalOutlineIsClosed | src/algorithmV1/index.ts:255-281 | for every text and reading the path draws one closed continuous chain |
| OutlineExtent.OffsetNear | src/algorithmV2/index.ts:256-263 | an offset lies no further out than the hull of its segment's points, plus half the pen's widest stroke |
| OutlineExtent.OutlineInRange | src/algorithmV2/index.ts:286-337 | every coordinate that either builder emits stays below the magnitude at which an exponent is printed, when the points stay below a sixth of it |
| PlacedExtent.PlacedNear | src/algorithmV2/index.ts:161-225 | all placed points lie within the bounds of their characters' points and pulses, because the cursor never leaves the span |
| PlacedExtent.CentredTwiceNear | src/algorithmV2/index.ts:265-279 | both centring passes together carry no point further than nine times the bound before them, plus half a stroke |
| PrintedSignatures.SignatureInRange | src/algorithmV2/index.ts:281-377 | for every handle and type all printed coordinates are in decimal notation |
| PrintedSignatures.PrintedSignatureDraws | src/algorithmV2/index.ts:161-377 | for every handle and type the printed path lexes and draws the closed chain (feeling) or polygon (thinking) of the counted points, rounded to hundredths |
| PrintedSignatures.MeasureSignature | src/brand/sloganSigningStudy.ts:14 | rendering and measuring any valid handle gives the tight box of its printed outline, half a hundredth from the exact one; only bad handles and types are refused |
| PrintedSignatures.FormalInRange | src/algorithmV1/index.ts:140-281 | release 1.0 prints all coordinates in decimal notation for every text, reading, centre and span within the stated reach |
| PrintedSignatures.PrintedTextSignatureDraws | src/algorithmV1/index.ts:40-335 | for every text that an ECMAScript string can hold and every reading, the printed path lexes and draws the closed chain of the counted points, rounded to hundredths |
| PrintedSignatures.MeasureText | src/algorithmV1/index.ts:329-335 | rendering and measuring a text gives the tight box of its printed outline, half a hundredth from the exact one |
| FixedLayout.TotalsAreUsed | src/algorithm/geometry.ts:183-195 | digits, connectors and flexible gaps together take exactly the used width |
| FixedLayout.WidthIsUsed | src/algorithm/geometry.ts:196-216 | the walk ends at the centre plus half the used width, even when the flexible span is clamped to zero |
| FixedLayout.UsedWidthMeetsTarget | src/algorithm/geometry.ts:183-195 | the used width is the target exactly when the fixed widths equal it, or something can flex and they leave room |
| FixedLayout.CountDigits | src/algorithm/geometry.ts:106-107 | counts the serial digits |
| FixedLayout.CountBoundaries | src/algorithm/geometry.ts:176-188 | the boundary loop counts transitions and sums the flexible weights |
| FixedLayout.PlanFixed | src/algorithm/geometry.ts:175-196 | the counts, the clamp and the shares give the plan of the older layout |
| FixedLayout.FixedWithoutDigits | src/algorithm/geometry.ts:159-169 | without digits nothing is fixed, and this layout is the weighted one over the whole target |
| FixedLayout.FixedGeometry | src/algorithm/geometry.ts:145-216 | all three branches, then centring: the counted points, spanning exactly the used width (the target for a lone character), with the midpoint at the centre |
| PlacedPoints.FixedInPlace | src/algorithm/geometry.ts:160-220 | the older layout's points are in place around the centre, on the used width: fixed digits, connectors at most 24, equal shares of the rest by gap weight |
| PlacedPoints.ConnectorIsSmaller | src/algorithm/geometry.ts:175 | a connector is the smaller of 24 and six tenths of the digit width |
| RuntimeSteps.SaveThrew | src/local/mintRuntime.ts:26-36 | a save that fails in its transaction acknowledges nothing and touches neither rows nor live store |
| RuntimeSteps.SaveSucceeded | src/local/rehearsalServer.ts:104-107 | a finished save replaces the live store only when it published a reconciled projection; that an acknowledgement carries the body's own verdict says `VerdictIsTheBodys` |
| RuntimeSteps.RunsCompose | src/local/mintRuntime.ts:38-59 | a legal sequence of steps splits anywhere into two |
| RuntimeSafety.InitialHolds | src/local/postgresState.ts:155-166 | a process over a stored consistent pair starts in the invariant |
| RuntimeSafety.SavesNeverOverlap | src/local/mintRuntime.ts:38-59 | while an operation is in its body no save is in flight, every earlier one has settled and every later one waits |
| RuntimeGuarantees.StepKeeps | src/local/mintRuntime.ts:16-64 | every step, including lost replies, ownership loss and restart, keeps the invariant |
| RuntimeGuarantees.OneBodyAtATime | src/local/mintRuntime.ts:38-59 | over every interleaving one body is active at a time, bodies start in submission order, and none starts twice |
| RuntimeGuarantees.DrainSettlesAll | src/local/mintRuntime.ts:61-64 | when the tail has settled, every operation of this process has |
| RuntimeGuarantees.NothingAfterFailure | src/local/mintRuntime.ts:16-36 | once a failure is recorded or ownership is gone, until a restart no body starts and nothing is acknowledged, and a save begins exactly when the active body publishes a projection over an owned writer |
| RuntimeGuarantees.SavedAfterFailure | src/local/rehearsalServer.ts:101-111 | a run in which a failure is recorded and a projection is nevertheless stored afterwards |
| RuntimeGuarantees.SettledForGood | src/local/mintRuntime.ts:38-59 | a settled promise never changes, through crashes too |
| RuntimeGuarantees.AcknowledgedIsDurable | src/local/mintRuntime.ts:38-55 | every mutation of an operation that was fulfilled, or rejected with its own error, is in the stored rows then and ever after |
| RuntimeGuarantees.StoredPairIsOneCapture | src/local/postgresState.ts:96-124 | at every point the two rows are one pair captured by one save, with a cursor that matches its own latest projection |
| RuntimeGuarantees.VisibleProjectionsAreStored | src/local/rehearsalServer.ts:101-111 | a projection that readers can see is already stored |
| RuntimeGuarantees.StoreNeverGoesBack | src/local/postgresState.ts:117-123 | later rows extend earlier ones, whatever failed in between |
| RuntimeGuarantees.QueueNeverStuck | src/local/mintRuntime.ts:38-64 | the oldest unsettled operation always has a next step, and that step brings it closer to settling |
| MintRuntime.LocalPostgresState.constructor | src/local/postgresState.ts:50-53 | stored rows, with no writer yet |
| MintRuntime.LocalPostgresState.AcquireExclusiveWriter | src/local/postgresState.ts:55-67 | the writer is acquired exactly when there was none, none has failed, and the database grants the lock; a second acquisition is refused and changes nothing |
| MintRuntime.LocalPostgresState.AssertExclusiveWriter | src/local/postgresState.ts:91-94 | succeeds exactly while the writer is held and has not failed |
| MintRuntime.LocalPostgresState.SaveRuntime | src/local/postgresState.ts:97-106 | with ownership and values that can be encoded both are captured before anything else happens; otherwise the save is refused and nothing changes |
| MintRuntime.LocalPostgresState.UpsertRow | src/local/postgresState.ts:107-115 | each upsert writes its own row of the captured pair into the transaction only |
| MintRuntime.LocalPostgresState.CommitRows | src/local/postgresState.ts:116 | the commit makes both rows visible at once |
| MintRuntime.LocalPostgresState.CommitReplied | src/local/postgresState.ts:116-123 | the save succeeds exactly when the writer is still owned after the reply |
| MintRuntime.LocalPostgresState.QueryFailed | src/local/postgresState.ts:117-122 | a failed query makes the writer fail; a commit already sent stays in doubt |
| MintRuntime.LocalMintRuntime.constructor | src/local/mintRuntime.ts:7-14 | a new queue over an owned store is the initial state |
| MintRuntime.LocalMintRuntime.AssertHealthy | src/local/mintRuntime.ts:16-24 | succeeds exactly when no failure is recorded and the writer is owned; otherwise the failure is recorded |
| MintRuntime.LocalMintRuntime.Run | src/local/mintRuntime.ts:38-59 | the new promise waits for the tail and becomes the tail |
| MintRuntime.LocalMintRuntime.Begin | src/local/mintRuntime.ts:39-41 | the body starts only when healthy, else the promise rejects and the failure is recorded |
| MintRuntime.LocalMintRuntime.MutateStore | src/local/mintRuntime.ts:43-45 | a body's mutation changes the live store only |
| MintRuntime.LocalMintRuntime.CheckpointNow | src/local/mintRuntime.ts:26-36 | a checkpoint inside a body begins a save of the live pair, or records the failure, also when the pair cannot be encoded |
| MintRuntime.LocalMintRuntime.SaveReconciled | src/local/rehearsalServer.ts:101-111 | the tick's result is saved before the live store is replaced; ownership is the only condition asked |
| MintRuntime.LocalMintRuntime.Conclude | src/local/mintRuntime.ts:42-55 | whether the operation returned or threw, a last checkpoint follows; when it is refused the operation is unavailable |
| MintRuntime.LocalMintRuntime.Saved | src/local/mintRuntime.ts:30-55 | after a successful save the operation goes on, settles with its own outcome, or publishes; that the outcome is the body's own says `VerdictIsTheBodys` |
| MintRuntime.LocalMintRuntime.SaveFailed | src/local/mintRuntime.ts:32-35 | after a save that failed in its transaction a checkpoint's failure is recorded and the operation is never acknowledged by it |
| MintRuntime.LocalMintRuntime.Rejected | src/local/mintRuntime.ts:32-35 | the await of a save throws into whoever waits for it |
| RuntimeVerdicts.VerdictIsTheBodys | src/local/mintRuntime.ts:38-59 | over every run, an acknowledgement carries what the body did: the promise is fulfilled exactly when the body returned and rejects with its error exactly when it threw; the body ended once and its last save was begun |
| RuntimeVerdicts.UnavailableIsRecorded | src/local/mintRuntime.ts:16-36 | once any run of a process settles as unavailable the failure is recorded |
| RuntimeVerdicts.FailedCheckpointIsRecorded | src/local/mintRuntime.ts:26-36 | a checkpoint that does not get its pair stored records the failure, whoever called it |
| RuntimeVerdicts.UndisturbedRunIsAcknowledged | src/local/mintRuntime.ts:42-52 | an operation that ends while all is well, and whose save nothing disturbs, is acknowledged with what it did and the live pair is stored |
| RuntimeVerdicts.UndisturbedProjectionIsPublished | src/local/rehearsalServer.ts:101-111 | a tick's result that nothing disturbs is stored and shown, and the body goes on |
| ReconcilerTick.ReadHeaders | src/local/chainReconciler.ts:215-216 | reads exactly the headers of the window, in order |
| ReconcilerTick.ReadLogs | src/local/chainReconciler.ts:221-255 | keeps the decoded logs that pass every check, and stops at the first that does not |
| ReconcilerTick.CheckAttempts | src/local/chainReconciler.ts:280-290 | the loop fails exactly when some open report is unsettled by the node; otherwise every list keeps its authorization, transactions and order, and exactly the open reports with a reverted receipt in range become reverted |
| ReconcilerTick.CheckList | src/local/chainReconciler.ts:283-289 | fails exactly when some open report of the list is unsettled; otherwise exactly the open reports that reverted within the scanned heights change, and nothing else |
| ReconcilerTick.ProjectConfirmedMints | src/local/chainReconciler.ts:337-361 | every finalized entry consumes its authorization, enters projections and gallery, and includes its attempt |
| ReconcilerTick.ExpireAuthorizations | src/local/chainReconciler.ts:294-308 | the loop over all authorizations at a scanned head; what it expires, and that it expires all of it, says `ExpireExactly` |
| ReconcilerTick.CheckHolders | src/local/chainReconciler.ts:309-313 | succeeds exactly when every finalized token's owner on chain is the projected holder |
| ReconcilerTick.ScanWindow | src/local/chainReconciler.ts:214-276 | scans, applies and promotes the window, or changes nothing when it is empty |
| ReconcilerTick.Reconcile | src/local/chainReconciler.ts:166-316 | the protected part of a tick is the chain of its checks and folds; what each of them decides say the rows of `ReconcilerOutcome`, `ReconcilerScans` and `ReconcilerReady` |
| ReconcilerTick.RunTick | src/local/chainReconciler.ts:159-334 | a tick returns the edited copies, or on failure the originals as the failure's kind requires |
| ReconcilerOutcome.PinnedExactly | src/local/chainReconciler.ts:167-194 | a tick gets as far as its window exactly when configuration, chain, head, deployment, code, controls and promoted block agree |
| ReconcilerOutcome.PromotedBlockIsChecked | src/local/chainReconciler.ts:186-192 | a chain rewound below the promoted block, or with another block at its height, halts the indexer under that code; an unanswered read only pauses |
| ReconcilerOutcome.DeploymentIsChecked | src/local/chainReconciler.ts:167-184 | the same, in the source's order, for configuration, chain id, head, deployment block, code and controls |
| ReconcilerOutcome.HeadIsChecked | src/local/chainReconciler.ts:315 | after everything else a changed head halts the indexer, and an unchanged one is exactly success |
| ReconcilerOutcome.SuccessHasRead | src/local/chainReconciler.ts:169-315 | a tick that succeeds has read the deployment block, the promoted block and, twice, the head, each with its hash |
| ReconcilerFailures.IncidentsAre | src/local/chainReconciler.ts:167-333 | a failed tick halts the indexer exactly for the nine codes that put the chain at fault, and for a safety halt that the scan brings about |
| ReconcilerFailures.CodesMean | src/local/chainReconciler.ts:278-315 | behind the scan, the codes mean what they say: a finalized token with another owner, a confirmed entry without its event, a report on another chain, a changed head |
| ReconcilerScans.HeadersExactly | src/local/chainReconciler.ts:215-216 | the headers read are the node's, one for every height of the window, or a read failed |
| ReconcilerScans.LogsExactly | src/local/chainReconciler.ts:221-255 | all logs are acceptable and their decodings are kept in order, or the first that is not decides, as an incident exactly when it was removed |
| ReconcilerScans.ScanExactly | src/local/chainReconciler.ts:264-275 | once everything read fits, a scan succeeds exactly when the boundary stands and the reducer's promotion runs unblocked; a changed boundary halts |
| ReconcilerScans.SuccessHasScanned | src/local/chainReconciler.ts:214-275 | a successful tick continues with the reducer's promotion of exactly the headers and logs that the node told |
| ReconcilerReady.ExpireExactly | src/local/chainReconciler.ts:294-308 | the loop succeeds exactly when every authorization is accounted for, and expires exactly the due ones with what waited for them |
| ReconcilerReady.TickSettlesAuthorizations | src/local/chainReconciler.ts:280-308 | exactly what a successful tick does to an authorization: consumed if confirmed, else expired if due at a fully scanned head, else nothing |
| ReconcilerReady.TickSettlesProjections | src/local/chainReconciler.ts:292-308 | exactly what it does to projections and gallery: finalized entries on top, what waited for an expiring authorization unminted, nothing else |
| ReconcilerChecks.ReadyHoldersAgree | src/local/chainReconciler.ts:309-316 | a tick is ready only when every finalized token's owner on chain is the projected holder |
| ReconcilerChecks.TickKeepsAttempts | src/local/chainReconciler.ts:278-357 | over a successful tick every recorded attempt keeps its place and transaction; its state stays, becomes included, or, if open, reverted by a receipt within the scanned heights |
| ReconcilerCursor.SuccessfulTick | src/local/chainReconciler.ts:186-316 | the window starts right behind the old cursor and is bounded; the new cursor is its end; the tick is ready exactly at the head |
| ReconcilerCursor.FailureChangesNothing | src/local/chainReconciler.ts:317-333 | a failed tick returns its inputs; an incident empties the gallery, revokes exactly the finalized projections, and halts with the cursor kept |
| ReconcilerCursor.RefusedWhenHalted | src/local/chainReconciler.ts:167 | a halted indexer is refused before anything is read |
| ReconcilerCursor.HaltAbsorbs | src/local/chainReconciler.ts:160-167 | after a halt no sequence of ticks changes the indexer, and every tick reports the halt |
| ReconcilerCursor.ScanStep | src/local/chainReconciler.ts:193-216 | one tick scans at most maxBlocks heights, right behind the cursor, or none |
| ReconcilerCursor.ScansAreContiguous | src/local/chainReconciler.ts:186-276 | over every sequence of ticks the scanned ranges join end to end, never overlap, and the cursor never goes back |
| ReconcilerCursor.SteadyHead | src/local/chainReconciler.ts:193-194 | with a steady head n successful ticks scan n times maxBlocks heights, and no more than there are |
| ReconcilerCursor.CatchesUp | src/local/chainReconciler.ts:186-194 | the cursor reaches a steady head after exactly ceil(remaining / maxBlocks) successful ticks, and not before |
| ReconcilerLiveness.ServedTicksSucceed | src/local/chainReconciler.ts:166-316 | over an unchanging chain whose node answers alike, with acceptable logs and a reducer that takes them, every tick succeeds |
| ReconcilerLiveness.ServedChainCatchesUp | src/local/chainReconciler.ts:186-316 | over such a chain the cursor reaches the head after exactly ceil(remaining / maxBlocks) ticks, and not before |
| ReconcilerProjection.EntriesDone | src/local/chainReconciler.ts:340-357 | after a projection every finalized entry's authorization is consumed and its attempt included |
| ReconcilerProjection.MapsOverridden | src/local/chainReconciler.ts:347-360 | projections and gallery are the old maps with exactly the finalized entries on top |
| ReconcilerProjection.ProjectionIsIdempotent | src/local/chainReconciler.ts:337-361 | projecting confirmed mints twice is projecting them once |
| ReconcilerProjection.NoDuplicateAttempts | src/local/chainReconciler.ts:353-357 | no transaction is ever recorded twice for an authorization |
| ReconcilerProjection.ReportsAreHints | src/local/chainReconciler.ts:278-290 | snapshots that differ only in reported attempts give the same failure or the same result, unless the node leaves a report of one of them unsettled, which fails that tick |
| ReconcilerExpiry.LogsAreMintable | src/local/chainReconciler.ts:229-254 | a kept mint log names a stored authorization that was issued, uncertain or consumed when the tick began |
| ReconcilerExpiry.ScanConfirms | src/local/chainReconciler.ts:214-275 | an entry confirmed by a scan was confirmed before, or names such an authorization |
| ReconcilerExpiry.ConfirmedIsConsumed | src/local/chainReconciler.ts:340-346 | an authorization that a finalized entry names is consumed by the projection |
| ReconcilerExpiry.TickAuthorizations | src/local/chainReconciler.ts:292-308 | a tick leaves an authorization alone, consumes it because it is confirmed, or expires it because it is due at a fully scanned head |
| ReconcilerExpiry.TickGallery | src/local/chainReconciler.ts:347-360 | only a confirmed authorization enters the gallery |
| ReconcilerExpiry.ExpiresOnlyWhenDue | src/local/chainReconciler.ts:293-308 | an authorization becomes expired only in a ready tick, at a head past its deadline, with the chain reporting it unused |
| ReconcilerExpiry.DeadThroughTick | src/local/chainReconciler.ts:159-334 | no tick revives an expired authorization that nothing holds any more |
| ReconcilerExpiry.DeadForGood | src/local/chainReconciler.ts:159-334 | nor does any sequence of ticks with behaving operations in between |
| ReconcilerFinality.FreshIsLively | src/local/chainReconciler.ts:142-149 | a fresh store and indexer meet the invariant behind the last row of this component |
| ReconcilerFinality.LivelyAfterTick | src/local/chainReconciler.ts:159-334 | gallery cards belong to consumed authorizations and no entry confirms an expired one, before and after every tick |
| ReconcilerFinality.ExpiryIsFinal | src/local/chainReconciler.ts:292-361 | over every sequence of ticks and operations an expired authorization is never later consumed or put in the gallery |
| OAuthTraces.StepAdds | src/claim/localXOAuthEmulator.ts:75-156 | a call adds at most the one token that it drew, to the one map it belongs to, and alters no entry |
| OAuthTraces.StepUses | src/claim/localXOAuthEmulator.ts:97-156 | an accepted call found its token and left it spent; an exchange or lookup spends it even when refused |
| OAuthTraces.RunExplained | src/claim/localXOAuthEmulator.ts:60-157 | over every sequence of calls each map entry is explained by the history and still unused |
| OAuthTraces.IdentitiesAreTraced | src/claim/localXOAuthEmulator.ts:75-156 | every identity traces to exactly one request, one unexpired approval of that account, one exchange whose verifier hashes to that request's challenge, and one unexpired lookup, in this order |
| OAuthTraces.EverythingWorksOnce | src/claim/localXOAuthEmulator.ts:97-156 | a request gives at most one code, a code at most one grant, a grant at most one identity, and a wrong verifier spends the code |
| OAuthAnswers.AuthorizeDecides | src/claim/localXOAuthEmulator.ts:75-82 | a request is accepted exactly with an opaque state of 20 to 200 and a challenge of 43 characters |
| OAuthAnswers.CompleteDecides | src/claim/localXOAuthEmulator.ts:97-130 | the reply to a decision, both ways: code, denial and provider error exactly for their decision on a live request, with that request's state; otherwise refused |
| OAuthAnswers.ExchangeDecides | src/claim/localXOAuthEmulator.ts:132-145 | a code is exchanged exactly while it lives and for a verifier of its challenge, and is spent in any case |
| OAuthAnswers.LookupDecides | src/claim/localXOAuthEmulator.ts:147-156 | a lookup answers exactly while the grant lives, with its account, and spends it in any case |
| OAuthAnswers.ViewDecides | src/claim/localXOAuthEmulator.ts:84-95 | viewing shows exactly a live request and changes nothing; of any other it only forgets what had expired |
| OAuthAnswers.HonestFlowSucceeds | src/claim/localXOAuthEmulator.ts:75-156 | four calls in time tell the account that was chosen |
| OAuthAnswers.DecisionsAreTraced | src/claim/localXOAuthEmulator.ts:114-130 | over every sequence of calls, every denial, provider error and code comes from that decision about one live request and carries its state |
| XOAuthEmulator.LocalXOAuthEmulator.constructor | src/claim/localXOAuthEmulator.ts:60-73 | a new provider has three empty maps |
| XOAuthEmulator.LocalXOAuthEmulator.GetAuthorizeUrl | src/claim/localXOAuthEmulator.ts:75-82 | a malformed request changes nothing; otherwise the request is stored under the drawn id with its expiry |
| XOAuthEmulator.LocalXOAuthEmulator.GetAuthorizationRequest | src/claim/localXOAuthEmulator.ts:84-95 | shows an unexpired request, and forgets an expired one |
| XOAuthEmulator.LocalXOAuthEmulator.CompleteAuthorization | src/claim/localXOAuthEmulator.ts:97-130 | checks in the source's order, then spends the request and stores a code only for an approval |
| XOAuthEmulator.LocalXOAuthEmulator.ExchangeCode | src/claim/localXOAuthEmulator.ts:132-145 | spends the code first, then checks expiry and challenge, then grants |
| XOAuthEmulator.LocalXOAuthEmulator.LookUpUser | src/claim/localXOAuthEmulator.ts:147-156 | spends the grant first, then answers with its account unless it had expired |
| Paging.EligibleAfter | src/api/server.ts:412-423 | the cursor of an element of an ordered list selects exactly what follows it |
| Paging.NextIsShorter | src/api/server.ts:474-484 | the next page continues exactly where this one stopped, so following cursors terminates |
| Paging.WalkShowsAll | src/api/server.ts:445-485 | following next cursors shows every shown element exactly once, in list order |
| Gallery.MintOrderIsStrictTotal | src/api/server.ts:412-417 | the gallery's order is strict, total and transitive; its direction is that of `ComesAfterIsOlder` |
| Gallery.ClaimOrderIsStrictTotal | src/v1/store.ts:183-190 | so is the order of claims, newest first and then by signature id |
| GalleryOrder.ComesAfterIsOlder | src/api/server.ts:412-417 | a card comes after the cursor exactly when it is the older mint: a lower block, then transaction, then log, then the later id |
| GalleryOrder.MintStoreIsNewestFirst | src/v2/memoryStore.ts:415-424 | a list is in gallery order exactly when blocks never increase along it, within a block transactions, within a transaction logs, and within a log ids ascend |
| GalleryOrder.ClaimStoreIsNewestFirst | src/v1/store.ts:183-190 | a list of claims is in order exactly when times never increase along it and ids ascend at one time |
| Gallery.SortedIsOrdered | src/store/postgresStore.ts:308-318 | a list sorted by a strict total order pages by its keys |
| Gallery.Collect | src/api/server.ts:467-470 | the inner loop takes a batch's unsuppressed claims until the page and its lookahead are full |
| Gallery.ClaimedGalleryCardViews | src/api/server.ts:463-484 | the refilling loop terminates with the first 24 unsuppressed claims after the cursor, and a next cursor exactly when a 25th exists |
| GalleryOrder.ClaimedPageIsOlder | src/api/server.ts:463-484 | the page after a cursor is the first 24 unsuppressed claims older than it, with a next cursor exactly when there is a 25th |
| Gallery.ClaimedWalk | src/api/server.ts:445-485 | with a fixed store and suppression set, following cursors shows every unsuppressed claim exactly once, in store order |
| Gallery.GalleryCardViews | src/api/server.ts:419-443 | a page is the next 24 cards less the suppressed ones, in the sense of `PageIsOlder`; a card without its stored signature is an error |
| GalleryOrder.EligibleAreOlder | src/api/server.ts:423 | a cursor keeps exactly the cards older than it, whatever the list |
| GalleryOrder.PageIsOlder | src/api/server.ts:419-443 | the page after a cursor holds only older, unsuppressed cards; each of the first 24 older ones is on it or suppressed, and it has a next cursor exactly when there is a 25th |
| Gallery.SlotsShrink | src/api/server.ts:423-441 | the next cursor of a page skips exactly that page's cards |
| Gallery.SlotWalkShowsAll | src/api/server.ts:419-443 | following cursors visits every card once and shows exactly the unsuppressed ones, in order |
| Bytes.Utf8RoundTrip | src/api/server.ts:383-397 | decoding UTF-8 gives the text back with every lone surrogate replaced |
| Bytes.Utf8Examples | src/api/server.ts:383-397 | one, two, three and four byte examples from section 7 of RFC 3629 |
| Bytes.SurvivesWhenWellFormed | src/local/postgresState.ts:19-23 | a text survives UTF-8 exactly when it has no lone surrogate |
| Bytes.Base64RoundTrip | src/local/postgresState.ts:21-43 | decoding base64 gives the bytes back, with and without padding |
| Bytes.Base64Examples | src/local/postgresState.ts:21-43 | examples from section 10 of RFC 4648, with and without padding, in both alphabets |
| Bytes.Base64UrlAlphabet | src/api/server.ts:394 | an encoded token uses only the letters, digits, hyphen and underscore that the decoder admits |
| GalleryCursors.TokenRoundTrip | src/api/server.ts:383-397 | a token of at most 512 characters gives its value back; a longer one is refused |
| GalleryCursors.GalleryCursorRoundTrip | src/api/server.ts:383-410 | decoding an encoded valid cursor gives it back exactly when its token fits |
| GalleryCursors.ClaimCursorRoundTrip | src/api/server.ts:449-483 | the same for the cursor of the claimed gallery and its ISO time |
| CursorLengths.GalleryCursorFits | src/api/server.ts:383-410 | a gallery cursor comes back exactly when its three numbers have at most 319 digits together |
| CursorLengths.ClaimCursorFits | src/api/server.ts:449-483 | a claim's cursor always comes back |
| CursorTexts.KeyText | src/api/server.ts:383-390 | a gallery cursor spells a list of its block in quotes, its transaction and log index, and its id |
| CursorTexts.GalleryDecodesExactly | src/api/server.ts:392-410 | the decoder gives a cursor exactly for the tokens that hold that valid cursor's own value |
| CursorTexts.ClaimDecodesExactly | src/api/server.ts:449-459 | the same for claims, whose cursors name their tab |
| TaggedSnapshot.TextMarkerReads | src/local/postgresState.ts:19-43 | a tagged text reads back as the text with its lone surrogates replaced |
| TaggedSnapshot.MarkersKept | src/local/postgresState.ts:28-45 | encoding a record neither creates nor removes what looks like a marker |
| TaggedSnapshot.SnapshotRoundTrip | src/local/postgresState.ts:14-48 | an encodable value decodes to itself if and only if no record masquerades as a marker and no NUL-bearing text has a lone surrogate |
| TaggedSnapshot.MarkerSpelling | src/local/postgresState.ts:14-43 | the marker's two fields and three tags are spelled as the source spells them |
| TaggedSnapshot.MasqueradeIsLost | src/local/postgresState.ts:36 | a record with the two marker fields comes back as a big integer |
| TaggedSnapshot.EncodedIsNulFree | src/local/postgresState.ts:16-23 | no text value of an encoded snapshot contains a NUL, at any depth |
| CompositionText.NormalizedIsCanonical | src/brand/signatureComposition.ts:154-177 | accepted display text is printable ASCII of 1 to 512 characters, without blanks at the ends or double spaces |
| CompositionText.CanonicalStays | src/brand/signatureComposition.ts:154-177 | text is its own normal form exactly when it is canonical |
| CompositionText.TokenizeSignatureWords | src/brand/signatureComposition.ts:202-238 | the scanning loop finds the words of the text, or the first error |
| CompositionText.TokensPartition | src/brand/signatureComposition.ts:204-229 | tokens are numbered in order, do not overlap, spell their own stretch of the text, and cover every word character |
| CompositionWords.NormalizedKeepsWords | src/brand/signatureComposition.ts:154-177 | normalizing changes nothing but blanks: the same words, letter by letter, in the same order |
| CompositionWords.NormalizedErrors | src/brand/signatureComposition.ts:158-175 | a text without words is refused as a specification, only characters beyond printable ASCII as bad words, and nothing else but for its length |
| CompositionWords.TokensAreWords | src/brand/signatureComposition.ts:202-229 | the tokens are the longest stretches of word characters and question marks, and the text is refused exactly when one of them is no renderer input |
| CompositionWords.JoinedIsPhrase | src/brand/signatureComposition.ts:178-195 | two or more parts of up to fifteen letters and digits, joined by single underscores, are a phrase |
| CompositionWords.PhraseIsJoined | src/brand/signatureComposition.ts:178-195 | and every phrase is so joined |
| CompositionWords.WordCount | src/brand/signatureComposition.ts:202-238 | an accepted text has from one to 64 words |
| CompositionWords.InputLimits | src/brand/signatureComposition.ts:178-195 | a word alone is an input with 1 to 15 letters, and so it is with a question mark on top |
| CompositionWords.LongestPhrase | src/brand/signatureComposition.ts:178-195 | six parts of 15 make the longest phrase, which still takes a question mark |
| Composition.CollectFirstTokens | src/brand/signatureComposition.ts:532-535 | the map loop keeps the first token of every distinct input, in text order |
| Composition.CaptureSignatureComposition | src/brand/signatureComposition.ts:523-621 | checks, tokens, one rendering for each distinct input, and the proposed lock |
| Composition.AssertSignatureShapeLock | src/brand/signatureComposition.ts:624-661 | the two loops over glyphs and lock entries, with their three errors |
| Composition.RestoreGlyphs | src/brand/signatureComposition.ts:789-845 | the loop that rebuilds stored glyphs and remembers which inputs it has seen |
| Composition.RestoreSignatureCompositionSnapshot | src/brand/signatureComposition.ts:682-884 | a stored composition is checked and rebuilt in the source's order |
| CompositionGuarantees.LockIsExact | src/brand/signatureComposition.ts:624-661 | a lock is accepted exactly when it locks every glyph with its own digest and nothing else |
| CompositionWords.LockErrors | src/brand/signatureComposition.ts:624-661 | the first glyph that is not locked as it is decides the error; with none, an input too many |
| CompositionGuarantees.FirstTokensCover | src/brand/signatureComposition.ts:532-535 | first tokens have distinct inputs, cover every token's input, and are tokens of the text |
| CompositionWords.FirstTokensAreFirst | src/brand/signatureComposition.ts:532-535 | each of them is the first token in the text with its input |
| CompositionWords.LowerCaseIs | src/brand/signatureComposition.ts:746 | the older schema's inputs have every capital as its small letter and all else as it is |
| CompositionGuarantees.EveryWordHasItsGlyph | src/brand/signatureComposition.ts:783-853 | the length, no-duplicate and membership checks force a glyph for every word |
| CompositionGuarantees.ExactLocksAgree | src/brand/signatureComposition.ts:869-878 | two exact locks of the same glyphs are equal, so comparing them cannot fail |
| CompositionGuarantees.RestoringIsAFixedPoint | src/brand/signatureComposition.ts:682-891 | a composition is accepted exactly when it agrees with itself in every part, restores to itself, and never meets the missing-word or differing-locks check |
| CompositionWords.RestoredWords | src/brand/signatureComposition.ts:742-782 | the words of a composition that restores are those of its own text, spelled as they stand there; the older schema folds the case of what is rendered |
| LockedShapes.DescriptionDetermines | src/brand/signatureComposition.ts:367-378 | two digested descriptions are the same text exactly when the canvases are spelled alike and the drawings are the same |
| LockedShapes.LockFixesGeometry | src/brand/signatureComposition.ts:824-831 | two restored compositions with the same lock draw the same word alike, on the same canvas as spelled, exactly when their two descriptions are not a collision of the digest |
| LockedShapes.SampleIsPlain | src/brand/signatureComposition.ts:367-378 | what the two rows above ask of digest and number spelling can be met at once |
| CompiledCompositions.LockOfIsExact | src/brand/signatureComposition.ts:606-607 | the proposed lock of captured glyphs is exact |
| CompiledCompositions.CompiledParts | src/brand/signatureComposition.ts:664-675 | a compiled composition's tokens, glyphs and locks come from its own text, renderer and reviewed lock |
| CompositionWords.CompiledFromParts | src/brand/signatureComposition.ts:523-675 | every glyph is the rendering of its own input, part by part, named after its first word, with the digest of its shape |
| CompositionWords.RefusedInOrder | src/brand/signatureComposition.ts:523-535 | before anything is rendered a bad id, reading, text or word is refused, in this order |
| CompositionWords.DescriptionText | src/brand/signatureComposition.ts:367-378 | the digested text of a filled shape: its canvas, then its path |
| CompositionWords.StrokeText | src/brand/signatureComposition.ts:367-378 | the lines of a stroke: its width, cap and join, then its path |
| CompiledCompositions.CompiledRestores | src/brand/signatureComposition.ts:664-891 | a compiled composition restores to itself exactly when the version is printable and the dimensions are safe |
| CompiledCompositions.CompiledIsLost | src/brand/signatureComposition.ts:664-737 | compositions that compile and are then refused by restoring: a version with a blank, and a canvas beyond the safe integers |
| CompiledCompositions.ResolvePlacements | src/brand/signatureComposition.ts:920-977 | the placement loop and the resolving loop, with their errors |
| CompiledCompositions.PlacedIndices | src/brand/signatureComposition.ts:929-956 | accepted placements have distinct indices in range |
| CompiledCompositions.PlacedExactly | src/brand/signatureComposition.ts:920-956 | placements are accepted exactly when there is one for every word, each word once, all with positive scales |
| CompiledCompositions.EveryTokenIsResolved | src/brand/signatureComposition.ts:958-977 | in a restored composition with accepted placements every token resolves to its own placement, shown word, input and the locked digest of its glyph, so the last check cannot fail |

## Left out

- IEEE rounding: coordinates, weights and roots are exact reals; `sqrt`, `hypot`, `cos`, `sin` and pi are parameters known only by their defining equations.
- PathPrinting.PrintedPathLexes: coordinates of magnitude 1e21 and more, which `toFixed` prints with an exponent, are not covered; no signature has one (`PrintedSignatures`). A tie between two hundredths goes away from zero.
- PathPrinting.CoordinateValue: the modelled text has two decimals at every magnitude, which is what `toFixed` prints below 1e21.
- PrintedBounds.PrintedPathDraws: the same limit on coordinates.
- Signatures.RenderPath: ends at the path commands; output sizes, upper-casing the type and the SVG around the path are not modelled.
- FormalSignatures.RenderText: ends at the path commands, as does `RenderHandle`; output sizes and the SVG are not modelled.
- SVG composition, number spelling in XML, background and ink colours, output sizes; the four-letter type is taken in upper case.
- SHA-256 is an uninterpreted function; nothing assumes that it has no collisions.
- CanonicalJson.CanonicalPrintsNormal: numbers are integers and fields that are undefined do not occur, as in the scopes that are hashed.
- Joint continuity for `src/algorithm/geometry.ts`, whose handle lengths may be zero, and its vertical scaling, its average distribution and its centre-line paths.
- Texts are sequences of characters; grapheme segmentation and Unicode normalization of text that is not ASCII are the platform's.
- Promises and queries are steps of a state machine: microtask order within a step is not modelled; a checkpoint called outside every operation, which only throws, is no step.
- MintRuntime.LocalMintRuntime.SaveReconciled: the tick is that of the reconciler; one that throws before its save reaches the body as an error of its own and changes nothing.
- Releasing the writer's lock is a step without a method; other processes writing to the database, `saveSnapshot` and its callers, which bypass the exclusive writer, are not modelled.
- `claimWithdrawalRuntime`, `requireChainReady` and the shutdown sequence: compositions of modelled calls that add no state of their own.
- ChainReconciler: the indexer's reducer is abstract, with the contract that scanning and promoting keep the deployment, promotion moves the cursor to the boundary, every newly finalized entry comes from a scanned mint log, and revoking leaves nothing finalized.
- ReconcilerTick.ReadLogs: digest, attestation, calldata, metadata, artifacts and token URI of a mint are one check with one code; the completeness check over all receipts of a scan is one answer of the node.
- ReconcilerTick.ScanWindow: a node that answers with a header of another height is treated as unavailable.
- ReconcilerExpiry.DeadForGood and ReconcilerFinality.ExpiryIsFinal: operations between ticks are assumed not to expire, revive or unconsume an authorization, not to add gallery cards and not to reuse an id; the mint store itself is not part of this model.
- ReconcilerCursor.SteadyHead and ReconcilerCursor.CatchesUp: speak of ticks that succeed; `ServedTicksSucceed` gives the conditions on node, logs and reducer under which they do.
- Insertion order of maps where nothing depends on it: projections and gallery are maps, not entry lists.
- OAuthTraces.IdentitiesAreTraced: random tokens are assumed not to repeat; URL encoding, redirect parameters and constant-time comparison are not modelled.
- OAuthTraces.EverythingWorksOnce: under the same assumption on random tokens.
- HTTP routing, sessions, page rendering, and suppression that changes while a page is being collected.
- GalleryCursors.TokenRoundTrip: of foreign tokens only compact JSON with integers is read, which is stricter than the platform's parser; the date library is a parameter whose reading undoes its writing.
- Gallery.GalleryCardViews: the list is what the store's `listGallery` returned; that it has by then removed the suppressed cards itself is not modelled, only the later removals are.
- Bytes.Utf8RoundTrip: what a lenient decoder substitutes for malformed bytes is not modelled; well-formed UTF-8 as in RFC 3629, base64 as in sections 4 and 5 of RFC 4648.
- TaggedSnapshot.SnapshotRoundTrip: ends at the JSON tree; its text form, key reordering by the database and integer-like keys are not modelled.
- Composition.RestoreSignatureCompositionSnapshot: the stored value has the shape of a composition; rejecting other shapes, extra keys and non-plain objects is typing here.
- Composition.CaptureSignatureComposition: extracting the viewport and the one path from a renderer's SVG is a parameter with the contract `Renderer.Valid`.
- CompiledCompositions.ResolvePlacements: the checks of view box, output size, property names and number text of a presentation are not modelled.
- Generated frames, shape-lock data, configuration loaders and design-study pages: data, or easy.
