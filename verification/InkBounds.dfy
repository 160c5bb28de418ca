/**
 Exact ink bounds of a path: an interpreter that walks the tokens and includes
 end points and stationary points, proved to return the smallest box around
 every drawn point.
 */
module InkBounds {
  import opened Wrappers
  import opened Vectors
  import opened Cubics
  import opened PathSyntax

  datatype Box = Box(minX: real, minY: real, maxX: real, maxY: real)

  datatype PathError =
    | Syntax(error: LexError)
    | MissingMoveTo
    | CommandRequired
    | SubpathRequired
    | CurrentPointRequired
    | IncompleteCoordinates
    | NothingDrawn

  datatype Segment = Line(start: Vector, end: Vector) | Curve(start: Vector, c1: Vector, c2: Vector, end: Vector)

  function PointOn(s: Segment, t: real): Vector {
    match s
    case Line(p, q) => Vector((1.0 - t) * p.x + t * q.x, (1.0 - t) * p.y + t * q.y)
    case Curve(p, c1, c2, q) => Vector(CubicAt(p.x, c1.x, c2.x, q.x, t), CubicAt(p.y, c1.y, c2.y, q.y, t))
  }

  // ----- what the bounds mean -----

  predicate Inside(b: Box, p: Vector) {
    b.minX <= p.x <= b.maxX && b.minY <= p.y <= b.maxY
  }

  ghost predicate Contains(b: Box, segments: seq<Segment>) {
    forall i, t: real :: 0 <= i < |segments| && 0.0 <= t <= 1.0 ==> Inside(b, PointOn(segments[i], t))
  }

  ghost predicate Drawn(segments: seq<Segment>, p: Vector) {
    exists i, t: real :: 0 <= i < |segments| && 0.0 <= t <= 1.0 && PointOn(segments[i], t) == p
  }

  /** Every side of the box is touched by some drawn point. */
  ghost predicate Touches(b: Box, segments: seq<Segment>) {
    && (exists p :: Drawn(segments, p) && p.x == b.minX)
    && (exists p :: Drawn(segments, p) && p.y == b.minY)
    && (exists p :: Drawn(segments, p) && p.x == b.maxX)
    && (exists p :: Drawn(segments, p) && p.y == b.maxY)
  }

  ghost predicate Tight(b: Box, segments: seq<Segment>) {
    Contains(b, segments) && Touches(b, segments)
  }

  /** There is only one tight box. */
  lemma TightIsUnique(b: Box, c: Box, segments: seq<Segment>)
    requires Tight(b, segments) && Tight(c, segments)
    ensures b == c
  {}

  // ----- the segments that a token list draws -----

  type DrawResult = Result<seq<Segment>, PathError>

  function Continue(segments: seq<Segment>, r: DrawResult): DrawResult {
    if r.Ok? then Ok(segments + r.value) else r
  }

  predicate HasPoint(tokens: seq<Token>) {
    |tokens| >= 2 && tokens[0].Number? && tokens[1].Number?
  }

  function PointAt(tokens: seq<Token>): Vector
    requires HasPoint(tokens)
  {
    Vector(tokens[0].value, tokens[1].value)
  }

  /**
   The drawing of the remaining tokens under the command in force, from the
   current point of the subpath that began at start.
   */
  function Draw(tokens: seq<Token>, command: Option<Command>, current: Option<Vector>, start: Option<Vector>): DrawResult
    requires command != Some(Z)
    decreases 2 * |tokens|, 1
  {
    if tokens == [] then Ok([])
    else if tokens[0].Letter? then Obey(tokens[1..], tokens[0].command, current, start)
    else if command.None? then Err(CommandRequired)
    else Obey(tokens, command.value, current, start)
  }

  function Obey(tokens: seq<Token>, command: Command, current: Option<Vector>, start: Option<Vector>): DrawResult
    decreases 2 * |tokens| + (if command.Z? then 1 else 0), 0
  {
    match command
    case Z =>
      if current.None? || start.None? then Err(SubpathRequired)
      else Continue([Line(current.value, start.value)], Draw(tokens, None, start, start))
    case M =>
      if !HasPoint(tokens) then Err(IncompleteCoordinates)
      else Draw(tokens[2..], Some(L), Some(PointAt(tokens)), Some(PointAt(tokens)))
    case L =>
      if current.None? then Err(CurrentPointRequired)
      else if !HasPoint(tokens) then Err(IncompleteCoordinates)
      else Continue([Line(current.value, PointAt(tokens))], Draw(tokens[2..], Some(L), Some(PointAt(tokens)), start))
    case C =>
      if current.None? then Err(CurrentPointRequired)
      else if !HasPoint(tokens) || !HasPoint(tokens[2..]) || !HasPoint(tokens[4..]) then Err(IncompleteCoordinates)
      else
        var end := PointAt(tokens[4..]);
        Continue([Curve(current.value, PointAt(tokens), PointAt(tokens[2..]), end)], Draw(tokens[6..], Some(C), Some(end), start))
  }

  /** The segments that the path text draws. */
  function PathSegments(d: string): DrawResult {
    match Lex(d, false, false)
    case Err(e) => Err(Syntax(e))
    case Ok(tokens) =>
      if tokens == [] || tokens[0] != Letter(M) then Err(MissingMoveTo) else Draw(tokens, None, None, None)
  }

  // ----- the key points of a segment -----

  function Include(b: Option<Box>, p: Vector): Option<Box> {
    match b
    case None => Some(Box(p.x, p.y, p.x, p.y))
    case Some(box) => Some(Box(Lesser(box.minX, p.x), Lesser(box.minY, p.y), Greater(box.maxX, p.x), Greater(box.maxY, p.y)))
  }

  function IncludeAll(b: Option<Box>, points: seq<Vector>): Option<Box> {
    if points == [] then b else Include(IncludeAll(b, points[..|points| - 1]), points[|points| - 1])
  }

  /** The points of the segment at those of the parameters that are strictly inside (0, 1). */
  function InnerPoints(s: Segment, ts: seq<real>): seq<Vector> {
    if ts == [] then []
    else
      var t := ts[|ts| - 1];
      InnerPoints(s, ts[..|ts| - 1]) + (if 0.0 < t < 1.0 then [PointOn(s, t)] else [])
  }

  function StationaryParameters(s: Segment, sqrt: real -> real): seq<real>
    requires IsSquareRoot(sqrt)
  {
    match s
    case Line(_, _) => []
    case Curve(p, c1, c2, q) => CubicExtrema(p.x, c1.x, c2.x, q.x, sqrt) + CubicExtrema(p.y, c1.y, c2.y, q.y, sqrt)
  }

  function KeyPoints(s: Segment, sqrt: real -> real): seq<Vector>
    requires IsSquareRoot(sqrt)
  {
    [s.start, s.end] + InnerPoints(s, StationaryParameters(s, sqrt))
  }

  lemma EndPoints(s: Segment)
    ensures PointOn(s, 0.0) == s.start && PointOn(s, 1.0) == s.end
  {}

  ghost predicate IsOn(s: Segment, p: Vector) {
    exists t :: 0.0 <= t <= 1.0 && PointOn(s, t) == p
  }

  lemma {:induction false} InnerPointsAreOn(s: Segment, ts: seq<real>)
    ensures forall p :: p in InnerPoints(s, ts) ==> IsOn(s, p)
    ensures forall t :: t in ts && 0.0 < t < 1.0 ==> PointOn(s, t) in InnerPoints(s, ts)
  {
    hide PointOn;
    if ts != [] {
      var init, last := ts[..|ts| - 1], ts[|ts| - 1];
      InnerPointsAreOn(s, init);
      assert ts == init + [last];
    }
  }

  lemma KeyPointsAreOn(s: Segment, sqrt: real -> real)
    requires IsSquareRoot(sqrt)
    ensures forall p :: p in KeyPoints(s, sqrt) ==> IsOn(s, p)
  {
    EndPoints(s);
    InnerPointsAreOn(s, StationaryParameters(s, sqrt));
    hide PointOn, StationaryParameters;
    assert IsOn(s, s.start) && IsOn(s, s.end);
  }

  /** The parameter of a key point: an end, or a stationary parameter strictly inside. */
  lemma KeyPointAt(s: Segment, sqrt: real -> real, t: real)
    requires IsSquareRoot(sqrt)
    requires t == 0.0 || t == 1.0 || (0.0 < t < 1.0 && t in StationaryParameters(s, sqrt))
    ensures PointOn(s, t) in KeyPoints(s, sqrt)
  {
    EndPoints(s);
    InnerPointsAreOn(s, StationaryParameters(s, sqrt));
    hide PointOn, StationaryParameters;
    assert KeyPoints(s, sqrt)[0] == s.start && KeyPoints(s, sqrt)[1] == s.end;
    if 0.0 < t < 1.0 {
      assert PointOn(s, t) in InnerPoints(s, StationaryParameters(s, sqrt));
    }
  }

  /** A box around the key points is around the whole segment. */
  lemma KeyPointsBound(s: Segment, sqrt: real -> real, b: Box, t: real)
    requires IsSquareRoot(sqrt) && 0.0 <= t <= 1.0
    requires forall p :: p in KeyPoints(s, sqrt) ==> Inside(b, p)
    ensures Inside(b, PointOn(s, t))
  {
    match s
    case Line(p, q) =>
      assert p == KeyPoints(s, sqrt)[0] && q == KeyPoints(s, sqrt)[1];
      assert Inside(b, p) && Inside(b, q);
      hide KeyPoints;
      Mix(p.x, q.x, b.minX, b.maxX, t);
      Mix(p.y, q.y, b.minY, b.maxY, t);
    case Curve(p, c1, c2, q) =>
      hide CubicExtrema, CubicAt, KeyPoints, IsSquareRoot, Inside;
      var lx, hx := BoundedByExtrema(p.x, c1.x, c2.x, q.x, sqrt, t);
      var ly, hy := BoundedByExtrema(p.y, c1.y, c2.y, q.y, sqrt, t);
      KeyPointInside(s, sqrt, b, lx);
      KeyPointInside(s, sqrt, b, hx);
      KeyPointInside(s, sqrt, b, ly);
      KeyPointInside(s, sqrt, b, hy);
      BetweenInside(b, PointOn(s, t), PointOn(s, lx), PointOn(s, hx), PointOn(s, ly), PointOn(s, hy));
  }

  lemma BetweenInside(b: Box, p: Vector, lx: Vector, hx: Vector, ly: Vector, hy: Vector)
    requires Inside(b, lx) && Inside(b, hx) && Inside(b, ly) && Inside(b, hy)
    requires Between(lx.x, p.x, hx.x) && Between(ly.y, p.y, hy.y)
    ensures Inside(b, p)
  {}

  lemma KeyPointInside(s: Segment, sqrt: real -> real, b: Box, t: real)
    requires IsSquareRoot(sqrt)
    requires t == 0.0 || t == 1.0 || (0.0 < t < 1.0 && t in StationaryParameters(s, sqrt))
    requires forall p :: p in KeyPoints(s, sqrt) ==> Inside(b, p)
    ensures Inside(b, PointOn(s, t))
  {
    KeyPointAt(s, sqrt, t);
  }

  lemma Mix(p: real, q: real, lo: real, hi: real, t: real)
    requires lo <= p <= hi && lo <= q <= hi && 0.0 <= t <= 1.0
    ensures lo <= (1.0 - t) * p + t * q <= hi
  {
    NonnegativeProduct(1.0 - t, p - lo);
    NonnegativeProduct(t, q - lo);
    NonnegativeProduct(1.0 - t, hi - p);
    NonnegativeProduct(t, hi - q);
    assert (1.0 - t) * (p - lo) + t * (q - lo) == (1.0 - t) * p + t * q - lo;
    assert (1.0 - t) * (hi - p) + t * (hi - q) == hi - ((1.0 - t) * p + t * q);
  }

  /** The box reaches at least as far as b, and each of its sides is one of b's or a listed point's. */
  ghost predicate Grown(r: Box, b: Option<Box>, points: seq<Vector>) {
    && (forall p :: p in points ==> Inside(r, p))
    && (b.Some? ==> r.minX <= b.value.minX && r.minY <= b.value.minY && b.value.maxX <= r.maxX && b.value.maxY <= r.maxY)
    && ((b.Some? && r.minX == b.value.minX) || exists p :: p in points && p.x == r.minX)
    && ((b.Some? && r.minY == b.value.minY) || exists p :: p in points && p.y == r.minY)
    && ((b.Some? && r.maxX == b.value.maxX) || exists p :: p in points && p.x == r.maxX)
    && ((b.Some? && r.maxY == b.value.maxY) || exists p :: p in points && p.y == r.maxY)
  }

  lemma IncludeFirst(p: Vector)
    ensures Include(None, p).Some? && Grown(Include(None, p).value, None, [p])
  {
    assert p in [p];
  }

  lemma {:induction false} IncludeNext(r: Box, b: Option<Box>, points: seq<Vector>, p: Vector)
    requires Grown(r, b, points)
    ensures Include(Some(r), p).Some? && Grown(Include(Some(r), p).value, b, points + [p])
  {
    var more := points + [p];
    assert p in more && forall q :: q in points ==> q in more;
    assert forall q :: q in more <==> q in points || q == p;
  }

  lemma NothingIncluded(b: Box)
    ensures Grown(b, Some(b), [])
  {}

  lemma {:induction false} IncludeAllBounds(b: Option<Box>, points: seq<Vector>)
    requires points != [] || b.Some?
    ensures IncludeAll(b, points).Some? && Grown(IncludeAll(b, points).value, b, points)
  {
    hide Grown, Include;
    if points == [] {
      NothingIncluded(b.value);
    } else {
      var init, last := points[..|points| - 1], points[|points| - 1];
      assert points == init + [last];
      if init != [] || b.Some? {
        IncludeAllBounds(b, init);
        IncludeNext(IncludeAll(b, init).value, b, init, last);
      } else {
        assert points == [last] && IncludeAll(b, init) == None;
        IncludeFirst(last);
      }
    }
  }

  // ----- growing a tight box -----

  ghost predicate TightSoFar(b: Option<Box>, segments: seq<Segment>) {
    if b.None? then segments == [] else segments != [] && Tight(b.value, segments)
  }

  lemma DrawnMore(segments: seq<Segment>, s: Segment, p: Vector)
    ensures Drawn(segments, p) ==> Drawn(segments + [s], p)
    ensures IsOn(s, p) ==> Drawn(segments + [s], p)
  {
    hide PointOn;
    var more := segments + [s];
    if Drawn(segments, p) {
      var i, t :| 0 <= i < |segments| && 0.0 <= t <= 1.0 && PointOn(segments[i], t) == p;
      assert PointOn(more[i], t) == p;
    }
    if IsOn(s, p) {
      var t :| 0.0 <= t <= 1.0 && PointOn(s, t) == p;
      assert PointOn(more[|segments|], t) == p;
    }
  }

  lemma GrowTight(b: Option<Box>, segments: seq<Segment>, s: Segment, sqrt: real -> real)
    requires IsSquareRoot(sqrt) && TightSoFar(b, segments)
    ensures TightSoFar(IncludeAll(b, KeyPoints(s, sqrt)), segments + [s])
  {
    var points := KeyPoints(s, sqrt);
    IncludeAllBounds(b, points);
    KeyPointsAreOn(s, sqrt);
    hide PointOn, KeyPoints, IncludeAll;
    var r := IncludeAll(b, points).value;
    var more := segments + [s];
    forall i, t: real | 0 <= i < |more| && 0.0 <= t <= 1.0
      ensures Inside(r, PointOn(more[i], t))
    {
      if i < |segments| {
        assert Inside(b.value, PointOn(segments[i], t));
      } else {
        KeyPointsBound(s, sqrt, r, t);
      }
    }
    forall p
      ensures Drawn(segments, p) || p in points ==> Drawn(more, p)
    {
      DrawnMore(segments, s, p);
    }
  }

  lemma IncludeOneMore(b: Option<Box>, points: seq<Vector>, p: Vector)
    ensures IncludeAll(b, points + [p]) == Include(IncludeAll(b, points), p)
  {}

  lemma InnerPointsStep(s: Segment, ts: seq<real>, k: nat)
    requires k < |ts|
    ensures InnerPoints(s, ts[..k + 1]) == InnerPoints(s, ts[..k]) + (if 0.0 < ts[k] < 1.0 then [PointOn(s, ts[k])] else [])
  {
    hide PointOn;
    assert ts[..k + 1][..k] == ts[..k];
  }

  lemma ContinueTwice(a: seq<Segment>, b: seq<Segment>, r: DrawResult)
    ensures Continue(a, Continue(b, r)) == Continue(a + b, r)
    ensures Continue([], r) == r
  {
    if r.Ok? {
      assert a + (b + r.value) == (a + b) + r.value;
      assert [] + r.value == r.value;
    }
  }

  // ----- the interpreter -----

  lemma IncludeEnds(b: Option<Box>, s: Segment)
    ensures IncludeAll(b, [s.start, s.end] + InnerPoints(s, [])) == Include(Include(b, s.start), s.end)
  {
    IncludeOneMore(b, [], s.start);
    IncludeOneMore(b, [s.start], s.end);
    hide Include;
    assert [] + [s.start] == [s.start] && [s.start] + [s.end] == [s.start, s.end];
    assert [s.start, s.end] + InnerPoints(s, []) == [s.start, s.end];
  }

  /** One stationary parameter more: its point, if it lies strictly inside. */
  lemma IncludeInner(b: Option<Box>, ends: seq<Vector>, s: Segment, ts: seq<real>, k: nat)
    requires k < |ts|
    ensures IncludeAll(b, ends + InnerPoints(s, ts[..k + 1]))
            == if 0.0 < ts[k] < 1.0 then Include(IncludeAll(b, ends + InnerPoints(s, ts[..k])), PointOn(s, ts[k]))
               else IncludeAll(b, ends + InnerPoints(s, ts[..k]))
  {
    InnerPointsStep(s, ts, k);
    hide PointOn, Include, IncludeAll, InnerPoints;
    var inner, p := InnerPoints(s, ts[..k]), PointOn(s, ts[k]);
    IncludeOneMore(b, ends + inner, p);
    assert ends + (inner + [p]) == (ends + inner) + [p];
    assert inner + [] == inner;
  }

  /** Includes a drawn segment: its two ends, then its stationary points in order. */
  method IncludeSegment(before: Option<Box>, s: Segment, sqrt: real -> real) returns (bounds: Option<Box>)
    requires IsSquareRoot(sqrt)
    ensures bounds == IncludeAll(before, KeyPoints(s, sqrt))
  {
    hide PointOn, IsSquareRoot, StationaryParameters, Include, IncludeAll, InnerPoints;
    ghost var ends := [s.start, s.end];
    IncludeEnds(before, s);
    bounds := Include(before, s.start);
    bounds := Include(bounds, s.end);
    var ts := StationaryParameters(s, sqrt);
    assert ts[..0] == [];
    for i := 0 to |ts|
      invariant bounds == IncludeAll(before, ends + InnerPoints(s, ts[..i]))
    {
      IncludeInner(before, ends, s, ts, i);
      if 0.0 < ts[i] < 1.0 {
        bounds := Include(bounds, PointOn(s, ts[i]));
      }
    }
    assert ts[..|ts|] == ts;
  }

  /** Where the interpreter stands: the next token, the command in force, the current point, the subpath's start. */
  datatype Cursor = Cursor(index: nat, command: Option<Command>, current: Option<Vector>, start: Option<Vector>)

  function DrawFrom(tokens: seq<Token>, at: Cursor): DrawResult
    requires at.index <= |tokens| && at.command != Some(Z)
  {
    Draw(tokens[at.index..], at.command, at.current, at.start)
  }

  /** Obeys one command: the segment it draws, if any, and where the interpreter stands after it. */
  method Execute(tokens: seq<Token>, index: nat, command: Command, current: Option<Vector>, start: Option<Vector>)
    returns (r: Result<(Option<Segment>, Cursor), PathError>)
    requires index <= |tokens|
    ensures r.Err? ==> Obey(tokens[index..], command, current, start) == Err(r.error)
    ensures r.Ok? ==>
      var (drawn, next) := r.value;
      && index <= next.index <= |tokens| && next.command != Some(Z) && (!command.Z? ==> index < next.index)
      && (drawn.Some? ==> next.current == Some(drawn.value.end))
      && Obey(tokens[index..], command, current, start)
         == Continue(if drawn.Some? then [drawn.value] else [], DrawFrom(tokens, next))
  {
    ghost var rest := tokens[index..];
    if command == Z {
      if current.None? || start.None? {
        return Err(SubpathRequired);
      }
      return Ok((Some(Line(current.value, start.value)), Cursor(index, None, start, start)));
    }
    if command == M {
      if !HasPoint(tokens[index..]) {
        return Err(IncompleteCoordinates);
      }
      var p := PointAt(tokens[index..]);
      assert rest[2..] == tokens[index + 2..];
      ContinueTwice([], [], Draw(rest[2..], Some(L), Some(p), Some(p)));
      return Ok((None, Cursor(index + 2, Some(L), Some(p), Some(p))));
    }
    if current.None? {
      return Err(CurrentPointRequired);
    }
    if !HasPoint(tokens[index..]) {
      return Err(IncompleteCoordinates);
    }
    assert rest[2..] == tokens[index + 2..];
    if command == L {
      var p := PointAt(tokens[index..]);
      return Ok((Some(Line(current.value, p)), Cursor(index + 2, Some(L), Some(p), start)));
    }
    if !HasPoint(tokens[index + 2..]) || !HasPoint(tokens[index + 4..]) {
      return Err(IncompleteCoordinates);
    }
    assert rest[4..] == tokens[index + 4..] && rest[6..] == tokens[index + 6..];
    var end := PointAt(tokens[index + 4..]);
    return Ok((Some(Curve(current.value, PointAt(tokens[index..]), PointAt(tokens[index + 2..]), end)),
               Cursor(index + 6, Some(C), Some(end), start)));
  }

  lemma DrawOne(tokens: seq<Token>, at: Cursor)
    requires at.index < |tokens| && at.command != Some(Z)
    ensures DrawFrom(tokens, at) ==
            if tokens[at.index].Letter? then Obey(tokens[at.index + 1..], tokens[at.index].command, at.current, at.start)
            else if at.command.None? then Err(CommandRequired)
            else Obey(tokens[at.index..], at.command.value, at.current, at.start)
  {}

  /**
   The bounds of the path text: an error exactly when the text is not a path or
   draws nothing, otherwise the one box that contains every drawn point and is
   touched by one on every side.
   */
  method PathInkBounds(d: string, sqrt: real -> real) returns (r: Result<Box, PathError>)
    requires IsSquareRoot(sqrt)
    ensures PathSegments(d).Err? ==> r == Err(PathSegments(d).error)
    ensures PathSegments(d) == Ok([]) ==> r == Err(NothingDrawn)
    ensures PathSegments(d).Ok? && PathSegments(d).value != [] ==> r.Ok? && Tight(r.value, PathSegments(d).value)
  {
    hide Tight, KeyPoints, IsSquareRoot, Obey, Draw, Lex;
    var lexed := PathTokens(d);
    if lexed.Err? {
      return Err(Syntax(lexed.error));
    }
    var tokens := lexed.value;
    if tokens == [] || tokens[0] != Letter(M) {
      return Err(MissingMoveTo);
    }
    var at := Cursor(0, None, None, None);
    var bounds: Option<Box> := None;
    ghost var segments: seq<Segment> := [];
    assert tokens[0..] == tokens;
    ContinueTwice([], [], DrawFrom(tokens, at));
    while at.index < |tokens|
      invariant at.index <= |tokens| && at.command != Some(Z)
      invariant Draw(tokens, None, None, None) == Continue(segments, DrawFrom(tokens, at))
      invariant TightSoFar(bounds, segments)
      decreases |tokens| - at.index
    {
      DrawOne(tokens, at);
      var command, index := at.command, at.index;
      if tokens[index].Letter? {
        command, index := Some(tokens[index].command), index + 1;
      }
      if command.None? {
        return Err(CommandRequired);
      }
      var step := Execute(tokens, index, command.value, at.current, at.start);
      if step.Err? {
        return Err(step.error);
      }
      var (drawn, next) := step.value;
      if drawn.Some? {
        GrowTight(bounds, segments, drawn.value, sqrt);
        ContinueTwice(segments, [drawn.value], DrawFrom(tokens, next));
        bounds := IncludeSegment(bounds, drawn.value, sqrt);
        segments := segments + [drawn.value];
      } else {
        ContinueTwice([], [], DrawFrom(tokens, next));
      }
      at := next;
    }
    DrawNothing(tokens, at);
    assert segments + [] == segments;
    assert PathSegments(d) == Ok(segments);
    if bounds.None? {
      return Err(NothingDrawn);
    }
    return Ok(bounds.value);
  }

  lemma DrawNothing(tokens: seq<Token>, at: Cursor)
    requires at.index == |tokens| && at.command != Some(Z)
    ensures DrawFrom(tokens, at) == Ok([])
  {}

  // ----- errors that no path text can cause -----

  predicate Reachable(r: DrawResult) {
    r.Ok? || (r.error != SubpathRequired && r.error != CurrentPointRequired)
  }

  lemma {:induction false} DrawInSubpath(tokens: seq<Token>, command: Option<Command>, current: Vector, start: Vector)
    requires command != Some(Z)
    ensures Reachable(Draw(tokens, command, Some(current), Some(start)))
    decreases 2 * |tokens|, 1
  {
    if tokens != [] {
      if tokens[0].Letter? {
        ObeyInSubpath(tokens[1..], tokens[0].command, current, start);
      } else if command.Some? {
        ObeyInSubpath(tokens, command.value, current, start);
      }
    }
  }

  lemma {:induction false} ObeyInSubpath(tokens: seq<Token>, command: Command, current: Vector, start: Vector)
    ensures Reachable(Obey(tokens, command, Some(current), Some(start)))
    decreases 2 * |tokens| + (if command.Z? then 1 else 0), 0
  {
    match command
    case Z => DrawInSubpath(tokens, None, start, start);
    case M =>
      if HasPoint(tokens) {
        DrawInSubpath(tokens[2..], Some(L), PointAt(tokens), PointAt(tokens));
      }
    case L =>
      if HasPoint(tokens) {
        DrawInSubpath(tokens[2..], Some(L), PointAt(tokens), start);
      }
    case C =>
      if HasPoint(tokens) && HasPoint(tokens[2..]) && HasPoint(tokens[4..]) {
        DrawInSubpath(tokens[6..], Some(C), PointAt(tokens[4..]), start);
      }
  }

  /** Because a path starts with a moveto, the interpreter's two missing-point checks can never fail. */
  lemma MissingPointChecksNeverFail(d: string)
    ensures Reachable(PathSegments(d))
  {
    hide Lex;
    var lexed := Lex(d, false, false);
    if lexed.Ok? && lexed.value != [] && lexed.value[0] == Letter(M) {
      var rest := lexed.value[1..];
      assert PathSegments(d) == Obey(rest, M, None, None);
      if HasPoint(rest) {
        DrawInSubpath(rest[2..], Some(L), PointAt(rest), PointAt(rest));
      }
    }
  }

  // ----- the union of boxes -----

  datatype UnionError = EmptyCollection | InvalidBounds

  predicate ValidBox(b: Box) {
    b.minX <= b.maxX && b.minY <= b.maxY
  }

  predicate Within(b: Box, outer: Box) {
    outer.minX <= b.minX && outer.minY <= b.minY && b.maxX <= outer.maxX && b.maxY <= outer.maxY
  }

  /** The least box around all the given ones; an empty list and any reversed box are refused. */
  method UnionInkBounds(bounds: seq<Box>) returns (r: Result<Box, UnionError>)
    ensures bounds == [] <==> r == Err(EmptyCollection)
    ensures (bounds != [] && exists b :: b in bounds && !ValidBox(b)) <==> r == Err(InvalidBounds)
    ensures r.Ok? ==> ValidBox(r.value)
    ensures r.Ok? ==> forall outer :: Within(r.value, outer) <==> forall b :: b in bounds ==> Within(b, outer)
  {
    if bounds == [] {
      return Err(EmptyCollection);
    }
    var union: Option<Box> := None;
    for i := 0 to |bounds|
      invariant union.None? <==> i == 0
      invariant union.Some? ==> ValidBox(union.value)
      invariant forall b :: b in bounds[..i] ==> ValidBox(b)
      invariant union.Some? ==> forall outer :: Within(union.value, outer) <==> forall b :: b in bounds[..i] ==> Within(b, outer)
    {
      var item := bounds[i];
      if !ValidBox(item) {
        return Err(InvalidBounds);
      }
      assert bounds[..i + 1] == bounds[..i] + [item];
      var before := union;
      union := Include(Include(union, Vector(item.minX, item.minY)), Vector(item.maxX, item.maxY));
      forall outer
        ensures Within(union.value, outer) <==> (before.None? || Within(before.value, outer)) && Within(item, outer)
      {}
    }
    assert bounds[..|bounds|] == bounds;
    return Ok(union.value);
  }
}
