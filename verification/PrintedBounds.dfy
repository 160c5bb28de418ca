/** What a printed path draws: the segments of its commands, seen through printing, lexing and interpreting. */
module PrintedBounds {
  import opened Wrappers
  import opened Vectors
  import opened PathSyntax
  import opened PathPrinting
  import opened InkBounds

  /** The segments that a command list draws from a current point, in a subpath begun at start. */
  function Segments(commands: seq<PathCommand>, current: Vector, start: Vector): seq<Segment> {
    if commands == [] then []
    else
      match commands[0]
      case MoveTo(p) => Segments(commands[1..], p, p)
      case LineTo(p) => [Line(current, p)] + Segments(commands[1..], p, start)
      case CurveTo(c1, c2, p) => [Curve(current, c1, c2, p)] + Segments(commands[1..], p, start)
      case Close => [Line(current, start)] + Segments(commands[1..], start, start)
  }

  lemma {:induction false} DrawsMove(p: Vector, rest: seq<Token>, command: Option<Command>, current: Option<Vector>, start: Option<Vector>)
    requires command != Some(Z)
    ensures Draw([Letter(M)] + PairTokens(p) + rest, command, current, start) == Draw(rest, Some(L), Some(p), Some(p))
  {}

  lemma {:induction false} DrawsLine(p: Vector, rest: seq<Token>, command: Option<Command>, current: Vector, start: Vector)
    requires command != Some(Z)
    ensures Draw([Letter(L)] + PairTokens(p) + rest, command, Some(current), Some(start))
            == Continue([Line(current, p)], Draw(rest, Some(L), Some(p), Some(start)))
  {}

  lemma {:induction false} DrawsCurve(c1: Vector, c2: Vector, p: Vector, rest: seq<Token>, command: Option<Command>, current: Vector, start: Vector)
    requires command != Some(Z)
    ensures Draw([Letter(C)] + PairTokens(c1) + PairTokens(c2) + PairTokens(p) + rest, command, Some(current), Some(start))
            == Continue([Curve(current, c1, c2, p)], Draw(rest, Some(C), Some(p), Some(start)))
  {}

  lemma {:induction false} DrawsClose(rest: seq<Token>, command: Option<Command>, current: Vector, start: Vector)
    requires command != Some(Z)
    ensures Draw([Letter(Z)] + rest, command, Some(current), Some(start))
            == Continue([Line(current, start)], Draw(rest, None, Some(start), Some(start)))
  {}

  lemma {:induction false} TokensDraw(commands: seq<PathCommand>, command: Option<Command>, current: Vector, start: Vector)
    requires command != Some(Z)
    ensures Draw(PathTokensOf(commands), command, Some(current), Some(start)) == Ok(Segments(commands, current, start))
  {
    if commands != [] {
      hide Draw, PairTokens;
      var rest := PathTokensOf(commands[1..]);
      match commands[0]
      case MoveTo(p) =>
        TokensDraw(commands[1..], Some(L), p, p);
        DrawsMove(p, rest, command, Some(current), Some(start));
      case LineTo(p) =>
        TokensDraw(commands[1..], Some(L), p, start);
        DrawsLine(p, rest, command, current, start);
      case CurveTo(c1, c2, p) =>
        TokensDraw(commands[1..], Some(C), p, start);
        DrawsCurve(c1, c2, p, rest, command, current, start);
      case Close =>
        TokensDraw(commands[1..], None, start, start);
        DrawsClose(rest, command, current, start);
    } else {
      assert PathTokensOf(commands) == [];
    }
  }

  /**
   End to end: the text printed for a path that begins with a moveto draws
   exactly the segments of its commands, coordinates rounded to hundredths. The
   bounds of that text are therefore the tight box of those segments.
   */
  lemma {:induction false} PrintedPathDraws(commands: seq<PathCommand>)
    requires commands != [] && commands[0].MoveTo? && PathInRange(commands)
    ensures PathSegments(PathText(commands))
            == Ok(Segments(RoundedPath(commands), RoundedPoint(commands[0].p), RoundedPoint(commands[0].p)))
  {
    PrintedPathLexes(commands, false);
    hide Lex, PathText, Draw, Rounded;
    var rounded := RoundedPath(commands);
    var p := RoundedPoint(commands[0].p);
    assert rounded[0] == RoundedCommand(commands[0]);
    var rest := PathTokensOf(rounded[1..]);
    assert PathTokensOf(rounded) == [Letter(M)] + PairTokens(p) + rest;
    DrawsMove(p, rest, None, None, None);
    TokensDraw(rounded[1..], Some(L), p, p);
  }
}
