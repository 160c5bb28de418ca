/** What a token list draws: the commands it abbreviates, each read by looking back at the commands before it. */
module PathReadings {
  import opened Wrappers
  import opened Vectors
  import opened PathSyntax
  import opened PathPrinting
  import opened PathGrammar
  import opened InkBounds
  import opened PrintedBounds

  // ----- tokens as abbreviated commands -----

  function LetterOf(c: PathCommand): Command {
    match c
    case MoveTo(_) => M
    case LineTo(_) => L
    case CurveTo(_, _, _) => C
    case Close => Z
  }

  function CoordinatesOf(c: PathCommand): seq<Token> {
    match c
    case MoveTo(p) => [Number(p.x), Number(p.y)]
    case LineTo(p) => [Number(p.x), Number(p.y)]
    case CurveTo(c1, c2, p) => [Number(c1.x), Number(c1.y), Number(c2.x), Number(c2.y), Number(p.x), Number(p.y)]
    case Close => []
  }

  /** What further coordinates mean without a letter: lines behind a move or a line, curves behind a curve. */
  function Implied(c: PathCommand): Option<Command> {
    match c
    case MoveTo(_) => Some(L)
    case LineTo(_) => Some(L)
    case CurveTo(_, _, _) => Some(C)
    case Close => None
  }

  /** The tokens begin with the commands, written out or with an implied letter left off, and go on with rest. */
  ghost predicate Spell(tokens: seq<Token>, commands: seq<PathCommand>, implied: Option<Command>, rest: seq<Token>)
    decreases |commands|
  {
    if commands == [] then tokens == rest
    else
      var c, own := commands[0], CoordinatesOf(commands[0]);
      || (|own| < |tokens| && tokens[0] == Letter(LetterOf(c)) && tokens[1..1 + |own|] == own
          && Spell(tokens[1 + |own|..], commands[1..], Implied(c), rest))
      || (implied == Some(LetterOf(c)) && !c.Close? && |own| <= |tokens| && tokens[..|own|] == own
          && Spell(tokens[|own|..], commands[1..], Implied(c), rest))
  }

  /** The implied letter behind a list of commands. */
  function ImpliedBehind(commands: seq<PathCommand>, implied: Option<Command>): Option<Command> {
    if commands == [] then implied else Implied(commands[|commands| - 1])
  }

  function Needed(c: Command): nat {
    match c
    case M => 2
    case L => 2
    case C => 6
    case Z => 0
  }

  predicate Lacks(tokens: seq<Token>, n: nat) {
    |tokens| < n || exists k :: 0 <= k < n && !tokens[k].Number?
  }

  /** The tokens cannot go on: coordinates with no command, or a command without all its coordinates. */
  ghost predicate Broken(tokens: seq<Token>, implied: Option<Command>, e: PathError) {
    && tokens != []
    && match e
       case CommandRequired => tokens[0].Number? && implied.None?
       case IncompleteCoordinates =>
         if tokens[0].Letter? then Lacks(tokens[1..], Needed(tokens[0].command))
         else implied.Some? && Lacks(tokens, Needed(implied.value))
       case _ => false
  }

  // ----- one command -----

  function CommandAt(letter: Command, args: seq<Token>): PathCommand
    requires !Lacks(args, Needed(letter))
  {
    match letter
    case M => MoveTo(Vector(args[0].value, args[1].value))
    case L => LineTo(Vector(args[0].value, args[1].value))
    case C => CurveTo(Vector(args[0].value, args[1].value), Vector(args[2].value, args[3].value), Vector(args[4].value, args[5].value))
    case Z => Close
  }

  lemma CommandIsSpelled(letter: Command, args: seq<Token>)
    requires !Lacks(args, Needed(letter))
    ensures var c := CommandAt(letter, args);
            && LetterOf(c) == letter && |CoordinatesOf(c)| == Needed(letter) && args[..Needed(letter)] == CoordinatesOf(c)
            && (c.Close? <==> letter.Z?)
  {
    assert forall k :: 0 <= k < Needed(letter) ==> args[k].Number?;
  }

  lemma CommandIsRead(c: PathCommand, args: seq<Token>)
    requires |CoordinatesOf(c)| <= |args| && args[..|CoordinatesOf(c)|] == CoordinatesOf(c)
    ensures !Lacks(args, Needed(LetterOf(c))) && CommandAt(LetterOf(c), args) == c && Needed(LetterOf(c)) == |CoordinatesOf(c)|
  {
    assert forall k :: 0 <= k < |CoordinatesOf(c)| ==> args[k] == args[..|CoordinatesOf(c)|][k];
  }

  function PenBehind(c: PathCommand, start: Vector): Vector {
    if c.Close? then start else c.p
  }

  function StartBehind(c: PathCommand, start: Vector): Vector {
    if c.MoveTo? then c.p else start
  }

  lemma OneSegment(c: PathCommand, commands: seq<PathCommand>, current: Vector, start: Vector)
    ensures Segments([c] + commands, current, start)
         == Segments([c], current, start) + Segments(commands, PenBehind(c, start), StartBehind(c, start))
  {
    assert ([c] + commands)[1..] == commands && [c][1..] == [];
    assert [] + Segments(commands, PenBehind(c, start), StartBehind(c, start)) == Segments(commands, PenBehind(c, start), StartBehind(c, start));
  }

  lemma HasPoints(args: seq<Token>)
    ensures !Lacks(args, 0)
    ensures Lacks(args, 2) <==> !HasPoint(args)
    ensures Lacks(args, 6) <==> !HasPoint(args) || !HasPoint(args[2..]) || !HasPoint(args[4..])
  {
    if !Lacks(args, 6) {
      assert args[0].Number? && args[1].Number? && args[2].Number? && args[3].Number? && args[4].Number? && args[5].Number?;
    }
    if !Lacks(args, 2) {
      assert args[0].Number? && args[1].Number?;
    }
  }

  lemma AloneDraws(c: PathCommand, current: Vector, start: Vector)
    ensures Segments([c], current, start)
         == match c
            case MoveTo(_) => []
            case LineTo(p) => [Line(current, p)]
            case CurveTo(c1, c2, p) => [Curve(current, c1, c2, p)]
            case Close => [Line(current, start)]
  {
    assert [c][1..] == [];
  }

  /** Inside a subpath, a command is refused exactly for lack of coordinates, and otherwise draws its own segment. */
  lemma ObeyIs(args: seq<Token>, letter: Command, current: Vector, start: Vector)
    ensures if Lacks(args, Needed(letter)) then Obey(args, letter, Some(current), Some(start)) == Err(IncompleteCoordinates)
            else
              var c := CommandAt(letter, args);
              Implied(c) != Some(Z) &&
              Obey(args, letter, Some(current), Some(start))
              == Continue(Segments([c], current, start), Draw(args[Needed(letter)..], Implied(c), Some(PenBehind(c, start)), Some(StartBehind(c, start))))
  {
    HasPoints(args);
    AloneDraws(if Lacks(args, Needed(letter)) then Close else CommandAt(letter, args), current, start);
    hide Draw, Lacks, Segments;
    match letter
    case Z =>
      assert args[0..] == args;
    case M =>
      if HasPoint(args) {
        ContinueTwice([], [], Draw(args[2..], Some(L), Some(PointAt(args)), Some(PointAt(args))));
      }
    case L =>
    case C =>
  }

  // ----- all commands -----

  predicate IsImplied(implied: Option<Command>) {
    implied in {None, Some(L), Some(C)}
  }

  lemma ContinueOne(c: PathCommand, commands: seq<PathCommand>, current: Vector, start: Vector)
    ensures Continue(Segments([c], current, start), Ok(Segments(commands, PenBehind(c, start), StartBehind(c, start))))
         == Ok(Segments([c] + commands, current, start))
  {
    OneSegment(c, commands, current, start);
    hide Segments;
  }

  lemma BehindFirst(c: PathCommand, commands: seq<PathCommand>, implied: Option<Command>)
    ensures ImpliedBehind([c] + commands, implied) == ImpliedBehind(commands, Implied(c))
  {
    hide Implied;
  }

  lemma SpelledOut(tokens: seq<Token>, c: PathCommand, commands: seq<PathCommand>, implied: Option<Command>, rest: seq<Token>)
    requires var own := CoordinatesOf(c);
             |own| < |tokens| && tokens[0] == Letter(LetterOf(c)) && tokens[1..1 + |own|] == own && Spell(tokens[1 + |own|..], commands, Implied(c), rest)
    ensures Spell(tokens, [c] + commands, implied, rest)
  {
    assert ([c] + commands)[0] == c && ([c] + commands)[1..] == commands;
    hide CoordinatesOf, LetterOf, Implied;
  }

  lemma SpelledBriefly(tokens: seq<Token>, c: PathCommand, commands: seq<PathCommand>, implied: Option<Command>, rest: seq<Token>)
    requires var own := CoordinatesOf(c);
             && implied == Some(LetterOf(c)) && !c.Close? && |own| <= |tokens| && tokens[..|own|] == own
             && Spell(tokens[|own|..], commands, Implied(c), rest)
    ensures Spell(tokens, [c] + commands, implied, rest)
  {
    assert ([c] + commands)[0] == c && ([c] + commands)[1..] == commands;
    hide CoordinatesOf, LetterOf, Implied;
  }

  /** What the drawing of the tokens says of their reading. */
  ghost predicate Explains(r: DrawResult, tokens: seq<Token>, implied: Option<Command>, current: Vector, start: Vector, commands: seq<PathCommand>, rest: seq<Token>) {
    && Spell(tokens, commands, implied, rest)
    && match r
       case Ok(segments) => rest == [] && segments == Segments(commands, current, start)
       case Err(e) => Broken(rest, ImpliedBehind(commands, implied), e)
  }

  lemma Stops(tokens: seq<Token>, implied: Option<Command>, current: Vector, start: Vector, e: PathError)
    requires Broken(tokens, implied, e)
    ensures Explains(Err(e), tokens, implied, current, start, [], tokens)
  {
    hide Broken;
  }

  /** Inside a subpath, tokens draw what the commands that they spell draw, or stop where they are broken. */
  lemma {:induction false} TokensAreRead(tokens: seq<Token>, implied: Option<Command>, current: Vector, start: Vector)
    returns (commands: seq<PathCommand>, rest: seq<Token>)
    requires IsImplied(implied)
    ensures Explains(Draw(tokens, implied, Some(current), Some(start)), tokens, implied, current, start, commands, rest)
    decreases |tokens|
  {
    commands, rest := [], tokens;
    if tokens == [] {
      return;
    }
    if tokens[0].Number? && implied.None? {
      Stops(tokens, implied, current, start, CommandRequired);
      return;
    }
    var letter := if tokens[0].Letter? then tokens[0].command else implied.value;
    var args := if tokens[0].Letter? then tokens[1..] else tokens;
    ObeyIs(args, letter, current, start);
    assert Draw(tokens, implied, Some(current), Some(start)) == Obey(args, letter, Some(current), Some(start));
    hide Draw, Obey, Segments, Spell, Lacks, CommandAt;
    if Lacks(args, Needed(letter)) {
      Stops(tokens, implied, current, start, IncompleteCoordinates);
      return;
    }
    CommandIsSpelled(letter, args);
    var c, n := CommandAt(letter, args), Needed(letter);
    var cs;
    cs, rest := TokensAreRead(args[n..], Implied(c), PenBehind(c, start), StartBehind(c, start));
    commands := [c] + cs;
    BehindFirst(c, cs, implied);
    ContinueOne(c, cs, current, start);
    if tokens[0].Letter? {
      assert tokens[1..1 + n] == args[..n] && tokens[1 + n..] == args[n..];
      SpelledOut(tokens, c, cs, implied, rest);
    } else {
      SpelledBriefly(tokens, c, cs, implied, rest);
    }
  }

  /** Every spelling of the same commands draws the same. */
  lemma {:induction false} SpelledDraws(tokens: seq<Token>, commands: seq<PathCommand>, implied: Option<Command>, current: Vector, start: Vector)
    requires IsImplied(implied) && Spell(tokens, commands, implied, [])
    ensures Draw(tokens, implied, Some(current), Some(start)) == Ok(Segments(commands, current, start))
    decreases |commands|
  {
    if commands != [] {
      var c, own := commands[0], CoordinatesOf(commands[0]);
      var written := |own| < |tokens| && tokens[0] == Letter(LetterOf(c)) && tokens[1..1 + |own|] == own && Spell(tokens[1 + |own|..], commands[1..], Implied(c), []);
      var args := if written then tokens[1..] else tokens;
      assert written ==> args[..|own|] == tokens[1..1 + |own|] && args[|own|..] == tokens[1 + |own|..];
      SpelledNumbers(c);
      CommandIsRead(c, args);
      ObeyIs(args, LetterOf(c), current, start);
      assert !written ==> tokens[0] == tokens[..|own|][0];
      assert Draw(tokens, implied, Some(current), Some(start)) == Obey(args, LetterOf(c), Some(current), Some(start));
      hide Draw, Obey, Segments, Lacks, CommandAt, CoordinatesOf;
      SpelledDraws(args[|own|..], commands[1..], Implied(c), PenBehind(c, start), StartBehind(c, start));
      ContinueOne(c, commands[1..], current, start);
      assert [c] + commands[1..] == commands;
    }
  }

  lemma SpelledNumbers(c: PathCommand)
    ensures !c.Close? ==> CoordinatesOf(c) != [] && CoordinatesOf(c)[0].Number?
    ensures IsImplied(Implied(c))
  {}

  // ----- each command by looking back -----

  /** Where the last move before command k went. */
  function LastMove(commands: seq<PathCommand>, k: nat): Vector
    requires 0 < k <= |commands| && commands[0].MoveTo?
  {
    if commands[k - 1].MoveTo? then commands[k - 1].p else LastMove(commands, k - 1)
  }

  /** Where the pen is before command k: where the command before it ends; a closing one ends where the last move went. */
  function PenAt(commands: seq<PathCommand>, k: nat): Vector
    requires 0 < k <= |commands| && commands[0].MoveTo?
  {
    if commands[k - 1].Close? then LastMove(commands, k) else commands[k - 1].p
  }

  /** What command k draws. */
  function DrawnAt(commands: seq<PathCommand>, k: nat): seq<Segment>
    requires k < |commands| && commands[0].MoveTo?
  {
    match commands[k]
    case MoveTo(_) => []
    case LineTo(p) => [Line(PenAt(commands, k), p)]
    case CurveTo(c1, c2, p) => [Curve(PenAt(commands, k), c1, c2, p)]
    case Close => [Line(PenAt(commands, k), LastMove(commands, k))]
  }

  function AllDrawn(commands: seq<PathCommand>, n: nat): seq<Segment>
    requires n <= |commands| && (n > 0 ==> commands[0].MoveTo?)
  {
    if n == 0 then [] else AllDrawn(commands, n - 1) + DrawnAt(commands, n - 1)
  }

  lemma {:induction false} SegmentsLookBack(commands: seq<PathCommand>, k: nat)
    requires 0 < k <= |commands| && commands[0].MoveTo?
    ensures AllDrawn(commands, k) + Segments(commands[k..], PenAt(commands, k), LastMove(commands, k)) == AllDrawn(commands, |commands|)
    decreases |commands| - k
  {
    if k == |commands| {
      assert commands[k..] == [];
      assert AllDrawn(commands, k) + [] == AllDrawn(commands, k);
    } else {
      SegmentsLookBack(commands, k + 1);
      var c := commands[k];
      assert commands[k..] == [c] + commands[k + 1..];
      OneSegment(c, commands[k + 1..], PenAt(commands, k), LastMove(commands, k));
      OneDrawn(commands, k);
      Regroup(AllDrawn(commands, k), DrawnAt(commands, k), Segments(commands[k + 1..], PenAt(commands, k + 1), LastMove(commands, k + 1)));
      hide Segments, DrawnAt;
    }
  }

  lemma OneDrawn(commands: seq<PathCommand>, k: nat)
    requires 0 < k < |commands| && commands[0].MoveTo?
    ensures Segments([commands[k]], PenAt(commands, k), LastMove(commands, k)) == DrawnAt(commands, k)
    ensures PenBehind(commands[k], LastMove(commands, k)) == PenAt(commands, k + 1)
    ensures StartBehind(commands[k], LastMove(commands, k)) == LastMove(commands, k + 1)
  {
    assert [commands[k]][1..] == [];
  }

  lemma Regroup(a: seq<Segment>, b: seq<Segment>, c: seq<Segment>)
    ensures (a + b) + c == a + (b + c)
  {}

  /** The drawing of commands that begin with a move is what each of them draws, in order. */
  lemma {:induction false} CommandsDraw(commands: seq<PathCommand>, current: Vector, start: Vector)
    requires commands != [] && commands[0].MoveTo?
    ensures Segments(commands, current, start) == AllDrawn(commands, |commands|)
  {
    SegmentsLookBack(commands, 1);
    assert AllDrawn(commands, 0) == [] && AllDrawn(commands, 1) == [];
    assert [] + Segments(commands[1..], commands[0].p, commands[0].p) == Segments(commands[1..], commands[0].p, commands[0].p);
  }

  // ----- path texts -----

  lemma MoveFirst(tokens: seq<Token>)
    requires tokens != [] && tokens[0] == Letter(M)
    ensures Draw(tokens, None, None, None)
         == if Lacks(tokens[1..], 2) then Err(IncompleteCoordinates)
            else Draw(tokens[1..][2..], Some(L), Some(PointAt(tokens[1..])), Some(PointAt(tokens[1..])))
  {
    HasPoints(tokens[1..]);
    hide Lacks;
  }

  /** Why a text is no path, or what its tokens spell and draw. */
  ghost predicate Means(d: string, r: DrawResult, tokens: seq<Token>, commands: seq<PathCommand>, rest: seq<Token>) {
    match r
    case Err(Syntax(e)) => Fails(d, false, e)
    case Err(MissingMoveTo) => Reads(d, tokens, false) && (tokens == [] || tokens[0] != Letter(M))
    case Err(e) => Reads(d, tokens, false) && Spell(tokens, commands, None, rest) && Broken(rest, ImpliedBehind(commands, None), e)
    case Ok(segments) =>
      && Reads(d, tokens, false) && Spell(tokens, commands, None, [])
      && commands != [] && commands[0].MoveTo? && segments == AllDrawn(commands, |commands|)
  }

  /** The drawing of a path text has its reason in the text, whether it is refused or drawn. */
  lemma {:induction false} PathMeans(d: string) returns (tokens: seq<Token>, commands: seq<PathCommand>, rest: seq<Token>)
    ensures Means(d, PathSegments(d), tokens, commands, rest)
  {
    tokens, commands, rest := [], [], [];
    hide Lex, Draw, Reads, Fails;
    match Lex(d, false, false)
    case Err(e) =>
      PathRefused(d, e);
    case Ok(read) =>
      tokens := read;
      LexerIsGrammar(d, tokens);
      if tokens != [] && tokens[0] == Letter(M) {
        commands, rest := MoveIsRead(tokens);
      }
  }

  lemma PathRefused(d: string, e: LexError)
    requires Lex(d, false, false) == Err(e)
    ensures Fails(d, false, e)
  {
    NothingSeparates(false);
    hide Lex, Fails;
    RefusalHasReason("", d, false, e);
    assert "" + d == d;
  }

  lemma {:induction false} MoveIsRead(tokens: seq<Token>) returns (commands: seq<PathCommand>, rest: seq<Token>)
    requires tokens != [] && tokens[0] == Letter(M)
    ensures Spell(tokens, commands, None, rest)
    ensures match Draw(tokens, None, None, None)
            case Ok(segments) => rest == [] && commands != [] && commands[0].MoveTo? && segments == AllDrawn(commands, |commands|)
            case Err(e) => Broken(rest, ImpliedBehind(commands, None), e)
  {
    var args := tokens[1..];
    MoveFirst(tokens);
    commands, rest := [], tokens;
    if !Lacks(args, 2) {
      CommandIsSpelled(M, args);
      var c := CommandAt(M, args);
      assert c == MoveTo(PointAt(args)) by {
        HasPoints(args);
      }
      hide Lacks, CommandAt, Draw, Spell, Broken;
      var cs;
      cs, rest := TokensAreRead(args[2..], Some(L), c.p, c.p);
      commands := [c] + cs;
      assert tokens[1..3] == args[..2] && tokens[3..] == args[2..];
      SpelledOut(tokens, c, cs, None, rest);
      BehindFirst(c, cs, None);
      CommandsDraw(commands, c.p, c.p);
      OneSegment(c, cs, c.p, c.p);
      MoveDrawsNothing(c.p, Segments(cs, c.p, c.p));
    }
  }

  lemma MoveDrawsNothing(p: Vector, more: seq<Segment>)
    ensures Segments([MoveTo(p)], p, p) + more == more
  {
    assert [MoveTo(p)][1..] == [];
  }

  /** Any text that spells commands beginning with a move draws what they draw: letters left off, blanks and commas make no difference. */
  lemma {:induction false} SpellingsDraw(d: string, tokens: seq<Token>, commands: seq<PathCommand>)
    requires Reads(d, tokens, false) && Spell(tokens, commands, None, []) && commands != [] && commands[0].MoveTo?
    ensures PathSegments(d) == Ok(AllDrawn(commands, |commands|))
  {
    LexerIsGrammar(d, tokens);
    var c, cs := commands[0], commands[1..];
    assert tokens != [] && tokens[0] == Letter(M);
    var args := tokens[1..];
    assert tokens[1..3] == args[..2] && args[2..] == tokens[3..];
    CommandIsRead(c, args);
    MoveFirst(tokens);
    assert c == MoveTo(PointAt(args)) by {
      HasPoints(args);
    }
    assert Spell(args[2..], cs, Some(L), []);
    hide Lex, Draw, Reads, Spell, Lacks, CommandAt;
    SpelledDraws(args[2..], cs, Some(L), c.p, c.p);
    CommandsDraw(commands, c.p, c.p);
    assert [c] + cs == commands;
    OneSegment(c, cs, c.p, c.p);
    MoveDrawsNothing(c.p, Segments(cs, c.p, c.p));
  }
}
