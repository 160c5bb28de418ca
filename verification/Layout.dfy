/**
 The layout walk shared by every release of the signature geometry: a cursor
 moves over the characters, digits unfold into pulses, and every other character
 becomes one anchor.
 */
module Layout {
  import opened Wrappers
  import opened Vectors
  import opened Outline

  function DigitAt(h: string, i: int): bool {
    0 <= i < |h| && IsDigit(h[i])
  }

  /** How far the cursor moves: over each digit, and over each boundary between neighbours. */
  datatype Plan = Plan(start: real, spacing: seq<real>, boundary: seq<real>)

  /** Serial pulses share a baseline; a pulse rises with its digit. The handles are a share of the spacing. */
  datatype Pulse = Pulse(baselineY: real, maxHeight: real, factor: real)

  ghost predicate Fits(plan: Plan, h: string) {
    |plan.spacing| == |h| && |plan.boundary| == |h|
  }

  /**
   Digits have a positive spacing and other characters none; a boundary between
   two digits has no width, and (where positive is claimed) every other one has.
   */
  ghost predicate Advancing(plan: Plan, h: string) {
    && Fits(plan, h)
    && (forall i :: 0 <= i < |h| ==> if IsDigit(h[i]) then plan.spacing[i] > 0.0 else plan.spacing[i] == 0.0)
    && (forall i :: 0 <= i < |h| - 1 ==>
          if IsDigit(h[i]) && IsDigit(h[i + 1]) then plan.boundary[i] == 0.0 else plan.boundary[i] > 0.0)
  }

  function SerialPoint(c: char, x: real, y: real, handle: real): Point {
    Point(Style(c, false, true), Vector(x, y), Vector(x - handle, y), Vector(x + handle, y))
  }

  lemma SerialPointSmooth(c: char, x: real, y: real, handle: real)
    requires handle > 0.0
    ensures Smooth(SerialPoint(c, x, y, handle))
  {
    assert Along(SerialPoint(c, x, y, handle), Vector(1.0, 0.0), handle, handle);
  }

  function PulseHeight(c: char, maxHeight: real): real {
    (c as int - '0' as int) as real / 9.0 * maxHeight
  }

  /** A digit's pulse: its base point when it starts a run, its peak, and the base point that ends it. */
  function PulsePoints(c: char, x: real, spacing: real, starts: bool, pulse: Pulse): seq<Point> {
    var handle := spacing * pulse.factor;
    var start := SerialPoint(c, x, pulse.baselineY, handle);
    var peak := SerialPoint(c, x + spacing / 2.0, pulse.baselineY - PulseHeight(c, pulse.maxHeight), handle);
    var end := SerialPoint(c, x + spacing, pulse.baselineY, handle);
    if starts then [start, peak, end] else [peak, end]
  }

  /** The points of character i with the cursor at x; identity makes the point of a character that is not a digit. */
  function Emitted(h: string, i: nat, x: real, plan: Plan, pulse: Pulse, identity: (nat, real) -> Point): seq<Point>
    requires i < |h| && |plan.spacing| == |h|
  {
    if IsDigit(h[i]) then PulsePoints(h[i], x, plan.spacing[i], !DigitAt(h, i - 1), pulse) else [identity(i, x)]
  }

  /** The cursor when it reaches character i. */
  function CursorAt(h: string, plan: Plan, i: nat): real
    requires i <= |h| && |plan.spacing| == |h| && |plan.boundary| == |h|
    decreases i
  {
    if i == 0 then plan.start
    else CursorAt(h, plan, i - 1) + plan.spacing[i - 1] + (if i < |h| then plan.boundary[i - 1] else 0.0)
  }

  /** The points of the first n characters. */
  function Walked(h: string, plan: Plan, pulse: Pulse, identity: (nat, real) -> Point, n: nat): seq<Point>
    requires n <= |h| && |plan.spacing| == |h| && |plan.boundary| == |h|
    decreases n
  {
    if n == 0 then []
    else Walked(h, plan, pulse, identity, n - 1) + Emitted(h, n - 1, CursorAt(h, plan, n - 1), plan, pulse, identity)
  }

  lemma {:induction false} PulseAppended(before: seq<Point>, c: char, x: real, spacing: real, starts: bool, pulse: Pulse)
    ensures var handle := spacing * pulse.factor;
            before + PulsePoints(c, x, spacing, starts, pulse)
            == (if starts then before + [SerialPoint(c, x, pulse.baselineY, handle)] else before)
               + [SerialPoint(c, x + spacing / 2.0, pulse.baselineY - PulseHeight(c, pulse.maxHeight), handle)]
               + [SerialPoint(c, x + spacing, pulse.baselineY, handle)]
  {
    var points := PulsePoints(c, x, spacing, starts, pulse);
    var handle := spacing * pulse.factor;
    assert points[|points| - 1] == SerialPoint(c, x + spacing, pulse.baselineY, handle);
    assert points[|points| - 2] == SerialPoint(c, x + spacing / 2.0, pulse.baselineY - PulseHeight(c, pulse.maxHeight), handle);
    assert starts ==> points[0] == SerialPoint(c, x, pulse.baselineY, handle);
  }

  method WalkLayout(h: string, plan: Plan, pulse: Pulse, identity: (nat, real) -> Point) returns (points: seq<Point>)
    requires Fits(plan, h)
    requires forall i :: 0 <= i < |h| ==> !IsDigit(h[i]) ==> plan.spacing[i] == 0.0
    requires forall i :: 0 <= i < |h| - 1 ==> DigitAt(h, i) && DigitAt(h, i + 1) ==> plan.boundary[i] == 0.0
    ensures points == Walked(h, plan, pulse, identity, |h|)
  {
    hide SerialPoint, PulseHeight;
    points := [];
    var cursorX := plan.start;
    for index := 0 to |h|
      invariant cursorX == CursorAt(h, plan, index)
      invariant points == Walked(h, plan, pulse, identity, index)
    {
      var character := h[index];
      ghost var before := points;
      ghost var x := cursorX;
      assert index < |h| - 1 && DigitAt(h, index) && DigitAt(h, index + 1) ==> plan.boundary[index] == 0.0;
      if IsDigit(character) {
        var spacing := plan.spacing[index];
        var pulseHandle := spacing * pulse.factor;
        if index == 0 || !IsDigit(h[index - 1]) {
          points := points + [SerialPoint(character, cursorX, pulse.baselineY, pulseHandle)];
        }
        var pulseHeight := PulseHeight(character, pulse.maxHeight);
        points := points + [SerialPoint(character, cursorX + spacing / 2.0, pulse.baselineY - pulseHeight, pulseHandle)];
        cursorX := cursorX + spacing;
        points := points + [SerialPoint(character, cursorX, pulse.baselineY, pulseHandle)];
        PulseAppended(before, character, x, spacing, !DigitAt(h, index - 1), pulse);
        if index < |h| - 1 && !IsDigit(h[index + 1]) {
          cursorX := cursorX + plan.boundary[index];
        }
      } else {
        points := points + [identity(index, cursorX)];
        assert plan.spacing[index] == 0.0;
        if index < |h| - 1 {
          cursorX := cursorX + plan.boundary[index];
        }
      }
    }
  }

  // ----- what the walk emits -----

  function NonDigits(h: string): nat {
    if h == "" then 0 else NonDigits(h[..|h| - 1]) + (if IsDigit(h[|h| - 1]) then 0 else 1)
  }

  function Digits(h: string): nat {
    if h == "" then 0 else Digits(h[..|h| - 1]) + (if IsDigit(h[|h| - 1]) then 1 else 0)
  }

  /** The number of maximal runs of digits. */
  function DigitRuns(h: string): nat {
    if h == "" then 0
    else DigitRuns(h[..|h| - 1]) + (if IsDigit(h[|h| - 1]) && !DigitAt(h, |h| - 2) then 1 else 0)
  }

  lemma {:induction false} WalkedCount(h: string, plan: Plan, pulse: Pulse, identity: (nat, real) -> Point, n: nat)
    requires n <= |h| && |plan.spacing| == |h| && |plan.boundary| == |h|
    ensures |Walked(h, plan, pulse, identity, n)| == NonDigits(h[..n]) + 2 * Digits(h[..n]) + DigitRuns(h[..n])
    decreases n
  {
    if n > 0 {
      WalkedCount(h, plan, pulse, identity, n - 1);
      assert h[..n][..n - 1] == h[..n - 1];
      assert DigitAt(h, n - 2) == DigitAt(h[..n], n - 2);
    }
  }

  ghost predicate Increasing(points: seq<Point>) {
    forall i, j :: 0 <= i < j < |points| ==> points[i].anchor.x < points[j].anchor.x
  }

  /** The identity points keep the x they are given. */
  ghost predicate KeepsX(identity: (nat, real) -> Point) {
    forall i, x :: identity(i, x).anchor.x == x
  }

  lemma {:induction false} IncreasingJoin(a: seq<Point>, b: seq<Point>)
    requires Increasing(a) && Increasing(b)
    requires a != [] && b != [] ==> a[|a| - 1].anchor.x < b[0].anchor.x
    ensures Increasing(a + b)
  {
    forall i, j | 0 <= i < j < |a + b|
      ensures (a + b)[i].anchor.x < (a + b)[j].anchor.x
    {
      if i < |a| <= j {
        assert a[i].anchor.x <= a[|a| - 1].anchor.x;
        assert b[0].anchor.x <= b[j - |a|].anchor.x;
      }
    }
  }

  /** A nonempty run of strictly increasing anchors with the given first and last x. */
  ghost predicate Runs(points: seq<Point>, first: real, last: real) {
    points != [] && Increasing(points) && points[0].anchor.x == first && points[|points| - 1].anchor.x == last
  }

  lemma {:induction false} JoinRuns(a: seq<Point>, b: seq<Point>, first: real, end: real, start: real, last: real)
    requires Runs(a, first, end) && Runs(b, start, last) && end < start
    ensures Runs(a + b, first, last)
  {
    IncreasingJoin(a, b);
  }

  /** Between the end of one character and the next emitted anchor the cursor moves on, except between two digits. */
  lemma CursorAdvances(h: string, plan: Plan, n: nat)
    requires 0 < n < |h| && Advancing(plan, h)
    ensures var end := CursorAt(h, plan, n - 1) + plan.spacing[n - 1];
            if DigitAt(h, n) && DigitAt(h, n - 1) then CursorAt(h, plan, n) == end else CursorAt(h, plan, n) > end
  {
    assert if IsDigit(h[n - 1]) && IsDigit(h[n]) then plan.boundary[n - 1] == 0.0 else plan.boundary[n - 1] > 0.0;
  }

  /**
   The walk starts at the plan's start, its last anchor is where the last
   character ends, and anchors strictly increase in x.
   */
  lemma {:induction false} WalkedAnchors(h: string, plan: Plan, pulse: Pulse, identity: (nat, real) -> Point, n: nat)
    requires 0 < n <= |h| && Advancing(plan, h) && KeepsX(identity)
    ensures Runs(Walked(h, plan, pulse, identity, n), plan.start, CursorAt(h, plan, n - 1) + plan.spacing[n - 1])
    decreases n
  {
    assert |plan.spacing| == |h|;
    if n == 1 {
      WalkedFirst(h, plan, pulse, identity);
    } else {
      hide *;
      WalkedAnchors(h, plan, pulse, identity, n - 1);
      WalkedStep(h, plan, pulse, identity, n - 1);
    }
  }

  lemma {:induction false} WalkedFirst(h: string, plan: Plan, pulse: Pulse, identity: (nat, real) -> Point)
    requires 0 < |h| && Advancing(plan, h) && KeepsX(identity)
    ensures Runs(Walked(h, plan, pulse, identity, 1), plan.start, CursorAt(h, plan, 0) + plan.spacing[0])
  {
    CursorFirst(h, plan);
    WalkedOne(h, plan, pulse, identity);
    hide *;
    var start := EmittedAnchors(h, 0, plan.start, plan, pulse, identity);
    assert start == plan.start;
  }

  lemma CursorFirst(h: string, plan: Plan)
    requires |plan.spacing| == |h| && |plan.boundary| == |h|
    ensures CursorAt(h, plan, 0) == plan.start && !DigitAt(h, -1)
  {}

  lemma {:induction false} WalkedOne(h: string, plan: Plan, pulse: Pulse, identity: (nat, real) -> Point)
    requires 0 < |h| && |plan.spacing| == |h| && |plan.boundary| == |h|
    ensures Walked(h, plan, pulse, identity, 1) == Emitted(h, 0, plan.start, plan, pulse, identity)
  {
    hide Emitted;
    assert Walked(h, plan, pulse, identity, 0) == [];
  }

  lemma {:induction false} WalkedStep(h: string, plan: Plan, pulse: Pulse, identity: (nat, real) -> Point, n: nat)
    requires 0 < n < |h| && Advancing(plan, h) && KeepsX(identity)
    requires Runs(Walked(h, plan, pulse, identity, n), plan.start, CursorAt(h, plan, n - 1) + plan.spacing[n - 1])
    ensures Runs(Walked(h, plan, pulse, identity, n + 1), plan.start, CursorAt(h, plan, n) + plan.spacing[n])
  {
    hide KeepsX, Runs, Emitted;
    var x := CursorAt(h, plan, n);
    var end := CursorAt(h, plan, n - 1) + plan.spacing[n - 1];
    var start := EmittedAnchors(h, n, x, plan, pulse, identity);
    CursorAdvances(h, plan, n);
    hide Advancing, CursorAt;
    JoinRuns(Walked(h, plan, pulse, identity, n), Emitted(h, n, x, plan, pulse, identity), plan.start, end, start, x + plan.spacing[n]);
  }

  lemma PulseAnchors(c: char, x: real, spacing: real, starts: bool, pulse: Pulse)
    requires spacing > 0.0
    ensures var emitted := PulsePoints(c, x, spacing, starts, pulse);
            && |emitted| == (if starts then 3 else 2) && Increasing(emitted)
            && (if starts then x == emitted[0].anchor.x else x < emitted[0].anchor.x)
            && emitted[|emitted| - 1].anchor.x == x + spacing
  {
    hide PulseHeight;
  }

  lemma {:induction false} EmittedAnchors(h: string, i: nat, x: real, plan: Plan, pulse: Pulse, identity: (nat, real) -> Point)
    returns (start: real)
    requires i < |h| && Advancing(plan, h) && KeepsX(identity)
    ensures if DigitAt(h, i) && DigitAt(h, i - 1) then x < start else x == start
    ensures Runs(Emitted(h, i, x, plan, pulse, identity), start, x + plan.spacing[i])
  {
    start := x;
    if IsDigit(h[i]) {
      var starts := !DigitAt(h, i - 1);
      PulseAnchors(h[i], x, plan.spacing[i], starts, pulse);
      start := PulsePoints(h[i], x, plan.spacing[i], starts, pulse)[0].anchor.x;
    }
    hide PulsePoints;
  }

  ghost predicate SmoothIdentity(identity: (nat, real) -> Point, n: nat) {
    forall i, x :: 0 <= i < n ==> Smooth(identity(i, x))
  }

  lemma {:induction false} WalkedSmooth(h: string, plan: Plan, pulse: Pulse, identity: (nat, real) -> Point, n: nat)
    requires n <= |h| && Advancing(plan, h) && pulse.factor > 0.0 && SmoothIdentity(identity, |h|)
    ensures AllSmooth(Walked(h, plan, pulse, identity, n))
    decreases n
  {
    if n > 0 {
      WalkedSmooth(h, plan, pulse, identity, n - 1);
      EmittedSmooth(h, n - 1, CursorAt(h, plan, n - 1), plan, pulse, identity);
      hide Smooth, Emitted;
    }
  }

  lemma {:induction false} EmittedSmooth(h: string, i: nat, x: real, plan: Plan, pulse: Pulse, identity: (nat, real) -> Point)
    requires i < |h| && Advancing(plan, h) && pulse.factor > 0.0 && SmoothIdentity(identity, |h|)
    ensures AllSmooth(Emitted(h, i, x, plan, pulse, identity))
  {
    if IsDigit(h[i]) {
      PulseSmooth(h[i], x, plan.spacing[i], !DigitAt(h, i - 1), pulse);
    }
    hide PulsePoints, Smooth;
  }

  lemma PulseSmooth(c: char, x: real, spacing: real, starts: bool, pulse: Pulse)
    requires spacing > 0.0 && pulse.factor > 0.0
    ensures AllSmooth(PulsePoints(c, x, spacing, starts, pulse))
  {
    var handle := spacing * pulse.factor;
    var peakY := pulse.baselineY - PulseHeight(c, pulse.maxHeight);
    PositiveProduct(spacing, pulse.factor);
    SerialPointSmooth(c, x, pulse.baselineY, handle);
    SerialPointSmooth(c, x + spacing / 2.0, peakY, handle);
    SerialPointSmooth(c, x + spacing, pulse.baselineY, handle);
    hide Smooth, SerialPoint, PulseHeight;
    var start, end := SerialPoint(c, x, pulse.baselineY, handle), SerialPoint(c, x + spacing, pulse.baselineY, handle);
    var peak := SerialPoint(c, x + spacing / 2.0, peakY, handle);
    var points := PulsePoints(c, x, spacing, starts, pulse);
    assert points[|points| - 1] == end && points[|points| - 2] == peak && (starts ==> points[0] == start);
  }
}
