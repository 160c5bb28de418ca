/** From characters to centred signature points, for any release's weights. */
module Geometry {
  import opened Wrappers
  import opened Outline
  import opened Centring
  import opened Layout
  import opened WeightedLayout

  /** What a release supplies: weights, the pulse of its digits, and the point of every other character. */
  datatype Release = Release(weights: Weights, pulse: Pulse, identity: (nat, real) -> Point)

  ghost predicate ValidRelease(r: Release, h: string) {
    && Positive(r.weights)
    && r.pulse.factor > 0.0
    && KeepsX(r.identity)
    && SmoothIdentity(r.identity, |h|)
  }

  function TargetSpan(count: nat, lineSpan: real): real {
    if count <= 3 then lineSpan * (count as real) / 4.0 else lineSpan
  }

  /** The points before centring. */
  function Placed(h: string, r: Release, center: real, span: real): seq<Point>
    requires h != ""
  {
    var start := center - span / 2.0;
    if Walkable(h) then Walked(h, WeightedPlan(h, r.weights, start, span), r.pulse, r.identity, |h|)
    else [r.identity(0, start), r.identity(0, center + span / 2.0)]
  }

  predicate HasDigit(h: string) {
    exists i :: 0 <= i < |h| && IsDigit(h[i])
  }

  // ----- without digits: running positions -----

  method GapTotal(h: string, w: Weights) returns (total: real)
    requires Positive(w) && |h| > 1 && !HasDigit(h)
    ensures total == LayoutTotal(h, w) > 0.0
  {
    total := 0.0;
    for index := 0 to |h| - 1
      invariant total == FlexibleTotal(h, w, index)
    {
      total := total + w.gap(h[index], h[index + 1]);
    }
    NoDigitsTotal(h, w, |h|);
    LayoutTotalPositive(h, w);
  }

  /** The cursor positions at the first n characters. */
  function AnchorXs(h: string, plan: Plan, n: nat): (xs: seq<real>)
    requires n <= |h| && |plan.spacing| == |h| && |plan.boundary| == |h|
    ensures |xs| == n
    decreases n
  {
    if n == 0 then [] else AnchorXs(h, plan, n - 1) + [CursorAt(h, plan, n - 1)]
  }

  /** The anchor positions that the gap weights give, by a running sum. */
  method Positions(h: string, w: Weights, start: real, span: real) returns (positions: seq<real>)
    requires Positive(w) && |h| > 1 && !HasDigit(h)
    ensures positions == AnchorXs(h, WeightedPlan(h, w, start, span), |h|)
  {
    var total := GapTotal(h, w);
    ghost var plan := WeightedPlan(h, w, start, span);
    positions := [start];
    assert [] + [start] == positions;
    assert AnchorXs(h, plan, 1) == positions;
    for index := 0 to |h| - 1
      invariant positions == AnchorXs(h, plan, index + 1)
    {
      hide CursorAt, LayoutTotal, HasDigit, Positive, Share;
      var step := Share(span, w.gap(h[index], h[index + 1]), total);
      CursorStep(h, w, start, span, index, step);
      LastAnchorX(h, plan, index);
      positions := positions + [positions[|positions| - 1] + step];
    }
  }

  lemma LastAnchorX(h: string, plan: Plan, n: nat)
    requires n < |h| && |plan.spacing| == |h| && |plan.boundary| == |h|
    ensures AnchorXs(h, plan, n + 1)[n] == CursorAt(h, plan, n)
  {
    hide CursorAt;
  }

  function Share(span: real, weight: real, total: real): real
    requires total != 0.0
  {
    span * weight / total
  }

  lemma {:induction false} CursorStep(h: string, w: Weights, start: real, span: real, i: nat, step: real)
    requires !HasDigit(h) && i + 1 < |h| && LayoutTotal(h, w) > 0.0
    requires step == Share(span, w.gap(h[i], h[i + 1]), LayoutTotal(h, w))
    ensures CursorAt(h, WeightedPlan(h, w, start, span), i + 1) == CursorAt(h, WeightedPlan(h, w, start, span), i) + step
  {
    Proportion(span, w.gap(h[i], h[i + 1]), LayoutTotal(h, w), step);
    hide LayoutTotal, Scale, Share;
  }

  lemma {:induction false} NoDigitsTotal(h: string, w: Weights, n: nat)
    requires !HasDigit(h) && n <= |h|
    ensures SerialTotal(h, w, n) == 0.0
    ensures n < |h| ==> TransitionTotal(h, w, n) == 0.0
    ensures n == |h| > 0 ==> TransitionTotal(h, w, n - 1) == 0.0
    decreases n
  {
    if n > 0 {
      NoDigitsTotal(h, w, n - 1);
    }
  }

  lemma Proportion(span: real, weight: real, total: real, step: real)
    requires total > 0.0 && step == span * weight / total
    ensures step == weight * Scale(total, span)
  {}

  lemma {:induction false} WalkedWithoutDigits(h: string, plan: Plan, pulse: Pulse, identity: (nat, real) -> Point, n: nat)
    requires !HasDigit(h) && n <= |h| && Fits(plan, h)
    ensures |Walked(h, plan, pulse, identity, n)| == n
    ensures forall i :: 0 <= i < n ==> Walked(h, plan, pulse, identity, n)[i] == identity(i, AnchorXs(h, plan, n)[i])
    decreases n
  {
    if n > 0 {
      WalkedWithoutDigits(h, plan, pulse, identity, n - 1);
      hide CursorAt;
    }
  }

  // ----- with digits: three sums and one scale -----

  method PlanWithDigits(h: string, w: Weights, start: real, span: real) returns (plan: Plan)
    requires h != ""
    ensures plan == WeightedPlan(h, w, start, span)
  {
    var flexible, transition := 0.0, 0.0;
    for index := 0 to |h| - 1
      invariant flexible == FlexibleTotal(h, w, index) && transition == TransitionTotal(h, w, index)
    {
      if IsDigit(h[index]) != IsDigit(h[index + 1]) {
        var digitIndex := if IsDigit(h[index]) then index else index + 1;
        var nonDigitIndex := if IsDigit(h[index]) then index + 1 else index;
        transition := transition + w.transition(h[digitIndex], h[nonDigitIndex]);
      }
      if !IsDigit(h[index]) && !IsDigit(h[index + 1]) {
        flexible := flexible + w.gap(h[index], h[index + 1]);
      }
    }
    var serial := 0.0;
    for index := 0 to |h|
      invariant serial == SerialTotal(h, w, index)
    {
      if IsDigit(h[index]) {
        serial := serial + w.digit(h[index]);
      }
    }
    var total := serial + transition + flexible;
    var scale := if total > 0.0 then span / total else 0.0;
    plan := Plan(start,
                 seq(|h|, i requires 0 <= i < |h| => SpacingWeight(h, w, i) * scale),
                 seq(|h|, i requires 0 <= i < |h| => if i + 1 < |h| then BoundaryWeight(h, w, i) * scale else 0.0));
  }

  /** The points of a text without digits, at the positions that its gaps give. */
  method PointsWithoutDigits(h: string, r: Release, start: real, span: real) returns (points: seq<Point>)
    requires Positive(r.weights) && |h| > 1 && !HasDigit(h)
    ensures points == Walked(h, WeightedPlan(h, r.weights, start, span), r.pulse, r.identity, |h|)
  {
    var positions := Positions(h, r.weights, start, span);
    points := seq(|h|, i requires 0 <= i < |h| => r.identity(i, positions[i]));
    WalkedWithoutDigits(h, WeightedPlan(h, r.weights, start, span), r.pulse, r.identity, |h|);
    hide CursorAt, AnchorXs, Walked, WeightedPlan, Positive;
  }

  /** The points of a text with digits: the plan, then the walk. */
  method PointsWithDigits(h: string, r: Release, start: real, span: real) returns (points: seq<Point>)
    requires h != "" && ValidRelease(r, h) && HasDigit(h) && span > 0.0
    ensures points == Walked(h, WeightedPlan(h, r.weights, start, span), r.pulse, r.identity, |h|)
  {
    var plan := PlanWithDigits(h, r.weights, start, span);
    PlanAdvances(h, r.weights, start, span);
    hide Walked, WeightedPlan, HasDigit;
    points := WalkLayout(h, plan, r.pulse, r.identity);
  }

  lemma PlacedCases(h: string, r: Release, center: real, span: real)
    requires h != ""
    ensures Placed(h, r, center, span)
         == if !HasDigit(h) && |h| == 1 then [r.identity(0, center - span / 2.0), r.identity(0, center + span / 2.0)]
            else Walked(h, WeightedPlan(h, r.weights, center - span / 2.0, span), r.pulse, r.identity, |h|)
  {
    hide Walked, WeightedPlan, HasDigit, Walkable;
    WalkableCases(h);
  }

  lemma WalkableCases(h: string)
    requires h != ""
    ensures Walkable(h) <==> HasDigit(h) || |h| != 1
  {
    if |h| == 1 && HasDigit(h) {
      var i :| 0 <= i < |h| && IsDigit(h[i]);
      assert i == 0;
    }
    hide IsDigit;
  }

  lemma WeightsOf(h: string, r: Release)
    requires ValidRelease(r, h)
    ensures Positive(r.weights)
  {}

  method GeometryFor(h: string, r: Release, center: real, lineSpan: real) returns (points: seq<Point>)
    requires h != "" && ValidRelease(r, h) && lineSpan > 0.0
    ensures points == CenterGeometry(Placed(h, r, center, TargetSpan(|h|, lineSpan)), center)
  {
    hide HasDigit, Walked, WeightedPlan, CenterGeometry, ValidRelease, Placed, TargetSpan;
    var span := TargetSpan(|h|, lineSpan);
    var targetStart, targetEnd := center - span / 2.0, center + span / 2.0;
    SpanPositive(|h|, lineSpan);
    PlacedCases(h, r, center, span);
    PlacedNonempty(h, r, center, span);
    if !HasDigit(h) {
      if |h| == 1 {
        points := [r.identity(0, targetStart), r.identity(0, targetEnd)];
      } else {
        WeightsOf(h, r);
        points := PointsWithoutDigits(h, r, targetStart, span);
      }
    } else {
      points := PointsWithDigits(h, r, targetStart, span);
    }
    return CenterGeometry(points, center);
  }

  lemma SpanPositive(count: nat, lineSpan: real)
    requires count > 0 && lineSpan > 0.0
    ensures TargetSpan(count, lineSpan) > 0.0
  {
    PositiveProduct(lineSpan, count as real);
  }

  lemma {:induction false} PlacedNonempty(h: string, r: Release, center: real, span: real)
    requires h != "" && ValidRelease(r, h) && span > 0.0
    ensures Placed(h, r, center, span) != []
  {
    if Walkable(h) {
      var plan := WeightedPlan(h, r.weights, center - span / 2.0, span);
      PlanAdvances(h, r.weights, center - span / 2.0, span);
      WalkedAnchors(h, plan, r.pulse, r.identity, |h|);
    }
  }

  // ----- the shape of every signature -----

  /** One anchor for a non-digit, two for a digit and one more for each run of digits; a lone non-digit has two. */
  function PointCount(h: string): nat {
    if Walkable(h) then NonDigits(h) + 2 * Digits(h) + DigitRuns(h) else 2
  }

  /**
   Placed points span exactly the target: the first and last anchors are the
   start and the end, anchors strictly increase, and every point is smooth.
   */
  lemma {:induction false} PlacedShape(h: string, r: Release, center: real, span: real)
    requires h != "" && ValidRelease(r, h) && span > 0.0
    ensures var points := Placed(h, r, center, span);
            && |points| == PointCount(h)
            && Runs(points, center - span / 2.0, center + span / 2.0)
            && AllSmooth(points)
  {
    hide WeightedPlan, Walked, AllSmooth, Runs, NonDigits, Digits, DigitRuns, ValidRelease;
    var start := center - span / 2.0;
    if Walkable(h) {
      WalkableShape(h, r, start, span);
    } else {
      LoneShape(h, r, start, center + span / 2.0);
    }
  }

  lemma {:induction false} WalkableShape(h: string, r: Release, start: real, span: real)
    requires Walkable(h) && ValidRelease(r, h) && span > 0.0
    ensures var points := Walked(h, WeightedPlan(h, r.weights, start, span), r.pulse, r.identity, |h|);
            && |points| == NonDigits(h) + 2 * Digits(h) + DigitRuns(h)
            && Runs(points, start, start + span)
            && AllSmooth(points)
  {
    hide Walked, AllSmooth, Runs, NonDigits, Digits, DigitRuns, CursorAt, Positive, KeepsX, SmoothIdentity, Advancing, LayoutTotal, Scale, SpacingWeight, BoundaryWeight;
    PlanAdvances(h, r.weights, start, span);
    WalkedShape(h, WeightedPlan(h, r.weights, start, span), r.pulse, r.identity);
    SpanIsSpent(h, r.weights, start, span);
  }

  lemma LoneShape(h: string, r: Release, start: real, end: real)
    requires h != "" && ValidRelease(r, h) && start < end
    ensures var points := [r.identity(0, start), r.identity(0, end)];
            Runs(points, start, end) && AllSmooth(points)
  {
    hide Smooth, Positive;
    assert Smooth(r.identity(0, start)) && Smooth(r.identity(0, end));
  }

  lemma {:induction false} WalkedShape(h: string, plan: Plan, pulse: Pulse, identity: (nat, real) -> Point)
    requires h != "" && Advancing(plan, h) && KeepsX(identity) && SmoothIdentity(identity, |h|) && pulse.factor > 0.0
    ensures var points := Walked(h, plan, pulse, identity, |h|);
            && |points| == NonDigits(h) + 2 * Digits(h) + DigitRuns(h)
            && Runs(points, plan.start, CursorAt(h, plan, |h| - 1) + plan.spacing[|h| - 1])
            && AllSmooth(points)
  {
    WalkedCount(h, plan, pulse, identity, |h|);
    assert h[..|h|] == h;
    WalkedAnchors(h, plan, pulse, identity, |h|);
    WalkedSmooth(h, plan, pulse, identity, |h|);
    hide Walked, AllSmooth, Runs, NonDigits, Digits, DigitRuns, CursorAt;
  }

  lemma {:induction false} RunsShift(points: seq<Point>, first: real, last: real, d: real)
    requires Runs(points, first, last)
    ensures Runs(ShiftAll(points, d), first + d, last + d)
  {}

  ghost predicate SpansExactly(points: seq<Point>, span: real) {
    points != [] && Runs(points, points[0].anchor.x, points[0].anchor.x + span)
  }

  /**
   The right number of points, anchors strictly increasing over exactly the
   span, smooth joints, and anchors and handles centred.
   */
  ghost predicate WellShaped(points: seq<Point>, h: string, span: real, center: real) {
    && |points| == PointCount(h) >= 2
    && SpansExactly(points, span)
    && AllSmooth(points)
    && Midpoint(HandleXs(points)) == center
  }

  lemma {:induction false} CentredShape(placed: seq<Point>, first: real, last: real, center: real)
    requires Runs(placed, first, last) && first < last && AllSmooth(placed)
    ensures var points := CenterGeometry(placed, center);
            && |points| == |placed| >= 2
            && SpansExactly(points, last - first)
            && AllSmooth(points)
            && Midpoint(HandleXs(points)) == center
  {
    AtLeastTwo(placed, first, last);
    CenterGeometryCenters(placed, center);
    var d := center - Midpoint(HandleXs(placed));
    RunsShift(placed, first, last, d);
    SmoothShifts(placed, d);
    RunsSpan(ShiftAll(placed, d), first + d, last + d);
    hide Runs, AllSmooth, Midpoint, HandleXs, SpansExactly;
  }

  lemma RunsSpan(points: seq<Point>, first: real, last: real)
    requires Runs(points, first, last)
    ensures SpansExactly(points, last - first)
  {}

  /** The geometry of every signature, in any release, has this shape. */
  lemma {:induction false} GeometryShape(h: string, r: Release, center: real, lineSpan: real)
    requires h != "" && ValidRelease(r, h) && lineSpan > 0.0
    ensures var span := TargetSpan(|h|, lineSpan);
            Placed(h, r, center, span) != [] && WellShaped(CenterGeometry(Placed(h, r, center, span), center), h, span, center)
  {
    var span := TargetSpan(|h|, lineSpan);
    SpanPositive(|h|, lineSpan);
    PlacedNonempty(h, r, center, span);
    PlacedShape(h, r, center, span);
    hide Placed, ValidRelease, Runs, AllSmooth, SpansExactly, TargetSpan, CenterGeometry, PointCount;
    CentredShape(Placed(h, r, center, span), center - span / 2.0, center + span / 2.0, center);
  }

  lemma AtLeastTwo(points: seq<Point>, first: real, last: real)
    requires Runs(points, first, last) && first < last
    ensures |points| >= 2
  {}
}
