/** Where the layout puts every point, said by shares, distances and neighbours instead of by the walk. */
module PlacedPoints {
  import opened Wrappers
  import opened Vectors
  import opened Cubics
  import opened Outline
  import opened Layout
  import opened WeightedLayout
  import opened Geometry
  import opened FixedLayout

  // ----- the plan -----

  /** Every digit and boundary takes its weight's worth of one unit; between two digits there is no space. */
  ghost predicate SharesOut(h: string, w: Weights, plan: Plan, unit: real) {
    && Fits(plan, h)
    && (forall i :: 0 <= i < |h| ==> plan.spacing[i] == if IsDigit(h[i]) then w.digit(h[i]) * unit else 0.0)
    && (forall i :: 0 <= i < |h| - 1 ==>
          plan.boundary[i] ==
          match (IsDigit(h[i]), IsDigit(h[i + 1]))
          case (false, false) => w.gap(h[i], h[i + 1]) * unit
          case (true, false) => w.transition(h[i], h[i + 1]) * unit
          case (false, true) => w.transition(h[i + 1], h[i]) * unit
          case (true, true) => 0.0)
  }

  lemma PlanSharesOut(h: string, w: Weights, start: real, span: real)
    requires h != ""
    ensures SharesOut(h, w, WeightedPlan(h, w, start, span), Scale(LayoutTotal(h, w), span))
  {
    hide LayoutTotal, Scale;
    var plan, unit := WeightedPlan(h, w, start, span), Scale(LayoutTotal(h, w), span);
    forall i | 0 <= i < |h|
      ensures plan.spacing[i] == if IsDigit(h[i]) then w.digit(h[i]) * unit else 0.0
    {
      NoWeight(unit);
    }
    forall i | 0 <= i < |h| - 1
      ensures plan.boundary[i] ==
              match (IsDigit(h[i]), IsDigit(h[i + 1]))
              case (false, false) => w.gap(h[i], h[i + 1]) * unit
              case (true, false) => w.transition(h[i], h[i + 1]) * unit
              case (false, true) => w.transition(h[i + 1], h[i]) * unit
              case (true, true) => 0.0
    {
      NoWeight(unit);
    }
  }

  lemma NoWeight(unit: real)
    ensures 0.0 * unit == 0.0
  {}

  /** Together the shares are exactly the span: this fixes the unit. */
  lemma {:induction false} SharesSpendSpan(h: string, w: Weights, start: real, span: real)
    requires Positive(w) && Walkable(h) && span > 0.0
    ensures var plan := WeightedPlan(h, w, start, span);
            && plan.start == start && CursorAt(h, plan, |h| - 1) + plan.spacing[|h| - 1] == start + span
            && exists unit :: unit > 0.0 && SharesOut(h, w, plan, unit)
  {
    SpanIsSpent(h, w, start, span);
    LayoutTotalPositive(h, w);
    PositiveQuotient(span, LayoutTotal(h, w));
    PlanSharesOut(h, w, start, span);
    assert Scale(LayoutTotal(h, w), span) > 0.0;
    hide SharesOut, LayoutTotal, CursorAt, Scale;
  }

  // ----- the walk -----

  ghost predicate IsLevel(p: Point, c: char, x: real, y: real, handle: real) {
    && p.style.character == c && p.style.serialTail && !p.style.uppercase
    && p.anchor.x == x && p.anchor.x - p.incoming.x == p.outgoing.x - p.anchor.x == handle
    && p.anchor.y == p.incoming.y == p.outgoing.y == y
  }

  /**
   A digit's pulse is point k and its neighbours: from the baseline at x up to the
   middle of its width and down to the baseline again. The rise is a ninth of the
   full height times the digit.
   */
  ghost predicate HasPulse(points: seq<Point>, k: int, c: char, x: real, spacing: real, pulse: Pulse) {
    && 0 < k < |points| - 1
    && points[k - 1].anchor == Vector(x, pulse.baselineY)
    && IsLevel(points[k], c, x + spacing / 2.0, points[k].anchor.y, spacing * pulse.factor)
    && 9.0 * (pulse.baselineY - points[k].anchor.y) == (c as int - '0' as int) as real * pulse.maxHeight
    && IsLevel(points[k + 1], c, x + spacing, pulse.baselineY, spacing * pulse.factor)
  }

  /** Point k belongs to character i at x: the point its identity gives, or the peak of its pulse. */
  ghost predicate Belongs(h: string, i: nat, x: real, k: int, points: seq<Point>, plan: Plan, pulse: Pulse, identity: (nat, real) -> Point)
    requires i < |h| && |plan.spacing| == |h|
  {
    if IsDigit(h[i]) then
      && HasPulse(points, k, h[i], x, plan.spacing[i], pulse)
      && (!DigitAt(h, i - 1) ==> IsLevel(points[k - 1], h[i], x, pulse.baselineY, plan.spacing[i] * pulse.factor))
    else 0 <= k < |points| && points[k] == identity(i, x)
  }

  /** There is no space between two digits. */
  ghost predicate RunsJoin(plan: Plan, h: string) {
    Fits(plan, h) && forall i :: 0 <= i < |h| - 1 ==> IsDigit(h[i]) && IsDigit(h[i + 1]) ==> plan.boundary[i] == 0.0
  }

  /** The index of the point that belongs to character i. */
  function IndexOf(h: string, plan: Plan, pulse: Pulse, identity: (nat, real) -> Point, i: nat): nat
    requires i < |h| && |plan.spacing| == |h| && |plan.boundary| == |h|
  {
    |Walked(h, plan, pulse, identity, i)| + (if IsDigit(h[i]) && !DigitAt(h, i - 1) then 1 else 0)
  }

  lemma {:induction false} WalkedPrefix(h: string, plan: Plan, pulse: Pulse, identity: (nat, real) -> Point, n: nat, m: nat)
    requires n <= m <= |h| && |plan.spacing| == |h| && |plan.boundary| == |h|
    ensures Walked(h, plan, pulse, identity, n) <= Walked(h, plan, pulse, identity, m)
    decreases m
  {
    if n < m {
      WalkedPrefix(h, plan, pulse, identity, n, m - 1);
      hide Emitted;
    }
  }

  /** The points from index n on begin with the points of character i. */
  ghost predicate EmitsAt(h: string, i: nat, x: real, points: seq<Point>, n: nat, plan: Plan, pulse: Pulse, identity: (nat, real) -> Point)
    requires i < |h| && |plan.spacing| == |h|
  {
    var own := Emitted(h, i, x, plan, pulse, identity);
    n + |own| <= |points| && points[n..n + |own|] == own
  }

  lemma {:induction false} EmittedInPlace(h: string, plan: Plan, pulse: Pulse, identity: (nat, real) -> Point, i: nat)
    requires i < |h| && |plan.spacing| == |h| && |plan.boundary| == |h|
    ensures EmitsAt(h, i, CursorAt(h, plan, i), Walked(h, plan, pulse, identity, |h|), |Walked(h, plan, pulse, identity, i)|, plan, pulse, identity)
    ensures |Walked(h, plan, pulse, identity, i + 1)|
         == |Walked(h, plan, pulse, identity, i)| + if !IsDigit(h[i]) then 1 else if DigitAt(h, i - 1) then 2 else 3
  {
    EmittedCount(h, i, CursorAt(h, plan, i), plan, pulse, identity);
    hide Emitted, CursorAt;
    WalkedPrefix(h, plan, pulse, identity, i + 1, |h|);
    var before, own := Walked(h, plan, pulse, identity, i), Emitted(h, i, CursorAt(h, plan, i), plan, pulse, identity);
    assert Walked(h, plan, pulse, identity, i + 1) == before + own;
    hide Walked;
    assert (before + own)[|before|..] == own;
  }

  lemma EmittedCount(h: string, i: nat, x: real, plan: Plan, pulse: Pulse, identity: (nat, real) -> Point)
    requires i < |h| && |plan.spacing| == |h|
    ensures |Emitted(h, i, x, plan, pulse, identity)| == if !IsDigit(h[i]) then 1 else if DigitAt(h, i - 1) then 2 else 3
  {
    hide SerialPoint, PulseHeight;
  }

  lemma PulseInPlace(c: char, x: real, spacing: real, starts: bool, pulse: Pulse, points: seq<Point>, n: nat)
    requires var own := PulsePoints(c, x, spacing, starts, pulse); n + |own| <= |points| && points[n..n + |own|] == own
    requires !starts ==> n > 0 && points[n - 1].anchor == Vector(x, pulse.baselineY)
    ensures var k := if starts then n + 1 else n;
            && HasPulse(points, k, c, x, spacing, pulse)
            && (starts ==> IsLevel(points[k - 1], c, x, pulse.baselineY, spacing * pulse.factor))
  {
    var own := PulsePoints(c, x, spacing, starts, pulse);
    var k := if starts then n + 1 else n;
    assert points[n] == own[0] && points[n + 1] == own[1] && (starts ==> points[n + 2] == own[2]);
    var rise := PulseHeight(c, pulse.maxHeight);
    Ninths((c as int - '0' as int) as real, pulse.maxHeight);
    assert IsLevel(points[k], c, x + spacing / 2.0, pulse.baselineY - rise, spacing * pulse.factor);
    hide PulsePoints, PulseHeight;
  }

  lemma Ninths(digit: real, height: real)
    ensures 9.0 * (digit / 9.0 * height) == digit * height
  {
    assert 9.0 * (digit / 9.0) == digit;
  }

  lemma {:induction false} RunGoesOn(h: string, plan: Plan, pulse: Pulse, identity: (nat, real) -> Point, i: nat)
    requires 0 < i < |h| && RunsJoin(plan, h) && IsDigit(h[i]) && DigitAt(h, i - 1)
    ensures var n := |Walked(h, plan, pulse, identity, i)|;
            0 < n <= |Walked(h, plan, pulse, identity, |h|)| && Walked(h, plan, pulse, identity, |h|)[n - 1].anchor == Vector(CursorAt(h, plan, i), pulse.baselineY)
  {
    var j := i - 1;
    assert plan.boundary[j] == 0.0;
    EmittedLast(h, j, CursorAt(h, plan, j), plan, pulse, identity);
    assert CursorAt(h, plan, i) == CursorAt(h, plan, j) + plan.spacing[j];
    hide CursorAt, Emitted, RunsJoin;
    WalkedPrefix(h, plan, pulse, identity, i, |h|);
  }

  lemma EmittedLast(h: string, i: nat, x: real, plan: Plan, pulse: Pulse, identity: (nat, real) -> Point)
    requires i < |h| && |plan.spacing| == |h| && IsDigit(h[i])
    ensures var own := Emitted(h, i, x, plan, pulse, identity);
            own != [] && own[|own| - 1].anchor == Vector(x + plan.spacing[i], pulse.baselineY)
  {
    hide PulseHeight;
  }

  lemma {:induction false} DigitInPlace(h: string, plan: Plan, pulse: Pulse, identity: (nat, real) -> Point, i: nat)
    requires i < |h| && RunsJoin(plan, h) && IsDigit(h[i])
    ensures Belongs(h, i, CursorAt(h, plan, i), IndexOf(h, plan, pulse, identity, i), Walked(h, plan, pulse, identity, |h|), plan, pulse, identity)
  {
    EmittedInPlace(h, plan, pulse, identity, i);
    if DigitAt(h, i - 1) {
      RunGoesOn(h, plan, pulse, identity, i);
    }
    hide Walked, PulsePoints, HasPulse, IsLevel, CursorAt, RunsJoin;
    var points, n := Walked(h, plan, pulse, identity, |h|), |Walked(h, plan, pulse, identity, i)|;
    PulseInPlace(h[i], CursorAt(h, plan, i), plan.spacing[i], !DigitAt(h, i - 1), pulse, points, n);
  }

  lemma {:induction false} BelongsInPlace(h: string, plan: Plan, pulse: Pulse, identity: (nat, real) -> Point, i: nat)
    requires i < |h| && RunsJoin(plan, h)
    ensures Belongs(h, i, CursorAt(h, plan, i), IndexOf(h, plan, pulse, identity, i), Walked(h, plan, pulse, identity, |h|), plan, pulse, identity)
  {
    if IsDigit(h[i]) {
      DigitInPlace(h, plan, pulse, identity, i);
      hide Belongs, CursorAt, IndexOf, Walked;
    } else {
      EmittedInPlace(h, plan, pulse, identity, i);
      hide Walked, CursorAt;
      var points, n := Walked(h, plan, pulse, identity, |h|), |Walked(h, plan, pulse, identity, i)|;
      assert points[n..n + 1][0] == identity(i, CursorAt(h, plan, i));
    }
  }

  /** Each character stands behind the one before it by that one's width and the boundary between them. */
  ghost predicate Stands(h: string, i: nat, xs: seq<real>, at: seq<nat>, plan: Plan)
    requires i < |h| == |xs| == |at| && Fits(plan, h)
  {
    if i == 0 then xs[0] == plan.start && at[0] == (if IsDigit(h[0]) then 1 else 0)
    else xs[i] == xs[i - 1] + plan.spacing[i - 1] + plan.boundary[i - 1]
         && at[i] == at[i - 1] + if IsDigit(h[i - 1]) || IsDigit(h[i]) then 2 else 1
  }

  /** A complete account of the points: point at[i] belongs to character i, which stands at xs[i], and no points are left over. */
  ghost predicate InPlace(h: string, xs: seq<real>, at: seq<nat>, points: seq<Point>, plan: Plan, pulse: Pulse, identity: (nat, real) -> Point)
    requires Fits(plan, h) && h != ""
  {
    && |xs| == |at| == |h|
    && (forall i :: 0 <= i < |h| ==> Stands(h, i, xs, at, plan) && Belongs(h, i, xs[i], at[i], points, plan, pulse, identity))
    && |points| == at[|h| - 1] + (if IsDigit(h[|h| - 1]) then 2 else 1)
  }

  lemma {:induction false} IndexSteps(h: string, plan: Plan, pulse: Pulse, identity: (nat, real) -> Point, i: nat)
    requires i < |h| && |plan.spacing| == |h| && |plan.boundary| == |h|
    ensures i == 0 ==> IndexOf(h, plan, pulse, identity, i) == if IsDigit(h[0]) then 1 else 0
    ensures if i + 1 < |h| then
              IndexOf(h, plan, pulse, identity, i + 1)
              == IndexOf(h, plan, pulse, identity, i) + if IsDigit(h[i]) || IsDigit(h[i + 1]) then 2 else 1
            else |Walked(h, plan, pulse, identity, |h|)| == IndexOf(h, plan, pulse, identity, i) + if IsDigit(h[i]) then 2 else 1
  {
    EmittedInPlace(h, plan, pulse, identity, i);
    assert Walked(h, plan, pulse, identity, 0) == [];
    hide EmitsAt, Walked;
  }

  function Cursors(h: string, plan: Plan): (xs: seq<real>)
    requires Fits(plan, h)
    ensures |xs| == |h| && forall i :: 0 <= i < |h| ==> xs[i] == CursorAt(h, plan, i)
  {
    seq(|h|, i requires 0 <= i < |h| => CursorAt(h, plan, i))
  }

  function Indices(h: string, plan: Plan, pulse: Pulse, identity: (nat, real) -> Point): (at: seq<nat>)
    requires Fits(plan, h)
    ensures |at| == |h| && forall i :: 0 <= i < |h| ==> at[i] == IndexOf(h, plan, pulse, identity, i)
  {
    seq(|h|, i requires 0 <= i < |h| => IndexOf(h, plan, pulse, identity, i))
  }

  lemma {:induction false} StandsInPlace(h: string, plan: Plan, pulse: Pulse, identity: (nat, real) -> Point, i: nat)
    requires i < |h| && Fits(plan, h)
    ensures Stands(h, i, Cursors(h, plan), Indices(h, plan, pulse, identity), plan)
  {
    hide IndexOf, IsDigit, Cursors, Indices;
    IndexSteps(h, plan, pulse, identity, i);
    if i > 0 {
      IndexSteps(h, plan, pulse, identity, i - 1);
    }
  }

  lemma {:induction false} WalkedInPlace(h: string, plan: Plan, pulse: Pulse, identity: (nat, real) -> Point)
    requires h != "" && RunsJoin(plan, h)
    ensures InPlace(h, Cursors(h, plan), Indices(h, plan, pulse, identity), Walked(h, plan, pulse, identity, |h|), plan, pulse, identity)
  {
    assert Fits(plan, h);
    hide Belongs, Walked, RunsJoin, CursorAt, IndexOf, IsDigit, Stands, Cursors, Indices, Fits;
    var xs, at := Cursors(h, plan), Indices(h, plan, pulse, identity);
    forall i | 0 <= i < |h|
      ensures Stands(h, i, xs, at, plan) && Belongs(h, i, xs[i], at[i], Walked(h, plan, pulse, identity, |h|), plan, pulse, identity)
    {
      BelongsInPlace(h, plan, pulse, identity, i);
      StandsInPlace(h, plan, pulse, identity, i);
    }
    IndexSteps(h, plan, pulse, identity, |h| - 1);
  }

  lemma AdvancingJoins(plan: Plan, h: string)
    requires Advancing(plan, h)
    ensures RunsJoin(plan, h)
  {}

  /** The points of every release: shares of the span, in place, from its start to its end. A lone character stands at both ends. */
  lemma {:induction false} PlacedInPlace(h: string, r: Release, center: real, span: real) returns (plan: Plan, xs: seq<real>, at: seq<nat>)
    requires h != "" && ValidRelease(r, h) && span > 0.0
    ensures var points := Placed(h, r, center, span);
            if |h| == 1 && !IsDigit(h[0]) then points == [r.identity(0, center - span / 2.0), r.identity(0, center + span / 2.0)]
            else
              && (exists unit :: unit > 0.0 && SharesOut(h, r.weights, plan, unit))
              && InPlace(h, xs, at, points, plan, r.pulse, r.identity)
              && xs[0] == center - span / 2.0 && xs[|h| - 1] + plan.spacing[|h| - 1] == center + span / 2.0
  {
    plan, xs, at := Plan(0.0, [], []), [], [];
    hide WeightedPlan, Walked, SharesOut, InPlace, KeepsX, SmoothIdentity, Advancing, Positive, CursorAt, Cursors, Indices;
    if Walkable(h) {
      var start := center - span / 2.0;
      plan := WeightedPlan(h, r.weights, start, span);
      PlanAdvances(h, r.weights, start, span);
      SharesSpendSpan(h, r.weights, start, span);
      AdvancingJoins(plan, h);
      WalkedInPlace(h, plan, r.pulse, r.identity);
      xs, at := Cursors(h, plan), Indices(h, plan, r.pulse, r.identity);
      CursorFirst(h, plan);
    }
  }

  // ----- the older layout -----

  /** What the older layout advances by: the fixed width over digits, the connector gap to a neighbour, a share of the rest between others. */
  ghost predicate AdvancesBy(h: string, f: Fixed, plan: Plan, share: real) {
    && Fits(plan, h)
    && (forall i :: 0 <= i < |h| ==> plan.spacing[i] == if IsDigit(h[i]) then f.spacing else 0.0)
    && (forall i :: 0 <= i < |h| - 1 ==>
          plan.boundary[i] ==
          if IsDigit(h[i]) && IsDigit(h[i + 1]) then 0.0
          else if IsDigit(h[i]) || IsDigit(h[i + 1]) then ConnectorGap(f.spacing)
          else f.gap(h[i], h[i + 1]) * share)
  }

  lemma ConnectorIsSmaller(spacing: real)
    ensures ConnectorGap(spacing) <= 24.0 && 10.0 * ConnectorGap(spacing) <= 6.0 * spacing
    ensures ConnectorGap(spacing) == 24.0 || 10.0 * ConnectorGap(spacing) == 6.0 * spacing
  {}

  lemma FixedAdvances(h: string, f: Fixed, center: real, target: real)
    requires h != ""
    ensures AdvancesBy(h, f, FixedPlan(h, f, center, target), GapShare(h, f, target))
  {
    hide ConnectorGap, GapShare, UsedWidth;
  }

  /** The points of the older layout: in place around the centre, on the used width. */
  lemma {:induction false} FixedInPlace(h: string, f: Fixed, pulse: Pulse, identity: (nat, real) -> Point, center: real, target: real)
    returns (plan: Plan, xs: seq<real>, at: seq<nat>)
    requires h != "" && ValidFixed(f)
    ensures var points := FixedPlaced(h, f, pulse, identity, center, target);
            if |h| == 1 && !IsDigit(h[0]) then points == [identity(0, center - target / 2.0), identity(0, center + target / 2.0)]
            else
              && (exists share :: share >= 0.0 && AdvancesBy(h, f, plan, share))
              && InPlace(h, xs, at, points, plan, pulse, identity)
              && xs[0] == center - UsedWidth(h, f, target) / 2.0
              && xs[|h| - 1] + plan.spacing[|h| - 1] == center + UsedWidth(h, f, target) / 2.0
  {
    plan := FixedPlan(h, f, center, target);
    FixedAdvances(h, f, center, target);
    SharedSpan(h, f, target);
    WidthIsUsed(h, f, center, target);
    AdvancesJoin(h, f, plan, GapShare(h, f, target));
    PlanStarts(h, f, center, target);
    hide FixedPlan, AdvancesBy, GapShare, UsedWidth, Walked, InPlace, RunsJoin, CursorAt, Cursors, Indices;
    WalkedInPlace(h, plan, pulse, identity);
    xs, at := Cursors(h, plan), Indices(h, plan, pulse, identity);
    CursorFirst(h, plan);
  }

  lemma PlanStarts(h: string, f: Fixed, center: real, target: real)
    requires h != ""
    ensures FixedPlan(h, f, center, target).start == center - UsedWidth(h, f, target) / 2.0
  {}

  lemma AdvancesJoin(h: string, f: Fixed, plan: Plan, share: real)
    requires AdvancesBy(h, f, plan, share)
    ensures RunsJoin(plan, h)
  {}
}
