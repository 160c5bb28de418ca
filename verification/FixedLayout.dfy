/**
 The older layout: digits of one fixed width and connectors of a fixed gap; what
 is left of the target span is shared by the other boundaries, or clamped to none.
 */
module FixedLayout {
  import opened Wrappers
  import opened Cubics
  import opened Outline
  import opened Centring
  import opened Layout
  import opened WeightedLayout
  import opened Geometry

  /** The fixed digit width, and the relative weight of a gap between two characters. */
  datatype Fixed = Fixed(spacing: real, gap: (char, char) -> real)

  ghost predicate ValidFixed(f: Fixed) {
    f.spacing > 0.0 && forall a, b :: f.gap(a, b) > 0.0
  }

  function ConnectorGap(spacing: real): real {
    if 24.0 < spacing * 0.6 then 24.0 else spacing * 0.6
  }

  function Transitions(h: string, n: nat): nat
    requires n < |h| || n == 0
    decreases n
  {
    if n == 0 then 0 else Transitions(h, n - 1) + (if Transition(h, n - 1) then 1 else 0)
  }

  function DigitCount(h: string, n: nat): nat
    requires n <= |h|
    decreases n
  {
    if n == 0 then 0 else DigitCount(h, n - 1) + (if IsDigit(h[n - 1]) then 1 else 0)
  }

  /** The gap weights alone, as weights whose digits and connectors weigh nothing. */
  function GapsOnly(f: Fixed): Weights {
    Weights(c => 0.0, f.gap, (a, b) => 0.0)
  }

  function Times(x: real, y: real): real {
    x * y
  }

  function FixedWidth(h: string, f: Fixed): real
    requires h != ""
  {
    Times(DigitCount(h, |h|) as real, f.spacing) + Times(Transitions(h, |h| - 1) as real, ConnectorGap(f.spacing))
  }

  function FlexibleSpan(h: string, f: Fixed, target: real): real
    requires h != ""
  {
    if target - FixedWidth(h, f) > 0.0 then target - FixedWidth(h, f) else 0.0
  }

  function FlexibleWeight(h: string, f: Fixed): real
    requires h != ""
  {
    FlexibleTotal(h, GapsOnly(f), |h| - 1)
  }

  /** How much of the flexible span a unit of gap weight gets. */
  function GapShare(h: string, f: Fixed, target: real): real
    requires h != ""
  {
    if FlexibleWeight(h, f) > 0.0 then FlexibleSpan(h, f, target) / FlexibleWeight(h, f) else 0.0
  }

  predicate HasFlexible(h: string) {
    exists i :: 0 <= i < |h| - 1 && Flexible(h, i)
  }

  function UsedWidth(h: string, f: Fixed, target: real): real
    requires h != ""
  {
    FixedWidth(h, f) + (if HasFlexible(h) then FlexibleSpan(h, f, target) else 0.0)
  }

  /** The advances of the walk, as absolute weights. */
  function Advances(f: Fixed, share: real): Weights {
    Weights(c => f.spacing, (a, b) => f.gap(a, b) * share, (a, b) => ConnectorGap(f.spacing))
  }

  function AbsolutePlan(h: string, w: Weights, start: real): (plan: Plan)
    ensures |plan.spacing| == |h| && |plan.boundary| == |h|
  {
    Plan(start,
         seq(|h|, i requires 0 <= i < |h| => SpacingWeight(h, w, i)),
         seq(|h|, i requires 0 <= i < |h| => if i + 1 < |h| then BoundaryWeight(h, w, i) else 0.0))
  }

  function FixedPlan(h: string, f: Fixed, center: real, target: real): (plan: Plan)
    requires h != ""
    ensures |plan.spacing| == |h| && |plan.boundary| == |h|
  {
    AbsolutePlan(h, Advances(f, GapShare(h, f, target)), center - UsedWidth(h, f, target) / 2.0)
  }

  // ----- the sums of the walk -----

  lemma {:induction false} CursorIsWalkTotal(h: string, w: Weights, start: real, i: nat)
    requires i < |h|
    ensures CursorAt(h, AbsolutePlan(h, w, start), i) == start + WalkTotal(h, w, i)
    decreases i
  {
    if i > 0 {
      CursorIsWalkTotal(h, w, start, i - 1);
      hide SpacingWeight, BoundaryWeight;
    }
  }

  lemma {:induction false} SerialIsCount(h: string, f: Fixed, share: real, n: nat)
    requires n <= |h|
    ensures SerialTotal(h, Advances(f, share), n) == Times(DigitCount(h, n) as real, f.spacing)
    decreases n
  {
    if n > 0 {
      SerialIsCount(h, f, share, n - 1);
      CountUp(DigitCount(h, n - 1), f.spacing);
    }
  }

  lemma CountUp(n: nat, x: real)
    ensures ((n + 1) as real) * x == (n as real) * x + x
  {}

  lemma {:induction false} TransitionIsCount(h: string, f: Fixed, share: real, n: nat)
    requires n < |h| || n == 0
    ensures TransitionTotal(h, Advances(f, share), n) == Times(Transitions(h, n) as real, ConnectorGap(f.spacing))
    decreases n
  {
    if n > 0 {
      TransitionIsCount(h, f, share, n - 1);
      CountUp(Transitions(h, n - 1), ConnectorGap(f.spacing));
      hide ConnectorGap;
    }
  }

  lemma {:induction false} FlexibleIsShared(h: string, f: Fixed, share: real, n: nat)
    requires n < |h| || n == 0
    ensures FlexibleTotal(h, Advances(f, share), n) == Times(FlexibleTotal(h, GapsOnly(f), n), share)
    decreases n
  {
    if n > 0 {
      FlexibleIsShared(h, f, share, n - 1);
      var before := FlexibleTotal(h, GapsOnly(f), n - 1);
      if Flexible(h, n - 1) {
        Distributed(before, f.gap(h[n - 1], h[n]), share);
      }
    }
  }

  lemma Distributed(a: real, b: real, k: real)
    ensures (a + b) * k == a * k + b * k
  {}

  lemma {:induction false} FlexiblePositive(h: string, f: Fixed, n: nat)
    requires ValidFixed(f) && (n < |h| || n == 0)
    ensures FlexibleTotal(h, GapsOnly(f), n) >= 0.0
    ensures FlexibleTotal(h, GapsOnly(f), n) > 0.0 <==> exists i :: 0 <= i < n && Flexible(h, i)
    decreases n
  {
    if n > 0 {
      FlexiblePositive(h, f, n - 1);
      assert Flexible(h, n - 1) ==> f.gap(h[n - 1], h[n]) > 0.0;
      assert (exists i :: 0 <= i < n && Flexible(h, i)) <==> (exists i :: 0 <= i < n - 1 && Flexible(h, i)) || Flexible(h, n - 1);
    }
  }

  /** What the flexible boundaries take together: the whole flexible span if there is one, else nothing. */
  lemma SharedSpan(h: string, f: Fixed, target: real)
    requires ValidFixed(f) && h != ""
    ensures Times(FlexibleWeight(h, f), GapShare(h, f, target)) == if HasFlexible(h) then FlexibleSpan(h, f, target) else 0.0
    ensures GapShare(h, f, target) >= 0.0
  {
    FlexiblePositive(h, f, |h| - 1);
    assert FlexibleWeight(h, f) > 0.0 <==> HasFlexible(h);
    if FlexibleWeight(h, f) > 0.0 {
      QuotientTimes(FlexibleSpan(h, f, target), FlexibleWeight(h, f));
      NonnegativeQuotient(FlexibleSpan(h, f, target), FlexibleWeight(h, f));
    }
    hide FlexibleTotal, FixedWidth;
  }

  lemma NonnegativeQuotient(x: real, y: real)
    requires x >= 0.0 && y > 0.0
    ensures x / y >= 0.0
  {}

  lemma {:induction false} TotalsAreUsed(h: string, f: Fixed, target: real)
    requires ValidFixed(f) && h != ""
    ensures var w := Advances(f, GapShare(h, f, target));
            SerialTotal(h, w, |h|) + TransitionTotal(h, w, |h| - 1) + FlexibleTotal(h, w, |h| - 1) == UsedWidth(h, f, target)
  {
    var share := GapShare(h, f, target);
    SerialIsCount(h, f, share, |h|);
    TransitionIsCount(h, f, share, |h| - 1);
    FlexibleIsShared(h, f, share, |h| - 1);
    SharedSpan(h, f, target);
    hide SerialTotal, TransitionTotal, FlexibleTotal, DigitCount, Transitions, ConnectorGap, GapShare, FlexibleSpan, HasFlexible, ValidFixed, Advances, Times;
  }

  /**
   The walk ends exactly at the centre plus half the used width, also when the fixed
   widths exceed the target and the flexible span is clamped to nothing.
   */
  lemma {:induction false} WidthIsUsed(h: string, f: Fixed, center: real, target: real)
    requires ValidFixed(f) && h != ""
    ensures var plan := FixedPlan(h, f, center, target);
            CursorAt(h, plan, |h| - 1) + plan.spacing[|h| - 1] == center + UsedWidth(h, f, target) / 2.0
  {
    var n, used := |h| - 1, UsedWidth(h, f, target);
    var w := Advances(f, GapShare(h, f, target));
    CursorIsWalkTotal(h, w, center - used / 2.0, n);
    TotalsRegroup(h, w, n);
    TotalsAreUsed(h, f, target);
    LastSpacing(h, w);
    hide CursorAt, WalkTotal, SpacingWeight, BoundaryWeight, TransitionTotal, FlexibleTotal, GapShare, ValidFixed, SerialTotal, Advances, UsedWidth;
  }

  lemma LastSpacing(h: string, w: Weights)
    requires h != ""
    ensures SerialTotal(h, w, |h|) == SerialTotal(h, w, |h| - 1) + SpacingWeight(h, w, |h| - 1)
  {}

  /** The used width is the target exactly when something can flex and the fixed widths leave room, or they fit by themselves. */
  lemma UsedWidthMeetsTarget(h: string, f: Fixed, target: real)
    requires ValidFixed(f) && h != ""
    ensures UsedWidth(h, f, target) == target <==> FixedWidth(h, f) == target || (HasFlexible(h) && FixedWidth(h, f) < target)
  {
    hide FixedWidth, HasFlexible;
  }

  // ----- the points -----

  lemma {:induction false} EndsOfWalk(h: string, plan: Plan, pulse: Pulse, identity: (nat, real) -> Point, n: nat)
    requires 0 < n <= |h| && Fits(plan, h) && KeepsX(identity)
    requires forall i :: 0 <= i < |h| && !IsDigit(h[i]) ==> plan.spacing[i] == 0.0
    ensures var points := Walked(h, plan, pulse, identity, n);
            && points != [] && points[0].anchor.x == plan.start
            && points[|points| - 1].anchor.x == CursorAt(h, plan, n - 1) + plan.spacing[n - 1]
    decreases n
  {
    EmittedEnds(h, n - 1, CursorAt(h, plan, n - 1), plan, pulse, identity);
    if n > 1 {
      EndsOfWalk(h, plan, pulse, identity, n - 1);
      hide CursorAt, Emitted;
    } else {
      WalkedOne(h, plan, pulse, identity);
      hide Emitted;
    }
  }

  lemma EmittedEnds(h: string, i: nat, x: real, plan: Plan, pulse: Pulse, identity: (nat, real) -> Point)
    requires i < |h| && Fits(plan, h) && KeepsX(identity) && (!IsDigit(h[i]) ==> plan.spacing[i] == 0.0)
    ensures var points := Emitted(h, i, x, plan, pulse, identity);
            && points != [] && points[|points| - 1].anchor.x == x + plan.spacing[i]
            && (!DigitAt(h, i - 1) ==> points[0].anchor.x == x)
  {
    hide PulseHeight;
  }

  method CountDigits(h: string) returns (digits: nat)
    ensures digits == DigitCount(h, |h|)
  {
    digits := 0;
    for index := 0 to |h|
      invariant digits == DigitCount(h, index)
    {
      if IsDigit(h[index]) {
        digits := digits + 1;
      }
    }
  }

  method CountBoundaries(h: string, f: Fixed) returns (transitions: nat, flexible: real, hasFlexible: bool)
    requires h != ""
    ensures transitions == Transitions(h, |h| - 1) && flexible == FlexibleWeight(h, f) && (hasFlexible <==> HasFlexible(h))
  {
    transitions, flexible, hasFlexible := 0, 0.0, false;
    for index := 0 to |h| - 1
      invariant transitions == Transitions(h, index) && flexible == FlexibleTotal(h, GapsOnly(f), index)
      invariant hasFlexible <==> exists i :: 0 <= i < index && Flexible(h, i)
    {
      if IsDigit(h[index]) != IsDigit(h[index + 1]) {
        transitions := transitions + 1;
      }
      if !IsDigit(h[index]) && !IsDigit(h[index + 1]) {
        flexible := flexible + f.gap(h[index], h[index + 1]);
        hasFlexible := true;
        assert Flexible(h, index);
      }
    }
  }

  /** Counts, sums, the clamped flexible span, and the advances that they give. */
  method PlanFixed(h: string, f: Fixed, center: real, target: real) returns (plan: Plan)
    requires h != ""
    ensures plan == FixedPlan(h, f, center, target)
  {
    hide SpacingWeight, BoundaryWeight, DigitCount, Transitions, FlexibleTotal, ConnectorGap, HasFlexible, FlexibleWeight, Times, Advances;
    var digits := CountDigits(h);
    var transitions, flexible, hasFlexible := CountBoundaries(h, f);
    var connectorGap := ConnectorGap(f.spacing);
    var fixedWidth := Times(digits as real, f.spacing) + Times(transitions as real, connectorGap);
    var flexibleSpan := if target - fixedWidth > 0.0 then target - fixedWidth else 0.0;
    var share := if flexible > 0.0 then flexibleSpan / flexible else 0.0;
    var usedWidth := fixedWidth + (if hasFlexible then flexibleSpan else 0.0);
    assert share == GapShare(h, f, target) && usedWidth == UsedWidth(h, f, target);
    var w := Advances(f, share);
    plan := Plan(center - usedWidth / 2.0,
                 seq(|h|, i requires 0 <= i < |h| => SpacingWeight(h, w, i)),
                 seq(|h|, i requires 0 <= i < |h| => if i + 1 < |h| then BoundaryWeight(h, w, i) else 0.0));
  }

  lemma PlanShape(h: string, f: Fixed, center: real, target: real)
    requires h != ""
    ensures var plan := FixedPlan(h, f, center, target);
            && plan.start == center - UsedWidth(h, f, target) / 2.0
            && (forall i :: 0 <= i < |h| ==> !IsDigit(h[i]) ==> plan.spacing[i] == 0.0)
            && (forall i :: 0 <= i < |h| - 1 ==> DigitAt(h, i) && DigitAt(h, i + 1) ==> plan.boundary[i] == 0.0)
  {
    hide UsedWidth, GapShare, Advances;
  }

  // ----- without digits -----

  /** The weights of the branch without digits: gaps alone matter. */
  function PlainWeights(f: Fixed): Weights {
    Weights(c => 1.0, f.gap, (a, b) => 1.0)
  }

  lemma {:induction false} NothingFixed(h: string, n: nat)
    requires !HasDigit(h) && n <= |h|
    ensures DigitCount(h, n) == 0
    ensures n < |h| ==> Transitions(h, n) == 0
    decreases n
  {
    if n > 0 {
      NothingFixed(h, n - 1);
    }
  }

  lemma {:induction false} SameFlexible(h: string, f: Fixed, n: nat)
    requires n < |h| || n == 0
    ensures FlexibleTotal(h, PlainWeights(f), n) == FlexibleTotal(h, GapsOnly(f), n)
    decreases n
  {
    if n > 0 {
      SameFlexible(h, f, n - 1);
    }
  }

  lemma AllFlexible(h: string, f: Fixed, target: real)
    requires ValidFixed(f) && |h| > 1 && !HasDigit(h) && target > 0.0
    ensures FixedWidth(h, f) == 0.0 && HasFlexible(h) && FlexibleWeight(h, f) > 0.0
    ensures LayoutTotal(h, PlainWeights(f)) == FlexibleWeight(h, f)
  {
    NothingFixed(h, |h|);
    NothingFixed(h, |h| - 1);
    assert Flexible(h, 0);
    FlexiblePositive(h, f, |h| - 1);
    SameFlexible(h, f, |h| - 1);
    NoDigitsTotal(h, PlainWeights(f), |h|);
    hide DigitCount, Transitions, FlexibleTotal, SerialTotal, TransitionTotal, ConnectorGap;
  }

  lemma SameAdvance(h: string, f: Fixed, share: real, i: nat)
    requires !HasDigit(h) && i < |h|
    ensures SpacingWeight(h, Advances(f, share), i) == SpacingWeight(h, PlainWeights(f), i) * share
    ensures i + 1 < |h| ==> BoundaryWeight(h, Advances(f, share), i) == BoundaryWeight(h, PlainWeights(f), i) * share
  {
    hide ConnectorGap;
  }

  /** Without digits nothing is fixed: this layout is the weighted one over the whole target. */
  lemma FixedWithoutDigits(h: string, f: Fixed, center: real, target: real)
    requires ValidFixed(f) && |h| > 1 && !HasDigit(h) && target > 0.0
    ensures UsedWidth(h, f, target) == target
    ensures FixedPlan(h, f, center, target) == WeightedPlan(h, PlainWeights(f), center - target / 2.0, target)
  {
    AllFlexible(h, f, target);
    hide FixedWidth, HasFlexible, FlexibleWeight, LayoutTotal, ConnectorGap;
    var share := GapShare(h, f, target);
    assert share == Scale(LayoutTotal(h, PlainWeights(f)), target);
    hide GapShare, Scale;
    var fixed, weighted := FixedPlan(h, f, center, target), WeightedPlan(h, PlainWeights(f), center - target / 2.0, target);
    forall i | 0 <= i < |h|
      ensures fixed.spacing[i] == weighted.spacing[i] && fixed.boundary[i] == weighted.boundary[i]
    {
      SameAdvance(h, f, share, i);
      hide SpacingWeight, BoundaryWeight, Advances, PlainWeights;
    }
    assert fixed.spacing == weighted.spacing && fixed.boundary == weighted.boundary;
  }

  // ----- all three branches -----

  /** The points before centring. */
  function FixedPlaced(h: string, f: Fixed, pulse: Pulse, identity: (nat, real) -> Point, center: real, target: real): seq<Point>
    requires h != ""
  {
    if Walkable(h) then Walked(h, FixedPlan(h, f, center, target), pulse, identity, |h|)
    else [identity(0, center - target / 2.0), identity(0, center + target / 2.0)]
  }

  /** What the anchors take: the used width, or the whole target for a lone character. */
  function PlacedWidth(h: string, f: Fixed, target: real): real
    requires h != ""
  {
    if Walkable(h) then UsedWidth(h, f, target) else target
  }

  lemma {:induction false} FixedWalkShape(h: string, f: Fixed, pulse: Pulse, identity: (nat, real) -> Point, center: real, target: real)
    requires h != "" && ValidFixed(f) && KeepsX(identity)
    ensures var points, width := Walked(h, FixedPlan(h, f, center, target), pulse, identity, |h|), UsedWidth(h, f, target);
            && points != [] && |points| == NonDigits(h) + 2 * Digits(h) + DigitRuns(h)
            && points[0].anchor.x == center - width / 2.0 && points[|points| - 1].anchor.x == center + width / 2.0
  {
    var plan := FixedPlan(h, f, center, target);
    PlanShape(h, f, center, target);
    hide Walked, UsedWidth, NonDigits, Digits, DigitRuns, CursorAt, FixedPlan;
    EndsOfWalk(h, plan, pulse, identity, |h|);
    WidthIsUsed(h, f, center, target);
    WalkedCount(h, plan, pulse, identity, |h|);
    assert h[..|h|] == h;
  }

  lemma {:induction false} FixedPlacedShape(h: string, f: Fixed, pulse: Pulse, identity: (nat, real) -> Point, center: real, target: real)
    requires h != "" && ValidFixed(f) && KeepsX(identity)
    ensures var placed, width := FixedPlaced(h, f, pulse, identity, center, target), PlacedWidth(h, f, target);
            && placed != [] && |placed| == PointCount(h)
            && placed[0].anchor.x == center - width / 2.0 && placed[|placed| - 1].anchor.x == center + width / 2.0
  {
    hide Walked, UsedWidth, NonDigits, Digits, DigitRuns, FixedPlan, Walkable;
    if Walkable(h) {
      FixedWalkShape(h, f, pulse, identity, center, target);
    } else {
      assert KeepsX(identity);
    }
  }

  lemma {:induction false} CentredKeepsWidth(placed: seq<Point>, center: real)
    requires placed != []
    ensures var points := CenterGeometry(placed, center);
            && |points| == |placed|
            && points[|points| - 1].anchor.x - points[0].anchor.x == placed[|placed| - 1].anchor.x - placed[0].anchor.x
            && Midpoint(HandleXs(points)) == center
  {
    CenterGeometryCenters(placed, center);
    hide Midpoint, HandleXs;
  }

  method FixedWithDigits(h: string, f: Fixed, pulse: Pulse, identity: (nat, real) -> Point, center: real, target: real) returns (points: seq<Point>)
    requires h != ""
    ensures points == Walked(h, FixedPlan(h, f, center, target), pulse, identity, |h|)
  {
    var plan := PlanFixed(h, f, center, target);
    PlanShape(h, f, center, target);
    hide FixedPlan, Walked, UsedWidth;
    points := WalkLayout(h, plan, pulse, identity);
  }

  /** The points: two for a lone character, the gaps alone without digits, or the fixed walk; then centred. */
  method FixedGeometry(h: string, f: Fixed, pulse: Pulse, identity: (nat, real) -> Point, center: real, target: real) returns (points: seq<Point>)
    requires h != "" && ValidFixed(f) && KeepsX(identity) && target > 0.0
    ensures FixedPlaced(h, f, pulse, identity, center, target) != []
    ensures points == CenterGeometry(FixedPlaced(h, f, pulse, identity, center, target), center)
    ensures points != [] && |points| == PointCount(h)
    ensures points[|points| - 1].anchor.x - points[0].anchor.x == PlacedWidth(h, f, target)
    ensures Midpoint(HandleXs(points)) == center
  {
    hide HasDigit, Walked, WeightedPlan, FixedPlan, CenterGeometry, ValidFixed, PointCount, PlacedWidth, Midpoint, HandleXs;
    FixedPlacedShape(h, f, pulse, identity, center, target);
    WalkableCases(h);
    hide Walkable;
    var targetStart, targetEnd := center - target / 2.0, center + target / 2.0;
    if !HasDigit(h) {
      if |h| == 1 {
        points := [identity(0, targetStart), identity(0, targetEnd)];
      } else {
        FixedWithoutDigits(h, f, center, target);
        PlainIsPositive(f);
        points := PointsWithoutDigits(h, Release(PlainWeights(f), pulse, identity), targetStart, target);
      }
    } else {
      points := FixedWithDigits(h, f, pulse, identity, center, target);
    }
    assert points == FixedPlaced(h, f, pulse, identity, center, target);
    CentredKeepsWidth(points, center);
    return CenterGeometry(points, center);
  }

  lemma PlainIsPositive(f: Fixed)
    requires ValidFixed(f)
    ensures Positive(PlainWeights(f))
  {}
}
