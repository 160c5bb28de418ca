/**
 Placement by weights: digits, gaps and transitions share a fixed span in
 proportion to their weights. The weights differ between releases.
 */
module WeightedLayout {
  import opened Wrappers
  import opened Cubics
  import opened Layout

  /** transition takes the digit first, then its neighbour. */
  datatype Weights = Weights(digit: char -> real, gap: (char, char) -> real, transition: (char, char) -> real)

  ghost predicate Positive(w: Weights) {
    && (forall c :: w.digit(c) > 0.0)
    && (forall a, b :: w.gap(a, b) > 0.0)
    && (forall a, b :: w.transition(a, b) > 0.0)
  }

  function SpacingWeight(h: string, w: Weights, i: nat): real
    requires i < |h|
  {
    if IsDigit(h[i]) then w.digit(h[i]) else 0.0
  }

  predicate Flexible(h: string, i: nat)
    requires i + 1 < |h|
  {
    !IsDigit(h[i]) && !IsDigit(h[i + 1])
  }

  predicate Transition(h: string, i: nat)
    requires i + 1 < |h|
  {
    IsDigit(h[i]) != IsDigit(h[i + 1])
  }

  function BoundaryWeight(h: string, w: Weights, i: nat): real
    requires i + 1 < |h|
  {
    if Flexible(h, i) then w.gap(h[i], h[i + 1])
    else if Transition(h, i) then
      if IsDigit(h[i]) then w.transition(h[i], h[i + 1]) else w.transition(h[i + 1], h[i])
    else 0.0
  }

  // The three sums that the layout takes over its characters and boundaries.

  function SerialTotal(h: string, w: Weights, n: nat): real
    requires n <= |h|
    decreases n
  {
    if n == 0 then 0.0 else SerialTotal(h, w, n - 1) + SpacingWeight(h, w, n - 1)
  }

  function TransitionTotal(h: string, w: Weights, n: nat): real
    requires n < |h| || n == 0
    decreases n
  {
    if n == 0 then 0.0
    else TransitionTotal(h, w, n - 1) + (if Transition(h, n - 1) then BoundaryWeight(h, w, n - 1) else 0.0)
  }

  function FlexibleTotal(h: string, w: Weights, n: nat): real
    requires n < |h| || n == 0
    decreases n
  {
    if n == 0 then 0.0
    else FlexibleTotal(h, w, n - 1) + (if Flexible(h, n - 1) then BoundaryWeight(h, w, n - 1) else 0.0)
  }

  function LayoutTotal(h: string, w: Weights): real
    requires h != ""
  {
    SerialTotal(h, w, |h|) + TransitionTotal(h, w, |h| - 1) + FlexibleTotal(h, w, |h| - 1)
  }

  function Scale(total: real, span: real): real {
    if total > 0.0 then span / total else 0.0
  }

  function WeightedPlan(h: string, w: Weights, start: real, span: real): (plan: Plan)
    requires h != ""
    ensures |plan.spacing| == |h| && |plan.boundary| == |h|
  {
    var scale := Scale(LayoutTotal(h, w), span);
    Plan(start,
         seq(|h|, i requires 0 <= i < |h| => SpacingWeight(h, w, i) * scale),
         seq(|h|, i requires 0 <= i < |h| => if i + 1 < |h| then BoundaryWeight(h, w, i) * scale else 0.0))
  }

  // ----- the plan spends exactly its span -----

  /** The weight that the cursor has walked when it reaches character i. */
  function WalkTotal(h: string, w: Weights, i: nat): real
    requires i < |h|
    decreases i
  {
    if i == 0 then 0.0 else WalkTotal(h, w, i - 1) + SpacingWeight(h, w, i - 1) + BoundaryWeight(h, w, i - 1)
  }

  lemma {:induction false} TotalsRegroup(h: string, w: Weights, i: nat)
    requires i < |h|
    ensures WalkTotal(h, w, i) == SerialTotal(h, w, i) + TransitionTotal(h, w, i) + FlexibleTotal(h, w, i)
    decreases i
  {
    if i > 0 {
      TotalsRegroup(h, w, i - 1);
    }
  }

  lemma {:induction false} CursorIsScaledTotal(h: string, w: Weights, start: real, span: real, i: nat)
    requires i < |h|
    ensures CursorAt(h, WeightedPlan(h, w, start, span), i) == start + WalkTotal(h, w, i) * Scale(LayoutTotal(h, w), span)
    decreases i
  {
    if i > 0 {
      CursorIsScaledTotal(h, w, start, span, i - 1);
      hide LayoutTotal, Scale, SpacingWeight, BoundaryWeight;
      var scale := Scale(LayoutTotal(h, w), span);
      Distributes(WalkTotal(h, w, i - 1), SpacingWeight(h, w, i - 1), BoundaryWeight(h, w, i - 1), scale);
    }
  }

  lemma Distributes(a: real, b: real, c: real, k: real)
    ensures (a + b + c) * k == a * k + b * k + c * k
  {}

  lemma {:induction false} TotalsPositive(h: string, w: Weights, n: nat)
    requires Positive(w) && n <= |h|
    ensures SerialTotal(h, w, n) >= 0.0
    ensures n < |h| ==> TransitionTotal(h, w, n) >= 0.0 && FlexibleTotal(h, w, n) >= 0.0
    ensures (exists i :: 0 <= i < n && IsDigit(h[i])) ==> SerialTotal(h, w, n) > 0.0
    ensures 0 < n < |h| && (forall i :: 0 <= i <= n ==> !IsDigit(h[i])) ==> FlexibleTotal(h, w, n) > 0.0
    decreases n
  {
    if n > 0 {
      TotalsPositive(h, w, n - 1);
    }
  }

  /** A placement exists for every handle except a single character that is not a digit. */
  predicate Walkable(h: string) {
    |h| > 1 || (|h| == 1 && IsDigit(h[0]))
  }

  lemma {:induction false} LayoutTotalPositive(h: string, w: Weights)
    requires Positive(w) && Walkable(h)
    ensures LayoutTotal(h, w) > 0.0
  {
    TotalsPositive(h, w, |h|);
    TotalsPositive(h, w, |h| - 1);
    if !exists i :: 0 <= i < |h| && IsDigit(h[i]) {
      assert forall i :: 0 <= i <= |h| - 1 ==> !IsDigit(h[i]);
    }
  }

  /** The three sums regroup into the walk: the last anchor lands exactly at the end of the span. */
  lemma {:induction false} SpanIsSpent(h: string, w: Weights, start: real, span: real)
    requires Positive(w) && Walkable(h)
    ensures var plan := WeightedPlan(h, w, start, span);
            CursorAt(h, plan, |h| - 1) + plan.spacing[|h| - 1] == start + span
  {
    var n := |h| - 1;
    var total, scale := LayoutTotal(h, w), Scale(LayoutTotal(h, w), span);
    LayoutTotalPositive(h, w);
    CursorIsScaledTotal(h, w, start, span, n);
    TotalsRegroup(h, w, n);
    QuotientTimes(span, total);
    var s := SpacingWeight(h, w, n);
    var before := WalkTotal(h, w, n);
    assert before + s == total;
    Distributes(before, s, 0.0, scale);
    hide SerialTotal, TransitionTotal, FlexibleTotal, LayoutTotal, CursorAt, SpacingWeight, BoundaryWeight, Positive, WalkTotal;
    assert total * scale == span;
  }

  lemma {:induction false} PlanAdvances(h: string, w: Weights, start: real, span: real)
    requires Positive(w) && Walkable(h) && span > 0.0
    ensures Advancing(WeightedPlan(h, w, start, span), h)
  {
    LayoutTotalPositive(h, w);
    var total, scale := LayoutTotal(h, w), Scale(LayoutTotal(h, w), span);
    PositiveQuotient(span, total);
    var plan := WeightedPlan(h, w, start, span);
    hide LayoutTotal, Scale;
    forall i | 0 <= i < |h|
      ensures if IsDigit(h[i]) then plan.spacing[i] > 0.0 else plan.spacing[i] == 0.0
    {
      PositiveTimes(SpacingWeight(h, w, i), scale);
    }
    forall i | 0 <= i < |h| - 1
      ensures if IsDigit(h[i]) && IsDigit(h[i + 1]) then plan.boundary[i] == 0.0 else plan.boundary[i] > 0.0
    {
      PositiveTimes(BoundaryWeight(h, w, i), scale);
    }
  }

  lemma PositiveQuotient(x: real, y: real)
    requires x > 0.0 && y > 0.0
    ensures x / y > 0.0
  {}

  lemma PositiveTimes(x: real, k: real)
    requires k > 0.0
    ensures x > 0.0 ==> x * k > 0.0
    ensures x == 0.0 ==> x * k == 0.0
  {}
}
