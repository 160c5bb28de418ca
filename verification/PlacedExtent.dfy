/** How far the points of a signature can lie from the origin, before and after centring. */
module PlacedExtent {
  import opened Wrappers
  import opened Cubics
  import opened Outline
  import opened Centring
  import opened Layout
  import opened WeightedLayout
  import opened Geometry
  import opened OutlineExtent

  /** Where its characters' points and its pulses may lie, when the cursor runs from first to last. */
  ghost predicate ReleaseNear(pulse: Pulse, identity: (nat, real) -> Point, first: real, last: real, m: real) {
    IdentityNear(identity, first, last, m) && PulseWithin(pulse, first, last, m)
  }

  ghost predicate IdentityNear(identity: (nat, real) -> Point, first: real, last: real, m: real) {
    forall i: nat, x: real :: first <= x <= last ==> PointNear(identity(i, x), m)
  }

  ghost predicate PulseWithin(pulse: Pulse, first: real, last: real, m: real) {
    && 0.0 < pulse.factor <= 1.0
    && pulse.maxHeight >= 0.0 && Near(pulse.baselineY, m) && Near(pulse.baselineY - pulse.maxHeight, m)
    && -m <= first - (last - first) && last + (last - first) <= m
  }

  /** The cursor never leaves the plan: a character starts and ends between its start and the end of the last one. */
  lemma {:induction false} CursorRises(h: string, plan: Plan, i: nat, j: nat)
    requires Advancing(plan, h) && i <= j < |h|
    ensures CursorAt(h, plan, i) <= CursorAt(h, plan, j)
    ensures CursorAt(h, plan, i) + plan.spacing[i] <= CursorAt(h, plan, j) + plan.spacing[j]
    decreases j
  {
    if i < j {
      CursorRises(h, plan, i, j - 1);
      CursorAdvances(h, plan, j);
      assert plan.spacing[j - 1] >= 0.0 && plan.spacing[j] >= 0.0;
      hide CursorAt, Advancing;
    }
  }

  lemma SerialNear(c: char, x: real, y: real, handle: real, first: real, last: real, m: real)
    requires first <= x <= last && 0.0 <= handle <= last - first && Near(y, m)
    requires -m <= first - (last - first) && last + (last - first) <= m
    ensures PointNear(SerialPoint(c, x, y, handle), m)
  {}

  /** A pulse's three points, for any handle and height. */
  lemma ThreeNear(c: char, x: real, spacing: real, handle: real, y: real, height: real, first: real, last: real, m: real)
    requires first <= x && 0.0 <= handle <= spacing && x + spacing <= last
    requires Near(y, m) && Near(y - height, m)
    requires -m <= first - (last - first) && last + (last - first) <= m
    ensures PointNear(SerialPoint(c, x, y, handle), m)
    ensures PointNear(SerialPoint(c, x + spacing / 2.0, y - height, handle), m)
    ensures PointNear(SerialPoint(c, x + spacing, y, handle), m)
  {
    hide SerialPoint, PointNear;
    SerialNear(c, x, y, handle, first, last, m);
    SerialNear(c, x + spacing / 2.0, y - height, handle, first, last, m);
    SerialNear(c, x + spacing, y, handle, first, last, m);
  }

  ghost predicate Lists(points: seq<Point>, starts: bool, start: Point, peak: Point, end: Point) {
    && |points| == (if starts then 3 else 2)
    && points[|points| - 1] == end && points[|points| - 2] == peak && (starts ==> points[0] == start)
  }

  lemma ListedNear(points: seq<Point>, starts: bool, start: Point, peak: Point, end: Point, m: real)
    requires Lists(points, starts, start, peak, end) && PointNear(start, m) && PointNear(peak, m) && PointNear(end, m)
    ensures AllNear(points, m)
  {
    hide PointNear;
  }

  lemma PulseIs(c: char, x: real, spacing: real, starts: bool, pulse: Pulse)
    ensures var y, handle := pulse.baselineY, spacing * pulse.factor;
            Lists(PulsePoints(c, x, spacing, starts, pulse), starts, SerialPoint(c, x, y, handle),
                  SerialPoint(c, x + spacing / 2.0, y - PulseHeight(c, pulse.maxHeight), handle), SerialPoint(c, x + spacing, y, handle))
  {
    hide PulseHeight;
    var points := PulsePoints(c, x, spacing, starts, pulse);
    var handle := spacing * pulse.factor;
    assert |points| == if starts then 3 else 2;
    assert points[|points| - 1] == SerialPoint(c, x + spacing, pulse.baselineY, handle);
    assert points[|points| - 2] == SerialPoint(c, x + spacing / 2.0, pulse.baselineY - PulseHeight(c, pulse.maxHeight), handle);
    assert starts ==> points[0] == SerialPoint(c, x, pulse.baselineY, handle);
  }

  lemma PulseNear(c: char, x: real, spacing: real, starts: bool, pulse: Pulse, first: real, last: real, m: real)
    requires IsDigit(c) && first <= x && spacing >= 0.0 && x + spacing <= last && PulseWithin(pulse, first, last, m)
    ensures AllNear(PulsePoints(c, x, spacing, starts, pulse), m)
  {
    HandleWithin(spacing, pulse.factor);
    HeightWithin(c, pulse.maxHeight);
    PulseIs(c, x, spacing, starts, pulse);
    var y, handle, height := pulse.baselineY, spacing * pulse.factor, PulseHeight(c, pulse.maxHeight);
    hide PulseHeight, SerialPoint, PointNear, PulsePoints, AllNear, Lists;
    Lowered(y, pulse.maxHeight, height, m);
    ThreeNear(c, x, spacing, handle, y, height, first, last, m);
    ListedNear(PulsePoints(c, x, spacing, starts, pulse), starts, SerialPoint(c, x, y, handle),
               SerialPoint(c, x + spacing / 2.0, y - height, handle), SerialPoint(c, x + spacing, y, handle), m);
  }

  lemma Lowered(y: real, maxHeight: real, height: real, m: real)
    requires Near(y, m) && Near(y - maxHeight, m) && 0.0 <= height <= maxHeight
    ensures Near(y - height, m)
  {}

  lemma HandleWithin(spacing: real, factor: real)
    requires spacing >= 0.0 && 0.0 < factor <= 1.0
    ensures 0.0 <= spacing * factor <= spacing
  {
    NonnegativeProduct(spacing, factor);
    NonnegativeProduct(spacing, 1.0 - factor);
  }

  lemma HeightWithin(c: char, maxHeight: real)
    requires IsDigit(c) && maxHeight >= 0.0
    ensures 0.0 <= PulseHeight(c, maxHeight) <= maxHeight
  {
    var share := (c as int - '0' as int) as real / 9.0;
    assert 0.0 <= share <= 1.0;
    NonnegativeProduct(share, maxHeight);
    NonnegativeProduct(1.0 - share, maxHeight);
  }

  /** Every character starts and ends within these limits. */
  ghost predicate StaysWithin(h: string, plan: Plan, first: real, last: real) {
    && Fits(plan, h)
    && forall i :: 0 <= i < |h| ==> plan.spacing[i] >= 0.0 && first <= CursorAt(h, plan, i) && CursorAt(h, plan, i) + plan.spacing[i] <= last
  }

  lemma {:induction false} EmittedNear(h: string, i: nat, x: real, plan: Plan, pulse: Pulse, identity: (nat, real) -> Point, first: real, last: real, m: real)
    requires i < |h| && Fits(plan, h) && plan.spacing[i] >= 0.0 && first <= x && x + plan.spacing[i] <= last && ReleaseNear(pulse, identity, first, last, m)
    ensures AllNear(Emitted(h, i, x, plan, pulse, identity), m)
  {
    if IsDigit(h[i]) {
      PulseNear(h[i], x, plan.spacing[i], !DigitAt(h, i - 1), pulse, first, last, m);
    }
    hide PointNear, PulsePoints, PulseWithin;
  }

  lemma {:induction false} NearTogether(a: seq<Point>, b: seq<Point>, m: real)
    requires AllNear(a, m) && AllNear(b, m)
    ensures AllNear(a + b, m)
  {}

  lemma {:induction false} NextNear(h: string, plan: Plan, pulse: Pulse, identity: (nat, real) -> Point, first: real, last: real, m: real, i: nat)
    requires i < |h| && StaysWithin(h, plan, first, last) && ReleaseNear(pulse, identity, first, last, m)
    ensures AllNear(Emitted(h, i, CursorAt(h, plan, i), plan, pulse, identity), m)
  {
    var x := CursorAt(h, plan, i);
    assert plan.spacing[i] >= 0.0 && first <= x && x + plan.spacing[i] <= last;
    hide ReleaseNear, StaysWithin, CursorAt, Emitted, AllNear;
    EmittedNear(h, i, x, plan, pulse, identity, first, last, m);
  }

  lemma {:induction false} WalkedNear(h: string, plan: Plan, pulse: Pulse, identity: (nat, real) -> Point, first: real, last: real, m: real, n: nat)
    requires n <= |h| && StaysWithin(h, plan, first, last) && ReleaseNear(pulse, identity, first, last, m)
    ensures AllNear(Walked(h, plan, pulse, identity, n), m)
    decreases n
  {
    hide ReleaseNear, CursorAt, Emitted, PointNear;
    if n > 0 {
      assert Fits(plan, h);
      hide StaysWithin;
      NextNear(h, plan, pulse, identity, first, last, m, n - 1);
      WalkedNear(h, plan, pulse, identity, first, last, m, n - 1);
      hide AllNear;
      NearTogether(Walked(h, plan, pulse, identity, n - 1), Emitted(h, n - 1, CursorAt(h, plan, n - 1), plan, pulse, identity), m);
    }
  }

  lemma {:induction false} PlanStays(h: string, plan: Plan)
    requires h != "" && Advancing(plan, h)
    ensures StaysWithin(h, plan, plan.start, CursorAt(h, plan, |h| - 1) + plan.spacing[|h| - 1])
  {
    assert CursorAt(h, plan, 0) == plan.start;
    forall i | 0 <= i < |h|
      ensures plan.start <= CursorAt(h, plan, i)
      ensures CursorAt(h, plan, i) + plan.spacing[i] <= CursorAt(h, plan, |h| - 1) + plan.spacing[|h| - 1]
    {
      CursorRises(h, plan, 0, i);
      CursorRises(h, plan, i, |h| - 1);
    }
    hide CursorAt;
  }

  lemma {:induction false} PlanStaysInSpan(h: string, w: Weights, first: real, span: real)
    requires Walkable(h) && Positive(w) && span > 0.0
    ensures StaysWithin(h, WeightedPlan(h, w, first, span), first, first + span)
  {
    PlanAdvances(h, w, first, span);
    SpanIsSpent(h, w, first, span);
    PlanStays(h, WeightedPlan(h, w, first, span));
    assert WeightedPlan(h, w, first, span).start == first;
    hide WeightedPlan, CursorAt, Positive, StaysWithin, Advancing;
  }

  lemma {:induction false} WalkNear(h: string, r: Release, first: real, span: real, m: real)
    requires Walkable(h) && Positive(r.weights) && span > 0.0 && ReleaseNear(r.pulse, r.identity, first, first + span, m)
    ensures AllNear(Walked(h, WeightedPlan(h, r.weights, first, span), r.pulse, r.identity, |h|), m)
  {
    PlanStaysInSpan(h, r.weights, first, span);
    hide WeightedPlan, ReleaseNear, StaysWithin, Walked, AllNear, Positive;
    WalkedNear(h, WeightedPlan(h, r.weights, first, span), r.pulse, r.identity, first, first + span, m, |h|);
  }

  /** The placed points of a signature. */
  lemma {:induction false} PlacedNear(h: string, r: Release, center: real, span: real, m: real)
    requires h != "" && Positive(r.weights) && span > 0.0 && ReleaseNear(r.pulse, r.identity, center - span / 2.0, center + span / 2.0, m)
    ensures AllNear(Placed(h, r, center, span), m)
  {
    var first, last := center - span / 2.0, center + span / 2.0;
    hide IdentityNear, PulseWithin, WeightedPlan, Walked, AllNear, Positive, Walkable;
    assert first + span == last;
    if Walkable(h) {
      WalkNear(h, r, first, span, m);
    } else {
      LoneNear(r.identity, first, last, m);
    }
  }

  lemma LoneNear(identity: (nat, real) -> Point, first: real, last: real, m: real)
    requires first <= last && IdentityNear(identity, first, last, m)
    ensures AllNear([identity(0, first), identity(0, last)], m)
  {
    hide PointNear;
  }

  /** Both centring passes multiply the bound by nine at most, and add the pen's width. */
  lemma {:induction false} CentredTwiceNear(placed: seq<Point>, pen: Pen, center: real, m: real, w: real)
    requires pen.Valid() && PenWithin(pen, w) && AllNear(placed, m) && Near(center, m) && |placed| >= 2
    ensures var geometry := CenterGeometry(placed, center);
            |geometry| >= 2 && AllNear(ShiftAll(geometry, OutlineShift(pen, geometry, center)), 9.0 * m + w / 2.0)
  {
    hide Pen.Valid, PenWithin, AllNear, OutlineShift, Midpoint;
    CentredNear(placed, center, m);
    OutlinePassNear(pen, CenterGeometry(placed, center), center, 3.0 * m, w);
  }
}
