/** What every run of ticks keeps: the cursor, the scanned ranges, failure atomicity and the halt. */
module ReconcilerCursor {
  import opened Wrappers
  import opened ChainReconciler

  /** Between ticks, the operations of the mint service change the snapshot. */
  datatype Event = TickWith(rpc: Rpc) | Outside(snapshot: Snapshot)

  datatype State = State(snapshot: Snapshot, indexer: Indexer)

  function Next(o: Options, reducer: Reducer, st: State, e: Event): State
    requires ValidOptions(o)
  {
    match e
    case Outside(snapshot) => State(snapshot, st.indexer)
    case TickWith(rpc) =>
      var r := Tick(o, reducer, rpc, st.snapshot, st.indexer);
      State(r.snapshot, r.indexer)
  }

  function After(o: Options, reducer: Reducer, st: State, events: seq<Event>): State
    requires ValidOptions(o)
    decreases |events|
  {
    if events == [] then st else After(o, reducer, Next(o, reducer, st, events[0]), events[1..])
  }

  /** The heights that an event scans: those of a tick that succeeds. */
  function ScannedBy(o: Options, reducer: Reducer, st: State, e: Event): seq<nat>
    requires ValidOptions(o)
  {
    if e.TickWith? && Reconciled(o, reducer, e.rpc, st.snapshot, st.indexer).Ok? && Pinned(o, e.rpc, st.indexer).Ok?
    then
      var w := Pinned(o, e.rpc, st.indexer).value;
      if w.from > w.through then [] else Range(w.from, w.through - w.from + 1)
    else []
  }

  function ScannedOver(o: Options, reducer: Reducer, st: State, events: seq<Event>): seq<nat>
    requires ValidOptions(o)
    decreases |events|
  {
    if events == [] then []
    else ScannedBy(o, reducer, st, events[0]) + ScannedOver(o, reducer, Next(o, reducer, st, events[0]), events[1..])
  }

  lemma PinnedWindow(o: Options, rpc: Rpc, ix: Indexer)
    requires ValidOptions(o)
    ensures Pinned(o, rpc, ix).Ok? ==>
              var w := Pinned(o, rpc, ix).value;
              && ix.running && rpc.head == Some(w.head) && ix.deployment <= w.head.number
              && w.from == NextHeight(ix) <= w.head.number + 1
              && w.through == Through(o, w.from, w.head.number)
  {}

  lemma ScannedCursor(o: Options, reducer: Reducer, rpc: Rpc, s: Snapshot, ix: Indexer, w: Window)
    requires reducer.Valid() && w.from == NextHeight(ix)
    requires Scanned(o, reducer, rpc, s, ix, w).Ok?
    ensures var after := Scanned(o, reducer, rpc, s, ix, w).value;
            && SameDeployment(ix, after)
            && (if w.from > w.through then after == ix else after.running && after.promoted.Some? && after.promoted.value.height == w.through)
  {
    hide Fold;
  }

  /** A tick that succeeds moves the cursor to the end of its window, which starts right behind the old cursor and is bounded. */
  lemma SuccessfulTick(o: Options, reducer: Reducer, rpc: Rpc, s: Snapshot, ix: Indexer)
    requires ValidOptions(o) && reducer.Valid()
    requires Reconciled(o, reducer, rpc, s, ix).Ok?
    ensures Pinned(o, rpc, ix).Ok?
    ensures var w, (_, after, caughtUp) := Pinned(o, rpc, ix).value, Reconciled(o, reducer, rpc, s, ix).value;
            && ix.running && rpc.head == Some(w.head)
            && w.from == NextHeight(ix) <= w.head.number + 1
            && w.through == Through(o, w.from, w.head.number)
            && NextHeight(after) == w.through + 1
            && after.deployment == ix.deployment
            && after.running
            && (caughtUp <==> NextHeight(after) == w.head.number + 1)
  {
    PinnedWindow(o, rpc, ix);
    hide Pinned, Scanned, Fold, Projected, AtHead, Reducer.Valid;
    var w := Pinned(o, rpc, ix).value;
    ScannedCursor(o, reducer, rpc, s, ix, w);
  }

  lemma FailedTick(o: Options, reducer: Reducer, rpc: Rpc, s: Snapshot, ix: Indexer)
    requires ValidOptions(o) && reducer.Valid()
    requires Reconciled(o, reducer, rpc, s, ix).Err?
    ensures var r, f := Tick(o, reducer, rpc, s, ix), Reconciled(o, reducer, rpc, s, ix).error;
            && !r.ready && r.code == Some(f.code)
            && NextHeight(r.indexer) == NextHeight(ix)
            && (!f.incident ==> r.snapshot == s && r.indexer == ix)
            && (f.incident ==> !r.indexer.running && r.snapshot.gallery == map[])
  {
    hide Reconciled;
  }

  /**
   A tick that throws returns exactly its input. When the chain itself is at
   fault it also empties the gallery, revokes exactly the finalized projections
   and halts, with no finalized entry left; authorizations and attempts stay.
   */
  lemma FailureChangesNothing(o: Options, reducer: Reducer, rpc: Rpc, s: Snapshot, ix: Indexer)
    requires ValidOptions(o) && reducer.Valid()
    requires Reconciled(o, reducer, rpc, s, ix).Err?
    ensures var r, f := Tick(o, reducer, rpc, s, ix), Reconciled(o, reducer, rpc, s, ix).error;
            && (!f.incident ==> r == TickResult(s, ix, false, Some(f.code)))
            && r.snapshot.authorizations == s.authorizations && r.snapshot.attempts == s.attempts && r.snapshot.frozen == s.frozen
            && r.snapshot.projections.Keys == s.projections.Keys
            && (f.incident ==>
                  && r.snapshot.gallery == map[] && !r.indexer.running && r.indexer.promoted == ix.promoted
                  && (forall e :: e in r.indexer.entries ==> !e.finalized)
                  && forall k :: k in s.projections ==>
                                   if s.projections[k].state == Finalized
                                   then r.snapshot.projections[k] == s.projections[k].(state := FinalityRevoked)
                                   else r.snapshot.projections[k] == s.projections[k])
  {
    hide Reconciled;
  }

  /** A halt is for good: every later tick is refused, changes nothing, and reports the halt. */
  lemma {:induction false} HaltAbsorbs(o: Options, reducer: Reducer, st: State, events: seq<Event>, rpc: Rpc)
    requires ValidOptions(o) && !st.indexer.running
    ensures var t := After(o, reducer, st, events);
            && t.indexer == st.indexer
            && Tick(o, reducer, rpc, t.snapshot, t.indexer) == TickResult(t.snapshot, t.indexer, false, Some(SafetyHalt))
    decreases |events|
  {
    RefusedWhenHalted(o, reducer, rpc, st.snapshot, st.indexer);
    if events != [] {
      if events[0].TickWith? {
        RefusedWhenHalted(o, reducer, events[0].rpc, st.snapshot, st.indexer);
      }
      hide Tick;
      HaltAbsorbs(o, reducer, Next(o, reducer, st, events[0]), events[1..], rpc);
    }
  }

  lemma RefusedWhenHalted(o: Options, reducer: Reducer, rpc: Rpc, s: Snapshot, ix: Indexer)
    requires ValidOptions(o) && !ix.running
    ensures Tick(o, reducer, rpc, s, ix) == TickResult(s, ix, false, Some(SafetyHalt))
  {}

  lemma RangesJoin(a: nat, b: nat, c: nat)
    requires a <= b <= c
    ensures Range(a, b - a) + Range(b, c - b) == Range(a, c - a)
  {}

  /** The scans of the run, end to end, are the heights from the old cursor to the new one. */
  ghost predicate Contiguous(o: Options, reducer: Reducer, st: State, events: seq<Event>)
    requires ValidOptions(o)
  {
    var from, next := NextHeight(st.indexer), NextHeight(After(o, reducer, st, events).indexer);
    from <= next && ScannedOver(o, reducer, st, events) == Range(from, next - from)
  }

  /**
   Over every run, the successful scans put end to end are every height from the
   first unscanned one up to the new cursor, each exactly once and in order: the
   ranges are contiguous and disjoint, and the cursor never goes back.
   */
  lemma {:induction false} ScansAreContiguous(o: Options, reducer: Reducer, st: State, events: seq<Event>)
    requires ValidOptions(o) && reducer.Valid()
    ensures Contiguous(o, reducer, st, events)
    decreases |events|
  {
    if events == [] {
      NothingScanned(o, reducer, st);
    } else {
      ScanStep(o, reducer, st, events[0]);
      OverUnfolds(o, reducer, st, events);
      ScansAreContiguous(o, reducer, Next(o, reducer, st, events[0]), events[1..]);
      hide *;
      OneMoreScan(o, reducer, st, events);
    }
  }

  lemma NothingScanned(o: Options, reducer: Reducer, st: State)
    requires ValidOptions(o)
    ensures Contiguous(o, reducer, st, [])
  {}

  lemma OneMoreScan(o: Options, reducer: Reducer, st: State, events: seq<Event>)
    requires ValidOptions(o) && events != []
    requires var u := Next(o, reducer, st, events[0]);
             && NextHeight(st.indexer) <= NextHeight(u.indexer)
             && ScannedBy(o, reducer, st, events[0]) == Range(NextHeight(st.indexer), NextHeight(u.indexer) - NextHeight(st.indexer))
             && Contiguous(o, reducer, u, events[1..])
    ensures Contiguous(o, reducer, st, events)
  {
    hide Next, ScannedBy, NextHeight, Range;
    var u := Next(o, reducer, st, events[0]);
    RangesJoin(NextHeight(st.indexer), NextHeight(u.indexer), NextHeight(After(o, reducer, u, events[1..]).indexer));
    OverUnfolds(o, reducer, st, events);
  }

  lemma OverUnfolds(o: Options, reducer: Reducer, st: State, events: seq<Event>)
    requires ValidOptions(o) && events != []
    ensures var u := Next(o, reducer, st, events[0]);
            && After(o, reducer, st, events) == After(o, reducer, u, events[1..])
            && ScannedOver(o, reducer, st, events) == ScannedBy(o, reducer, st, events[0]) + ScannedOver(o, reducer, u, events[1..])
  {
    hide Next, ScannedBy, NextHeight;
  }

  /** One scan: at most maxBlocks heights, starting right behind the cursor. */
  lemma ScanStep(o: Options, reducer: Reducer, st: State, e: Event)
    requires ValidOptions(o) && reducer.Valid()
    ensures var next := NextHeight(Next(o, reducer, st, e).indexer);
            && NextHeight(st.indexer) <= next
            && ScannedBy(o, reducer, st, e) == Range(NextHeight(st.indexer), next - NextHeight(st.indexer))
            && |ScannedBy(o, reducer, st, e)| <= o.maxBlocks
  {
    if e.TickWith? {
      if Reconciled(o, reducer, e.rpc, st.snapshot, st.indexer).Ok? {
        SuccessfulTick(o, reducer, e.rpc, st.snapshot, st.indexer);
      } else {
        FailedTick(o, reducer, e.rpc, st.snapshot, st.indexer);
      }
    }
    hide Reconciled, Pinned, Reducer.Valid, Failed;
  }

  /** Every tick of the run sees the head at this height and succeeds. */
  ghost predicate AllSucceed(o: Options, reducer: Reducer, st: State, rpcs: seq<Rpc>, height: nat)
    requires ValidOptions(o)
    decreases |rpcs|
  {
    rpcs == []
    || (&& rpcs[0].head.Some? && rpcs[0].head.value.number == height
        && Reconciled(o, reducer, rpcs[0], st.snapshot, st.indexer).Ok?
        && AllSucceed(o, reducer, Next(o, reducer, st, TickWith(rpcs[0])), rpcs[1..], height))
  }

  function Ticks(o: Options, reducer: Reducer, st: State, rpcs: seq<Rpc>): State
    requires ValidOptions(o)
    decreases |rpcs|
  {
    if rpcs == [] then st else Ticks(o, reducer, Next(o, reducer, st, TickWith(rpcs[0])), rpcs[1..])
  }

  /** The next height after n scans of k heights each that stop at the head. */
  function Reach(from: nat, n: nat, k: nat, height: nat): nat {
    if from + n * k <= height + 1 then from + n * k else height + 1
  }

  /** With a steady head, n ticks scan n times maxBlocks heights, and no more than there are. */
  lemma {:induction false} SteadyHead(o: Options, reducer: Reducer, st: State, rpcs: seq<Rpc>, height: nat)
    requires ValidOptions(o) && reducer.Valid()
    requires AllSucceed(o, reducer, st, rpcs, height) && NextHeight(st.indexer) <= height + 1
    ensures NextHeight(Ticks(o, reducer, st, rpcs).indexer) == Reach(NextHeight(st.indexer), |rpcs|, o.maxBlocks, height)
    decreases |rpcs|
  {
    if rpcs == [] {
      assert |rpcs| * o.maxBlocks == 0;
    } else {
      SuccessfulTick(o, reducer, rpcs[0], st.snapshot, st.indexer);
      var u := Next(o, reducer, st, TickWith(rpcs[0]));
      assert u.indexer == Reconciled(o, reducer, rpcs[0], st.snapshot, st.indexer).value.1;
      hide Next, Reconciled, Pinned, Reducer.Valid;
      SteadyHead(o, reducer, u, rpcs[1..], height);
      OneMore(|rpcs|, o.maxBlocks);
    }
  }

  lemma OneMore(n: nat, k: nat)
    requires n > 0
    ensures n * k == (n - 1) * k + k && (n - 1) * k >= 0
  {}

  /** The number of ticks to the head: the remaining heights divided by maxBlocks, rounded up. */
  function TicksNeeded(remaining: nat, maxBlocks: nat): nat
    requires maxBlocks > 0
  {
    (remaining + maxBlocks - 1) / maxBlocks
  }

  /** With a steady head the cursor reaches it after exactly ceil(remaining / maxBlocks) ticks, and not before. */
  lemma {:induction false} CatchesUp(o: Options, reducer: Reducer, st: State, rpcs: seq<Rpc>, height: nat)
    requires ValidOptions(o) && reducer.Valid()
    requires AllSucceed(o, reducer, st, rpcs, height) && NextHeight(st.indexer) <= height + 1
    ensures var remaining := height + 1 - NextHeight(st.indexer);
            NextHeight(Ticks(o, reducer, st, rpcs).indexer) == height + 1 <==> |rpcs| >= TicksNeeded(remaining, o.maxBlocks)
  {
    hide AllSucceed, Reducer.Valid, Ticks, NextHeight, Reach, TicksNeeded;
    ReachesHead(NextHeight(st.indexer), |rpcs|, o.maxBlocks, height);
    SteadyHead(o, reducer, st, rpcs, height);
  }

  lemma ReachesHead(from: nat, n: nat, k: nat, height: nat)
    requires k > 0 && from <= height + 1
    ensures Reach(from, n, k, height) == height + 1 <==> n >= TicksNeeded(height + 1 - from, k)
  {
    CeilingDivides(height + 1 - from, k, n);
    hide TicksNeeded;
  }

  lemma CeilingDivides(remaining: nat, k: nat, n: nat)
    requires k > 0
    ensures n * k >= remaining <==> n >= TicksNeeded(remaining, k)
  {
    var q := TicksNeeded(remaining, k);
    assert q * k >= remaining && (q > 0 ==> (q - 1) * k < remaining) by {
      DivMod(remaining + k - 1, k);
    }
    if n >= q {
      Scale(q, n, k);
    } else {
      Scale(n, q - 1, k);
    }
  }

  lemma DivMod(a: nat, k: nat)
    requires k > 0
    ensures a == (a / k) * k + a % k && 0 <= a % k < k
    ensures (a / k - 1) * k == (a / k) * k - k
  {}

  lemma Scale(a: int, b: int, k: nat)
    requires a <= b
    ensures a * k <= b * k
  {}
}
