/** What callers of the single-writer runtime may rely on, over every run with every interleaving of failures. */
module RuntimeGuarantees {
  import opened RuntimeSteps
  import opened RuntimeSafety

  lemma StepKeeps(s: State, e: Event, cursor: nat)
    requires Invariant(s, cursor) && Enabled(s, e)
    ensures Invariant(Step(s, e), cursor)
  {
    match e
    case Submit => SubmitKeeps(s, cursor);
    case Start(k) => StartKeeps(s, k, cursor);
    case Mutate(k) => MutateKeeps(s, k, cursor);
    case Checkpoint(k, storable) => CheckpointKeeps(s, k, storable, cursor);
    case Reconcile(k, c, storable) => ReconcileKeeps(s, k, c, storable, cursor);
    case Finish(k, v, storable) => FinishKeeps(s, k, v, storable, cursor);
    case WriteRow => RowsKeep(s, e, cursor);
    case Commit => RowsKeep(s, e, cursor);
    case Reply => ReplyKeeps(s, cursor);
    case Break => BreakKeeps(s, cursor);
    case LateCommit => RowsKeep(s, e, cursor);
    case LoseOwnership => OutsideKeeps(s, e, cursor);
    case Release => OutsideKeeps(s, e, cursor);
    case Restart => OutsideKeeps(s, e, cursor);
    hide Invariant, Step, Enabled;
  }

  lemma {:induction false} RunKeeps(s: State, events: seq<Event>, cursor: nat)
    requires Invariant(s, cursor) && Legal(s, events)
    ensures Invariant(After(s, events), cursor)
    decreases |events|
  {
    hide Invariant, Step, Enabled;
    if events != [] {
      StepKeeps(s, events[0], cursor);
      RunKeeps(Step(s, events[0]), events[1..], cursor);
    }
  }

  /** A run from a stored pair whose cursor agrees with its mint store. */
  ghost predicate Reaches(image: Image, cursor: nat, events: seq<Event>) {
    Consistent(image, cursor) && Legal(Initial(image), events)
  }

  lemma {:induction false} Reached(image: Image, cursor: nat, events: seq<Event>)
    requires Reaches(image, cursor, events)
    ensures Invariant(After(Initial(image), events), cursor)
  {
    InitialHolds(image, cursor);
    RunKeeps(Initial(image), events, cursor);
  }

  /** Bodies run one at a time, in the order in which their operations were submitted; no body starts twice. */
  lemma {:induction false} OneBodyAtATime(image: Image, cursor: nat, events: seq<Event>)
    requires Reaches(image, cursor, events)
    ensures var s := After(Initial(image), events);
            && (forall j, k :: 0 <= j < |s.ops| && 0 <= k < |s.ops| && Active(s.ops[j].status) && Active(s.ops[k].status) ==> j == k)
            && (forall i, j :: 0 <= i < j < |s.started| ==> s.started[i] < s.started[j])
            && (forall j, k :: s.base <= j < k < |s.ops| && !s.ops[k].status.Waiting? ==> s.ops[j].status.Settled?)
  {
    Reached(image, cursor, events);
    hide Consistent, Keeps, Applies, TransactionValid, Step, Enabled;
  }

  /** When the last submitted operation has settled, every operation of this process has: what drain waits for. */
  lemma {:induction false} DrainSettlesAll(image: Image, cursor: nat, events: seq<Event>)
    requires Reaches(image, cursor, events)
    ensures var s := After(Initial(image), events);
            (s.tail.Some? ==> s.tail.value < |s.ops| && s.ops[s.tail.value].status.Settled?) ==>
            forall k :: 0 <= k < |s.ops| ==> s.ops[k].status.Settled? || s.ops[k].status.Lost?
  {
    Reached(image, cursor, events);
    hide Consistent, Keeps, Applies, TransactionValid, Step, Enabled;
  }

  // ----- after a failure -----

  predicate Uninterrupted(events: seq<Event>) {
    Restart !in events
  }

  predicate OfOperation(e: Event) {
    e.Start? || e.Mutate? || e.Checkpoint? || e.Reconcile? || e.Finish?
  }

  predicate OfSave(e: Event) {
    e.WriteRow? || e.Commit? || e.Reply? || e.Break? || e.LateCommit?
  }

  /** Nothing starts and nothing is acknowledged between s and t, and the failure stays. */
  ghost predicate Quiet(s: State, t: State) {
    && !Healthy(t) && t.started == s.started
    && |s.ops| <= |t.ops|
    && (forall k :: 0 <= k < |t.ops| && IsAcknowledged(t.ops[k]) ==> k < |s.ops| && IsAcknowledged(s.ops[k]))
  }

  /** The one way to a save that does not ask whether a failure is recorded: publishing a reconciled projection. */
  predicate BeginsSave(s: State, e: Event) {
    e.Reconcile? && e.storable && Owned(s)
  }

  /** Somewhere in the run a projection is published while the writer is still owned. */
  predicate Publishes(s: State, events: seq<Event>)
    requires Legal(s, events)
    decreases |events|
  {
    events != [] && (BeginsSave(s, events[0]) || Publishes(Step(s, events[0]), events[1..]))
  }

  lemma QuietOperation(s: State, e: Event)
    requires !Healthy(s) && Enabled(s, e) && OfOperation(e)
    ensures Quiet(s, Step(s, e))
  {}

  lemma QuietSave(s: State, e: Event)
    requires !Healthy(s) && Enabled(s, e) && OfSave(e)
    ensures Quiet(s, Step(s, e))
  {}

  lemma QuietOther(s: State, e: Event)
    requires !Healthy(s) && Enabled(s, e) && (e.Submit? || e.LoseOwnership? || e.Release?)
    ensures Quiet(s, Step(s, e))
  {}

  lemma CapturedAfterFailure(s: State, e: Event)
    requires !Healthy(s) && Enabled(s, e) && e != Restart
    ensures BeginsSave(s, e) ==> |Step(s, e).captures| == |s.captures| + 1
    ensures !BeginsSave(s, e) ==> Step(s, e).captures == s.captures
    ensures !Owned(s) ==> !Owned(Step(s, e))
  {
    hide SaveThrew, SaveSucceeded;
  }

  /**
   Once a failure is recorded or the writer is lost, and until a restart: no body
   starts, and no further operation is acknowledged. A save begins exactly when the
   body that was active publishes a projection over a writer that is still owned.
   */
  lemma {:induction false} NothingAfterFailure(s: State, events: seq<Event>)
    requires !Healthy(s) && Legal(s, events) && Uninterrupted(events)
    ensures Quiet(s, After(s, events))
    ensures |s.captures| <= |After(s, events).captures|
    ensures After(s, events).captures == s.captures <==> !Publishes(s, events)
    ensures !Owned(s) ==> !Publishes(s, events)
    decreases |events|
  {
    if events != [] {
      var e := events[0];
      if OfOperation(e) {
        QuietOperation(s, e);
      } else if OfSave(e) {
        QuietSave(s, e);
      } else {
        QuietOther(s, e);
      }
      CapturedAfterFailure(s, e);
      hide Healthy, Step, Enabled, IsAcknowledged;
      NothingAfterFailure(Step(s, events[0]), events[1..]);
    }
  }

  /**
   The exception is real. A checkpoint whose values cannot be encoded records its
   failure with the writer intact; the body, if it goes on to reconcile, still
   gets its projection stored.
   */
  lemma {:induction false} SavedAfterFailure(image: Image, c: nat)
    ensures var failing := [Submit, Start(0), Checkpoint(0, false)];
            var publishing := [Reconcile(0, c, true), WriteRow, WriteRow, Commit];
            && Legal(Initial(image), failing)
            && var s := After(Initial(image), failing);
               && s.failure && Owned(s) && s.rows == image
               && Legal(s, publishing)
               && After(s, publishing).rows == Image(image.mint + [Projection(c)], c)
  {
    var s0 := Initial(image);
    var s1 := Step(s0, Submit);
    var s2 := Step(s1, Start(0));
    var s3 := Step(s2, Checkpoint(0, false));
    var failing := [Submit, Start(0), Checkpoint(0, false)];
    assert failing[1..] == [Start(0), Checkpoint(0, false)] && failing[1..][1..] == [Checkpoint(0, false)];
    assert Legal(s3, []) && Legal(s2, [Checkpoint(0, false)]) && Legal(s1, failing[1..]);
    assert After(s0, failing) == s3;
    var t1 := Step(s3, Reconcile(0, c, true));
    var t2 := Step(t1, WriteRow);
    var t3 := Step(t2, WriteRow);
    var t4 := Step(t3, Commit);
    var publishing := [Reconcile(0, c, true), WriteRow, WriteRow, Commit];
    assert publishing[1..] == [WriteRow, WriteRow, Commit] && publishing[1..][1..] == [WriteRow, Commit] && publishing[1..][1..][1..] == [Commit];
    assert Legal(t4, []) && Legal(t3, [Commit]) && Legal(t2, [WriteRow, Commit]) && Legal(t1, publishing[1..]);
    assert After(t2, [WriteRow, Commit]) == t4;
    assert After(s3, publishing) == t4;
  }

  // ----- acknowledgements -----

  lemma SettledStays(s: State, e: Event, k: nat)
    requires Enabled(s, e) && k < |s.ops| && s.ops[k].status.Settled?
    ensures k < |Step(s, e).ops| && Step(s, e).ops[k] == s.ops[k]
  {
    if OfOperation(e) {
      assert s.ops[e.op].status.Waiting? || s.ops[e.op].status.Body?;
      OthersStay(s, e, k);
    } else if OfSave(e) {
      SavesStay(s, e, k);
    } else {
      assert e.Submit? || e.LoseOwnership? || e.Release? || e.Restart?;
    }
    hide SaveThrew, SaveSucceeded, Begin, Settle;
  }

  lemma OthersStay(s: State, e: Event, k: nat)
    requires Enabled(s, e) && k < |s.ops| && OfOperation(e) && k != e.op
    ensures k < |Step(s, e).ops| && Step(s, e).ops[k] == s.ops[k]
  {}

  lemma SavesStay(s: State, e: Event, k: nat)
    requires Enabled(s, e) && k < |s.ops| && s.ops[k].status.Settled? && OfSave(e)
    ensures k < |Step(s, e).ops| && Step(s, e).ops[k] == s.ops[k]
  {}

  lemma {:induction false} SettledForGood(s: State, events: seq<Event>, k: nat)
    requires Legal(s, events) && k < |s.ops| && s.ops[k].status.Settled?
    ensures k < |After(s, events).ops| && After(s, events).ops[k] == s.ops[k]
    decreases |events|
  {
    if events != [] {
      SettledStays(s, events[0], k);
      hide Step, Enabled;
      SettledForGood(Step(s, events[0]), events[1..], k);
    }
  }

  /**
   A run that is fulfilled, or rejected with the operation's own error, has all
   its mutations in the stored mint snapshot, at that moment and at every later
   moment, through failures and restarts.
   */
  lemma {:induction false} AcknowledgedIsDurable(image: Image, cursor: nat, before: seq<Event>, later: seq<Event>, k: nat)
    requires Reaches(image, cursor, before + later)
    requires Legal(Initial(image), before)
    requires k < |After(Initial(image), before).ops| && IsAcknowledged(After(Initial(image), before).ops[k])
    ensures var s, t := After(Initial(image), before), After(Initial(image), before + later);
            forall i :: 0 <= i < s.ops[k].mutations ==> Mutation(k, i) in t.rows.mint
  {
    RunsCompose(Initial(image), before, later);
    SettledForGood(After(Initial(image), before), later, k);
    Reached(image, cursor, before + later);
    hide Consistent, Chained, StartedInOrder, Applies, TransactionValid, Step, Enabled, Legal, After;
  }

  /** The stored rows are always one pair that one save captured at one moment, and their cursor is that of their own latest projection. */
  lemma {:induction false} StoredPairIsOneCapture(image: Image, cursor: nat, events: seq<Event>)
    requires Reaches(image, cursor, events)
    ensures var s := After(Initial(image), events);
            s.rows in s.captures && Consistent(s.rows, cursor)
  {
    Reached(image, cursor, events);
    hide Consistent, Chained, StartedInOrder, Applies, TransactionValid, Step, Enabled, Legal, After;
  }

  /** A projection that readers of the live store can see is already stored. */
  lemma {:induction false} VisibleProjectionsAreStored(image: Image, cursor: nat, events: seq<Event>, c: nat)
    requires Reaches(image, cursor, events)
    ensures var s := After(Initial(image), events);
            Projection(c) in s.live.mint ==> Projection(c) in s.rows.mint
  {
    Reached(image, cursor, events);
    hide Consistent, Chained, StartedInOrder, Applies, TransactionValid, Step, Enabled, Legal, After;
  }

  // ----- the stored rows never go back -----

  ghost predicate Forward(s: State) {
    && (Owned(s) && !InFlight(s.transaction) ==> s.rows.mint <= s.live.mint)
    && (InFlight(s.transaction) ==> s.rows.mint <= s.transaction.captured.mint)
    && (s.transaction.Doubtful? ==> s.rows.mint <= s.transaction.draft.mint)
  }

  lemma ForwardOperation(s: State, e: Event, cursor: nat)
    requires Invariant(s, cursor) && Forward(s) && Enabled(s, e) && OfOperation(e)
    ensures Forward(Step(s, e)) && s.rows.mint <= Step(s, e).rows.mint
  {
    if !e.Start? {
      SavesNeverOverlap(s, cursor, e.op);
    }
    hide Invariant;
  }

  lemma ForwardSave(s: State, e: Event, cursor: nat)
    requires Invariant(s, cursor) && Forward(s) && Enabled(s, e) && OfSave(e)
    ensures Forward(Step(s, e)) && s.rows.mint <= Step(s, e).rows.mint
  {
    hide Consistent, Chained, StartedInOrder, Applies, Keeps, SaveThrew, SaveSucceeded;
  }

  lemma ForwardOther(s: State, e: Event, cursor: nat)
    requires Invariant(s, cursor) && Forward(s) && Enabled(s, e) && !OfOperation(e) && !OfSave(e)
    ensures Forward(Step(s, e)) && s.rows.mint <= Step(s, e).rows.mint
  {
    hide Invariant;
  }

  lemma ForwardStep(s: State, e: Event, cursor: nat)
    requires Invariant(s, cursor) && Forward(s) && Enabled(s, e)
    ensures Forward(Step(s, e)) && s.rows.mint <= Step(s, e).rows.mint
  {
    if OfOperation(e) {
      ForwardOperation(s, e, cursor);
    } else if OfSave(e) {
      ForwardSave(s, e, cursor);
    } else {
      ForwardOther(s, e, cursor);
    }
    hide Invariant, Forward, Step, Enabled;
  }

  lemma {:induction false} ForwardRun(s: State, events: seq<Event>, cursor: nat)
    requires Invariant(s, cursor) && Forward(s) && Legal(s, events)
    ensures Forward(After(s, events)) && s.rows.mint <= After(s, events).rows.mint
    decreases |events|
  {
    hide Invariant, Step, Enabled, Forward;
    if events != [] {
      StepKeeps(s, events[0], cursor);
      ForwardStep(s, events[0], cursor);
      ForwardRun(Step(s, events[0]), events[1..], cursor);
    }
  }

  lemma InitialForward(image: Image)
    ensures Forward(Initial(image))
  {}

  /** Whatever the database once held, it holds for good: later rows extend earlier ones. */
  lemma {:induction false} StoreNeverGoesBack(image: Image, cursor: nat, before: seq<Event>, later: seq<Event>)
    requires Reaches(image, cursor, before + later)
    ensures Legal(Initial(image), before)
    ensures After(Initial(image), before).rows.mint <= After(Initial(image), before + later).rows.mint
  {
    InitialHolds(image, cursor);
    InitialForward(image);
    hide Invariant, Step, Enabled, Forward, Legal, After, Initial, Consistent;
    RunsCompose(Initial(image), before, later);
    RunKeeps(Initial(image), before, cursor);
    ForwardRun(Initial(image), before, cursor);
    ForwardRun(After(Initial(image), before), later, cursor);
  }

  // ----- progress -----

  /** The step that the oldest unsettled operation of this process is waiting for. */
  function NextEvent(s: State, k: nat): Event
    requires k < |s.ops|
  {
    match s.ops[k].status
    case Waiting => Start(k)
    case Body => Finish(k, Returned, true)
    case _ => if s.transaction.Applied? then Reply
    else if s.transaction.Open? && s.transaction.written == 2 then Commit
    else WriteRow
  }

  function Work(op: Operation, t: Transaction): nat {
    match op.status
    case Waiting => 6
    case Body => 5
    case Saving(_) => (match t case Open(_, _, _, written) => if written < 2 then 4 - written else 2 case _ => 1) + (if op.status.purpose.Last? then 0 else 5)
    case _ => 0
  }

  /** The queue cannot get stuck: the oldest unsettled operation has a step, and that step brings it closer to settling. */
  lemma {:induction false} QueueNeverStuck(image: Image, cursor: nat, events: seq<Event>, k: nat)
    requires Reaches(image, cursor, events)
    requires var s := After(Initial(image), events);
             && s.base <= k < |s.ops| && !s.ops[k].status.Settled?
             && (forall j :: s.base <= j < k ==> s.ops[j].status.Settled?)
    ensures var s := After(Initial(image), events);
            var e := NextEvent(s, k);
            && Enabled(s, e)
            && k < |Step(s, e).ops|
            && Work(Step(s, e).ops[k], Step(s, e).transaction) < Work(s.ops[k], s.transaction)
  {
    Reached(image, cursor, events);
    StuckFree(After(Initial(image), events), cursor, k);
    hide Invariant, Step, Enabled, Legal, After, NextEvent, Work;
  }

  lemma StuckFree(s: State, cursor: nat, k: nat)
    requires Invariant(s, cursor)
    requires s.base <= k < |s.ops| && !s.ops[k].status.Settled?
    requires forall j :: s.base <= j < k ==> s.ops[j].status.Settled?
    ensures var e := NextEvent(s, k);
            && Enabled(s, e)
            && k < |Step(s, e).ops|
            && Work(Step(s, e).ops[k], Step(s, e).transaction) < Work(s.ops[k], s.transaction)
  {
    if s.ops[k].status.Saving? {
      SaveMovesOn(s, cursor, k);
    } else {
      OperationMovesOn(s, cursor, k);
    }
    hide Invariant, Step, Enabled, Work, NextEvent;
  }

  lemma OperationMovesOn(s: State, cursor: nat, k: nat)
    requires Invariant(s, cursor)
    requires s.base <= k < |s.ops| && !s.ops[k].status.Settled? && !s.ops[k].status.Saving?
    requires forall j :: s.base <= j < k ==> s.ops[j].status.Settled?
    ensures var e := NextEvent(s, k);
            && Enabled(s, e)
            && k < |Step(s, e).ops|
            && Work(Step(s, e).ops[k], Step(s, e).transaction) < Work(s.ops[k], s.transaction)
  {
    hide Consistent, Applies, Keeps, StartedInOrder, TransactionValid;
  }

  lemma SaveMovesOn(s: State, cursor: nat, k: nat)
    requires Invariant(s, cursor)
    requires s.base <= k < |s.ops| && s.ops[k].status.Saving?
    ensures var e := NextEvent(s, k);
            && Enabled(s, e)
            && k < |Step(s, e).ops|
            && Work(Step(s, e).ops[k], Step(s, e).transaction) < Work(s.ops[k], s.transaction)
  {
    hide Consistent, Applies, Keeps, StartedInOrder, Chained;
  }
}
