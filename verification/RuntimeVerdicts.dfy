/** How a run settles: with what its body did, or as unavailable for good. */
module RuntimeVerdicts {
  import opened RuntimeSteps
  import opened RuntimeSafety
  import opened RuntimeGuarantees

  // ----- fulfilled exactly when the body returned -----

  predicate Ends(e: Event, k: nat) {
    e.Finish? && e.op == k
  }

  /** The body of operation k ended once, in this way, and its last save was begun. */
  ghost predicate EndedOnce(events: seq<Event>, k: nat, verdict: Verdict) {
    && (exists i :: 0 <= i < |events| && events[i] == Finish(k, verdict, true))
    && (forall i, j :: 0 <= i < |events| && 0 <= j < |events| && Ends(events[i], k) && Ends(events[j], k) ==> i == j)
  }

  ghost predicate NotEnded(events: seq<Event>, k: nat) {
    forall i :: 0 <= i < |events| ==> !Ends(events[i], k)
  }

  /** What the events so far say of operation k agrees with its status. */
  ghost predicate Told(events: seq<Event>, k: nat, status: Status) {
    match status
    case Waiting => NotEnded(events, k)
    case Body => NotEnded(events, k)
    case Saving(purpose) => if purpose.Last? then EndedOnce(events, k, purpose.verdict) else NotEnded(events, k)
    case Settled(outcome) => outcome.Acknowledged? ==> EndedOnce(events, k, outcome.verdict)
    case Lost => true
  }

  ghost predicate AllTold(s: State, events: seq<Event>) {
    && (forall k :: 0 <= k < |s.ops| ==> Told(events, k, s.ops[k].status))
    && (forall k: nat :: |s.ops| <= k ==> NotEnded(events, k))
  }

  lemma {:induction false} ToldOther(events: seq<Event>, e: Event, k: nat, status: Status)
    requires Told(events, k, status) && !Ends(e, k)
    ensures Told(events + [e], k, status)
  {
    var more := events + [e];
    assert forall i :: 0 <= i < |events| ==> more[i] == events[i];
    assert more[|events|] == e;
  }

  lemma {:induction false} ToldEnd(events: seq<Event>, k: nat, verdict: Verdict)
    requires NotEnded(events, k)
    ensures EndedOnce(events + [Finish(k, verdict, true)], k, verdict)
  {
    var more := events + [Finish(k, verdict, true)];
    assert more[|events|] == Finish(k, verdict, true);
  }

  /** How a step may change the status of one operation. */
  predicate MayBecome(e: Event, k: nat, before: Status, after: Status) {
    || after == before
    || after.Lost?
    || (after.Settled? && after.outcome.Unavailable?)
    || (!Ends(e, k) && (before.Waiting? || before.Body? || (before.Saving? && !before.purpose.Last?))
        && (after.Body? || (after.Saving? && !after.purpose.Last?)))
    || (before.Body? && after.Saving? && after.purpose.Last? && e == Finish(k, after.purpose.verdict, true))
    || (!Ends(e, k) && before.Saving? && before.purpose.Last? && after == Settled(Acknowledged(before.purpose.verdict)))
  }

  lemma OwnMove(s: State, e: Event)
    requires Enabled(s, e) && OfOperation(e)
    ensures e.op < |s.ops| == |Step(s, e).ops| && MayBecome(e, e.op, s.ops[e.op].status, Step(s, e).ops[e.op].status)
    ensures e.Finish? ==> s.ops[e.op].status.Body? && Step(s, e).ops[e.op].status != s.ops[e.op].status
  {}

  lemma OperationMoves(s: State, e: Event, k: nat)
    requires Enabled(s, e) && k < |s.ops| && OfOperation(e)
    ensures k < |Step(s, e).ops| && MayBecome(e, k, s.ops[k].status, Step(s, e).ops[k].status)
    ensures Ends(e, k) ==> s.ops[k].status.Body? && Step(s, e).ops[k].status != s.ops[k].status
  {
    if k == e.op {
      OwnMove(s, e);
    } else {
      OthersStay(s, e, k);
    }
    hide Step, Enabled;
  }

  lemma ReplyMoves(s: State, k: nat)
    requires Enabled(s, Reply) && k < |s.ops|
    ensures k < |Step(s, Reply).ops| && MayBecome(Reply, k, s.ops[k].status, Step(s, Reply).ops[k].status)
  {
    var closed := s.(transaction := NoTransaction);
    assert Step(s, Reply) == if Owned(s) then SaveSucceeded(closed, s.transaction.owner, s.transaction.captured) else SaveThrew(closed, s.transaction.owner);
    hide Step, Enabled;
  }

  lemma BreakMoves(s: State, k: nat)
    requires Enabled(s, Break) && k < |s.ops|
    ensures k < |Step(s, Break).ops| && MayBecome(Break, k, s.ops[k].status, Step(s, Break).ops[k].status)
  {}

  lemma SaveMoves(s: State, e: Event, k: nat)
    requires Enabled(s, e) && k < |s.ops| && OfSave(e)
    ensures k < |Step(s, e).ops| && MayBecome(e, k, s.ops[k].status, Step(s, e).ops[k].status)
  {
    if e.Reply? {
      ReplyMoves(s, k);
    } else if e.Break? {
      BreakMoves(s, k);
    } else {
      assert Step(s, e).ops == s.ops;
    }
    hide Step, Enabled;
  }

  lemma OtherMoves(s: State, e: Event, k: nat)
    requires Enabled(s, e) && k < |s.ops| && !OfOperation(e) && !OfSave(e)
    ensures k < |Step(s, e).ops| && MayBecome(e, k, s.ops[k].status, Step(s, e).ops[k].status)
  {}

  lemma StatusMoves(s: State, e: Event, k: nat)
    requires Enabled(s, e) && k < |s.ops|
    ensures k < |Step(s, e).ops| && MayBecome(e, k, s.ops[k].status, Step(s, e).ops[k].status)
    ensures Ends(e, k) ==> s.ops[k].status.Body? && Step(s, e).ops[k].status != s.ops[k].status
  {
    if OfOperation(e) {
      OperationMoves(s, e, k);
    } else if OfSave(e) {
      SaveMoves(s, e, k);
    } else {
      OtherMoves(s, e, k);
    }
    hide Step, Enabled, MayBecome;
  }

  lemma {:induction false} ToldMoves(events: seq<Event>, e: Event, k: nat, before: Status, after: Status)
    requires Told(events, k, before) && MayBecome(e, k, before, after)
    requires Ends(e, k) ==> before.Body? && after != before
    ensures Told(events + [e], k, after)
  {
    if !Ends(e, k) {
      ToldOther(events, e, k, before);
    } else if after.Saving? && after.purpose.Last? {
      ToldEnd(events, k, after.purpose.verdict);
    }
    hide EndedOnce, NotEnded;
  }

  lemma SameMany(s: State, e: Event)
    requires Enabled(s, e) && !e.Submit? && !OfOperation(e)
    ensures |Step(s, e).ops| == |s.ops|
  {}

  lemma NewOperations(s: State, e: Event)
    requires Enabled(s, e)
    ensures |s.ops| <= |Step(s, e).ops|
    ensures |s.ops| < |Step(s, e).ops| ==> e == Submit && |Step(s, e).ops| == |s.ops| + 1 && Step(s, e).ops[|s.ops|].status.Waiting?
    ensures forall k: nat :: Ends(e, k) ==> k < |s.ops|
  {
    if OfOperation(e) {
      OwnMove(s, e);
      hide Step, Enabled;
    } else if !e.Submit? {
      SameMany(s, e);
      hide Step, Enabled;
    }
  }

  lemma {:induction false} ToldStep(s: State, events: seq<Event>, e: Event)
    requires AllTold(s, events) && Enabled(s, e)
    ensures AllTold(Step(s, e), events + [e])
  {
    hide Step, Enabled, Told, NotEnded, MayBecome;
    var t := Step(s, e);
    NewOperations(s, e);
    forall k: nat
      ensures k < |t.ops| ==> Told(events + [e], k, t.ops[k].status)
      ensures |t.ops| <= k ==> NotEnded(events + [e], k)
    {
      if k < |s.ops| {
        StatusMoves(s, e, k);
        ToldMoves(events, e, k, s.ops[k].status, t.ops[k].status);
      } else {
        NotEndedYet(events, e, k);
      }
    }
  }

  lemma {:induction false} NotEndedYet(events: seq<Event>, e: Event, k: nat)
    requires NotEnded(events, k) && !Ends(e, k)
    ensures NotEnded(events + [e], k) && Told(events + [e], k, Waiting)
  {}

  lemma {:induction false} ToldRun(s: State, before: seq<Event>, events: seq<Event>)
    requires AllTold(s, before) && Legal(s, events)
    ensures AllTold(After(s, events), before + events)
    decreases |events|
  {
    hide AllTold, Step, Enabled;
    if events == [] {
      assert before + events == before;
    } else {
      ToldStep(s, before, events[0]);
      ToldRun(Step(s, events[0]), before + [events[0]], events[1..]);
      assert before + [events[0]] + events[1..] == before + events;
    }
  }

  /**
   A run is acknowledged with what its own body did: it is fulfilled exactly when
   the body returned, and rejects with the body's own error exactly when it threw.
   The body ended once, and its last save was begun.
   */
  lemma {:induction false} VerdictIsTheBodys(image: Image, events: seq<Event>, k: nat)
    requires Legal(Initial(image), events)
    requires k < |After(Initial(image), events).ops| && IsAcknowledged(After(Initial(image), events).ops[k])
    ensures EndedOnce(events, k, After(Initial(image), events).ops[k].status.outcome.verdict)
  {
    ToldRun(Initial(image), [], events);
    assert [] + events == events;
    var s := After(Initial(image), events);
    assert AllTold(s, events);
    hide Step, Enabled, Legal, After, EndedOnce, NotEnded;
    assert Told(events, k, s.ops[k].status);
  }

  // ----- unavailable for good -----

  /** Whatever has settled as unavailable in this process has left the failure recorded. */
  ghost predicate Sticky(s: State) {
    s.base <= |s.ops| && forall k :: s.base <= k < |s.ops| && s.ops[k].status == Settled(Unavailable) ==> s.failure
  }

  lemma StickyOperation(s: State, e: Event, cursor: nat)
    requires Invariant(s, cursor) && Sticky(s) && Enabled(s, e) && OfOperation(e)
    ensures Sticky(Step(s, e))
  {
    if !e.Start? {
      SavesNeverOverlap(s, cursor, e.op);
    }
    hide Invariant;
  }

  lemma StickyOther(s: State, e: Event)
    requires Sticky(s) && Enabled(s, e) && !OfOperation(e)
    ensures Sticky(Step(s, e))
  {}

  lemma {:induction false} StickyRun(s: State, events: seq<Event>, cursor: nat)
    requires Invariant(s, cursor) && Sticky(s) && Legal(s, events)
    ensures Sticky(After(s, events))
    decreases |events|
  {
    hide Invariant, Step, Enabled, Sticky;
    if events != [] {
      if OfOperation(events[0]) {
        StickyOperation(s, events[0], cursor);
      } else {
        StickyOther(s, events[0]);
      }
      StepKeeps(s, events[0], cursor);
      StickyRun(Step(s, events[0]), events[1..], cursor);
    }
  }

  /** Once any run of a process settles as unavailable, the failure is recorded; so no later body of it starts and none is acknowledged. */
  lemma {:induction false} UnavailableIsRecorded(image: Image, cursor: nat, events: seq<Event>, k: nat)
    requires Reaches(image, cursor, events)
    ensures var s := After(Initial(image), events);
            s.base <= k < |s.ops| && s.ops[k].status == Settled(Unavailable) ==> s.failure && !Healthy(s)
  {
    InitialHolds(image, cursor);
    StickyRun(Initial(image), events, cursor);
    hide Legal, After, Step, Enabled, Invariant, Consistent;
  }

  /** A checkpoint that does not get its pair stored records the failure, whoever called it. */
  lemma FailedCheckpointIsRecorded(s: State, e: Event, cursor: nat)
    requires Invariant(s, cursor) && Enabled(s, e)
    ensures (e.Checkpoint? || e.Finish?) && !Step(s, e).ops[e.op].status.Saving? ==> Step(s, e).failure
    ensures e.Break? && !s.ops[s.transaction.owner].status.purpose.Publish? ==> Step(s, e).failure
    ensures e.Reply? && !s.ops[s.transaction.owner].status.purpose.Publish? && !Healthy(s) ==> Step(s, e).failure
  {
    if e.Checkpoint? || e.Finish? {
      SavesNeverOverlap(s, cursor, e.op);
    }
    hide Invariant;
  }

  // ----- an undisturbed save -----

  const SAVE_STEPS := [WriteRow, WriteRow, Commit, Reply]

  /** With nothing in the way, the four steps of a save store the captured pair and hand it back to its owner. */
  lemma {:induction false} SaveRuns(s: State, k: nat, purpose: Purpose, image: Image)
    requires InBody(s, k) && Owned(s)
    ensures var b := Begin(s, k, purpose, image);
            Legal(b, SAVE_STEPS) && After(b, SAVE_STEPS) == SaveSucceeded(b.(rows := image, transaction := NoTransaction), k, image)
  {
    var b := Begin(s, k, purpose, image);
    var b1 := Step(b, WriteRow);
    var b2 := Step(b1, WriteRow);
    assert b2 == b.(transaction := Open(k, image, image, 2));
    var b3 := Step(b2, Commit);
    assert b3 == b.(rows := image, transaction := Applied(k, image));
    var b4 := Step(b3, Reply);
    assert SAVE_STEPS[1..] == [WriteRow, Commit, Reply] && SAVE_STEPS[1..][1..] == [Commit, Reply];
    assert SAVE_STEPS[1..][1..][1..] == [Reply] && SAVE_STEPS[1..][1..][1..][1..] == [];
    assert b4 == SaveSucceeded(b.(rows := image, transaction := NoTransaction), k, image);
    hide Step, Enabled, Begin, SaveSucceeded;
    assert Legal(b4, []) && After(b4, []) == b4;
    assert Legal(b3, [Reply]) && After(b3, [Reply]) == b4;
    assert Legal(b2, [Commit, Reply]) && After(b2, [Commit, Reply]) == b4;
    assert Legal(b1, [WriteRow, Commit, Reply]) && After(b1, [WriteRow, Commit, Reply]) == b4;
  }

  /** An operation that ends while all is well, and whose save nothing disturbs, is acknowledged with what it did, and the live pair is stored. */
  lemma {:induction false} UndisturbedRunIsAcknowledged(s: State, k: nat, verdict: Verdict)
    requires InBody(s, k) && Healthy(s) && s.running
    ensures var events := [Finish(k, verdict, true)] + SAVE_STEPS;
            && Legal(s, events)
            && k < |After(s, events).ops| && After(s, events).ops[k].status == Settled(Acknowledged(verdict))
            && After(s, events).rows == s.live
  {
    SaveRuns(s, k, Last(verdict), s.live);
    var events := [Finish(k, verdict, true)] + SAVE_STEPS;
    assert events[1..] == SAVE_STEPS;
    assert Step(s, Finish(k, verdict, true)) == Begin(s, k, Last(verdict), s.live);
    hide Legal, After;
    UnfoldRun(s, events);
  }

  /** A tick's result that nothing disturbs is stored and shown, and the body goes on. */
  lemma {:induction false} UndisturbedProjectionIsPublished(s: State, k: nat, cursor: nat)
    requires InBody(s, k) && Owned(s)
    ensures var events := [Reconcile(k, cursor, true)] + SAVE_STEPS;
            var image := Image(s.live.mint + [Projection(cursor)], cursor);
            && Legal(s, events)
            && InBody(After(s, events), k)
            && After(s, events).rows == After(s, events).live == image
  {
    var image := Image(s.live.mint + [Projection(cursor)], cursor);
    SaveRuns(s, k, Publish, image);
    var events := [Reconcile(k, cursor, true)] + SAVE_STEPS;
    assert events[1..] == SAVE_STEPS;
    assert Step(s, Reconcile(k, cursor, true)) == Begin(s, k, Publish, image);
    hide Legal, After;
    UnfoldRun(s, events);
  }

  lemma {:induction false} UnfoldRun(s: State, events: seq<Event>)
    requires events != [] && Enabled(s, events[0]) && Legal(Step(s, events[0]), events[1..])
    ensures Legal(s, events) && After(s, events) == After(Step(s, events[0]), events[1..])
  {}
}
