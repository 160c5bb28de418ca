/** What every run of the single-writer runtime keeps. */
module RuntimeSafety {
  import opened RuntimeSteps

  lemma InitialHolds(image: Image, cursor: nat)
    requires Consistent(image, cursor)
    ensures Invariant(Initial(image), cursor)
  {}

  // ----- the queue -----

  /** Only operation k changes, and only its status, from one that may move to one it may move to. */
  ghost predicate Moves(s: State, t: State, k: nat) {
    && s.base <= k < |s.ops| == |t.ops|
    && t.ops == s.ops[k := s.ops[k].(status := t.ops[k].status)]
    && t.base == s.base && t.tail == s.tail
    && (Active(s.ops[k].status) || (s.ops[k].status.Waiting? && (k > s.base ==> s.ops[k - 1].status.Settled?)))
    && (Active(t.ops[k].status) || t.ops[k].status.Settled?)
    && (Active(t.ops[k].status) ==> t.running)
  }

  lemma QueueKept(s: State, t: State, k: nat)
    requires Chained(s) && Moves(s, t, k)
    ensures Chained(t)
  {}

  lemma OrderKept(s: State, t: State, k: nat)
    requires StartedInOrder(s) && Moves(s, t, k) && t.started == s.started
    ensures StartedInOrder(t)
  {}

  lemma OrderExtended(s: State, t: State, k: nat)
    requires Chained(s) && StartedInOrder(s) && Moves(s, t, k) && s.ops[k].status.Waiting? && t.started == s.started + [k]
    ensures StartedInOrder(t)
  {}

  // ----- what is kept in an image -----

  ghost predicate Stores(s: State, cursor: nat) {
    && Applies(s)
    && Keeps(s, s.live) && Keeps(s, s.rows)
    && s.rows in s.captures
    && Consistent(s.live, cursor)
    && (forall image :: image in s.captures ==> Consistent(image, cursor))
  }

  lemma Assemble(s: State, cursor: nat)
    requires Chained(s) && StartedInOrder(s) && TransactionValid(s) && Stores(s, cursor)
    ensures Invariant(s, cursor)
  {}

  lemma Parts(s: State, cursor: nat)
    requires Invariant(s, cursor)
    ensures Chained(s) && StartedInOrder(s) && TransactionValid(s) && Stores(s, cursor)
  {}

  lemma StoresMoved(s: State, t: State, k: nat, cursor: nat)
    requires Stores(s, cursor) && Moves(s, t, k) && t.live == s.live && t.rows == s.rows && t.captures == s.captures
    requires IsAcknowledged(t.ops[k]) ==> s.live == s.rows
    ensures Stores(t, cursor)
  {}

  // ----- one lemma for every kind of step -----

  lemma SubmitKeeps(s: State, cursor: nat)
    requires Invariant(s, cursor)
    ensures Invariant(Step(s, Submit), cursor)
  {
    hide Consistent, LatestCursor;
  }

  lemma StartKeeps(s: State, k: nat, cursor: nat)
    requires Invariant(s, cursor) && Enabled(s, Start(k))
    ensures Invariant(Step(s, Start(k)), cursor)
  {
    Parts(s, cursor);
    var t := Step(s, Start(k));
    StartMoves(s, k);
    QueueKept(s, t, k);
    StoresMoved(s, t, k, cursor);
    if Healthy(s) {
      OrderExtended(s, t, k);
    } else {
      OrderKept(s, t, k);
    }
    TransactionMoved(s, t, k);
    hide Chained, StartedInOrder, TransactionValid, Stores, Moves;
    Assemble(t, cursor);
  }

  lemma StartMoves(s: State, k: nat)
    requires Chained(s) && Enabled(s, Start(k))
    ensures Moves(s, Step(s, Start(k)), k)
  {}

  lemma TransactionMoved(s: State, t: State, k: nat)
    requires TransactionValid(s) && Moves(s, t, k) && t.transaction == s.transaction
    requires !s.ops[k].status.Saving? && !t.ops[k].status.Saving? && !IsAcknowledged(t.ops[k])
    requires t.live == s.live && t.rows == s.rows && t.captures == s.captures && t.writerFailure == s.writerFailure
    ensures TransactionValid(t)
  {}

  /** While an operation is in its body, no save is in flight. */
  lemma SavesNeverOverlap(s: State, cursor: nat, k: nat)
    requires Invariant(s, cursor) && InBody(s, k)
    ensures !InFlight(s.transaction)
    ensures s.base <= k && s.running
    ensures forall j :: s.base <= j < k ==> s.ops[j].status.Settled?
    ensures forall j :: k < j < |s.ops| ==> s.ops[j].status.Waiting?
  {}

  lemma BeginKeeps(s: State, k: nat, purpose: Purpose, image: Image, cursor: nat)
    requires Invariant(s, cursor) && InBody(s, k) && Owned(s)
    requires CapturedFor(s, purpose, image)
    ensures Invariant(Begin(s, k, purpose, image), cursor)
  {
    SavesNeverOverlap(s, cursor, k);
    Parts(s, cursor);
    CapturedConsistent(s, purpose, image, cursor);
    var t := Begin(s, k, purpose, image);
    assert Moves(s, t, k);
    QueueKept(s, t, k);
    OrderKept(s, t, k);
    var u := t.(captures := s.captures);
    assert Moves(s, u, k);
    StoresMoved(s, u, k, cursor);
    CapturesExtended(u, image, cursor);
    assert TransactionValid(t) by {
      hide Keeps, Consistent, Applies, Chained, StartedInOrder;
    }
    hide Chained, StartedInOrder, TransactionValid, Stores, Moves;
    Assemble(t, cursor);
  }

  lemma CapturesExtended(s: State, image: Image, cursor: nat)
    requires Stores(s, cursor) && Consistent(image, cursor)
    ensures forall t: State :: t == s.(captures := s.captures + [image], transaction := t.transaction) ==> Stores(t, cursor)
  {}

  lemma CapturedConsistent(s: State, purpose: Purpose, image: Image, cursor: nat)
    requires Consistent(s.live, cursor) && CapturedFor(s, purpose, image)
    ensures Consistent(image, cursor)
  {}

  lemma CheckpointKeeps(s: State, k: nat, storable: bool, cursor: nat)
    requires Invariant(s, cursor) && Enabled(s, Checkpoint(k, storable))
    ensures Invariant(Step(s, Checkpoint(k, storable)), cursor)
  {
    SavesNeverOverlap(s, cursor, k);
    if Healthy(s) && storable {
      BeginKeeps(s, k, Midway, s.live, cursor);
    } else {
      FailureRecorded(s, cursor);
    }
    hide Invariant, Begin;
  }

  lemma FailureRecorded(s: State, cursor: nat)
    requires Invariant(s, cursor)
    ensures Invariant(s.(failure := true), cursor)
  {
    hide Consistent;
  }

  lemma ReconcileKeeps(s: State, k: nat, c: nat, storable: bool, cursor: nat)
    requires Invariant(s, cursor) && Enabled(s, Reconcile(k, c, storable))
    ensures Invariant(Step(s, Reconcile(k, c, storable)), cursor)
  {
    if Owned(s) && storable {
      BeginKeeps(s, k, Publish, Image(s.live.mint + [Projection(c)], c), cursor);
    }
    hide Invariant, Begin;
  }

  lemma FinishKeeps(s: State, k: nat, v: Verdict, storable: bool, cursor: nat)
    requires Invariant(s, cursor) && Enabled(s, Finish(k, v, storable))
    ensures Invariant(Step(s, Finish(k, v, storable)), cursor)
  {
    SavesNeverOverlap(s, cursor, k);
    if Healthy(s) && storable {
      BeginKeeps(s, k, Last(v), s.live, cursor);
    } else {
      var t := Step(s, Finish(k, v, storable));
      Parts(s, cursor);
      assert Moves(s, t, k);
      QueueKept(s, t, k);
      OrderKept(s, t, k);
      StoresMoved(s, t, k, cursor);
      TransactionMoved(s, t, k);
      Assemble(t, cursor);
    }
    hide Invariant, Begin, Chained, StartedInOrder, TransactionValid, Stores, Moves;
  }

  lemma RowsKeep(s: State, e: Event, cursor: nat)
    requires Invariant(s, cursor) && Enabled(s, e) && (e == WriteRow || e == Commit || e == LateCommit)
    ensures Invariant(Step(s, e), cursor)
  {
    hide Consistent, LatestCursor;
  }

  /** The save in flight is over for its operation, which moves on; nothing it mutated is forgotten. */
  ghost predicate Closes(s: State, t: State) {
    && InFlight(s.transaction) && OwnerSaves(s)
    && (var k := s.transaction.owner;
        && Moves(s, t, k)
        && !t.ops[k].status.Saving? && (IsAcknowledged(t.ops[k]) ==> s.transaction.Applied? && s.ops[k].status.purpose.Last?))
    && t.live == s.live && t.rows == s.rows && t.captures == s.captures && t.started == s.started
    && t.writer == s.writer && (s.writerFailure ==> t.writerFailure)
    && (t.transaction == NoTransaction
        || (t.writerFailure && s.transaction.Open? && s.transaction.written == 2 && t.transaction == Doubtful(s.transaction.draft)))
  }

  lemma CloseKeeps(s: State, t: State, cursor: nat)
    requires Invariant(s, cursor) && Closes(s, t)
    ensures Invariant(t, cursor)
  {
    Parts(s, cursor);
    var k := s.transaction.owner;
    QueueKept(s, t, k);
    OrderKept(s, t, k);
    StoresMoved(s, t, k, cursor);
    CloseTransaction(s, t);
    hide Chained, StartedInOrder, TransactionValid, Stores, Moves;
    Assemble(t, cursor);
  }

  lemma CloseTransaction(s: State, t: State)
    requires TransactionValid(s) && Keeps(s, s.live) && InFlight(s.transaction)
    requires var k := s.transaction.owner;
             && OwnerSaves(s) && Moves(s, t, k) && !t.ops[k].status.Saving?
             && (t.transaction.Doubtful? ==> !IsAcknowledged(t.ops[k]))
    requires t.live == s.live && t.captures == s.captures
    requires t.transaction == NoTransaction
             || (t.writerFailure && s.transaction.Open? && s.transaction.written == 2 && t.transaction == Doubtful(s.transaction.draft))
    ensures TransactionValid(t)
  {}

  lemma BreakKeeps(s: State, cursor: nat)
    requires Invariant(s, cursor) && Enabled(s, Break)
    ensures Invariant(Step(s, Break), cursor)
  {
    OwnerInEpoch(s, cursor);
    BreakCloses(s);
    CloseKeeps(s, Step(s, Break), cursor);
    hide Invariant, Closes, Step;
  }

  lemma BreakCloses(s: State)
    requires Enabled(s, Break) && s.base <= s.transaction.owner && s.running
    ensures Closes(s, Step(s, Break))
  {}

  lemma OwnerInEpoch(s: State, cursor: nat)
    requires Invariant(s, cursor) && OwnerSaves(s)
    ensures s.base <= s.transaction.owner && s.running
    ensures s.transaction.Applied? ==> CapturedFor(s, s.ops[s.transaction.owner].status.purpose, s.transaction.captured) && s.rows == s.transaction.captured
  {}

  lemma ReplyKeeps(s: State, cursor: nat)
    requires Invariant(s, cursor) && Enabled(s, Reply)
    ensures Invariant(Step(s, Reply), cursor)
  {
    OwnerInEpoch(s, cursor);
    var k, t := s.transaction.owner, Step(s, Reply);
    if Owned(s) && s.ops[k].status.purpose.Publish? {
      var u := t.(live := s.live);
      assert Closes(s, u);
      CloseKeeps(s, u, cursor);
      PublishKeeps(u, s.rows, cursor);
      assert t == u.(live := s.rows);
    } else {
      assert Closes(s, t);
      CloseKeeps(s, t, cursor);
    }
    hide Invariant;
  }

  /** A stored projection may be published. */
  lemma PublishKeeps(s: State, image: Image, cursor: nat)
    requires Invariant(s, cursor) && image == s.rows && s.transaction.NoTransaction?
    requires exists c :: image.mint == s.live.mint + [Projection(c)]
    ensures Invariant(s.(live := image), cursor)
  {
    hide Consistent, LatestCursor, Chained, StartedInOrder;
    assert Chained(s.(live := image)) && StartedInOrder(s.(live := image)) by {
      SameQueue(s, image);
    }
  }

  lemma SameQueue(s: State, image: Image)
    requires Chained(s) && StartedInOrder(s)
    ensures Chained(s.(live := image)) && StartedInOrder(s.(live := image))
  {}

  lemma OutsideKeeps(s: State, e: Event, cursor: nat)
    requires Invariant(s, cursor) && Enabled(s, e) && (e == LoseOwnership || e == Release || e == Restart)
    ensures Invariant(Step(s, e), cursor)
  {
    hide Consistent, LatestCursor;
  }

  lemma MutateKeeps(s: State, k: nat, cursor: nat)
    requires Invariant(s, cursor) && Enabled(s, Mutate(k))
    ensures Invariant(Step(s, Mutate(k)), cursor)
  {
    SavesNeverOverlap(s, cursor, k);
    Parts(s, cursor);
    MutationConsistent(s.live, k, s.ops[k].mutations, cursor);
    MutateQueue(s, k);
    MutateStores(s, k, cursor);
    hide Chained, StartedInOrder, TransactionValid, Stores, Consistent;
    Assemble(Step(s, Mutate(k)), cursor);
  }

  lemma MutationConsistent(image: Image, k: nat, i: nat, cursor: nat)
    requires Consistent(image, cursor)
    ensures Consistent(image.(mint := image.mint + [Mutation(k, i)]), cursor)
  {}

  lemma MutateQueue(s: State, k: nat)
    requires Chained(s) && StartedInOrder(s) && InBody(s, k)
    ensures Chained(Step(s, Mutate(k))) && StartedInOrder(Step(s, Mutate(k)))
  {}

  lemma MutateStores(s: State, k: nat, cursor: nat)
    requires Stores(s, cursor) && TransactionValid(s) && InBody(s, k) && !InFlight(s.transaction)
    requires Consistent(Step(s, Mutate(k)).live, cursor)
    ensures Stores(Step(s, Mutate(k)), cursor) && TransactionValid(Step(s, Mutate(k)))
  {
    hide Consistent;
  }
}
