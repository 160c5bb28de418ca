/** What a tick must have read to succeed, what each disagreement of the chain does, and exactly what a ready tick leaves. */
module ReconcilerOutcome {
  import opened Wrappers
  import opened ChainReconciler
  import opened ReconcilerCursor
  import opened ReconcilerProjection
  import opened ReconcilerExpiry

  // ----- what was read before the scan -----

  /** Everything up to the controls agrees; what remains to be compared is the promoted block. */
  predicate Grounded(o: Options, rpc: Rpc, ix: Indexer) {
    && ix.running && ix.chainId == CHAIN_ID && ix.contract == o.contract
    && rpc.chainId == Some(CHAIN_ID)
    && rpc.head.Some? && ix.deployment <= rpc.head.value.number
    && rpc.header(ix.deployment).Some? && rpc.header(ix.deployment).value.hash == o.deploymentHash
    && rpc.codeMatches == Some(true) && rpc.controlsMatch == Some(true)
  }

  /** The promoted block is still on the chain, as promoted. */
  predicate PromotedStands(rpc: Rpc, ix: Indexer)
    requires rpc.head.Some?
  {
    ix.promoted.Some? ==>
      var c := ix.promoted.value;
      c.height <= rpc.head.value.number && rpc.header(c.height).Some? && rpc.header(c.height).value.hash == c.hash
  }

  lemma PinnedExactly(o: Options, rpc: Rpc, ix: Indexer)
    requires ValidOptions(o)
    ensures Pinned(o, rpc, ix).Ok? <==> Grounded(o, rpc, ix) && PromotedStands(rpc, ix)
    ensures Pinned(o, rpc, ix).Ok? ==>
              Pinned(o, rpc, ix).value.saved == (match ix.promoted case None => None case Some(c) => Some(c.hash))
  {}

  /** The tick reports the code and halts: the gallery is empty, nothing is finalized any more, the cursor stays. */
  ghost predicate Halts(o: Options, reducer: Reducer, rpc: Rpc, s: Snapshot, ix: Indexer, code: Code)
    requires ValidOptions(o)
  {
    var r := Tick(o, reducer, rpc, s, ix);
    && !r.ready && r.code == Some(code) && !r.indexer.running
    && r.snapshot.gallery == map[]
    && (forall k :: k in r.snapshot.projections ==> r.snapshot.projections[k].state != Finalized)
    && (forall e :: e in r.indexer.entries ==> !e.finalized)
    && NextHeight(r.indexer) == NextHeight(ix)
  }

  /** The tick reports the code and returns its input. */
  predicate Pauses(o: Options, reducer: Reducer, rpc: Rpc, s: Snapshot, ix: Indexer, code: Code)
    requires ValidOptions(o)
  {
    Tick(o, reducer, rpc, s, ix) == TickResult(s, ix, false, Some(code))
  }

  lemma FailureHaltsOrPauses(o: Options, reducer: Reducer, rpc: Rpc, s: Snapshot, ix: Indexer)
    requires ValidOptions(o) && reducer.Valid() && Reconciled(o, reducer, rpc, s, ix).Err?
    ensures var f := Reconciled(o, reducer, rpc, s, ix).error;
            if f.incident then Halts(o, reducer, rpc, s, ix, f.code) else Pauses(o, reducer, rpc, s, ix, f.code)
  {
    FailureChangesNothing(o, reducer, rpc, s, ix);
    hide Reconciled, Reducer.Valid;
  }

  /** The promoted block against the chain: rewound below it, replaced at its height, or unknown for now. */
  lemma PromotedBlockIsChecked(o: Options, reducer: Reducer, rpc: Rpc, s: Snapshot, ix: Indexer, c: Checkpoint)
    requires ValidOptions(o) && reducer.Valid() && Grounded(o, rpc, ix) && ix.promoted == Some(c)
    ensures rpc.head.value.number < c.height ==> Halts(o, reducer, rpc, s, ix, ChainRewound)
    ensures c.height <= rpc.head.value.number && rpc.header(c.height).None? ==> Pauses(o, reducer, rpc, s, ix, Unavailable)
    ensures c.height <= rpc.head.value.number && rpc.header(c.height).Some? && rpc.header(c.height).value.hash != c.hash
            ==> Halts(o, reducer, rpc, s, ix, ConfirmedBlockReorg)
  {
    if Pinned(o, rpc, ix).Err? {
      assert Reconciled(o, reducer, rpc, s, ix) == Err(Pinned(o, rpc, ix).error) by {
        hide Pinned, Scanned, Fold;
      }
      FailureHaltsOrPauses(o, reducer, rpc, s, ix);
      hide Reconciled, Halts, Pauses, Reducer.Valid, Scanned;
    }
  }

  /** The chain against the deployment, in the order in which a tick reads it. */
  lemma DeploymentIsChecked(o: Options, reducer: Reducer, rpc: Rpc, s: Snapshot, ix: Indexer)
    requires ValidOptions(o) && reducer.Valid() && ix.running
    ensures ix.chainId != CHAIN_ID || ix.contract != o.contract ==> Pauses(o, reducer, rpc, s, ix, ConfigMismatch)
    ensures ix.chainId == CHAIN_ID && ix.contract == o.contract && rpc.chainId.Some? && rpc.chainId.value != CHAIN_ID
            ==> Halts(o, reducer, rpc, s, ix, ChainIdMismatch)
    ensures ix.chainId == CHAIN_ID && ix.contract == o.contract && rpc.chainId == Some(CHAIN_ID) && rpc.head.Some? ==>
              && (rpc.head.value.number < ix.deployment ==> Halts(o, reducer, rpc, s, ix, ChainRewound))
              && (ix.deployment <= rpc.head.value.number && rpc.header(ix.deployment).Some? ==>
                    && (rpc.header(ix.deployment).value.hash != o.deploymentHash ==> Halts(o, reducer, rpc, s, ix, DeploymentBlockMismatch))
                    && (rpc.header(ix.deployment).value.hash == o.deploymentHash && rpc.codeMatches == Some(false) ==> Halts(o, reducer, rpc, s, ix, RuntimeCodeMismatch))
                    && (rpc.header(ix.deployment).value.hash == o.deploymentHash && rpc.codeMatches == Some(true) && rpc.controlsMatch == Some(false)
                        ==> Pauses(o, reducer, rpc, s, ix, ControlChanged)))
  {
    if Pinned(o, rpc, ix).Err? {
      assert Reconciled(o, reducer, rpc, s, ix) == Err(Pinned(o, rpc, ix).error) by {
        hide Pinned, Scanned, Fold;
      }
      FailureHaltsOrPauses(o, reducer, rpc, s, ix);
      hide Reconciled, Halts, Pauses, Reducer.Valid, Scanned;
    }
  }

  /** Everything but the last look at the head has gone through. */
  ghost predicate Settled(o: Options, reducer: Reducer, rpc: Rpc, s: Snapshot, ix: Indexer)
    requires ValidOptions(o)
  {
    && Pinned(o, rpc, ix).Ok?
    && var w := Pinned(o, rpc, ix).value;
       && Scanned(o, reducer, rpc, s, ix, w).Ok?
       && var state := Scanned(o, reducer, rpc, s, ix, w).value;
          var attempts := Fold(AttemptsStep(rpc, w.through, s.authorizations), [], s.attempts);
          && attempts.Ok?
          && Projected(s.(attempts := attempts.value), state).Ok?
          && AtHead(rpc, Projected(s.(attempts := attempts.value), state).value, state, w.head).Ok?
  }

  lemma HeadDecides(o: Options, reducer: Reducer, rpc: Rpc, s: Snapshot, ix: Indexer)
    requires ValidOptions(o) && Settled(o, reducer, rpc, s, ix)
    ensures rpc.head.Some?
    ensures var again := rpc.reread(rpc.head.value.number);
            if again.None? then Reconciled(o, reducer, rpc, s, ix) == Err(Failure(Unavailable, false))
            else if again.value.hash != rpc.head.value.hash then Reconciled(o, reducer, rpc, s, ix) == Err(Failure(HeadChanged, true))
            else Reconciled(o, reducer, rpc, s, ix).Ok?
  {
    PinnedWindow(o, rpc, ix);
    hide Pinned, Scanned, Projected, AtHead, Fold;
  }

  /** The head is read again at the end: the tick counts only if it is still the same block. */
  lemma HeadIsChecked(o: Options, reducer: Reducer, rpc: Rpc, s: Snapshot, ix: Indexer)
    requires ValidOptions(o) && reducer.Valid() && Settled(o, reducer, rpc, s, ix)
    ensures rpc.head.Some?
    ensures var again := rpc.reread(rpc.head.value.number);
            && (again.None? ==> Pauses(o, reducer, rpc, s, ix, Unavailable))
            && (again.Some? && again.value.hash != rpc.head.value.hash ==> Halts(o, reducer, rpc, s, ix, HeadChanged))
            && (again.Some? && again.value.hash == rpc.head.value.hash <==> Reconciled(o, reducer, rpc, s, ix).Ok?)
  {
    HeadDecides(o, reducer, rpc, s, ix);
    hide Reconciled, Settled, Halts, Pauses, Reducer.Valid;
    if Reconciled(o, reducer, rpc, s, ix).Err? {
      FailureHaltsOrPauses(o, reducer, rpc, s, ix);
    }
  }

  /** A tick that succeeds has read the deployment block, the promoted block and, twice, the head; all as they should be. */
  lemma SuccessHasRead(o: Options, reducer: Reducer, rpc: Rpc, s: Snapshot, ix: Indexer)
    requires ValidOptions(o) && Reconciled(o, reducer, rpc, s, ix).Ok?
    ensures Grounded(o, rpc, ix) && PromotedStands(rpc, ix)
    ensures rpc.reread(rpc.head.value.number).Some? && rpc.reread(rpc.head.value.number).value.hash == rpc.head.value.hash
  {
    PinnedExactly(o, rpc, ix);
    assert Settled(o, reducer, rpc, s, ix) by {
      hide Pinned, Scanned, Projected, AtHead, Fold;
    }
    HeadDecides(o, reducer, rpc, s, ix);
    hide Reconciled, Settled, Pinned;
  }
}
