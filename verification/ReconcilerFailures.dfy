/** Which failures of a tick halt the indexer, and what the codes of the later checks say about the chain. */
module ReconcilerFailures {
  import opened Wrappers
  import opened ChainReconciler

  /** A failing fold fails in one of its steps. */
  lemma {:induction false} FoldCause<A, X, E>(step: (A, X) -> Result<A, E>, acc: A, xs: seq<X>) returns (i: nat, a: A)
    requires Fold(step, acc, xs).Err?
    ensures i < |xs| && step(a, xs[i]) == Err(Fold(step, acc, xs).error)
    decreases |xs|
  {
    i, a := 0, acc;
    if step(acc, xs[0]).Ok? {
      i, a := FoldCause(step, step(acc, xs[0]).value, xs[1..]);
      i := i + 1;
    }
  }

  // ----- the phases of a tick -----

  predicate Quiet(f: Failure, codes: set<Code>) {
    !f.incident && f.code in codes
  }

  predicate Alarm(f: Failure, codes: set<Code>) {
    f.incident && f.code in codes
  }

  lemma PinnedFails(o: Options, rpc: Rpc, ix: Indexer)
    requires ValidOptions(o)
    ensures Pinned(o, rpc, ix).Err? ==>
              var f := Pinned(o, rpc, ix).error;
              || Quiet(f, {ConfigMismatch, ControlChanged, Unavailable})
              || Alarm(f, {ChainIdMismatch, ChainRewound, DeploymentBlockMismatch, RuntimeCodeMismatch, ConfirmedBlockReorg})
              || (Quiet(f, {SafetyHalt}) && !ix.running)
    ensures Pinned(o, rpc, ix).Ok? ==> ix.running
  {}

  const LOG_CODES := {ReceiptLogMismatch, ControlChanged, MintEvidenceMissing, AuthorizationNotIssued, EvidenceMismatch, MintWindowMismatch, Unavailable}

  lemma LogFails(rpc: Rpc, authorizations: seq<Authorization>, frozen: set<nat>, deployment: nat, headers: seq<Header>, acc: seq<Log>, raw: RawLog)
    ensures var r := AddLog(rpc, authorizations, frozen, deployment, headers, acc, raw);
            r.Err? ==> if raw.removed then r.error == Failure(RemovedLog, true) else Quiet(r.error, LOG_CODES)
  {
    hide FindAuthorization, FindHeader;
  }

  lemma {:induction false} LogsFail(rpc: Rpc, s: Snapshot, deployment: nat, headers: seq<Header>, raw: seq<RawLog>)
    requires Fold(LogStep(rpc, s.authorizations, s.frozen, deployment, headers), [], raw).Err?
    ensures var f := Fold(LogStep(rpc, s.authorizations, s.frozen, deployment, headers), [], raw).error;
            || Quiet(f, LOG_CODES)
            || (f == Failure(RemovedLog, true) && exists i :: 0 <= i < |raw| && raw[i].removed)
  {
    var i, acc := FoldCause(LogStep(rpc, s.authorizations, s.frozen, deployment, headers), [], raw);
    LogFails(rpc, s.authorizations, s.frozen, deployment, headers, acc, raw[i]);
    hide AddLog, Fold;
  }

  lemma {:induction false} HeadersFail(rpc: Rpc, heights: seq<nat>)
    requires Fold(HeaderStep(rpc), [], heights).Err?
    ensures Fold(HeaderStep(rpc), [], heights).error == Failure(Unavailable, false)
  {
    var i, acc := FoldCause(HeaderStep(rpc), [], heights);
    hide Fold;
  }

  predicate ScanFails(f: Failure) {
    || Quiet(f, LOG_CODES + {LogScanIncomplete, ValidationFailed, ControlHistoryIncomplete, ConfirmationBlocked})
    || Alarm(f, {RemovedLog, SafetyHalt, ScanBoundaryChanged})
  }

  lemma {:induction false} ScannedFails(o: Options, reducer: Reducer, rpc: Rpc, s: Snapshot, ix: Indexer, w: Window)
    ensures Scanned(o, reducer, rpc, s, ix, w).Err? ==> ScanFails(Scanned(o, reducer, rpc, s, ix, w).error)
  {
    hide Fold, HeaderStep, LogStep, Boundary;
    if w.from <= w.through {
      var headers := Fold(HeaderStep(rpc), [], Range(w.from, w.through - w.from + 1));
      if headers.Err? {
        HeadersFail(rpc, Range(w.from, w.through - w.from + 1));
      } else if rpc.logs(w.from, w.through).Some? {
        var raw := rpc.logs(w.from, w.through).value;
        if Fold(LogStep(rpc, s.authorizations, s.frozen, ix.deployment, headers.value), [], raw).Err? {
          LogsFail(rpc, s, ix.deployment, headers.value, raw);
        }
        BoundaryFails(headers.value, w.through);
      }
    }
  }

  lemma BoundaryFails(headers: seq<Header>, through: nat)
    ensures Boundary(headers, through).Err? ==> Boundary(headers, through).error == Failure(Unavailable, false)
  {}

  /** An open report whose receipt within the scanned heights lies in a block that the chain does not have there. */
  predicate Reorganized(rpc: Rpc, through: nat, a: Attempt) {
    && a.state != Included && a.state != Reverted
    && rpc.receipt(a.tx).Some? && rpc.receipt(a.tx).value.Some? && rpc.receipt(a.tx).value.value.height <= through
    && var receipt := rpc.receipt(a.tx).value.value;
       rpc.reread(receipt.height).Some? && rpc.reread(receipt.height).value.hash != receipt.hash
  }

  lemma AttemptFails(rpc: Rpc, through: nat, record: Authorization, acc: seq<Attempt>, a: Attempt)
    ensures var r := AddAttempt(rpc, through, record, acc, a);
            r.Err? ==> r.error == Failure(Unavailable, false) || (r.error == Failure(ReceiptReorg, true) && Reorganized(rpc, through, a))
  {}

  /** Some list holds a report that was reorganized away. */
  ghost predicate SomeReorganized(rpc: Rpc, through: nat, attempts: seq<Attempts>) {
    exists i, j :: 0 <= i < |attempts| && 0 <= j < |attempts[i].list| && Reorganized(rpc, through, attempts[i].list[j])
  }

  lemma {:induction false} AttemptsFail(rpc: Rpc, through: nat, authorizations: seq<Authorization>, attempts: seq<Attempts>)
    requires Fold(AttemptsStep(rpc, through, authorizations), [], attempts).Err?
    ensures var f := Fold(AttemptsStep(rpc, through, authorizations), [], attempts).error;
            f == Failure(Unavailable, false) || (f == Failure(ReceiptReorg, true) && SomeReorganized(rpc, through, attempts))
  {
    var i, acc := FoldCause(AttemptsStep(rpc, through, authorizations), [], attempts);
    var found := FindAuthorization(authorizations, attempts[i].authorizationId);
    var record := authorizations[found.value];
    var j, list := FoldCause(AttemptStep(rpc, through, record), [], attempts[i].list);
    AttemptFails(rpc, through, record, list, attempts[i].list[j]);
    hide Fold, FindAuthorization, AddAttempt, Reorganized;
  }

  lemma {:induction false} ProjectionFails(s: Snapshot, ix: Indexer)
    requires Projected(s, ix).Err?
    ensures var f := Projected(s, ix).error;
            || (f == Failure(ConfirmedEventMissing, false) && exists e :: e in ix.entries && e.finalized && EventAuthorization(ix, e).None?)
            || f == Failure(ConfirmedEvidenceMissing, false)
  {
    var i, acc := FoldCause(ProjectStep(ix), s, ix.entries);
    hide Fold, FindAuthorization, Include;
    assert ix.entries[i] in ix.entries;
  }

  /** A finalized token whose owner on chain is not its projected holder. */
  predicate Disowned(rpc: Rpc, ix: Indexer, e: Entry) {
    e.finalized && rpc.owner(e.tokenId).Some? && !(e.tokenId in ix.holders && ix.holders[e.tokenId] == rpc.owner(e.tokenId).value)
  }

  lemma {:induction false} HeadFails(rpc: Rpc, s: Snapshot, ix: Indexer, head: Header)
    requires AtHead(rpc, s, ix, head).Err?
    ensures var f := AtHead(rpc, s, ix, head).error;
            || Quiet(f, {Unavailable, RedeemedMintNotObserved, ControlChanged})
            || (f == Failure(HolderScanMismatch, false) && exists e :: e in ix.entries && Disowned(rpc, ix, e))
  {
    if Fold(ExpireStep(rpc, ix, head), s, Range(0, |s.authorizations|)).Err? {
      var i, acc := FoldCause(ExpireStep(rpc, ix, head), s, Range(0, |s.authorizations|));
      hide Fold, Withdrawn, KnownMint;
    } else {
      var i, acc := FoldCause(HolderStep(rpc, ix), true, ix.entries);
      hide Fold, ExpireStep;
      assert ix.entries[i] in ix.entries;
    }
  }

  // ----- all failures -----

  const INCIDENTS := {ChainIdMismatch, ChainRewound, DeploymentBlockMismatch, RuntimeCodeMismatch, ConfirmedBlockReorg,
                      RemovedLog, ScanBoundaryChanged, ReceiptReorg, HeadChanged}

  /**
   The chain itself is at fault exactly for these codes, and for a safety halt that
   the scan brings about; every other failure leaves everything as it was.
   */
  lemma {:induction false} IncidentsAre(o: Options, reducer: Reducer, rpc: Rpc, s: Snapshot, ix: Indexer)
    requires ValidOptions(o) && Reconciled(o, reducer, rpc, s, ix).Err?
    ensures var f := Reconciled(o, reducer, rpc, s, ix).error;
            f.incident <==> f.code in INCIDENTS || (f.code == SafetyHalt && ix.running)
  {
    hide Pinned, Scanned, Fold, Projected, AtHead, AttemptsStep;
    PinnedFails(o, rpc, ix);
    if Pinned(o, rpc, ix).Ok? {
      var w := Pinned(o, rpc, ix).value;
      ScannedFails(o, reducer, rpc, s, ix, w);
      if Scanned(o, reducer, rpc, s, ix, w).Ok? {
        var state := Scanned(o, reducer, rpc, s, ix, w).value;
        var attempts := Fold(AttemptsStep(rpc, w.through, s.authorizations), [], s.attempts);
        if attempts.Err? {
          AttemptsFail(rpc, w.through, s.authorizations, s.attempts);
        } else {
          var projected := Projected(s.(attempts := attempts.value), state);
          if projected.Err? {
            ProjectionFails(s.(attempts := attempts.value), state);
          } else if AtHead(rpc, projected.value, state, w.head).Err? {
            HeadFails(rpc, projected.value, state, w.head);
          }
        }
      }
    }
  }

  /** What the codes of the checks behind the scan say: a finalized token with another owner, a mint without its event, a report on another chain. */
  lemma {:induction false} CodesMean(o: Options, reducer: Reducer, rpc: Rpc, s: Snapshot, ix: Indexer)
    requires ValidOptions(o) && Reconciled(o, reducer, rpc, s, ix).Err?
    requires Pinned(o, rpc, ix).Ok? && Scanned(o, reducer, rpc, s, ix, Pinned(o, rpc, ix).value).Ok?
    ensures var f, w := Reconciled(o, reducer, rpc, s, ix).error, Pinned(o, rpc, ix).value;
            var state := Scanned(o, reducer, rpc, s, ix, w).value;
            && (f.code == HolderScanMismatch ==> exists e :: e in state.entries && Disowned(rpc, state, e))
            && (f.code == ConfirmedEventMissing ==> exists e :: e in state.entries && e.finalized && EventAuthorization(state, e).None?)
            && (f.code == ReceiptReorg ==> SomeReorganized(rpc, w.through, s.attempts))
            && (f.code == HeadChanged ==> rpc.reread(w.head.number).Some? && rpc.reread(w.head.number).value.hash != w.head.hash)
  {
    hide Pinned, Scanned, Fold, Projected, AtHead, AttemptsStep, Disowned, SomeReorganized;
    var w := Pinned(o, rpc, ix).value;
    var state := Scanned(o, reducer, rpc, s, ix, w).value;
    var attempts := Fold(AttemptsStep(rpc, w.through, s.authorizations), [], s.attempts);
    if attempts.Err? {
      AttemptsFail(rpc, w.through, s.authorizations, s.attempts);
    } else {
      var projected := Projected(s.(attempts := attempts.value), state);
      if projected.Err? {
        ProjectionFails(s.(attempts := attempts.value), state);
      } else if AtHead(rpc, projected.value, state, w.head).Err? {
        HeadFails(rpc, projected.value, state, w.head);
      }
    }
  }
}
