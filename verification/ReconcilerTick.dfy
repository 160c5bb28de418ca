/** The reconciler's loops, each proved to compute the fold that specifies it, and the tick that runs them. */
module ReconcilerTick {
  import opened Wrappers
  import opened ChainReconciler
  import opened ReconcilerChecks

  method ReadHeaders(rpc: Rpc, from: nat, through: nat) returns (r: Result<seq<Header>, Failure>)
    requires from <= through
    ensures r == Fold(HeaderStep(rpc), [], Range(from, through - from + 1))
  {
    var headers: seq<Header> := [];
    ghost var heights := Range(from, through - from + 1);
    var number := from;
    while number <= through
      invariant from <= number <= through + 1
      invariant Fold(HeaderStep(rpc), headers, heights[number - from..]) == Fold(HeaderStep(rpc), [], heights)
    {
      FoldUnfolds(HeaderStep(rpc), headers, heights, number - from);
      var header := rpc.header(number);
      if header.None? {
        return Err(Failure(Unavailable, false));
      }
      headers := headers + [header.value];
      number := number + 1;
    }
    return Ok(headers);
  }

  method ReadLogs(rpc: Rpc, s: Snapshot, deployment: nat, headers: seq<Header>, raw: seq<RawLog>) returns (r: Result<seq<Log>, Failure>)
    ensures r == Fold(LogStep(rpc, s.authorizations, s.frozen, deployment, headers), [], raw)
  {
    var logs: seq<Log> := [];
    for i := 0 to |raw|
      invariant Fold(LogStep(rpc, s.authorizations, s.frozen, deployment, headers), logs, raw[i..]) == Fold(LogStep(rpc, s.authorizations, s.frozen, deployment, headers), [], raw)
    {
      FoldUnfolds(LogStep(rpc, s.authorizations, s.frozen, deployment, headers), logs, raw, i);
      var next := AddLog(rpc, s.authorizations, s.frozen, deployment, headers, logs, raw[i]);
      if next.Err? {
        return Err(next.error);
      }
      logs := next.value;
    }
    return Ok(logs);
  }

  /** Every list keeps its authorization, its transactions and their order. */
  method CheckAttempts(rpc: Rpc, through: nat, authorizations: seq<Authorization>, attempts: seq<Attempts>) returns (r: Result<seq<Attempts>, Failure>)
    ensures r == Fold(AttemptsStep(rpc, through, authorizations), [], attempts)
    ensures r.Ok? <==> ReportsSettled(rpc, through, authorizations, attempts)
    ensures r.Ok? ==> AttemptsChecked(rpc, through, authorizations, attempts, r.value)
  {
    AttemptsFold(rpc, through, authorizations, [], attempts);
    hide ReportsSettled, AttemptsChecked;
    var checked: seq<Attempts> := [];
    for i := 0 to |attempts|
      invariant Fold(AttemptsStep(rpc, through, authorizations), checked, attempts[i..]) == Fold(AttemptsStep(rpc, through, authorizations), [], attempts)
    {
      FoldUnfolds(AttemptsStep(rpc, through, authorizations), checked, attempts, i);
      var found := FindAuthorization(authorizations, attempts[i].authorizationId);
      if found.None? {
        checked := checked + [attempts[i]];
        continue;
      }
      var list := CheckList(rpc, through, authorizations[found.value], attempts[i].list);
      if list.Err? {
        return Err(list.error);
      }
      checked := checked + [Attempts(attempts[i].authorizationId, list.value)];
    }
    assert checked[0..] == checked;
    return Ok(checked);
  }

  /** Refused exactly when some open report cannot be settled; otherwise exactly the open reports that reverted change. */
  method CheckList(rpc: Rpc, through: nat, record: Authorization, list: seq<Attempt>) returns (r: Result<seq<Attempt>, Failure>)
    ensures r == Fold(AttemptStep(rpc, through, record), [], list)
    ensures r.Err? <==> exists j :: 0 <= j < |list| && Unsettled(rpc, through, record, list[j])
    ensures r.Ok? ==> ListChecked(rpc, through, record, list, r.value)
  {
    ListFold(rpc, through, record, [], list);
    hide Unsettled, Reverts, ListChecked;
    var checked: seq<Attempt> := [];
    for i := 0 to |list|
      invariant Fold(AttemptStep(rpc, through, record), checked, list[i..]) == Fold(AttemptStep(rpc, through, record), [], list)
    {
      FoldUnfolds(AttemptStep(rpc, through, record), checked, list, i);
      var next := AddAttempt(rpc, through, record, checked, list[i]);
      if next.Err? {
        return Err(next.error);
      }
      checked := next.value;
    }
    assert checked[0..] == checked;
    return Ok(checked);
  }

  /** Every finalized entry consumes its authorization, enters projections and gallery, and includes its attempt. */
  method ProjectConfirmedMints(s: Snapshot, ix: Indexer) returns (r: Result<Snapshot, Failure>)
    ensures r == Projected(s, ix)
  {
    var snapshot := s;
    for i := 0 to |ix.entries|
      invariant Fold(ProjectStep(ix), snapshot, ix.entries[i..]) == Projected(s, ix)
    {
      var entry := ix.entries[i];
      FoldUnfolds(ProjectStep(ix), snapshot, ix.entries, i);
      if !entry.finalized {
        continue;
      }
      if entry.event !in ix.mintEvents {
        return Err(Failure(ConfirmedEventMissing, false));
      }
      var id := ix.mintEvents[entry.event];
      var found := FindAuthorization(snapshot.authorizations, id);
      if found.None? || entry.tokenId !in ix.holders {
        return Err(Failure(ConfirmedEvidenceMissing, false));
      }
      var k := found.value;
      var projection := Projection(Finalized, Some(id), Some(entry.tx), Some(entry.tokenId), Some(ix.holders[entry.tokenId]));
      snapshot := snapshot.(
        authorizations := snapshot.authorizations[k := snapshot.authorizations[k].(status := Consumed)],
        attempts := Include(snapshot.attempts, id, entry.tx),
        projections := snapshot.projections[entry.signatureId := projection],
        gallery := snapshot.gallery[entry.signatureId := projection]);
    }
    return Ok(snapshot);
  }

  method ExpireAuthorizations(rpc: Rpc, ix: Indexer, head: Header, s: Snapshot) returns (r: Result<Snapshot, Failure>)
    ensures r == Fold(ExpireStep(rpc, ix, head), s, Range(0, |s.authorizations|))
  {
    var snapshot := s;
    ghost var indices := Range(0, |s.authorizations|);
    for i := 0 to |s.authorizations|
      invariant |snapshot.authorizations| == |s.authorizations|
      invariant Fold(ExpireStep(rpc, ix, head), snapshot, indices[i..]) == Fold(ExpireStep(rpc, ix, head), s, indices)
    {
      FoldUnfolds(ExpireStep(rpc, ix, head), snapshot, indices, i);
      var record := snapshot.authorizations[i];
      var onChain, minted := rpc.authorizationState(record.id), rpc.minted(record.digest);
      if onChain.None? || minted.None? {
        return Err(Failure(Unavailable, false));
      }
      if (onChain.value == 1 || minted.value) && !KnownMint(ix, record.signatureId) {
        return Err(Failure(RedeemedMintNotObserved, false));
      }
      if onChain.value != 0 && onChain.value != 1 {
        return Err(Failure(ControlChanged, false));
      }
      if Expirable(record.status) && onChain.value == 0 && !minted.value && head.timestamp > record.deadline {
        snapshot := snapshot.(
          authorizations := snapshot.authorizations[i := record.(status := Expired)],
          projections := Withdrawn(snapshot.projections, record.id));
      }
    }
    return Ok(snapshot);
  }

  /** Accepted exactly when every finalized token's owner on chain is its projected holder. */
  method CheckHolders(rpc: Rpc, ix: Indexer) returns (r: Result<bool, Failure>)
    ensures r == Fold(HolderStep(rpc, ix), true, ix.entries)
    ensures r.Ok? <==> HoldersAgree(rpc, ix, ix.entries)
  {
    HoldersFold(rpc, ix, ix.entries);
    hide HoldersAgree;
    for i := 0 to |ix.entries|
      invariant Fold(HolderStep(rpc, ix), true, ix.entries[i..]) == Fold(HolderStep(rpc, ix), true, ix.entries)
    {
      FoldUnfolds(HolderStep(rpc, ix), true, ix.entries, i);
      var checked := CheckHolder(rpc, ix, true, ix.entries[i]);
      if checked.Err? {
        return Err(checked.error);
      }
    }
    return Ok(true);
  }

  method ScanWindow(o: Options, reducer: Reducer, rpc: Rpc, s: Snapshot, ix: Indexer, w: Window) returns (r: Result<Indexer, Failure>)
    ensures r == Scanned(o, reducer, rpc, s, ix, w)
  {
    if w.from > w.through {
      return Ok(ix);
    }
    var headers :- ReadHeaders(rpc, w.from, w.through);
    var raw :- Answer(rpc.logs(w.from, w.through));
    var logs :- ReadLogs(rpc, s, ix.deployment, headers, raw);
    if !rpc.receiptsComplete {
      return Err(Failure(LogScanIncomplete, false));
    }
    var state :- Answer(reducer.scan(ix, w.saved, headers, logs));
    if !state.running {
      return Err(Failure(SafetyHalt, true));
    }
    if !state.logsValid {
      return Err(Failure(ValidationFailed, false));
    }
    if !state.controlsReady {
      return Err(Failure(ControlHistoryIncomplete, false));
    }
    var boundary :- Boundary(headers, w.through);
    var again :- Answer(rpc.reread(w.through));
    if again.hash != boundary.hash {
      return Err(Failure(ScanBoundaryChanged, true));
    }
    state :- Answer(reducer.promote(state, w.saved, boundary));
    if !state.running || state.blockage {
      return Err(Failure(ConfirmationBlocked, false));
    }
    return Ok(state);
  }

  /** The protected part of a tick: it edits its own copies, and fails with nothing of them. */
  method Reconcile(o: Options, reducer: Reducer, rpc: Rpc, s: Snapshot, ix: Indexer) returns (r: Result<(Snapshot, Indexer, bool), Failure>)
    requires ValidOptions(o)
    ensures r == Reconciled(o, reducer, rpc, s, ix)
  {
    hide Fold, Pinned, Scanned;
    var snapshot := s;
    var w :- Pinned(o, rpc, ix);
    var state :- ScanWindow(o, reducer, rpc, s, ix, w);
    var attempts :- CheckAttempts(rpc, w.through, snapshot.authorizations, snapshot.attempts);
    snapshot := snapshot.(attempts := attempts);
    snapshot :- ProjectConfirmedMints(snapshot, state);
    if CaughtUp(state, w.head) {
      snapshot :- ExpireAuthorizations(rpc, state, w.head, snapshot);
      var _ :- CheckHolders(rpc, state);
    }
    var again :- Answer(rpc.reread(w.head.number));
    if again.hash != w.head.hash {
      return Err(Failure(HeadChanged, true));
    }
    return Ok((snapshot, state, CaughtUp(state, w.head)));
  }

  method RunTick(o: Options, reducer: Reducer, rpc: Rpc, s: Snapshot, ix: Indexer) returns (r: TickResult)
    requires ValidOptions(o)
    ensures r == Tick(o, reducer, rpc, s, ix)
  {
    var result := Reconcile(o, reducer, rpc, s, ix);
    if result.Ok? {
      var (snapshot, state, caughtUp) := result.value;
      return TickResult(snapshot, state, caughtUp, if caughtUp then None else Some(CatchingUp));
    }
    var state, original := ix, s;
    if result.error.incident {
      state := reducer.revoke(state.(running := false));
      original := original.(projections := RevokeFinalized(original.projections), gallery := map[]);
    }
    return TickResult(original, state, false, Some(result.error.code));
  }
}
