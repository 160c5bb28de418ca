/** What the reconciler's checks establish: which reported attempts may change, and that holders agree with the chain. */
module ReconcilerChecks {
  import opened Wrappers
  import opened ChainReconciler

  // ----- reported attempts -----

  predicate Open(a: Attempt) {
    a.state != Included && a.state != Reverted
  }

  /** The node has a receipt of the reported transaction within the scanned heights, and the transaction is the authorized one. */
  predicate Mined(rpc: Rpc, through: nat, record: Authorization, a: Attempt) {
    && rpc.receipt(a.tx).Some? && rpc.receipt(a.tx).value.Some?
    && rpc.receipt(a.tx).value.value.height <= through
    && rpc.transactionMatches(a.tx, record) == Some(true)
  }

  /** An open report whose mined transaction reverted. */
  predicate Reverts(rpc: Rpc, through: nat, record: Authorization, a: Attempt) {
    Open(a) && Mined(rpc, through, record, a) && rpc.receipt(a.tx).value.value.reverted
  }

  /** The node does not answer for an open report, or its receipt lies on another chain. */
  predicate Unsettled(rpc: Rpc, through: nat, record: Authorization, a: Attempt) {
    Open(a)
    && (|| rpc.receipt(a.tx).None?
        || (rpc.receipt(a.tx).value.Some? && rpc.receipt(a.tx).value.value.height <= through
            && (|| rpc.transactionMatches(a.tx, record).None?
                || (rpc.transactionMatches(a.tx, record).value
                    && (|| rpc.reread(rpc.receipt(a.tx).value.value.height).None?
                        || rpc.reread(rpc.receipt(a.tx).value.value.height).value.hash != rpc.receipt(a.tx).value.value.hash)))))
  }

  /** The same transactions in the same order; exactly the open reports that reverted have become reverted. */
  ghost predicate ListChecked(rpc: Rpc, through: nat, record: Authorization, list: seq<Attempt>, checked: seq<Attempt>) {
    && |checked| == |list|
    && forall j :: 0 <= j < |list| ==> checked[j] == if Reverts(rpc, through, record, list[j]) then list[j].(state := Reverted) else list[j]
  }

  lemma AttemptChecked(rpc: Rpc, through: nat, record: Authorization, acc: seq<Attempt>, a: Attempt)
    ensures AddAttempt(rpc, through, record, acc, a).Err? <==> Unsettled(rpc, through, record, a)
    ensures AddAttempt(rpc, through, record, acc, a).Ok? ==>
              AddAttempt(rpc, through, record, acc, a).value
              == acc + [if Reverts(rpc, through, record, a) then a.(state := Reverted) else a]
  {}

  lemma {:induction false} ListFold(rpc: Rpc, through: nat, record: Authorization, acc: seq<Attempt>, list: seq<Attempt>)
    ensures var r := Fold(AttemptStep(rpc, through, record), acc, list);
            && (r.Err? <==> exists j :: 0 <= j < |list| && Unsettled(rpc, through, record, list[j]))
            && (r.Ok? ==> acc <= r.value && ListChecked(rpc, through, record, list, r.value[|acc|..]))
    decreases |list|
  {
    if list != [] {
      AttemptChecked(rpc, through, record, acc, list[0]);
      hide AddAttempt, Reverts, Unsettled;
      var next := AddAttempt(rpc, through, record, acc, list[0]);
      if next.Ok? {
        ListFold(rpc, through, record, next.value, list[1..]);
        assert forall j :: 0 < j < |list| ==> list[j] == list[1..][j - 1];
        var r := Fold(AttemptStep(rpc, through, record), acc, list);
        if r.Ok? {
          var tail := r.value[|acc|..];
          assert tail[0] == next.value[|acc|];
          assert tail[1..] == r.value[|next.value|..];
          assert forall j :: 0 < j < |list| ==> tail[j] == tail[1..][j - 1];
        }
      }
    }
  }

  /** A list without a matching authorization stays; any other is checked against it. */
  ghost predicate ReportsChecked(rpc: Rpc, through: nat, authorizations: seq<Authorization>, a: Attempts, checked: Attempts) {
    var found := FindAuthorization(authorizations, a.authorizationId);
    && checked.authorizationId == a.authorizationId
    && if found.None? then checked == a else ListChecked(rpc, through, authorizations[found.value], a.list, checked.list)
  }

  ghost predicate AttemptsChecked(rpc: Rpc, through: nat, authorizations: seq<Authorization>, attempts: seq<Attempts>, checked: seq<Attempts>) {
    |checked| == |attempts| && forall i :: 0 <= i < |attempts| ==> ReportsChecked(rpc, through, authorizations, attempts[i], checked[i])
  }

  /** The node settles every open report of an authorization that it is asked about. */
  ghost predicate ReportsSettled(rpc: Rpc, through: nat, authorizations: seq<Authorization>, attempts: seq<Attempts>) {
    forall i :: 0 <= i < |attempts| ==> ListSettled(rpc, through, authorizations, attempts[i])
  }

  ghost predicate ListSettled(rpc: Rpc, through: nat, authorizations: seq<Authorization>, a: Attempts) {
    var found := FindAuthorization(authorizations, a.authorizationId);
    found.Some? ==> forall j :: 0 <= j < |a.list| ==> !Unsettled(rpc, through, authorizations[found.value], a.list[j])
  }

  lemma ReportsAdded(rpc: Rpc, through: nat, authorizations: seq<Authorization>, acc: seq<Attempts>, a: Attempts)
    ensures AddAttempts(rpc, through, authorizations, acc, a).Ok? <==> ListSettled(rpc, through, authorizations, a)
    ensures AddAttempts(rpc, through, authorizations, acc, a).Ok? ==>
              var r := AddAttempts(rpc, through, authorizations, acc, a).value;
              && |r| == |acc| + 1 && acc == r[..|acc|]
              && ReportsChecked(rpc, through, authorizations, a, r[|acc|])
  {
    var found := FindAuthorization(authorizations, a.authorizationId);
    if found.Some? {
      ListFold(rpc, through, authorizations[found.value], [], a.list);
    }
    hide Fold, ListChecked, Unsettled;
    if found.Some? && AddAttempts(rpc, through, authorizations, acc, a).Ok? {
      var list := Fold(AttemptStep(rpc, through, authorizations[found.value]), [], a.list).value;
      assert list[0..] == list;
    }
  }

  lemma {:induction false} AttemptsFold(rpc: Rpc, through: nat, authorizations: seq<Authorization>, acc: seq<Attempts>, attempts: seq<Attempts>)
    ensures var r := Fold(AttemptsStep(rpc, through, authorizations), acc, attempts);
            && (r.Ok? <==> ReportsSettled(rpc, through, authorizations, attempts))
            && (r.Ok? ==> acc <= r.value && AttemptsChecked(rpc, through, authorizations, attempts, r.value[|acc|..]))
    decreases |attempts|
  {
    if attempts != [] {
      ReportsAdded(rpc, through, authorizations, acc, attempts[0]);
      hide AddAttempts, ReportsChecked, ListSettled;
      assert forall i :: 0 < i < |attempts| ==> attempts[i] == attempts[1..][i - 1];
      var next := AddAttempts(rpc, through, authorizations, acc, attempts[0]);
      if next.Ok? {
        AttemptsFold(rpc, through, authorizations, next.value, attempts[1..]);
        var r := Fold(AttemptsStep(rpc, through, authorizations), acc, attempts);
        if r.Ok? {
          var tail := r.value[|acc|..];
          assert tail[0] == next.value[|acc|] && tail[1..] == r.value[|next.value|..];
          assert forall i :: 0 < i < |attempts| ==> tail[i] == tail[1..][i - 1];
        }
      }
    }
  }

  // ----- holders -----

  /** Every finalized token's owner on chain is the holder that the indexer projects. */
  ghost predicate HoldersAgree(rpc: Rpc, ix: Indexer, entries: seq<Entry>) {
    forall e :: e in entries && e.finalized ==> e.tokenId in ix.holders && rpc.owner(e.tokenId) == Some(ix.holders[e.tokenId])
  }

  lemma {:induction false} HoldersFold(rpc: Rpc, ix: Indexer, entries: seq<Entry>)
    ensures Fold(HolderStep(rpc, ix), true, entries).Ok? <==> HoldersAgree(rpc, ix, entries)
    ensures Fold(HolderStep(rpc, ix), true, entries).Ok? ==> Fold(HolderStep(rpc, ix), true, entries).value
    decreases |entries|
  {
    if entries != [] {
      HoldersFold(rpc, ix, entries[1..]);
      assert entries == [entries[0]] + entries[1..];
    }
  }

  /** A tick is ready only over holders that the chain confirms. */
  lemma {:induction false} ReadyHoldersAgree(o: Options, reducer: Reducer, rpc: Rpc, s: Snapshot, ix: Indexer)
    requires ValidOptions(o)
    ensures var r := Tick(o, reducer, rpc, s, ix);
            r.ready ==> HoldersAgree(rpc, r.indexer, r.indexer.entries)
  {
    hide Pinned, Scanned, Projected, Fold, HoldersAgree;
    if Reconciled(o, reducer, rpc, s, ix).Ok? {
      var state := Reconciled(o, reducer, rpc, s, ix).value.1;
      HoldersFold(rpc, state, state.entries);
    }
  }

  // ----- attempts through a whole tick -----

  /** What a tick may do to a recorded attempt: leave it, revert it on a receipt, or include it for its confirmed mint. */
  ghost predicate AttemptKept(rpc: Rpc, through: nat, authorizations: seq<Authorization>, id: nat, a: Attempt, b: Attempt) {
    && b.tx == a.tx
    && (|| b.state == a.state
        || b.state == Included
        || (b.state == Reverted
            && FindAuthorization(authorizations, id).Some?
            && Reverts(rpc, through, authorizations[FindAuthorization(authorizations, id).value], a)))
  }

  ghost predicate ReportsKept(rpc: Rpc, through: nat, authorizations: seq<Authorization>, a: Attempts, b: Attempts) {
    && b.authorizationId == a.authorizationId && |a.list| <= |b.list|
    && forall j :: 0 <= j < |a.list| ==> AttemptKept(rpc, through, authorizations, a.authorizationId, a.list[j], b.list[j])
  }

  ghost predicate AttemptsKept(rpc: Rpc, through: nat, authorizations: seq<Authorization>, before: seq<Attempts>, after: seq<Attempts>) {
    |before| <= |after| && forall i :: 0 <= i < |before| ==> ReportsKept(rpc, through, authorizations, before[i], after[i])
  }

  lemma CheckedAreKept(rpc: Rpc, through: nat, authorizations: seq<Authorization>, before: seq<Attempts>, after: seq<Attempts>)
    requires AttemptsChecked(rpc, through, authorizations, before, after)
    ensures AttemptsKept(rpc, through, authorizations, before, after)
  {
    hide Reverts;
    forall i | 0 <= i < |before|
      ensures ReportsKept(rpc, through, authorizations, before[i], after[i])
    {
      assert ReportsChecked(rpc, through, authorizations, before[i], after[i]);
    }
  }

  lemma IncludedAreKept(rpc: Rpc, through: nat, authorizations: seq<Authorization>, before: seq<Attempts>, after: seq<Attempts>, id: nat, tx: nat)
    requires AttemptsKept(rpc, through, authorizations, before, after)
    ensures AttemptsKept(rpc, through, authorizations, before, Include(after, id, tx))
  {
    hide Reverts;
    var included := Include(after, id, tx);
    forall i | 0 <= i < |before|
      ensures ReportsKept(rpc, through, authorizations, before[i], included[i])
    {
      assert ReportsKept(rpc, through, authorizations, before[i], after[i]);
    }
  }

  lemma {:induction false} ProjectedAreKept(rpc: Rpc, through: nat, authorizations: seq<Authorization>, before: seq<Attempts>, s: Snapshot, ix: Indexer, entries: seq<Entry>)
    requires AttemptsKept(rpc, through, authorizations, before, s.attempts)
    requires Fold(ProjectStep(ix), s, entries).Ok?
    ensures AttemptsKept(rpc, through, authorizations, before, Fold(ProjectStep(ix), s, entries).value.attempts)
    decreases |entries|
  {
    if entries != [] {
      var e := entries[0];
      if e.finalized && EventAuthorization(ix, e).Some? {
        IncludedAreKept(rpc, through, authorizations, before, s.attempts, EventAuthorization(ix, e).value, e.tx);
      }
      hide AttemptsKept, Include;
      ProjectedAreKept(rpc, through, authorizations, before, ProjectEntry(ix, s, e).value, ix, entries[1..]);
    }
  }

  lemma {:induction false} ExpiryKeepsAttempts(rpc: Rpc, ix: Indexer, head: Header, s: Snapshot, indices: seq<nat>)
    requires Fold(ExpireStep(rpc, ix, head), s, indices).Ok?
    ensures Fold(ExpireStep(rpc, ix, head), s, indices).value.attempts == s.attempts
    decreases |indices|
  {
    if indices != [] {
      ExpiryKeepsAttempts(rpc, ix, head, ExpireAt(rpc, ix, head, s, indices[0]).value, indices[1..]);
    }
  }

  /**
   Over a successful tick every recorded attempt keeps its place and transaction.
   Its state stays, or becomes included with a confirmed mint, or, if it was open,
   reverted by a receipt within the scanned heights.
   */
  lemma {:induction false} TickKeepsAttempts(o: Options, reducer: Reducer, rpc: Rpc, s: Snapshot, ix: Indexer)
    requires ValidOptions(o) && Reconciled(o, reducer, rpc, s, ix).Ok?
    ensures Pinned(o, rpc, ix).Ok?
    ensures AttemptsKept(rpc, Pinned(o, rpc, ix).value.through, s.authorizations, s.attempts, Reconciled(o, reducer, rpc, s, ix).value.0.attempts)
  {
    hide Pinned, Scanned, Fold, AttemptsChecked, AttemptsKept;
    var w := Pinned(o, rpc, ix).value;
    var state := Scanned(o, reducer, rpc, s, ix, w).value;
    var attempts := Fold(AttemptsStep(rpc, w.through, s.authorizations), [], s.attempts).value;
    AttemptsFold(rpc, w.through, s.authorizations, [], s.attempts);
    assert attempts[0..] == attempts;
    CheckedAreKept(rpc, w.through, s.authorizations, s.attempts, attempts);
    ProjectedAreKept(rpc, w.through, s.authorizations, s.attempts, s.(attempts := attempts), state, state.entries);
    var projected := Projected(s.(attempts := attempts), state).value;
    if CaughtUp(state, w.head) {
      ExpiryKeepsAttempts(rpc, state, w.head, projected, Range(0, |projected.authorizations|));
    }
  }
}
