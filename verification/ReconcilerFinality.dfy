/** Expiry is final: whatever ticks and operations follow, an expired authorization is never consumed and never shown. */
module ReconcilerFinality {
  import opened Wrappers
  import opened ChainReconciler
  import opened ReconcilerCursor
  import opened ReconcilerProjection
  import opened ReconcilerExpiry

  /** Gallery cards belong to consumed authorizations, no entry confirms an expired one, and used ids have been seen. */
  ghost predicate Lively(st: State, seen: set<nat>) {
    && UniqueIds(st.snapshot.authorizations)
    && (forall i :: 0 <= i < |st.snapshot.authorizations| ==> LivelyRecord(st, st.snapshot.authorizations[i]))
    && (forall id: nat :: InGallery(st.snapshot.gallery, id) || Confirms(st.indexer, st.indexer.entries, id) ==> id in seen + Ids(st.snapshot))
  }

  ghost predicate LivelyRecord(st: State, a: Authorization) {
    && (InGallery(st.snapshot.gallery, a.id) ==> a.status == Consumed)
    && (Confirms(st.indexer, st.indexer.entries, a.id) ==> a.status != Expired)
  }

  /** A store without gallery cards or expired authorizations, and an indexer without entries. */
  lemma FreshIsLively(s: Snapshot, ix: Indexer)
    requires UniqueIds(s.authorizations) && s.gallery == map[] && ix.entries == []
    ensures Lively(State(s, ix), {})
  {}

  lemma ExpiredIsDead(st: State, seen: set<nat>, i: nat)
    requires Lively(st, seen) && i < |st.snapshot.authorizations| && st.snapshot.authorizations[i].status == Expired
    ensures Dead(st, st.snapshot.authorizations[i].id) && st.snapshot.authorizations[i].id in Ids(st.snapshot)
  {}

  lemma {:induction false} LivelyAfterTick(o: Options, reducer: Reducer, rpc: Rpc, st: State, seen: set<nat>)
    requires ValidOptions(o) && reducer.Valid() && Lively(st, seen)
    ensures Lively(Next(o, reducer, st, TickWith(rpc)), seen + Ids(st.snapshot))
  {
    var s, ix := st.snapshot, st.indexer;
    if Reconciled(o, reducer, rpc, s, ix).Ok? {
      var (t, state, _) := Reconciled(o, reducer, rpc, s, ix).value;
      forall i | 0 <= i < |s.authorizations|
        ensures |t.authorizations| == |s.authorizations|
        ensures t.authorizations[i].id == s.authorizations[i].id && LivelyRecord(State(t, state), t.authorizations[i])
      {
        assert LivelyRecord(st, s.authorizations[i]);
        RecordAfterTick(o, reducer, rpc, st, i);
      }
      forall id: nat | InGallery(t.gallery, id) || Confirms(state, state.entries, id)
        ensures id in seen + Ids(s)
      {
        TickGallery(o, reducer, rpc, s, ix, id);
        if Confirms(state, state.entries, id) {
          ConfirmedIsKnown(o, reducer, rpc, s, ix, id);
        }
      }
      TickGallery(o, reducer, rpc, s, ix, 0);
      assert Next(o, reducer, st, TickWith(rpc)) == State(t, state);
    } else {
      FailureChangesNothing(o, reducer, rpc, s, ix);
      FailureStaysLively(st, Next(o, reducer, st, TickWith(rpc)), seen);
    }
    hide Reconciled, Pinned, Scanned, Confirms, InGallery, LivelyRecord, Reducer.Valid, Next, Tick;
  }

  lemma FailureStaysLively(st: State, t: State, seen: set<nat>)
    requires Lively(st, seen) && t.snapshot.authorizations == st.snapshot.authorizations
    requires t.snapshot.gallery == st.snapshot.gallery || t.snapshot.gallery == map[]
    requires t.indexer == st.indexer || forall e :: e in t.indexer.entries ==> !e.finalized
    ensures Lively(t, seen + Ids(st.snapshot))
  {}

  lemma {:induction false} RecordAfterTick(o: Options, reducer: Reducer, rpc: Rpc, st: State, i: nat)
    requires ValidOptions(o) && Reconciled(o, reducer, rpc, st.snapshot, st.indexer).Ok?
    requires UniqueIds(st.snapshot.authorizations) && i < |st.snapshot.authorizations| && LivelyRecord(st, st.snapshot.authorizations[i])
    ensures var (t, state, _) := Reconciled(o, reducer, rpc, st.snapshot, st.indexer).value;
            && |t.authorizations| == |st.snapshot.authorizations|
            && t.authorizations[i].id == st.snapshot.authorizations[i].id
            && LivelyRecord(State(t, state), t.authorizations[i])
  {
    TickAuthorizations(o, reducer, rpc, st.snapshot, st.indexer, i);
    TickGallery(o, reducer, rpc, st.snapshot, st.indexer, st.snapshot.authorizations[i].id);
    hide Reconciled, Pinned, Confirms, InGallery, UniqueIds;
  }

  lemma {:induction false} ConfirmedIsKnown(o: Options, reducer: Reducer, rpc: Rpc, s: Snapshot, ix: Indexer, id: nat)
    requires ValidOptions(o) && Reconciled(o, reducer, rpc, s, ix).Ok?
    requires var state := Reconciled(o, reducer, rpc, s, ix).value.1; Confirms(state, state.entries, id)
    ensures id in Ids(s)
  {
    var w := Pinned(o, rpc, ix).value;
    var state := Scanned(o, reducer, rpc, s, ix, w).value;
    var u := s.(attempts := Fold(AttemptsStep(rpc, w.through, s.authorizations), [], s.attempts).value);
    ProjectedIsKnown(u, state, id);
    hide Fold, Pinned, Scanned, Confirms;
  }

  lemma {:induction false} ProjectedIsKnown(s: Snapshot, ix: Indexer, id: nat)
    requires Projected(s, ix).Ok? && Confirms(ix, ix.entries, id)
    ensures id in Ids(s)
  {
    var t := Projected(s, ix).value;
    EntriesDone(s, ix, ix.entries, []);
    var e :| e in ix.entries && e.finalized && EventAuthorization(ix, e) == Some(id);
    assert DoneFor(t, ix, e);
    var k := FindAuthorization(t.authorizations, id).value;
    ProjectLength(s, ix, ix.entries);
    ProjectAuthorizations(s, ix, ix.entries, k);
    assert s.authorizations[k] in s.authorizations;
    hide Fold, FindAuthorization, IncludedAt;
  }

  lemma LivelyAfterOutside(st: State, t: Snapshot, seen: set<nat>)
    requires Lively(st, seen) && OutsideKeeps(st, t, seen + Ids(st.snapshot))
    ensures Lively(State(t, st.indexer), seen + Ids(st.snapshot))
  {}

  lemma {:induction false} LivelyRun(o: Options, reducer: Reducer, st: State, before: seq<Event>, later: seq<Event>, seen: set<nat>) returns (now: set<nat>)
    requires ValidOptions(o) && reducer.Valid() && Behaves(o, reducer, st, before + later, seen) && Lively(st, seen)
    ensures Lively(After(o, reducer, st, before), now)
    ensures Behaves(o, reducer, After(o, reducer, st, before), later, now)
    ensures After(o, reducer, st, before + later) == After(o, reducer, After(o, reducer, st, before), later)
    decreases |before|
  {
    if before == [] {
      assert before + later == later;
      now := seen;
    } else {
      var all := before + later;
      assert all[0] == before[0] && all[1..] == before[1..] + later;
      if all[0].TickWith? {
        LivelyAfterTick(o, reducer, all[0].rpc, st, seen);
      } else {
        LivelyAfterOutside(st, all[0].snapshot, seen);
        assert Next(o, reducer, st, all[0]) == State(all[0].snapshot, st.indexer);
      }
      hide Lively, OutsideKeeps, Next, Ids, Reducer.Valid;
      now := LivelyRun(o, reducer, Next(o, reducer, st, before[0]), before[1..], later, seen + Ids(st.snapshot));
    }
  }

  /**
   From any store and indexer in good order: once a run has expired an
   authorization, no continuation of the run ever consumes it, confirms it, or
   puts it in the gallery.
   */
  lemma {:induction false} ExpiryIsFinal(o: Options, reducer: Reducer, st: State, before: seq<Event>, later: seq<Event>, seen: set<nat>, i: nat)
    requires ValidOptions(o) && reducer.Valid() && Behaves(o, reducer, st, before + later, seen) && Lively(st, seen)
    requires var s := After(o, reducer, st, before).snapshot; i < |s.authorizations| && s.authorizations[i].status == Expired
    ensures Dead(After(o, reducer, st, before + later), After(o, reducer, st, before).snapshot.authorizations[i].id)
  {
    var now := LivelyRun(o, reducer, st, before, later, seen);
    var mid := After(o, reducer, st, before);
    ExpiredIsDead(mid, now, i);
    SeenMayGrow(o, reducer, mid, later, now);
    hide Lively, Dead, Behaves, After, Reducer.Valid;
    DeadForGood(o, reducer, mid, later, now + Ids(mid.snapshot), mid.snapshot.authorizations[i].id);
  }

  /** The ids present now may as well have been seen before. */
  lemma SeenMayGrow(o: Options, reducer: Reducer, st: State, events: seq<Event>, seen: set<nat>)
    requires ValidOptions(o) && Behaves(o, reducer, st, events, seen)
    ensures Behaves(o, reducer, st, events, seen + Ids(st.snapshot))
  {}
}
