/** Authorizations expire only when the chain proves them unused past their deadline, and then for good. */
module ReconcilerExpiry {
  import opened Wrappers
  import opened ChainReconciler
  import opened ReconcilerCursor
  import opened ReconcilerProjection

  /** Some finalized entry's mint event names the authorization. */
  ghost predicate Confirms(ix: Indexer, entries: seq<Entry>, id: nat) {
    exists e :: e in entries && e.finalized && EventAuthorization(ix, e) == Some(id)
  }

  ghost predicate InGallery(gallery: map<nat, Projection>, id: nat) {
    exists k :: k in gallery && gallery[k].authorizationId == Some(id)
  }

  predicate UniqueIds(authorizations: seq<Authorization>) {
    forall i, j :: 0 <= i < j < |authorizations| ==> authorizations[i].id != authorizations[j].id
  }

  // ----- the scan admits no mint of a dead authorization -----

  lemma {:induction false} LogsAreMintable(rpc: Rpc, s: Snapshot, deployment: nat, headers: seq<Header>, acc: seq<Log>, raw: seq<RawLog>, log: Log)
    requires Fold(LogStep(rpc, s.authorizations, s.frozen, deployment, headers), acc, raw).Ok?
    requires log in Fold(LogStep(rpc, s.authorizations, s.frozen, deployment, headers), acc, raw).value && log !in acc && log.Mint?
    ensures exists i :: 0 <= i < |s.authorizations| && s.authorizations[i].id == log.authorizationId && Mintable(s.authorizations[i].status)
    decreases |raw|
  {
    if raw != [] {
      var next := AddLog(rpc, s.authorizations, s.frozen, deployment, headers, acc, raw[0]).value;
      if log !in next {
        hide AddLog;
        LogsAreMintable(rpc, s, deployment, headers, next, raw[1..], log);
      } else {
        hide FindAuthorization, FindHeader;
        assert raw[0].decoded == Some(log);
        assert FindAuthorization(s.authorizations, log.authorizationId).Some?;
      }
    }
  }

  /** An entry confirmed by a scan was confirmed before, or its authorization was issued when the tick began. */
  lemma ScanConfirms(o: Options, reducer: Reducer, rpc: Rpc, s: Snapshot, ix: Indexer, w: Window, id: nat)
    requires reducer.Valid() && w.from == NextHeight(ix) && Scanned(o, reducer, rpc, s, ix, w).Ok?
    requires var state := Scanned(o, reducer, rpc, s, ix, w).value; Confirms(state, state.entries, id)
    ensures Confirms(ix, ix.entries, id)
            || exists i :: 0 <= i < |s.authorizations| && s.authorizations[i].id == id && Mintable(s.authorizations[i].status)
  {
    if w.from <= w.through {
      var state := Scanned(o, reducer, rpc, s, ix, w).value;
      var headers := Fold(HeaderStep(rpc), [], Range(w.from, w.through - w.from + 1)).value;
      var raw := rpc.logs(w.from, w.through).value;
      var logs := Fold(LogStep(rpc, s.authorizations, s.frozen, ix.deployment, headers), [], raw).value;
      PromotedSources(o, reducer, rpc, s, ix, w);
      hide Scanned, Fold, Reducer.Valid;
      var e :| e in state.entries && e.finalized && EventAuthorization(state, e) == Some(id);
      if !Confirms(ix, ix.entries, id) {
        var log :| log in logs && log.Mint? && log.authorizationId == id;
        LogsAreMintable(rpc, s, ix.deployment, headers, [], raw, log);
      }
    }
  }

  /** A window's headers, once read, are as many as its heights. */
  lemma {:induction false} HeadersCount(rpc: Rpc, acc: seq<Header>, heights: seq<nat>)
    requires Fold(HeaderStep(rpc), acc, heights).Ok?
    ensures |Fold(HeaderStep(rpc), acc, heights).value| == |acc| + |heights|
    decreases |heights|
  {
    if heights != [] {
      HeadersCount(rpc, AddHeader(rpc, acc, heights[0]).value, heights[1..]);
    }
  }

  lemma {:induction false} FirstNumber(headers: seq<Header>)
    requires headers != [] && Consecutive(headers)
    ensures headers[|headers| - 1].number == headers[0].number + |headers| - 1
    decreases |headers|
  {
    if |headers| > 1 {
      FirstNumber(headers[..|headers| - 1]);
    }
  }

  lemma PromotedSources(o: Options, reducer: Reducer, rpc: Rpc, s: Snapshot, ix: Indexer, w: Window)
    requires reducer.Valid() && w.from == NextHeight(ix) && Scanned(o, reducer, rpc, s, ix, w).Ok? && w.from <= w.through
    ensures Fold(HeaderStep(rpc), [], Range(w.from, w.through - w.from + 1)).Ok? && rpc.logs(w.from, w.through).Some?
    ensures var headers := Fold(HeaderStep(rpc), [], Range(w.from, w.through - w.from + 1)).value;
            var folded := Fold(LogStep(rpc, s.authorizations, s.frozen, ix.deployment, headers), [], rpc.logs(w.from, w.through).value);
            folded.Ok? && Sourced(ix, folded.value, Scanned(o, reducer, rpc, s, ix, w).value)
  {
    HeadersCount(rpc, [], Range(w.from, w.through - w.from + 1));
    var headers := Fold(HeaderStep(rpc), [], Range(w.from, w.through - w.from + 1)).value;
    assert Consecutive(headers);
    FirstNumber(headers);
    assert Covers(ix, headers, Boundary(headers, w.through).value);
    hide Fold, Covers;
  }

  // ----- projecting -----

  /** A projection leaves every authorization as it was, or consumed because a finalized entry names it. */
  lemma {:induction false} ProjectAuthorizations(s: Snapshot, ix: Indexer, entries: seq<Entry>, i: nat)
    requires Fold(ProjectStep(ix), s, entries).Ok? && i < |s.authorizations|
    ensures var t := Fold(ProjectStep(ix), s, entries).value;
            && |t.authorizations| == |s.authorizations|
            && (t.authorizations[i] == s.authorizations[i]
                || (t.authorizations[i] == s.authorizations[i].(status := Consumed) && Confirms(ix, entries, s.authorizations[i].id)))
    decreases |entries|
  {
    if entries != [] {
      var e := entries[0];
      var u := ProjectEntry(ix, s, e).value;
      EntryAuthorizations(s, ix, e, i);
      hide ProjectEntry;
      ProjectAuthorizations(u, ix, entries[1..], i);
      ConfirmsTail(ix, entries, s.authorizations[i].id);
      hide Confirms;
    }
  }

  lemma EntryAuthorizations(s: Snapshot, ix: Indexer, e: Entry, i: nat)
    requires ProjectEntry(ix, s, e).Ok? && i < |s.authorizations|
    ensures var t := ProjectEntry(ix, s, e).value;
            && |t.authorizations| == |s.authorizations|
            && (t.authorizations[i] == s.authorizations[i]
                || (t.authorizations[i] == s.authorizations[i].(status := Consumed) && e.finalized && EventAuthorization(ix, e) == Some(s.authorizations[i].id)))
  {}

  lemma ConfirmsTail(ix: Indexer, entries: seq<Entry>, id: nat)
    requires entries != []
    ensures Confirms(ix, entries, id) <==> (entries[0].finalized && EventAuthorization(ix, entries[0]) == Some(id)) || Confirms(ix, entries[1..], id)
  {}

  lemma {:induction false} OverridesAreConfirmed(ix: Indexer, entries: seq<Entry>, k: nat, id: nat)
    requires k in Overrides(ix, entries) && Overrides(ix, entries)[k].authorizationId == Some(id)
    ensures Confirms(ix, entries, id)
    decreases |entries|
  {
    var n := |entries| - 1;
    var e := entries[n];
    if e.finalized && e.event in ix.mintEvents && e.tokenId in ix.holders && k == e.signatureId {
      assert EventAuthorization(ix, e) == Some(id);
    } else {
      OverridesAreConfirmed(ix, entries[..n], k, id);
      var d :| d in entries[..n] && d.finalized && EventAuthorization(ix, d) == Some(id);
      assert d in entries;
    }
  }

  lemma {:induction false} ProjectGallery(s: Snapshot, ix: Indexer, entries: seq<Entry>, id: nat)
    requires Fold(ProjectStep(ix), s, entries).Ok?
    requires InGallery(Fold(ProjectStep(ix), s, entries).value.gallery, id)
    ensures InGallery(s.gallery, id) || Confirms(ix, entries, id)
  {
    MapsOverridden(s, ix, entries);
    var gallery := Fold(ProjectStep(ix), s, entries).value.gallery;
    var k :| k in gallery && gallery[k].authorizationId == Some(id);
    if k in Overrides(ix, entries) {
      OverridesAreConfirmed(ix, entries, k, id);
    }
    hide Fold, Overrides;
  }

  /** A confirmed authorization is consumed, if the ids are distinct. */
  lemma {:induction false} ConfirmedIsConsumed(s: Snapshot, ix: Indexer, i: nat)
    requires Projected(s, ix).Ok? && UniqueIds(s.authorizations) && i < |s.authorizations|
    requires Confirms(ix, ix.entries, s.authorizations[i].id)
    ensures |Projected(s, ix).value.authorizations| == |s.authorizations|
    ensures Projected(s, ix).value.authorizations[i] == s.authorizations[i].(status := Consumed)
  {
    var t, id := Projected(s, ix).value, s.authorizations[i].id;
    ProjectAuthorizations(s, ix, ix.entries, i);
    EntriesDone(s, ix, ix.entries, []);
    var e :| e in ix.entries && e.finalized && EventAuthorization(ix, e) == Some(id);
    assert DoneFor(t, ix, e);
    var k := FindAuthorization(t.authorizations, id).value;
    ProjectAuthorizations(s, ix, ix.entries, k);
    assert s.authorizations[k].id == id;
    hide Fold, FindAuthorization, IncludedAt;
  }

  // ----- expiring -----

  /** The chain shows the authorization unused, at a head past its deadline. */
  predicate Due(rpc: Rpc, head: Header, a: Authorization) {
    && a.status in {Issued, Prepared, SigningUnknown}
    && rpc.authorizationState(a.id) == Some(0) && rpc.minted(a.digest) == Some(false)
    && head.timestamp > a.deadline
  }

  lemma {:induction false} ExpireAuthorizations(rpc: Rpc, ix: Indexer, head: Header, s: Snapshot, indices: seq<nat>, i: nat)
    requires Fold(ExpireStep(rpc, ix, head), s, indices).Ok? && i < |s.authorizations|
    ensures var t := Fold(ExpireStep(rpc, ix, head), s, indices).value;
            && |t.authorizations| == |s.authorizations| && t.gallery == s.gallery && t.attempts == s.attempts
            && (t.authorizations[i] == s.authorizations[i]
                || (t.authorizations[i] == s.authorizations[i].(status := Expired) && Due(rpc, head, s.authorizations[i])))
    decreases |indices|
  {
    if indices != [] {
      var u := ExpireAt(rpc, ix, head, s, indices[0]).value;
      ExpireOne(rpc, ix, head, s, indices[0], i);
      hide ExpireAt;
      ExpireAuthorizations(rpc, ix, head, u, indices[1..], i);
    }
  }

  lemma ExpireOne(rpc: Rpc, ix: Indexer, head: Header, s: Snapshot, j: nat, i: nat)
    requires ExpireAt(rpc, ix, head, s, j).Ok? && i < |s.authorizations|
    ensures var t := ExpireAt(rpc, ix, head, s, j).value;
            && |t.authorizations| == |s.authorizations| && t.gallery == s.gallery && t.attempts == s.attempts
            && (t.authorizations[i] == s.authorizations[i]
                || (t.authorizations[i] == s.authorizations[i].(status := Expired) && Due(rpc, head, s.authorizations[i])))
  {}

  /** What one successful tick may do to an authorization: consume it, or expire it when it is due at a fully scanned head. */
  ghost predicate MayBecome(rpc: Rpc, state: Indexer, head: Header, before: Authorization, after: Authorization) {
    || after == before
    || (after == before.(status := Consumed) && Confirms(state, state.entries, before.id))
    || (after == before.(status := Expired) && CaughtUp(state, head) && Due(rpc, head, before))
  }

  lemma {:induction false} TickAuthorizations(o: Options, reducer: Reducer, rpc: Rpc, s: Snapshot, ix: Indexer, i: nat)
    requires ValidOptions(o) && Reconciled(o, reducer, rpc, s, ix).Ok? && i < |s.authorizations|
    ensures Pinned(o, rpc, ix).Ok?
    ensures var (t, state, _) := Reconciled(o, reducer, rpc, s, ix).value;
            && |t.authorizations| == |s.authorizations|
            && MayBecome(rpc, state, Pinned(o, rpc, ix).value.head, s.authorizations[i], t.authorizations[i])
            && (UniqueIds(s.authorizations) && Confirms(state, state.entries, s.authorizations[i].id)
                ==> t.authorizations[i] == s.authorizations[i].(status := Consumed))
  {
    var w := Pinned(o, rpc, ix).value;
    var state := Scanned(o, reducer, rpc, s, ix, w).value;
    var u := s.(attempts := Fold(AttemptsStep(rpc, w.through, s.authorizations), [], s.attempts).value);
    var p := Projected(u, state).value;
    ProjectAuthorizations(u, state, state.entries, i);
    if CaughtUp(state, w.head) {
      ExpireAuthorizations(rpc, state, w.head, p, Range(0, |p.authorizations|), i);
    }
    if UniqueIds(s.authorizations) && Confirms(state, state.entries, s.authorizations[i].id) {
      ConfirmedIsConsumed(u, state, i);
    }
    hide Fold, Pinned, Scanned, Confirms, InGallery;
  }

  lemma {:induction false} ProjectLength(s: Snapshot, ix: Indexer, entries: seq<Entry>)
    requires Fold(ProjectStep(ix), s, entries).Ok?
    ensures |Fold(ProjectStep(ix), s, entries).value.authorizations| == |s.authorizations|
    decreases |entries|
  {
    if entries != [] {
      var u := ProjectEntry(ix, s, entries[0]).value;
      assert |u.authorizations| == |s.authorizations|;
      hide ProjectEntry;
      ProjectLength(u, ix, entries[1..]);
    }
  }

  lemma {:induction false} ExpireLength(rpc: Rpc, ix: Indexer, head: Header, s: Snapshot, indices: seq<nat>)
    requires Fold(ExpireStep(rpc, ix, head), s, indices).Ok?
    ensures var t := Fold(ExpireStep(rpc, ix, head), s, indices).value;
            |t.authorizations| == |s.authorizations| && t.gallery == s.gallery
    decreases |indices|
  {
    if indices != [] {
      var u := ExpireAt(rpc, ix, head, s, indices[0]).value;
      assert |u.authorizations| == |s.authorizations| && u.gallery == s.gallery;
      hide ExpireAt;
      ExpireLength(rpc, ix, head, u, indices[1..]);
    }
  }

  /** A tick keeps the list of authorizations; only a confirmed one enters the gallery. */
  lemma {:induction false} TickGallery(o: Options, reducer: Reducer, rpc: Rpc, s: Snapshot, ix: Indexer, id: nat)
    requires ValidOptions(o) && Reconciled(o, reducer, rpc, s, ix).Ok?
    ensures var (t, state, _) := Reconciled(o, reducer, rpc, s, ix).value;
            && |t.authorizations| == |s.authorizations|
            && (InGallery(t.gallery, id) ==> InGallery(s.gallery, id) || Confirms(state, state.entries, id))
  {
    var w := Pinned(o, rpc, ix).value;
    var state := Scanned(o, reducer, rpc, s, ix, w).value;
    var u := s.(attempts := Fold(AttemptsStep(rpc, w.through, s.authorizations), [], s.attempts).value);
    var p := Projected(u, state).value;
    ProjectLength(u, state, state.entries);
    if CaughtUp(state, w.head) {
      ExpireLength(rpc, state, w.head, p, Range(0, |p.authorizations|));
    }
    if InGallery(p.gallery, id) {
      ProjectGallery(u, state, state.entries, id);
    }
    hide Fold, Pinned, Scanned, Confirms, InGallery;
  }

  /**
   An authorization that a tick turned to expired was issued, prepared or of
   unknown signing; the tick had scanned everything up to the head it reports, the
   head's own timestamp is past the deadline, and the chain reports the
   authorization unused and its signature unminted.
   */
  lemma {:induction false} ExpiresOnlyWhenDue(o: Options, reducer: Reducer, rpc: Rpc, s: Snapshot, ix: Indexer, i: nat)
    requires ValidOptions(o) && reducer.Valid() && i < |s.authorizations| && s.authorizations[i].status != Expired
    requires var r := Tick(o, reducer, rpc, s, ix); i < |r.snapshot.authorizations| && r.snapshot.authorizations[i].status == Expired
    ensures var r := Tick(o, reducer, rpc, s, ix);
            && r.ready && rpc.head.Some?
            && NextHeight(r.indexer) == rpc.head.value.number + 1
            && Due(rpc, rpc.head.value, s.authorizations[i])
            && r.snapshot.authorizations[i] == s.authorizations[i].(status := Expired)
  {
    if Reconciled(o, reducer, rpc, s, ix).Ok? {
      TickAuthorizations(o, reducer, rpc, s, ix, i);
      SuccessfulTick(o, reducer, rpc, s, ix);
      hide Reconciled, Pinned, Reducer.Valid, Confirms, InGallery, UniqueIds;
    } else {
      FailureChangesNothing(o, reducer, rpc, s, ix);
      hide Reconciled, Tick, Failed;
    }
  }

  // ----- expired for good -----

  /** Nothing holds the authorization any more: every record of it is expired, no entry confirms it, no gallery card names it. */
  ghost predicate Dead(st: State, id: nat) {
    && (forall i :: 0 <= i < |st.snapshot.authorizations| && st.snapshot.authorizations[i].id == id ==> st.snapshot.authorizations[i].status == Expired)
    && !Confirms(st.indexer, st.indexer.entries, id)
    && !InGallery(st.snapshot.gallery, id)
  }

  lemma {:induction false} DeadThroughTick(o: Options, reducer: Reducer, rpc: Rpc, st: State, id: nat)
    requires ValidOptions(o) && reducer.Valid() && Dead(st, id)
    ensures Dead(Next(o, reducer, st, TickWith(rpc)), id)
  {
    var s, ix := st.snapshot, st.indexer;
    if Reconciled(o, reducer, rpc, s, ix).Ok? {
      var (t, state, _) := Reconciled(o, reducer, rpc, s, ix).value;
      SuccessfulTick(o, reducer, rpc, s, ix);
      var w := Pinned(o, rpc, ix).value;
      NotConfirmedByScan(o, reducer, rpc, s, ix, w, id);
      DeadRecords(o, reducer, rpc, s, ix, id);
    } else {
      FailureChangesNothing(o, reducer, rpc, s, ix);
    }
    hide Reconciled, Pinned, Reducer.Valid, Scanned;
  }

  lemma NotConfirmedByScan(o: Options, reducer: Reducer, rpc: Rpc, s: Snapshot, ix: Indexer, w: Window, id: nat)
    requires reducer.Valid() && w.from == NextHeight(ix) && Scanned(o, reducer, rpc, s, ix, w).Ok? && Dead(State(s, ix), id)
    ensures var state := Scanned(o, reducer, rpc, s, ix, w).value; !Confirms(state, state.entries, id)
  {
    var state := Scanned(o, reducer, rpc, s, ix, w).value;
    if Confirms(state, state.entries, id) {
      ScanConfirms(o, reducer, rpc, s, ix, w, id);
    }
    hide Scanned, Confirms, Reducer.Valid;
  }

  lemma {:induction false} DeadRecords(o: Options, reducer: Reducer, rpc: Rpc, s: Snapshot, ix: Indexer, id: nat)
    requires ValidOptions(o) && Reconciled(o, reducer, rpc, s, ix).Ok?
    requires forall i :: 0 <= i < |s.authorizations| && s.authorizations[i].id == id ==> s.authorizations[i].status == Expired
    requires !InGallery(s.gallery, id)
    requires var state := Reconciled(o, reducer, rpc, s, ix).value.1; !Confirms(state, state.entries, id)
    ensures var t := Reconciled(o, reducer, rpc, s, ix).value.0;
            && (forall i :: 0 <= i < |t.authorizations| && t.authorizations[i].id == id ==> t.authorizations[i].status == Expired)
            && !InGallery(t.gallery, id)
  {
    var t := Reconciled(o, reducer, rpc, s, ix).value.0;
    TickGallery(o, reducer, rpc, s, ix, id);
    forall i | 0 <= i < |s.authorizations|
      ensures t.authorizations[i].id == id ==> t.authorizations[i].status == Expired
    {
      TickAuthorizations(o, reducer, rpc, s, ix, i);
    }
    hide Reconciled, Pinned, Confirms, InGallery, Due, UniqueIds;
  }

  // ----- runs with other operations in between -----

  /** What an operation between two ticks may do: only a tick expires, confirms or revives; ids are never reused. */
  ghost predicate OutsideKeeps(st: State, t: Snapshot, seen: set<nat>) {
    var s := st.snapshot;
    && UniqueIds(t.authorizations)
    && (forall k :: k in t.gallery ==> k in s.gallery && t.gallery[k] == s.gallery[k])
    && (forall j :: 0 <= j < |t.authorizations| ==> Continues(s, t.authorizations[j]) || (t.authorizations[j].id !in seen && t.authorizations[j].status != Expired))
  }

  ghost predicate Continues(s: Snapshot, after: Authorization) {
    exists i :: 0 <= i < |s.authorizations| && s.authorizations[i].id == after.id
                && (s.authorizations[i].status == Expired <==> after.status == Expired)
                && (s.authorizations[i].status == Consumed ==> after.status == Consumed)
  }

  lemma DeadThroughOutside(st: State, t: Snapshot, seen: set<nat>, id: nat)
    requires Dead(st, id) && OutsideKeeps(st, t, seen) && id in seen
    ensures Dead(State(t, st.indexer), id)
  {}

  /** A run whose other operations behave; seen grows by the ids present before each step. */
  ghost predicate Behaves(o: Options, reducer: Reducer, st: State, events: seq<Event>, seen: set<nat>)
    requires ValidOptions(o)
    decreases |events|
  {
    events == []
    || (&& (events[0].Outside? ==> OutsideKeeps(st, events[0].snapshot, seen + Ids(st.snapshot)))
        && Behaves(o, reducer, Next(o, reducer, st, events[0]), events[1..], seen + Ids(st.snapshot)))
  }

  function Ids(s: Snapshot): set<nat> {
    set a | a in s.authorizations :: a.id
  }

  /** Over every run: an authorization with nothing left holding it is never consumed and never enters the gallery. */
  lemma {:induction false} DeadForGood(o: Options, reducer: Reducer, st: State, events: seq<Event>, seen: set<nat>, id: nat)
    requires ValidOptions(o) && reducer.Valid() && Behaves(o, reducer, st, events, seen)
    requires Dead(st, id) && id in seen
    ensures Dead(After(o, reducer, st, events), id)
    decreases |events|
  {
    if events != [] {
      var e := events[0];
      if e.TickWith? {
        DeadThroughTick(o, reducer, e.rpc, st, id);
      } else {
        DeadThroughOutside(st, e.snapshot, seen + Ids(st.snapshot), id);
        assert Next(o, reducer, st, e) == State(e.snapshot, st.indexer);
      }
      hide Dead, OutsideKeeps, Next, Ids, Reducer.Valid;
      DeadForGood(o, reducer, Next(o, reducer, st, e), events[1..], seen + Ids(st.snapshot), id);
    }
  }
}
