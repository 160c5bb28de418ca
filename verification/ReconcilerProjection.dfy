/** Projecting confirmed mints: what it does to a snapshot, that repeating it changes nothing, and that reports are only hints. */
module ReconcilerProjection {
  import opened Wrappers
  import opened ChainReconciler
  import opened ReconcilerChecks

  /** What the finalized entries put into projections and gallery, whatever was there; the last entry of a signature wins. */
  function Overrides(ix: Indexer, entries: seq<Entry>): map<nat, Projection>
    decreases |entries|
  {
    if entries == [] then map[]
    else
      var e := entries[|entries| - 1];
      var before := Overrides(ix, entries[..|entries| - 1]);
      if e.finalized && e.event in ix.mintEvents && e.tokenId in ix.holders
      then before[e.signatureId := Projection(Finalized, Some(ix.mintEvents[e.event]), Some(e.tx), Some(e.tokenId), Some(ix.holders[e.tokenId]))]
      else before
  }

  /** The overrides of a longer list, peeled from the front as the loop does. */
  lemma {:induction false} OverridesFirst(ix: Indexer, entries: seq<Entry>)
    requires entries != []
    ensures Overrides(ix, entries) == Overrides(ix, [entries[0]]) + Overrides(ix, entries[1..])
    decreases |entries|
  {
    if |entries| == 1 {
      assert entries == [entries[0]] && entries[1..] == [];
    } else {
      var n := |entries| - 1;
      OverridesFirst(ix, entries[..n]);
      assert entries[..n][0] == entries[0] && entries[..n][1..] == entries[1..][..n - 1];
      assert entries[1..][n - 1] == entries[n];
    }
  }

  // ----- what is done for an entry -----

  predicate ConsumedAt(authorizations: seq<Authorization>, id: nat) {
    FindAuthorization(authorizations, id).Some?
    && authorizations[FindAuthorization(authorizations, id).value].status == Consumed
  }

  predicate IncludedAt(attempts: seq<Attempts>, id: nat, tx: nat) {
    FindAttempts(attempts, id).Some?
    && var list := attempts[FindAttempts(attempts, id).value].list;
       FindAttempt(list, tx).Some? && list[FindAttempt(list, tx).value].state == Included
  }

  predicate DoneFor(s: Snapshot, ix: Indexer, e: Entry) {
    e.finalized ==>
      && e.event in ix.mintEvents && e.tokenId in ix.holders
      && ConsumedAt(s.authorizations, ix.mintEvents[e.event])
      && IncludedAt(s.attempts, ix.mintEvents[e.event], e.tx)
  }

  lemma {:induction false} FindIsFirst(authorizations: seq<Authorization>, id: nat, i: nat)
    requires i < |authorizations| && authorizations[i].id == id
    requires forall j :: 0 <= j < i ==> authorizations[j].id != id
    ensures FindAuthorization(authorizations, id) == Some(i)
  {}

  lemma {:induction false} FindAttemptsIsFirst(attempts: seq<Attempts>, id: nat, i: nat)
    requires i < |attempts| && attempts[i].authorizationId == id
    requires forall j :: 0 <= j < i ==> attempts[j].authorizationId != id
    ensures FindAttempts(attempts, id) == Some(i)
  {}

  lemma {:induction false} FindAttemptIsFirst(list: seq<Attempt>, tx: nat, i: nat)
    requires i < |list| && list[i].tx == tx
    requires forall j :: 0 <= j < i ==> list[j].tx != tx
    ensures FindAttempt(list, tx) == Some(i)
  {}

  /** Consuming one authorization keeps the ids, so it moves no lookup. */
  lemma {:induction false} ConsumeKeepsFinds(authorizations: seq<Authorization>, k: nat, status: Status, id: nat)
    requires k < |authorizations|
    ensures FindAuthorization(authorizations[k := authorizations[k].(status := status)], id) == FindAuthorization(authorizations, id)
  {
    var found := FindAuthorization(authorizations, id);
    var updated := authorizations[k := authorizations[k].(status := status)];
    assert forall i :: 0 <= i < |updated| ==> updated[i].id == authorizations[i].id;
    if found.Some? {
      FindIsFirst(updated, id, found.value);
    }
    hide FindAuthorization;
  }

  lemma {:induction false} IncludeInIncludes(list: seq<Attempt>, tx: nat)
    ensures FindAttempt(IncludeIn(list, tx), tx).Some?
    ensures IncludeIn(list, tx)[FindAttempt(IncludeIn(list, tx), tx).value].state == Included
  {
    match FindAttempt(list, tx) {
      case Some(i) =>
        FindAttemptIsFirst(IncludeIn(list, tx), tx, i);
      case None =>
        FindAttemptIsFirst(IncludeIn(list, tx), tx, |list|);
    }
    hide FindAttempt;
  }

  lemma {:induction false} IncludeInKeeps(list: seq<Attempt>, tx: nat, other: nat)
    requires FindAttempt(list, other).Some? && list[FindAttempt(list, other).value].state == Included
    ensures FindAttempt(IncludeIn(list, tx), other).Some?
    ensures IncludeIn(list, tx)[FindAttempt(IncludeIn(list, tx), other).value].state == Included
  {
    FindAttemptIsFirst(IncludeIn(list, tx), other, FindAttempt(list, other).value);
    hide FindAttempt;
  }

  lemma {:induction false} IncludeIncludes(attempts: seq<Attempts>, id: nat, tx: nat)
    ensures IncludedAt(Include(attempts, id, tx), id, tx)
  {
    match FindAttempts(attempts, id) {
      case Some(i) =>
        FindAttemptsIsFirst(Include(attempts, id, tx), id, i);
        IncludeInIncludes(attempts[i].list, tx);
      case None =>
        FindAttemptsIsFirst(Include(attempts, id, tx), id, |attempts|);
        FindAttemptIsFirst([Attempt(tx, Included)], tx, 0);
    }
    hide FindAttempts, FindAttempt, IncludeIn;
  }

  lemma {:induction false} IncludeKeeps(attempts: seq<Attempts>, id: nat, tx: nat, id': nat, tx': nat)
    requires IncludedAt(attempts, id', tx')
    ensures IncludedAt(Include(attempts, id, tx), id', tx')
  {
    var i := FindAttempts(attempts, id').value;
    FindAttemptsIsFirst(Include(attempts, id, tx), id', i);
    IncludeInKeeps(attempts[i].list, tx, tx');
    hide FindAttempts, FindAttempt, IncludeIn;
  }

  lemma {:induction false} IncludeAgain(attempts: seq<Attempts>, id: nat, tx: nat)
    requires IncludedAt(attempts, id, tx)
    ensures Include(attempts, id, tx) == attempts
  {
    var i := FindAttempts(attempts, id).value;
    var list := attempts[i].list;
    var j := FindAttempt(list, tx).value;
    assert list[j := list[j].(state := Included)] == list;
    assert attempts[i := attempts[i].(list := list)] == attempts;
    hide FindAttempts, FindAttempt;
  }

  lemma {:induction false} DoneStays(s: Snapshot, ix: Indexer, e: Entry, d: Entry)
    requires DoneFor(s, ix, d) && ProjectEntry(ix, s, e).Ok?
    ensures DoneFor(ProjectEntry(ix, s, e).value, ix, d)
  {
    if e.finalized && d.finalized {
      var id, id' := ix.mintEvents[e.event], ix.mintEvents[d.event];
      ConsumeKeepsFinds(s.authorizations, FindAuthorization(s.authorizations, id).value, Consumed, id');
      IncludeKeeps(s.attempts, id, e.tx, id', d.tx);
      hide FindAuthorization, IncludedAt, Include;
    }
  }

  lemma {:induction false} EntryDone(s: Snapshot, ix: Indexer, e: Entry)
    requires ProjectEntry(ix, s, e).Ok?
    ensures DoneFor(ProjectEntry(ix, s, e).value, ix, e)
  {
    if e.finalized {
      var id := ix.mintEvents[e.event];
      ConsumeKeepsFinds(s.authorizations, FindAuthorization(s.authorizations, id).value, Consumed, id);
      IncludeIncludes(s.attempts, id, e.tx);
      hide FindAuthorization, IncludedAt, Include;
    }
  }

  /** After a projection every entry is done. */
  lemma {:induction false} EntriesDone(s: Snapshot, ix: Indexer, entries: seq<Entry>, done: seq<Entry>)
    requires Fold(ProjectStep(ix), s, entries).Ok?
    requires forall d :: d in done ==> DoneFor(s, ix, d)
    ensures forall d :: d in done || d in entries ==> DoneFor(Fold(ProjectStep(ix), s, entries).value, ix, d)
    decreases |entries|
  {
    if entries != [] {
      var e := entries[0];
      var u := ProjectEntry(ix, s, e).value;
      EntryDone(s, ix, e);
      forall d | d in done
        ensures DoneFor(u, ix, d)
      {
        DoneStays(s, ix, e, d);
      }
      hide ProjectEntry, DoneFor;
      EntriesDone(u, ix, entries[1..], done + [e]);
      assert forall d :: d in entries ==> d in done + [e] || d in entries[1..];
    }
  }

  lemma MapsRegroup(a: map<nat, Projection>, b: map<nat, Projection>, c: map<nat, Projection>)
    ensures (a + b) + c == a + (b + c)
  {}

  /** After a projection, projections and gallery have exactly the entries' overrides on top. */
  lemma {:induction false} MapsOverridden(s: Snapshot, ix: Indexer, entries: seq<Entry>)
    requires Fold(ProjectStep(ix), s, entries).Ok?
    ensures var t := Fold(ProjectStep(ix), s, entries).value;
            && t.projections == s.projections + Overrides(ix, entries)
            && t.gallery == s.gallery + Overrides(ix, entries)
    decreases |entries|
  {
    if entries == [] {
      assert s.projections + map[] == s.projections && s.gallery + map[] == s.gallery;
    } else {
      var first, rest := Overrides(ix, [entries[0]]), Overrides(ix, entries[1..]);
      FirstOverride(s, ix, entries[0]);
      OverridesFirst(ix, entries);
      hide ProjectEntry, Overrides;
      MapsOverridden(ProjectEntry(ix, s, entries[0]).value, ix, entries[1..]);
      MapsRegroup(s.projections, first, rest);
      MapsRegroup(s.gallery, first, rest);
    }
  }

  lemma {:induction false} FirstOverride(s: Snapshot, ix: Indexer, e: Entry)
    requires ProjectEntry(ix, s, e).Ok?
    ensures ProjectEntry(ix, s, e).value.projections == s.projections + Overrides(ix, [e])
    ensures ProjectEntry(ix, s, e).value.gallery == s.gallery + Overrides(ix, [e])
  {
    assert [e][..0] == [];
    assert Overrides(ix, []) == map[];
    hide FindAuthorization, Include;
  }

  /** Projecting what is already done changes nothing but the two maps. */
  lemma {:induction false} ProjectionRepeats(s: Snapshot, ix: Indexer, entries: seq<Entry>)
    requires forall d :: d in entries ==> DoneFor(s, ix, d)
    ensures Fold(ProjectStep(ix), s, entries)
         == Ok(s.(projections := s.projections + Overrides(ix, entries), gallery := s.gallery + Overrides(ix, entries)))
    decreases |entries|
  {
    if entries == [] {
      assert s.projections + map[] == s.projections && s.gallery + map[] == s.gallery;
    } else {
      var e := entries[0];
      assert e in entries;
      EntryRepeats(s, ix, e);
      FirstOverride(s, ix, e);
      OverridesFirst(ix, entries);
      var u := ProjectEntry(ix, s, e).value;
      forall d | d in entries[1..]
        ensures DoneFor(u, ix, d)
      {
        assert d in entries;
        SameDone(s, u, ix, d);
      }
      hide ProjectEntry, Overrides, DoneFor;
      ProjectionRepeats(u, ix, entries[1..]);
      MapsRegroup(s.projections, Overrides(ix, [e]), Overrides(ix, entries[1..]));
      MapsRegroup(s.gallery, Overrides(ix, [e]), Overrides(ix, entries[1..]));
    }
  }

  lemma SameDone(s: Snapshot, t: Snapshot, ix: Indexer, d: Entry)
    requires DoneFor(s, ix, d) && t.authorizations == s.authorizations && t.attempts == s.attempts
    ensures DoneFor(t, ix, d)
  {}

  lemma {:induction false} EntryRepeats(s: Snapshot, ix: Indexer, e: Entry)
    requires DoneFor(s, ix, e)
    ensures ProjectEntry(ix, s, e).Ok?
    ensures var t := ProjectEntry(ix, s, e).value; t.authorizations == s.authorizations && t.attempts == s.attempts && t.frozen == s.frozen
  {
    if e.finalized {
      var id := ix.mintEvents[e.event];
      IncludeAgain(s.attempts, id, e.tx);
      hide FindAuthorization, IncludedAt, Include;
    }
  }

  /** Repeating the projection of confirmed mints changes nothing. */
  lemma {:induction false} ProjectionIsIdempotent(s: Snapshot, ix: Indexer)
    requires Projected(s, ix).Ok?
    ensures Projected(Projected(s, ix).value, ix) == Projected(s, ix)
  {
    var t := Projected(s, ix).value;
    EntriesDone(s, ix, ix.entries, []);
    MapsOverridden(s, ix, ix.entries);
    ProjectionRepeats(t, ix, ix.entries);
    var m := Overrides(ix, ix.entries);
    assert (s.projections + m) + m == s.projections + m;
    assert (s.gallery + m) + m == s.gallery + m;
    hide DoneFor, Overrides, ProjectEntry;
  }

  // ----- attempts stay distinct -----

  predicate DistinctAttempts(attempts: seq<Attempts>) {
    && (forall i, j :: 0 <= i < j < |attempts| ==> attempts[i].authorizationId != attempts[j].authorizationId)
    && (forall i :: 0 <= i < |attempts| ==> DistinctList(attempts[i].list))
  }

  predicate DistinctList(list: seq<Attempt>) {
    forall j, k :: 0 <= j < k < |list| ==> list[j].tx != list[k].tx
  }

  lemma {:induction false} IncludeStaysDistinct(attempts: seq<Attempts>, id: nat, tx: nat)
    requires DistinctAttempts(attempts)
    ensures DistinctAttempts(Include(attempts, id, tx))
  {
    hide FindAttempts, FindAttempt;
  }

  /** No transaction is ever recorded twice for an authorization, however often its mint is projected. */
  lemma {:induction false} NoDuplicateAttempts(s: Snapshot, ix: Indexer, entries: seq<Entry>)
    requires DistinctAttempts(s.attempts) && Fold(ProjectStep(ix), s, entries).Ok?
    ensures DistinctAttempts(Fold(ProjectStep(ix), s, entries).value.attempts)
    decreases |entries|
  {
    if entries != [] {
      var e := entries[0];
      if e.finalized && e.event in ix.mintEvents {
        IncludeStaysDistinct(s.attempts, ix.mintEvents[e.event], e.tx);
      }
      hide DistinctAttempts, Include, FindAuthorization;
      NoDuplicateAttempts(ProjectEntry(ix, s, e).value, ix, entries[1..]);
    }
  }

  // ----- reports are hints -----

  /** Equal but for the attempts. */
  predicate SameButAttempts(s: Snapshot, t: Snapshot) {
    s == t.(attempts := s.attempts)
  }

  lemma {:induction false} ProjectIgnoresAttempts(s: Snapshot, t: Snapshot, ix: Indexer, entries: seq<Entry>)
    requires SameButAttempts(s, t)
    ensures var a, b := Fold(ProjectStep(ix), s, entries), Fold(ProjectStep(ix), t, entries);
            if a.Ok? then b.Ok? && SameButAttempts(a.value, b.value) else a == b
    decreases |entries|
  {
    if entries != [] {
      var a, b := ProjectEntry(ix, s, entries[0]), ProjectEntry(ix, t, entries[0]);
      assert if a.Ok? then b.Ok? && SameButAttempts(a.value, b.value) else a == b by {
        hide FindAuthorization, Include;
      }
      if a.Ok? {
        hide ProjectEntry, SameButAttempts;
        ProjectIgnoresAttempts(a.value, b.value, ix, entries[1..]);
      }
    }
  }

  lemma {:induction false} ExpiryIgnoresAttempts(rpc: Rpc, ix: Indexer, head: Header, s: Snapshot, t: Snapshot, indices: seq<nat>)
    requires SameButAttempts(s, t)
    ensures var a, b := Fold(ExpireStep(rpc, ix, head), s, indices), Fold(ExpireStep(rpc, ix, head), t, indices);
            if a.Ok? then b.Ok? && SameButAttempts(a.value, b.value) else a == b
    decreases |indices|
  {
    if indices != [] {
      var a, b := ExpireAt(rpc, ix, head, s, indices[0]), ExpireAt(rpc, ix, head, t, indices[0]);
      assert if a.Ok? then b.Ok? && SameButAttempts(a.value, b.value) else a == b;
      if a.Ok? {
        hide ExpireAt, SameButAttempts;
        ExpiryIgnoresAttempts(rpc, ix, head, a.value, b.value, indices[1..]);
      }
    }
  }

  /** What a tick does behind the reported attempts. */
  function Rest(rpc: Rpc, s: Snapshot, state: Indexer, head: Header): Result<Snapshot, Failure> {
    var projected :- Projected(s, state);
    AtHead(rpc, projected, state, head)
  }

  lemma RestIgnoresAttempts(rpc: Rpc, s: Snapshot, t: Snapshot, state: Indexer, head: Header)
    requires SameButAttempts(s, t)
    ensures var a, b := Rest(rpc, s, state, head), Rest(rpc, t, state, head);
            if a.Ok? then b.Ok? && SameButAttempts(a.value, b.value) else a == b
  {
    ProjectIgnoresAttempts(s, t, state, state.entries);
    hide Fold;
    if Projected(s, state).Ok? {
      var a, b := Projected(s, state).value, Projected(t, state).value;
      ExpiryIgnoresAttempts(rpc, state, head, a, b, Range(0, |a.authorizations|));
    }
  }

  /** The reports of a snapshot are settled at the end of the window that a tick would scan. */
  ghost predicate Settled(o: Options, rpc: Rpc, s: Snapshot, ix: Indexer)
    requires ValidOptions(o)
  {
    Pinned(o, rpc, ix).Ok? ==> ReportsSettled(rpc, Pinned(o, rpc, ix).value.through, s.authorizations, s.attempts)
  }

  lemma {:induction false} SucceedsWhenSettled(o: Options, reducer: Reducer, rpc: Rpc, s: Snapshot, ix: Indexer)
    requires ValidOptions(o) && Reconciled(o, reducer, rpc, s, ix).Ok?
    ensures Settled(o, rpc, s, ix)
  {
    if Pinned(o, rpc, ix).Ok? {
      AttemptsFold(rpc, Pinned(o, rpc, ix).value.through, s.authorizations, [], s.attempts);
    }
    hide Fold, Pinned, Scanned, Projected, AtHead, ReportsSettled, AttemptsChecked;
  }

  lemma {:induction false} SettledReportsAreHints(o: Options, reducer: Reducer, rpc: Rpc, s: Snapshot, t: Snapshot, ix: Indexer)
    requires ValidOptions(o) && SameButAttempts(s, t)
    requires Settled(o, rpc, s, ix) && Settled(o, rpc, t, ix)
    ensures var a, b := Reconciled(o, reducer, rpc, s, ix), Reconciled(o, reducer, rpc, t, ix);
            if a.Ok? then b.Ok? && SameButAttempts(a.value.0, b.value.0) && a.value.1 == b.value.1 && a.value.2 == b.value.2
            else a == b
  {
    if Pinned(o, rpc, ix).Ok? {
      var w := Pinned(o, rpc, ix).value;
      AttemptsFold(rpc, w.through, s.authorizations, [], s.attempts);
      AttemptsFold(rpc, w.through, t.authorizations, [], t.attempts);
      ScanIgnoresAttempts(o, reducer, rpc, s, t, ix, w);
      if Scanned(o, reducer, rpc, s, ix, w).Ok? {
        var state := Scanned(o, reducer, rpc, s, ix, w).value;
        var p := Fold(AttemptsStep(rpc, w.through, s.authorizations), [], s.attempts).value;
        var q := Fold(AttemptsStep(rpc, w.through, t.authorizations), [], t.attempts).value;
        RestIgnoresAttempts(rpc, s.(attempts := p), t.(attempts := q), state, w.head);
      }
    }
    hide Fold, Pinned, Scanned, Projected, AtHead, ReportsSettled, AttemptsChecked, CaughtUp, AttemptsStep, ValidOptions;
  }

  /**
   Reported transactions are only hints: two snapshots that differ only in their
   reports lead to the same failure, or to the same authorizations, projections,
   gallery, cursor and readiness. All that a report can do is fail the tick, when
   the node does not settle it.
   */
  lemma {:induction false} ReportsAreHints(o: Options, reducer: Reducer, rpc: Rpc, s: Snapshot, t: Snapshot, ix: Indexer)
    requires ValidOptions(o) && SameButAttempts(s, t)
    ensures var a, b := Reconciled(o, reducer, rpc, s, ix), Reconciled(o, reducer, rpc, t, ix);
            && (a.Ok? ==> Settled(o, rpc, s, ix)) && (b.Ok? ==> Settled(o, rpc, t, ix))
            && (Settled(o, rpc, s, ix) && Settled(o, rpc, t, ix) ==>
                  if a.Ok? then b.Ok? && SameButAttempts(a.value.0, b.value.0) && a.value.1 == b.value.1 && a.value.2 == b.value.2
                  else a == b)
  {
    hide Reconciled, Settled, SameButAttempts;
    if Reconciled(o, reducer, rpc, s, ix).Ok? {
      SucceedsWhenSettled(o, reducer, rpc, s, ix);
    }
    if Reconciled(o, reducer, rpc, t, ix).Ok? {
      SucceedsWhenSettled(o, reducer, rpc, t, ix);
    }
    if Settled(o, rpc, s, ix) && Settled(o, rpc, t, ix) {
      SettledReportsAreHints(o, reducer, rpc, s, t, ix);
    }
  }

  lemma ScanIgnoresAttempts(o: Options, reducer: Reducer, rpc: Rpc, s: Snapshot, t: Snapshot, ix: Indexer, w: Window)
    requires SameButAttempts(s, t)
    ensures Scanned(o, reducer, rpc, s, ix, w) == Scanned(o, reducer, rpc, t, ix, w)
  {}
}
