/** Exactly what a ready tick leaves of authorizations and projections. */
module ReconcilerReady {
  import opened Wrappers
  import opened ChainReconciler
  import opened ReconcilerCursor
  import opened ReconcilerProjection
  import opened ReconcilerExpiry

  // ----- expiring, exactly -----

  /** The node answers for the authorization; one that the chain has redeemed is known, and its state is unused or redeemed. */
  predicate Accounted(rpc: Rpc, ix: Indexer, a: Authorization) {
    && rpc.authorizationState(a.id).Some? && rpc.minted(a.digest).Some?
    && (rpc.authorizationState(a.id).value == 1 || rpc.minted(a.digest).value
        ==> exists e :: e in ix.entries && e.finalized && e.signatureId == a.signatureId)
    && (rpc.authorizationState(a.id).value == 0 || rpc.authorizationState(a.id).value == 1)
  }

  function Settle(rpc: Rpc, head: Header, a: Authorization): Authorization {
    if Due(rpc, head, a) then a.(status := Expired) else a
  }

  /** The projection still waits for this authorization's mint. */
  predicate WaitsFor(p: Projection, id: nat) {
    p.authorizationId == Some(id) && (p.state == Authorized || p.state == Submitted)
  }

  ghost predicate WaitsInVain(rpc: Rpc, head: Header, authorizations: seq<Authorization>, indices: seq<nat>, p: Projection) {
    exists i :: i in indices && i < |authorizations| && Due(rpc, head, authorizations[i]) && WaitsFor(p, authorizations[i].id)
  }

  /** What one index does to authorizations and projections. */
  ghost predicate Expires(rpc: Rpc, head: Header, indices: seq<nat>, s: Snapshot, t: Snapshot) {
    && |t.authorizations| == |s.authorizations|
    && (forall i :: 0 <= i < |s.authorizations| ==>
          t.authorizations[i] == if i in indices then Settle(rpc, head, s.authorizations[i]) else s.authorizations[i])
    && t.projections.Keys == s.projections.Keys
    && (forall k :: k in s.projections ==>
          t.projections[k] == if WaitsInVain(rpc, head, s.authorizations, indices, s.projections[k]) then UNMINTED else s.projections[k])
    && t.gallery == s.gallery && t.attempts == s.attempts && t.frozen == s.frozen
  }

  lemma {:induction false} ExpireOneExactly(rpc: Rpc, ix: Indexer, head: Header, s: Snapshot, i: nat)
    requires i < |s.authorizations|
    ensures ExpireAt(rpc, ix, head, s, i).Ok? <==> Accounted(rpc, ix, s.authorizations[i])
    ensures ExpireAt(rpc, ix, head, s, i).Ok? ==> Expires(rpc, head, [i], s, ExpireAt(rpc, ix, head, s, i).value)
  {
    var a := s.authorizations[i];
    forall k | k in s.projections
      ensures WaitsInVain(rpc, head, s.authorizations, [i], s.projections[k]) <==> Due(rpc, head, a) && WaitsFor(s.projections[k], a.id)
    {
      assert i in [i];
    }
    hide KnownMint;
  }

  lemma {:induction false} ExpiresTogether(rpc: Rpc, head: Header, i: nat, rest: seq<nat>, s: Snapshot, u: Snapshot, t: Snapshot)
    requires i < |s.authorizations| && Expires(rpc, head, [i], s, u) && Expires(rpc, head, rest, u, t)
    ensures Expires(rpc, head, [i] + rest, s, t)
  {
    var all := [i] + rest;
    assert i in all && forall j :: j in all <==> j == i || j in rest;
    forall k | k in s.projections
      ensures WaitsInVain(rpc, head, s.authorizations, all, s.projections[k])
         <==> WaitsInVain(rpc, head, s.authorizations, [i], s.projections[k]) || WaitsInVain(rpc, head, u.authorizations, rest, s.projections[k])
    {
      WaitsSplit(rpc, head, i, rest, s.authorizations, u.authorizations, s.projections[k]);
    }
    assert !WaitsInVain(rpc, head, u.authorizations, rest, UNMINTED);
    hide WaitsInVain, Due;
  }

  lemma {:induction false} WaitsSplit(rpc: Rpc, head: Header, i: nat, rest: seq<nat>, a: seq<Authorization>, b: seq<Authorization>, p: Projection)
    requires i < |a| == |b|
    requires forall j :: 0 <= j < |a| ==> b[j] == if j in [i] then Settle(rpc, head, a[j]) else a[j]
    ensures WaitsInVain(rpc, head, a, [i] + rest, p) <==> WaitsInVain(rpc, head, a, [i], p) || WaitsInVain(rpc, head, b, rest, p)
  {
    var all := [i] + rest;
    assert i in all && i in [i] && forall j :: j in all <==> j == i || j in rest;
    assert forall j :: 0 <= j < |a| && Due(rpc, head, b[j]) ==> b[j] == a[j];
    if WaitsInVain(rpc, head, a, all, p) {
      var j :| j in all && j < |a| && Due(rpc, head, a[j]) && WaitsFor(p, a[j].id);
      if j != i {
        assert b[j] == a[j];
      }
    }
  }

  lemma {:induction false} ExpireExactly(rpc: Rpc, ix: Indexer, head: Header, s: Snapshot, indices: seq<nat>)
    requires forall i :: i in indices ==> i < |s.authorizations|
    ensures Fold(ExpireStep(rpc, ix, head), s, indices).Ok? <==> forall i :: i in indices ==> Accounted(rpc, ix, s.authorizations[i])
    ensures Fold(ExpireStep(rpc, ix, head), s, indices).Ok? ==> Expires(rpc, head, indices, s, Fold(ExpireStep(rpc, ix, head), s, indices).value)
    decreases |indices|
  {
    if indices != [] {
      var i, rest := indices[0], indices[1..];
      assert indices == [i] + rest;
      assert i in indices && forall j :: j in rest ==> j in indices;
      ExpireOneExactly(rpc, ix, head, s, i);
      hide ExpireAt, Accounted, WaitsInVain, Due;
      if ExpireAt(rpc, ix, head, s, i).Ok? {
        var u := ExpireAt(rpc, ix, head, s, i).value;
        ExpireExactly(rpc, ix, head, u, rest);
        AccountedAlike(rpc, ix, head, s, u, i, rest);
        if Fold(ExpireStep(rpc, ix, head), s, indices).Ok? {
          ExpiresTogether(rpc, head, i, rest, s, u, Fold(ExpireStep(rpc, ix, head), u, rest).value);
        }
      }
    }
  }

  lemma {:induction false} AccountedAlike(rpc: Rpc, ix: Indexer, head: Header, s: Snapshot, u: Snapshot, i: nat, rest: seq<nat>)
    requires Expires(rpc, head, [i], s, u) && forall j :: j in rest ==> j < |s.authorizations|
    ensures forall j :: j in rest ==> (Accounted(rpc, ix, u.authorizations[j]) <==> Accounted(rpc, ix, s.authorizations[j]))
  {
    hide KnownMint, WaitsInVain;
  }

  // ----- a whole tick -----

  /** The snapshot before anything expires: reports checked, confirmed mints projected. */
  ghost function BeforeExpiry(o: Options, reducer: Reducer, rpc: Rpc, s: Snapshot, ix: Indexer): Snapshot
    requires ValidOptions(o) && Reconciled(o, reducer, rpc, s, ix).Ok?
  {
    var w := Pinned(o, rpc, ix).value;
    var attempts := Fold(AttemptsStep(rpc, w.through, s.authorizations), [], s.attempts).value;
    Projected(s.(attempts := attempts), Scanned(o, reducer, rpc, s, ix, w).value).value
  }

  lemma AtHeadExpires(rpc: Rpc, p: Snapshot, state: Indexer, head: Header)
    requires AtHead(rpc, p, state, head).Ok?
    ensures var t := AtHead(rpc, p, state, head).value;
            if CaughtUp(state, head)
            then (forall i :: 0 <= i < |p.authorizations| ==> Accounted(rpc, state, p.authorizations[i]))
                 && Expires(rpc, head, Range(0, |p.authorizations|), p, t)
            else t == p
  {
    hide Accounted, Expires, CaughtUp, Fold;
    if CaughtUp(state, head) {
      var indices := Range(0, |p.authorizations|);
      ExpireExactly(rpc, state, head, p, indices);
      forall i | 0 <= i < |p.authorizations|
        ensures i in indices
      {
        assert indices[i] == i;
      }
    }
  }

  lemma TickExpires(o: Options, reducer: Reducer, rpc: Rpc, s: Snapshot, ix: Indexer)
    requires ValidOptions(o) && Reconciled(o, reducer, rpc, s, ix).Ok?
    ensures rpc.head.Some?
    ensures var (t, state, ready) := Reconciled(o, reducer, rpc, s, ix).value;
            var p := BeforeExpiry(o, reducer, rpc, s, ix);
            if ready
            then (forall i :: 0 <= i < |p.authorizations| ==> Accounted(rpc, state, p.authorizations[i]))
                 && Expires(rpc, rpc.head.value, Range(0, |p.authorizations|), p, t)
            else t == p
  {
    PinnedWindow(o, rpc, ix);
    hide Pinned, Scanned, Projected, Accounted, Expires, CaughtUp, AtHead, Fold, Range;
    var w := Pinned(o, rpc, ix).value;
    AtHeadExpires(rpc, BeforeExpiry(o, reducer, rpc, s, ix), Scanned(o, reducer, rpc, s, ix, w).value, w.head);
  }

  lemma {:induction false} ProjectedExactly(o: Options, reducer: Reducer, rpc: Rpc, s: Snapshot, ix: Indexer, i: nat)
    requires ValidOptions(o) && Reconciled(o, reducer, rpc, s, ix).Ok? && UniqueIds(s.authorizations) && i < |s.authorizations|
    ensures var p, state := BeforeExpiry(o, reducer, rpc, s, ix), Reconciled(o, reducer, rpc, s, ix).value.1;
            && |p.authorizations| == |s.authorizations|
            && p.authorizations[i] == if Confirms(state, state.entries, s.authorizations[i].id) then s.authorizations[i].(status := Consumed) else s.authorizations[i]
  {
    hide Pinned, Scanned, AtHead, Confirms, UniqueIds;
    var w := Pinned(o, rpc, ix).value;
    var u := s.(attempts := Fold(AttemptsStep(rpc, w.through, s.authorizations), [], s.attempts).value);
    var state := Scanned(o, reducer, rpc, s, ix, w).value;
    hide Fold;
    ProjectAuthorizations(u, state, state.entries, i);
    if Confirms(state, state.entries, s.authorizations[i].id) {
      ConfirmedIsConsumed(u, state, i);
    }
  }

  /**
   Exactly what a successful tick does to an authorization: consumed if a
   finalized entry confirms it; otherwise, at a head that is fully scanned, expired
   if it is due there; otherwise nothing.
   */
  lemma {:induction false} TickSettlesAuthorizations(o: Options, reducer: Reducer, rpc: Rpc, s: Snapshot, ix: Indexer, i: nat)
    requires ValidOptions(o) && Reconciled(o, reducer, rpc, s, ix).Ok? && UniqueIds(s.authorizations) && i < |s.authorizations|
    ensures rpc.head.Some?
    ensures var (t, state, ready) := Reconciled(o, reducer, rpc, s, ix).value;
            var a := s.authorizations[i];
            && |t.authorizations| == |s.authorizations|
            && (ready ==> Accounted(rpc, state, a))
            && t.authorizations[i] == if Confirms(state, state.entries, a.id) then a.(status := Consumed)
                                      else if ready && Due(rpc, rpc.head.value, a) then a.(status := Expired)
                                      else a
  {
    TickExpires(o, reducer, rpc, s, ix);
    ProjectedExactly(o, reducer, rpc, s, ix, i);
    var p := BeforeExpiry(o, reducer, rpc, s, ix);
    var (t, state, ready) := Reconciled(o, reducer, rpc, s, ix).value;
    hide Reconciled, BeforeExpiry, Confirms, WaitsInVain, UniqueIds, KnownMint;
    if ready {
      assert Range(0, |p.authorizations|)[i] == i;
      assert Accounted(rpc, state, p.authorizations[i]);
    }
  }

  /** A projection waits for an authorization that expires in this tick. */
  ghost predicate Abandoned(rpc: Rpc, head: Header, state: Indexer, authorizations: seq<Authorization>, p: Projection) {
    exists i :: 0 <= i < |authorizations| && !Confirms(state, state.entries, authorizations[i].id)
                && Due(rpc, head, authorizations[i]) && WaitsFor(p, authorizations[i].id)
  }

  lemma {:induction false} AbandonedExactly(rpc: Rpc, head: Header, state: Indexer, before: seq<Authorization>, after: seq<Authorization>, p: Projection)
    requires |after| == |before|
    requires forall i :: 0 <= i < |before| ==>
               after[i] == if Confirms(state, state.entries, before[i].id) then before[i].(status := Consumed) else before[i]
    ensures WaitsInVain(rpc, head, after, Range(0, |after|), p) <==> Abandoned(rpc, head, state, before, p)
  {
    hide Confirms;
    var indices := Range(0, |after|);
    assert forall i :: 0 <= i < |after| ==> indices[i] == i;
    assert forall i :: 0 <= i < |before| && Confirms(state, state.entries, before[i].id) ==> !Due(rpc, head, after[i]);
    if Abandoned(rpc, head, state, before, p) {
      var i :| 0 <= i < |before| && !Confirms(state, state.entries, before[i].id) && Due(rpc, head, before[i]) && WaitsFor(p, before[i].id);
      assert indices[i] in indices && after[i] == before[i];
    }
  }

  /**
   Exactly what a successful tick does to projections and gallery: finalized
   entries go on top; at a fully scanned head, what still waited for an
   authorization that expires is unminted again; nothing else changes.
   */
  lemma {:induction false} TickSettlesProjections(o: Options, reducer: Reducer, rpc: Rpc, s: Snapshot, ix: Indexer)
    requires ValidOptions(o) && Reconciled(o, reducer, rpc, s, ix).Ok? && UniqueIds(s.authorizations)
    ensures rpc.head.Some?
    ensures var (t, state, ready) := Reconciled(o, reducer, rpc, s, ix).value;
            var placed := s.projections + Overrides(state, state.entries);
            && t.gallery == s.gallery + Overrides(state, state.entries)
            && t.projections.Keys == placed.Keys
            && forall k :: k in placed ==>
                 t.projections[k] == if ready && Abandoned(rpc, rpc.head.value, state, s.authorizations, placed[k]) then UNMINTED else placed[k]
  {
    TickExpires(o, reducer, rpc, s, ix);
    var p := BeforeExpiry(o, reducer, rpc, s, ix);
    var (t, state, ready) := Reconciled(o, reducer, rpc, s, ix).value;
    BeforeExpiryMaps(o, reducer, rpc, s, ix);
    forall i | 0 <= i < |s.authorizations|
      ensures |p.authorizations| == |s.authorizations|
      ensures p.authorizations[i] == if Confirms(state, state.entries, s.authorizations[i].id) then s.authorizations[i].(status := Consumed) else s.authorizations[i]
    {
      ProjectedExactly(o, reducer, rpc, s, ix, i);
    }
    BeforeExpiryLength(o, reducer, rpc, s, ix);
    hide Reconciled, BeforeExpiry, Confirms, WaitsInVain, Abandoned, UniqueIds, Overrides, Accounted, Due;
    if ready {
      forall k | k in p.projections
        ensures WaitsInVain(rpc, rpc.head.value, p.authorizations, Range(0, |p.authorizations|), p.projections[k])
           <==> Abandoned(rpc, rpc.head.value, state, s.authorizations, p.projections[k])
      {
        AbandonedExactly(rpc, rpc.head.value, state, s.authorizations, p.authorizations, p.projections[k]);
      }
    }
  }

  lemma BeforeExpiryMaps(o: Options, reducer: Reducer, rpc: Rpc, s: Snapshot, ix: Indexer)
    requires ValidOptions(o) && Reconciled(o, reducer, rpc, s, ix).Ok?
    ensures var p, state := BeforeExpiry(o, reducer, rpc, s, ix), Reconciled(o, reducer, rpc, s, ix).value.1;
            && p.projections == s.projections + Overrides(state, state.entries)
            && p.gallery == s.gallery + Overrides(state, state.entries)
  {
    hide Pinned, Scanned, AtHead, Overrides;
    var w := Pinned(o, rpc, ix).value;
    var u := s.(attempts := Fold(AttemptsStep(rpc, w.through, s.authorizations), [], s.attempts).value);
    var state := Scanned(o, reducer, rpc, s, ix, w).value;
    hide Fold;
    MapsOverridden(u, state, state.entries);
  }

  lemma BeforeExpiryLength(o: Options, reducer: Reducer, rpc: Rpc, s: Snapshot, ix: Indexer)
    requires ValidOptions(o) && Reconciled(o, reducer, rpc, s, ix).Ok?
    ensures |BeforeExpiry(o, reducer, rpc, s, ix).authorizations| == |s.authorizations|
  {
    hide Pinned, Scanned, AtHead;
    var w := Pinned(o, rpc, ix).value;
    var u := s.(attempts := Fold(AttemptsStep(rpc, w.through, s.authorizations), [], s.attempts).value);
    var state := Scanned(o, reducer, rpc, s, ix, w).value;
    hide Fold;
    ProjectLength(u, state, state.entries);
  }
}
