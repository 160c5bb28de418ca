/** On a chain whose answers agree, ticks succeed: the cursor reaches the head after as many ticks as its distance asks for. */
module ReconcilerLiveness {
  import opened Wrappers
  import opened ChainReconciler
  import opened ReconcilerChecks
  import opened ReconcilerCursor
  import opened ReconcilerProjection

  /** A chain that does not change: one header for every height up to the head. */
  datatype Chain = Chain(at: nat -> Header, height: nat)

  /** The node is up and tells of this chain, at every reading. */
  ghost predicate Tells(rpc: Rpc, chain: Chain) {
    && rpc.chainId == Some(CHAIN_ID) && rpc.codeMatches == Some(true) && rpc.controlsMatch == Some(true) && rpc.receiptsComplete
    && rpc.head == Some(chain.at(chain.height))
    && (forall n: nat :: n <= chain.height ==> chain.at(n).number == n && rpc.header(n) == Some(chain.at(n)) && rpc.reread(n) == Some(chain.at(n)))
  }

  lemma ToldAt(rpc: Rpc, chain: Chain, n: nat)
    requires Tells(rpc, chain) && n <= chain.height
    ensures chain.at(n).number == n && rpc.header(n) == Some(chain.at(n)) && rpc.reread(n) == Some(chain.at(n)) && rpc.receiptsComplete
  {}

  /** The indexer runs for this deployment, and its promoted checkpoint lies on the chain. */
  ghost predicate OnChain(o: Options, ix: Indexer, chain: Chain) {
    && ix.running && ix.chainId == CHAIN_ID && ix.contract == o.contract
    && ix.deployment <= chain.height && chain.at(ix.deployment).hash == o.deploymentHash
    && (ix.promoted.Some? ==> ix.promoted.value.height <= chain.height && ix.promoted.value.hash == chain.at(ix.promoted.value.height).hash)
  }

  function SavedOf(ix: Indexer): Option<nat> {
    match ix.promoted
    case None => None
    case Some(c) => Some(c.hash)
  }

  function WindowOf(o: Options, ix: Indexer, chain: Chain): Window
    requires ValidOptions(o)
  {
    Window(chain.at(chain.height), SavedOf(ix), NextHeight(ix), Through(o, NextHeight(ix), chain.height))
  }

  lemma WindowIsPinned(o: Options, rpc: Rpc, ix: Indexer, chain: Chain)
    requires ValidOptions(o) && Tells(rpc, chain) && OnChain(o, ix, chain)
    ensures Pinned(o, rpc, ix) == Ok(WindowOf(o, ix, chain))
    ensures NextHeight(ix) <= chain.height + 1
  {
    assert chain.at(chain.height).number == chain.height;
  }

  // ----- the scan -----

  function HeadersOf(chain: Chain, from: nat, count: nat): (headers: seq<Header>)
    ensures |headers| == count && forall i :: 0 <= i < count ==> headers[i] == chain.at(from + i)
  {
    seq(count, i requires 0 <= i => chain.at(from + i))
  }

  lemma HeadersFirst(chain: Chain, from: nat, count: nat)
    requires count > 0
    ensures HeadersOf(chain, from, count) == [chain.at(from)] + HeadersOf(chain, from + 1, count - 1)
    ensures Range(from, count) == [from] + Range(from + 1, count - 1)
  {}

  lemma {:induction false} HeadersRead(rpc: Rpc, chain: Chain, acc: seq<Header>, from: nat, count: nat)
    requires Tells(rpc, chain) && from + count <= chain.height + 1
    ensures Fold(HeaderStep(rpc), acc, Range(from, count)) == Ok(acc + HeadersOf(chain, from, count))
    decreases count
  {
    if count == 0 {
      assert Range(from, 0) == [] && acc + HeadersOf(chain, from, 0) == acc;
    } else {
      HeadersFirst(chain, from, count);
      ToldAt(rpc, chain, from);
      hide Tells, HeadersOf, Range;
      HeadersRead(rpc, chain, acc + [chain.at(from)], from + 1, count - 1);
      Regroup(acc, [chain.at(from)], HeadersOf(chain, from + 1, count - 1));
    }
  }

  /** The log's receipt agrees with it, and a mint has everything that the tick asks of one. */
  ghost predicate Acceptable(rpc: Rpc, s: Snapshot, deployment: nat, headers: seq<Header>, raw: RawLog) {
    && !raw.removed
    && (raw.decoded.Some? ==>
          && raw.receiptAgrees
          && match raw.decoded.value
             case Transfer => true
             case Control(height) => height == deployment
             case Mint(id, _) =>
               var found := FindAuthorization(s.authorizations, id);
               && found.Some?
               && MintAcceptable(rpc, s, headers, raw, s.authorizations[found.value]))
  }

  ghost predicate MintAcceptable(rpc: Rpc, s: Snapshot, headers: seq<Header>, raw: RawLog, record: Authorization) {
    && record.signatureId in s.frozen && record.attested && record.status in {Issued, SigningUnknown, Consumed}
    && rpc.evidence(raw, record) == Some(true)
    && FindHeader(headers, raw.blockHash).Some?
    && record.validAfter <= FindHeader(headers, raw.blockHash).value.timestamp <= record.deadline
  }

  lemma {:induction false} LogsAccepted(rpc: Rpc, s: Snapshot, deployment: nat, headers: seq<Header>, acc: seq<Log>, raw: seq<RawLog>)
    ensures Fold(LogStep(rpc, s.authorizations, s.frozen, deployment, headers), acc, raw).Ok?
       <==> forall i :: 0 <= i < |raw| ==> Acceptable(rpc, s, deployment, headers, raw[i])
    decreases |raw|
  {
    if raw != [] {
      var next := AddLog(rpc, s.authorizations, s.frozen, deployment, headers, acc, raw[0]);
      assert next.Ok? <==> Acceptable(rpc, s, deployment, headers, raw[0]) by {
        hide FindAuthorization, FindHeader;
      }
      hide AddLog, Acceptable;
      if next.Ok? {
        LogsAccepted(rpc, s, deployment, headers, next.value, raw[1..]);
        assert forall i :: 0 < i < |raw| ==> raw[i] == raw[1..][i - 1];
      }
    }
  }

  /** The reducer takes these headers and logs, and promotes their boundary. */
  ghost predicate Takes(reducer: Reducer, ix: Indexer, saved: Option<nat>, headers: seq<Header>, logs: seq<Log>, boundary: Header) {
    && reducer.scan(ix, saved, headers, logs).Some?
    && var scanned := reducer.scan(ix, saved, headers, logs).value;
       && scanned.running && scanned.logsValid && scanned.controlsReady
       && reducer.promote(scanned, saved, boundary).Some?
       && var after := reducer.promote(scanned, saved, boundary).value;
          after.running && !after.blockage
  }

  /** The scan of this window goes through: its logs are acceptable, and the reducer takes them. */
  ghost predicate ScanServed(reducer: Reducer, rpc: Rpc, s: Snapshot, ix: Indexer, w: Window, chain: Chain)
    requires w.from <= w.through + 1
  {
    var headers := HeadersOf(chain, w.from, w.through + 1 - w.from);
    && rpc.logs(w.from, w.through).Some?
    && (forall i :: 0 <= i < |rpc.logs(w.from, w.through).value| ==> Acceptable(rpc, s, ix.deployment, headers, rpc.logs(w.from, w.through).value[i]))
    && var folded := Fold(LogStep(rpc, s.authorizations, s.frozen, ix.deployment, headers), [], rpc.logs(w.from, w.through).value);
       folded.Ok? ==> Takes(reducer, ix, w.saved, headers, folded.value, chain.at(w.through))
  }

  /** What is promoted at the window's end. */
  function PromotedBy(reducer: Reducer, ix: Indexer, saved: Option<nat>, headers: seq<Header>, logs: seq<Log>, boundary: Header): Option<Indexer> {
    var scanned := reducer.scan(ix, saved, headers, logs);
    if scanned.None? then None else reducer.promote(scanned.value, saved, boundary)
  }

  lemma PromotedOnChain(o: Options, reducer: Reducer, ix: Indexer, saved: Option<nat>, headers: seq<Header>, logs: seq<Log>, boundary: Header, chain: Chain)
    requires reducer.Valid() && OnChain(o, ix, chain) && Takes(reducer, ix, saved, headers, logs, boundary)
    requires NextHeight(ix) <= boundary.number <= chain.height && boundary == chain.at(boundary.number)
    ensures PromotedBy(reducer, ix, saved, headers, logs, boundary).Some?
    ensures OnChain(o, PromotedBy(reducer, ix, saved, headers, logs, boundary).value, chain)
  {}

  lemma ScanTakes(o: Options, reducer: Reducer, rpc: Rpc, s: Snapshot, ix: Indexer, w: Window, headers: seq<Header>, logs: seq<Log>)
    requires w.from <= w.through && headers != [] && headers[|headers| - 1].number == w.through
    requires Fold(HeaderStep(rpc), [], Range(w.from, w.through - w.from + 1)) == Ok(headers)
    requires rpc.logs(w.from, w.through).Some?
    requires Fold(LogStep(rpc, s.authorizations, s.frozen, ix.deployment, headers), [], rpc.logs(w.from, w.through).value) == Ok(logs)
    requires rpc.receiptsComplete && rpc.reread(w.through) == Some(headers[|headers| - 1])
    requires Takes(reducer, ix, w.saved, headers, logs, headers[|headers| - 1])
    ensures Scanned(o, reducer, rpc, s, ix, w) == Ok(PromotedBy(reducer, ix, w.saved, headers, logs, headers[|headers| - 1]).value)
  {
    hide Fold;
  }

  lemma {:induction false} ScanSucceeds(o: Options, reducer: Reducer, rpc: Rpc, s: Snapshot, ix: Indexer, chain: Chain)
    requires ValidOptions(o) && reducer.Valid() && Tells(rpc, chain) && OnChain(o, ix, chain)
    requires var w := WindowOf(o, ix, chain); w.from <= w.through ==> ScanServed(reducer, rpc, s, ix, w, chain)
    ensures var r := Scanned(o, reducer, rpc, s, ix, WindowOf(o, ix, chain)); r.Ok? && OnChain(o, r.value, chain)
  {
    var w := WindowOf(o, ix, chain);
    WindowIsPinned(o, rpc, ix, chain);
    hide OnChain, Reducer.Valid, Tells, ValidOptions, NextHeight;
    if w.from <= w.through {
      WindowServed(o, reducer, rpc, s, ix, w, chain);
    }
    hide ScanServed;
  }

  lemma {:induction false} WindowServed(o: Options, reducer: Reducer, rpc: Rpc, s: Snapshot, ix: Indexer, w: Window, chain: Chain)
    requires reducer.Valid() && Tells(rpc, chain) && OnChain(o, ix, chain)
    requires NextHeight(ix) == w.from <= w.through <= chain.height && ScanServed(reducer, rpc, s, ix, w, chain)
    ensures var r := Scanned(o, reducer, rpc, s, ix, w); r.Ok? && OnChain(o, r.value, chain)
  {
    hide Fold, Acceptable, FindHeader, Reducer.Valid, Takes, OnChain, Pinned, Scanned, PromotedBy, Tells;
    var headers, raw := HeadersOf(chain, w.from, w.through + 1 - w.from), rpc.logs(w.from, w.through).value;
    HeadersRead(rpc, chain, [], w.from, w.through + 1 - w.from);
    assert [] + headers == headers;
    LogsAccepted(rpc, s, ix.deployment, headers, [], raw);
    var logs := Fold(LogStep(rpc, s.authorizations, s.frozen, ix.deployment, headers), [], raw).value;
    var boundary := headers[|headers| - 1];
    assert boundary == chain.at(w.through);
    ToldAt(rpc, chain, w.through);
    ScanTakes(o, reducer, rpc, s, ix, w, headers, logs);
    PromotedOnChain(o, reducer, ix, w.saved, headers, logs, boundary, chain);
  }

  // ----- behind the scan -----

  /** Every finalized entry has its event, a stored authorization and a holder. */
  ghost predicate Evidenced(authorizations: seq<Authorization>, ix: Indexer, entries: seq<Entry>) {
    forall i :: 0 <= i < |entries| && entries[i].finalized ==> EntryEvidenced(authorizations, ix, entries[i])
  }

  predicate EntryEvidenced(authorizations: seq<Authorization>, ix: Indexer, e: Entry) {
    && EventAuthorization(ix, e).Some? && e.tokenId in ix.holders
    && FindAuthorization(authorizations, EventAuthorization(ix, e).value).Some?
  }

  /** Equal in all but the status of authorizations. */
  ghost predicate SameRecords(a: seq<Authorization>, b: seq<Authorization>) {
    |a| == |b| && forall i :: 0 <= i < |a| ==> a[i].(status := Prepared) == b[i].(status := Prepared)
  }

  lemma {:induction false} ProjectionSucceeds(s: Snapshot, ix: Indexer, entries: seq<Entry>)
    requires Evidenced(s.authorizations, ix, entries)
    ensures var r := Fold(ProjectStep(ix), s, entries); r.Ok? && SameRecords(r.value.authorizations, s.authorizations)
    decreases |entries|
  {
    if entries != [] {
      var e := entries[0];
      var next := ProjectEntry(ix, s, e).value;
      assert SameRecords(next.authorizations, s.authorizations) && Evidenced(next.authorizations, ix, entries[1..]) by {
        forall i | 0 <= i < |entries[1..]| && entries[1..][i].finalized
          ensures EntryEvidenced(next.authorizations, ix, entries[1..][i])
        {
          assert EntryEvidenced(s.authorizations, ix, entries[i + 1]);
          if e.finalized {
            var k := FindAuthorization(s.authorizations, EventAuthorization(ix, e).value).value;
            ConsumeKeepsFinds(s.authorizations, k, Consumed, EventAuthorization(ix, entries[i + 1]).value);
          }
        }
        hide FindAuthorization, Include;
      }
      hide ProjectEntry, Evidenced, EntryEvidenced;
      assert ProjectEntry(ix, s, e).Ok? by {
        assert e.finalized ==> EntryEvidenced(s.authorizations, ix, e);
      }
      ProjectionSucceeds(next, ix, entries[1..]);
    }
  }

  /** The chain answers for the record, and a redeemed one is a mint that the indexer knows. */
  ghost predicate RecordServed(rpc: Rpc, ix: Indexer, a: Authorization) {
    && (rpc.authorizationState(a.id) == Some(0) || rpc.authorizationState(a.id) == Some(1))
    && rpc.minted(a.digest).Some?
    && (rpc.authorizationState(a.id) == Some(1) || rpc.minted(a.digest).value ==> KnownMint(ix, a.signatureId))
  }

  ghost predicate RecordsServed(rpc: Rpc, ix: Indexer, authorizations: seq<Authorization>) {
    forall i :: 0 <= i < |authorizations| ==> RecordServed(rpc, ix, authorizations[i])
  }

  lemma RecordsServedAlike(rpc: Rpc, ix: Indexer, a: seq<Authorization>, b: seq<Authorization>)
    requires RecordsServed(rpc, ix, a) && SameRecords(a, b)
    ensures RecordsServed(rpc, ix, b)
  {
    forall i | 0 <= i < |b|
      ensures RecordServed(rpc, ix, b[i])
    {
      assert RecordServed(rpc, ix, a[i]) && a[i].(status := Prepared) == b[i].(status := Prepared);
      assert a[i].id == b[i].id && a[i].digest == b[i].digest && a[i].signatureId == b[i].signatureId;
    }
    hide KnownMint;
  }

  lemma {:induction false} ExpirySucceeds(rpc: Rpc, ix: Indexer, head: Header, s: Snapshot, indices: seq<nat>)
    requires RecordsServed(rpc, ix, s.authorizations)
    ensures Fold(ExpireStep(rpc, ix, head), s, indices).Ok?
    decreases |indices|
  {
    if indices != [] {
      var i := indices[0];
      assert ExpireAt(rpc, ix, head, s, i).Ok? by {
        assert i < |s.authorizations| ==> RecordServed(rpc, ix, s.authorizations[i]);
        hide KnownMint;
      }
      var next := ExpireAt(rpc, ix, head, s, i).value;
      assert SameRecords(s.authorizations, next.authorizations) by {
        hide KnownMint, Withdrawn;
      }
      RecordsServedAlike(rpc, ix, s.authorizations, next.authorizations);
      hide ExpireAt, RecordsServed, SameRecords;
      ExpirySucceeds(rpc, ix, head, next, indices[1..]);
    }
  }

  // ----- a tick -----

  /**
   What the node and the reducer have to answer for a tick over this chain: they
   serve the scan, settle the reports, know the evidence behind every finalized
   entry, and at the head agree about records and holders.
   */
  ghost predicate Served(o: Options, reducer: Reducer, rpc: Rpc, s: Snapshot, ix: Indexer, chain: Chain)
    requires ValidOptions(o)
  {
    var w := WindowOf(o, ix, chain);
    && (w.from <= w.through ==> ScanServed(reducer, rpc, s, ix, w, chain))
    && ReportsSettled(rpc, w.through, s.authorizations, s.attempts)
    && var r := Scanned(o, reducer, rpc, s, ix, w);
       r.Ok? ==>
         && Evidenced(s.authorizations, r.value, r.value.entries)
         && (CaughtUp(r.value, w.head) ==> RecordsServed(rpc, r.value, s.authorizations) && HoldersAgree(rpc, r.value, r.value.entries))
  }

  lemma {:induction false} TickSucceeds(o: Options, reducer: Reducer, rpc: Rpc, s: Snapshot, ix: Indexer, chain: Chain)
    requires ValidOptions(o) && reducer.Valid() && Tells(rpc, chain) && OnChain(o, ix, chain) && Served(o, reducer, rpc, s, ix, chain)
    ensures Reconciled(o, reducer, rpc, s, ix).Ok?
    ensures OnChain(o, Reconciled(o, reducer, rpc, s, ix).value.1, chain)
  {
    var w := WindowOf(o, ix, chain);
    WindowIsPinned(o, rpc, ix, chain);
    ScanSucceeds(o, reducer, rpc, s, ix, chain);
    AttemptsFold(rpc, w.through, s.authorizations, [], s.attempts);
    assert w.head == chain.at(chain.height) && w.head.number == chain.height;
    hide Fold, Pinned, Scanned, ScanServed, ReportsSettled, AttemptsChecked, Evidenced, RecordsServed, HoldersAgree, OnChain, Reducer.Valid, WindowOf, SameRecords;
    var state := Scanned(o, reducer, rpc, s, ix, w).value;
    var checked := s.(attempts := Fold(AttemptsStep(rpc, w.through, s.authorizations), [], s.attempts).value);
    ProjectionSucceeds(checked, state, state.entries);
    var projected := Projected(checked, state).value;
    if CaughtUp(state, w.head) {
      assert SameRecords(s.authorizations, projected.authorizations) by {
        SameRecordsTurned(projected.authorizations, s.authorizations);
      }
      RecordsServedAlike(rpc, state, s.authorizations, projected.authorizations);
      ExpirySucceeds(rpc, state, w.head, projected, Range(0, |projected.authorizations|));
      HoldersFold(rpc, state, state.entries);
    }
  }

  lemma SameRecordsTurned(a: seq<Authorization>, b: seq<Authorization>)
    requires SameRecords(a, b)
    ensures SameRecords(b, a)
  {}

  // ----- catching up -----

  /** Every node of the run tells of the chain, and serves the tick from the state that it meets. */
  ghost predicate AllServed(o: Options, reducer: Reducer, st: State, rpcs: seq<Rpc>, chain: Chain)
    requires ValidOptions(o)
    decreases |rpcs|
  {
    rpcs == []
    || (&& Tells(rpcs[0], chain) && Served(o, reducer, rpcs[0], st.snapshot, st.indexer, chain)
        && AllServed(o, reducer, Next(o, reducer, st, TickWith(rpcs[0])), rpcs[1..], chain))
  }

  lemma {:induction false} ServedTicksSucceed(o: Options, reducer: Reducer, st: State, rpcs: seq<Rpc>, chain: Chain)
    requires ValidOptions(o) && reducer.Valid() && OnChain(o, st.indexer, chain) && AllServed(o, reducer, st, rpcs, chain)
    ensures AllSucceed(o, reducer, st, rpcs, chain.height)
    decreases |rpcs|
  {
    if rpcs != [] {
      TickSucceeds(o, reducer, rpcs[0], st.snapshot, st.indexer, chain);
      assert chain.at(chain.height).number == chain.height;
      var u := Next(o, reducer, st, TickWith(rpcs[0]));
      assert u.indexer == Reconciled(o, reducer, rpcs[0], st.snapshot, st.indexer).value.1;
      hide Next, Reconciled, Served, OnChain, Reducer.Valid;
      ServedTicksSucceed(o, reducer, u, rpcs[1..], chain);
    }
  }

  /** Over an unchanging chain that is served, the cursor reaches the head after exactly ceil(remaining / maxBlocks) ticks. */
  lemma {:induction false} ServedChainCatchesUp(o: Options, reducer: Reducer, st: State, rpcs: seq<Rpc>, chain: Chain)
    requires ValidOptions(o) && reducer.Valid() && OnChain(o, st.indexer, chain) && AllServed(o, reducer, st, rpcs, chain)
    ensures NextHeight(st.indexer) <= chain.height + 1
    ensures var remaining := chain.height + 1 - NextHeight(st.indexer);
            NextHeight(Ticks(o, reducer, st, rpcs).indexer) == chain.height + 1 <==> |rpcs| >= TicksNeeded(remaining, o.maxBlocks)
  {
    hide AllServed, AllSucceed, Reducer.Valid, Ticks, TicksNeeded;
    assert NextHeight(st.indexer) <= chain.height + 1;
    ServedTicksSucceed(o, reducer, st, rpcs, chain);
    CatchesUp(o, reducer, st, rpcs, chain.height);
  }
}
