/** Exactly what a scan has read, kept and handed to the reducer. */
module ReconcilerScans {
  import opened Wrappers
  import opened ChainReconciler
  import opened ReconcilerCursor
  import opened ReconcilerLiveness
  import opened ReconcilerOutcome

  // ----- headers -----

  /** The node tells these headers, one for each of the heights. */
  ghost predicate HeadersAt(rpc: Rpc, heights: seq<nat>, headers: seq<Header>) {
    |headers| == |heights| && forall i :: 0 <= i < |heights| ==> rpc.header(heights[i]) == Some(headers[i])
  }

  lemma {:induction false} HeadersExactly(rpc: Rpc, acc: seq<Header>, heights: seq<nat>)
    ensures var r := Fold(HeaderStep(rpc), acc, heights);
            && (r.Ok? ==> acc <= r.value && HeadersAt(rpc, heights, r.value[|acc|..]))
            && (r.Err? ==> r.error == Failure(Unavailable, false) && exists i :: 0 <= i < |heights| && rpc.header(heights[i]).None?)
    decreases |heights|
  {
    if heights != [] {
      var next := AddHeader(rpc, acc, heights[0]);
      if next.Ok? {
        HeadersExactly(rpc, next.value, heights[1..]);
        var r := Fold(HeaderStep(rpc), next.value, heights[1..]);
        if r.Ok? {
          assert r.value[|acc|] == next.value[|acc|];
          assert r.value[|acc|..][1..] == r.value[|next.value|..];
        } else {
          var i :| 0 <= i < |heights[1..]| && rpc.header(heights[1..][i]).None?;
          assert heights[i + 1] == heights[1..][i];
        }
      }
    }
  }

  lemma {:induction false} WindowRead(rpc: Rpc, heights: seq<nat>, headers: seq<Header>)
    requires HeadersAt(rpc, heights, headers)
    ensures Fold(HeaderStep(rpc), [], heights) == Ok(headers)
  {
    HeadersExactly(rpc, [], heights);
    var r := Fold(HeaderStep(rpc), [], heights);
    if r.Ok? {
      assert r.value[0..] == r.value;
      assert forall i :: 0 <= i < |heights| ==> rpc.header(heights[i]) == Some(headers[i]) == Some(r.value[i]);
      assert r.value == headers;
    }
    hide Fold;
  }

  // ----- logs -----

  /** The decoded logs, in order. */
  function Kept(raw: seq<RawLog>): seq<Log>
    decreases |raw|
  {
    if raw == [] then [] else (if raw[0].decoded.Some? then [raw[0].decoded.value] else []) + Kept(raw[1..])
  }

  lemma OneLog(rpc: Rpc, s: Snapshot, deployment: nat, headers: seq<Header>, acc: seq<Log>, raw: RawLog)
    ensures var r := AddLog(rpc, s.authorizations, s.frozen, deployment, headers, acc, raw);
            && (r.Ok? <==> Acceptable(rpc, s, deployment, headers, raw))
            && (r.Ok? ==> r.value == acc + if raw.decoded.Some? then [raw.decoded.value] else [])
            && (r.Err? ==> (r.error.incident <==> raw.removed) && (raw.removed ==> r.error.code == RemovedLog))
  {
    hide FindAuthorization, FindHeader;
    assert acc + [] == acc;
  }

  /** The first log that is not acceptable is behind the failure, which is an incident exactly when that log was removed. */
  ghost predicate FirstBad(rpc: Rpc, s: Snapshot, deployment: nat, headers: seq<Header>, raw: seq<RawLog>, f: Failure) {
    exists i :: 0 <= i < |raw| && !Acceptable(rpc, s, deployment, headers, raw[i])
                && (forall j :: 0 <= j < i ==> Acceptable(rpc, s, deployment, headers, raw[j]))
                && (f.incident <==> raw[i].removed) && (raw[i].removed ==> f.code == RemovedLog)
  }

  lemma {:induction false} BadLater(rpc: Rpc, s: Snapshot, deployment: nat, headers: seq<Header>, raw: seq<RawLog>, f: Failure)
    requires raw != [] && Acceptable(rpc, s, deployment, headers, raw[0]) && FirstBad(rpc, s, deployment, headers, raw[1..], f)
    ensures FirstBad(rpc, s, deployment, headers, raw, f)
  {
    hide Acceptable;
    var rest := raw[1..];
    var i :| 0 <= i < |rest| && !Acceptable(rpc, s, deployment, headers, rest[i])
             && (forall j :: 0 <= j < i ==> Acceptable(rpc, s, deployment, headers, rest[j]))
             && (f.incident <==> rest[i].removed) && (rest[i].removed ==> f.code == RemovedLog);
    assert raw[i + 1] == rest[i] && forall j :: 0 < j <= i ==> raw[j] == rest[j - 1];
  }

  /** All logs are acceptable and their decodings are kept in order; or the first that is not decides. */
  lemma {:induction false} LogsExactly(rpc: Rpc, s: Snapshot, deployment: nat, headers: seq<Header>, acc: seq<Log>, raw: seq<RawLog>)
    ensures var r := Fold(LogStep(rpc, s.authorizations, s.frozen, deployment, headers), acc, raw);
            && (r.Ok? ==> r.value == acc + Kept(raw) && forall i :: 0 <= i < |raw| ==> Acceptable(rpc, s, deployment, headers, raw[i]))
            && (r.Err? ==> FirstBad(rpc, s, deployment, headers, raw, r.error))
    decreases |raw|
  {
    if raw == [] {
      assert acc + [] == acc;
    } else {
      OneLog(rpc, s, deployment, headers, acc, raw[0]);
      hide AddLog, Acceptable;
      var next := AddLog(rpc, s.authorizations, s.frozen, deployment, headers, acc, raw[0]);
      if next.Ok? {
        LogsExactly(rpc, s, deployment, headers, next.value, raw[1..]);
        assert forall i :: 0 < i < |raw| ==> raw[i] == raw[1..][i - 1];
        hide FirstBad;
        Regroup(acc, if raw[0].decoded.Some? then [raw[0].decoded.value] else [], Kept(raw[1..]));
        var r := Fold(LogStep(rpc, s.authorizations, s.frozen, deployment, headers), next.value, raw[1..]);
        if r.Err? {
          BadLater(rpc, s, deployment, headers, raw, r.error);
        }
      }
    }
  }

  ghost predicate AllAcceptable(rpc: Rpc, s: Snapshot, deployment: nat, headers: seq<Header>, raw: seq<RawLog>) {
    forall i :: 0 <= i < |raw| ==> Acceptable(rpc, s, deployment, headers, raw[i])
  }

  lemma {:induction false} LogsRead(rpc: Rpc, s: Snapshot, deployment: nat, headers: seq<Header>, raw: seq<RawLog>)
    ensures var r := Fold(LogStep(rpc, s.authorizations, s.frozen, deployment, headers), [], raw);
            && (r.Ok? <==> AllAcceptable(rpc, s, deployment, headers, raw))
            && (r.Ok? ==> r.value == Kept(raw))
  {
    LogsExactly(rpc, s, deployment, headers, [], raw);
    assert [] + Kept(raw) == Kept(raw);
    hide Acceptable, Fold, Kept;
  }

  // ----- the whole scan -----

  /** The node tells these headers, one for each height of the window. */
  ghost predicate HeadersOfWindow(rpc: Rpc, w: Window, headers: seq<Header>) {
    w.from <= w.through && HeadersAt(rpc, Range(w.from, w.through - w.from + 1), headers)
  }

  /** What was read fits together, up to the reducer's answer. */
  ghost predicate ScanReads(reducer: Reducer, rpc: Rpc, s: Snapshot, ix: Indexer, w: Window, headers: seq<Header>) {
    && HeadersOfWindow(rpc, w, headers)
    && rpc.logs(w.from, w.through).Some?
    && AllAcceptable(rpc, s, ix.deployment, headers, rpc.logs(w.from, w.through).value)
    && rpc.receiptsComplete
    && headers[|headers| - 1].number == w.through
    && var taken := reducer.scan(ix, w.saved, headers, Kept(rpc.logs(w.from, w.through).value));
       taken.Some? && taken.value.running && taken.value.logsValid && taken.value.controlsReady
  }

  /** The boundary is still the same block when it is read again. */
  predicate BoundaryStands(rpc: Rpc, w: Window, headers: seq<Header>)
    requires headers != []
  {
    rpc.reread(w.through).Some? && rpc.reread(w.through).value.hash == headers[|headers| - 1].hash
  }

  /** The reducer's promotion of what it scanned, with the same checkpoint and the boundary. */
  ghost function Promotion(reducer: Reducer, rpc: Rpc, s: Snapshot, ix: Indexer, w: Window, headers: seq<Header>): Option<Indexer>
    requires ScanReads(reducer, rpc, s, ix, w, headers)
  {
    reducer.promote(reducer.scan(ix, w.saved, headers, Kept(rpc.logs(w.from, w.through).value)).value, w.saved, headers[|headers| - 1])
  }

  lemma {:induction false} ScanUnfolds(o: Options, reducer: Reducer, rpc: Rpc, s: Snapshot, ix: Indexer, w: Window)
    requires w.from <= w.through
    ensures Scanned(o, reducer, rpc, s, ix, w).Ok? ==>
              var headers := Fold(HeaderStep(rpc), [], Range(w.from, w.through - w.from + 1));
              headers.Ok? && ScanReads(reducer, rpc, s, ix, w, headers.value)
  {
    HeadersExactly(rpc, [], Range(w.from, w.through - w.from + 1));
    var headers := Fold(HeaderStep(rpc), [], Range(w.from, w.through - w.from + 1));
    if headers.Ok? {
      assert headers.value[0..] == headers.value;
      if rpc.logs(w.from, w.through).Some? {
        LogsRead(rpc, s, ix.deployment, headers.value, rpc.logs(w.from, w.through).value);
      }
    }
    hide Fold, AllAcceptable, Kept, Range, HeadersAt;
  }

  /** What a scan is, once its headers are read: everything read fits, the boundary stands, and the reducer promotes it. */
  lemma {:induction false} ScanExactly(o: Options, reducer: Reducer, rpc: Rpc, s: Snapshot, ix: Indexer, w: Window, headers: seq<Header>)
    requires ScanReads(reducer, rpc, s, ix, w, headers)
    ensures Scanned(o, reducer, rpc, s, ix, w).Ok? <==>
              BoundaryStands(rpc, w, headers) && Promotion(reducer, rpc, s, ix, w, headers).Some?
              && Promotion(reducer, rpc, s, ix, w, headers).value.running && !Promotion(reducer, rpc, s, ix, w, headers).value.blockage
    ensures Scanned(o, reducer, rpc, s, ix, w).Ok? ==> Some(Scanned(o, reducer, rpc, s, ix, w).value) == Promotion(reducer, rpc, s, ix, w, headers)
    ensures rpc.reread(w.through).Some? && !BoundaryStands(rpc, w, headers) ==> Scanned(o, reducer, rpc, s, ix, w) == Err(Failure(ScanBoundaryChanged, true))
  {
    assert headers != [];
    hide AllAcceptable, Kept, Range, HeadersAt, Fold;
    WindowRead(rpc, Range(w.from, w.through - w.from + 1), headers);
    LogsRead(rpc, s, ix.deployment, headers, rpc.logs(w.from, w.through).value);
  }

  /**
   A successful tick over a nonempty window has scanned exactly the node's headers
   and the decodings of its logs, read the boundary twice, and continues with
   the reducer's promotion of just that, from the promoted checkpoint.
   */
  lemma {:induction false} SuccessHasScanned(o: Options, reducer: Reducer, rpc: Rpc, s: Snapshot, ix: Indexer) returns (headers: seq<Header>)
    requires ValidOptions(o) && Reconciled(o, reducer, rpc, s, ix).Ok?
    ensures Pinned(o, rpc, ix).Ok?
    ensures var w, state := Pinned(o, rpc, ix).value, Reconciled(o, reducer, rpc, s, ix).value.1;
            if w.from > w.through then state == ix
            else ScanReads(reducer, rpc, s, ix, w, headers) && BoundaryStands(rpc, w, headers)
                 && Promotion(reducer, rpc, s, ix, w, headers) == Some(state) && state.running && !state.blockage
  {
    headers := [];
    var w := Pinned(o, rpc, ix).value;
    assert Scanned(o, reducer, rpc, s, ix, w).Ok? && Reconciled(o, reducer, rpc, s, ix).value.1 == Scanned(o, reducer, rpc, s, ix, w).value by {
      hide Pinned, Scanned, Projected, AtHead, Fold;
    }
    if w.from <= w.through {
      ScanUnfolds(o, reducer, rpc, s, ix, w);
      headers := Fold(HeaderStep(rpc), [], Range(w.from, w.through - w.from + 1)).value;
      ScanExactly(o, reducer, rpc, s, ix, w, headers);
    }
    hide Pinned, Reconciled, ScanReads, BoundaryStands, Promotion, Fold;
  }
}
