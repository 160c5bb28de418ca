/** One tick of the local chain reconciler: a bounded scan of the chain, folded into a mint snapshot and an indexer. */
module ChainReconciler {
  import opened Wrappers

  datatype Code =
    | SafetyHalt | ConfigMismatch | ChainIdMismatch | ChainRewound | DeploymentBlockMismatch | RuntimeCodeMismatch
    | ControlChanged | ConfirmedBlockReorg | RemovedLog | ReceiptLogMismatch | MintEvidenceMissing | AuthorizationNotIssued
    | EvidenceMismatch | MintWindowMismatch | LogScanIncomplete | ValidationFailed | ControlHistoryIncomplete
    | ScanBoundaryChanged | ConfirmationBlocked | ReceiptReorg | ConfirmedEventMissing | ConfirmedEvidenceMissing
    | RedeemedMintNotObserved | HolderScanMismatch | HeadChanged | Unavailable | CatchingUp

  /** Why a tick stopped, and whether that is an incident of the chain itself. */
  datatype Failure = Failure(code: Code, incident: bool)

  datatype Header = Header(number: nat, hash: nat, timestamp: nat)

  datatype Checkpoint = Checkpoint(height: nat, hash: nat)

  datatype Status = Prepared | SigningUnknown | SigningFailed | Issued | Expired | Revoked | Consumed

  datatype Authorization = Authorization(
    id: nat, signatureId: nat, digest: nat, attested: bool, validAfter: nat, deadline: nat, status: Status)

  datatype AttemptState = Reported | Observed | Reverted | StaleUnknown | Included

  datatype Attempt = Attempt(tx: nat, state: AttemptState)

  datatype Attempts = Attempts(authorizationId: nat, list: seq<Attempt>)

  datatype ProjectionState =
    | Unminted | Authorized | Submitted | IncludedUnfinalized | Finalized | ValidationPending | Quarantined | FinalityRevoked

  datatype Projection = Projection(state: ProjectionState, authorizationId: Option<nat>, tx: Option<nat>, tokenId: Option<nat>, holder: Option<nat>)

  /** The mint store's snapshot; frozen holds the signatures with frozen metadata. */
  datatype Snapshot = Snapshot(
    authorizations: seq<Authorization>, frozen: set<nat>, attempts: seq<Attempts>,
    projections: map<nat, Projection>, gallery: map<nat, Projection>)

  /** A gallery entry of the indexer, and the observed mint event behind it. */
  datatype Entry = Entry(signatureId: nat, event: nat, tokenId: nat, tx: nat, finalized: bool)

  datatype Indexer = Indexer(
    running: bool, chainId: nat, contract: nat, deployment: nat, promoted: Option<Checkpoint>, blockage: bool,
    logsValid: bool, controlsReady: bool,
    entries: seq<Entry>, mintEvents: map<nat, nat>, holders: map<nat, nat>)

  datatype Log = Mint(authorizationId: nat, tx: nat) | Transfer | Control(height: nat)

  /** A raw log: its decoding in the contract's scope, the hash of its block, and whether its receipt agrees with it. */
  datatype RawLog = RawLog(removed: bool, decoded: Option<Log>, blockHash: nat, receiptAgrees: bool)

  datatype Receipt = Receipt(height: nat, hash: nat, reverted: bool)

  /** What the node answers during one tick; None is an exception. A second read of a height may answer differently. */
  datatype Rpc = Rpc(
    chainId: Option<nat>, head: Option<Header>, header: nat -> Option<Header>, reread: nat -> Option<Header>,
    codeMatches: Option<bool>, controlsMatch: Option<bool>,
    logs: (nat, nat) -> Option<seq<RawLog>>, receiptsComplete: bool,
    evidence: (RawLog, Authorization) -> Option<bool>,
    receipt: nat -> Option<Option<Receipt>>, transactionMatches: (nat, Authorization) -> Option<bool>,
    authorizationState: nat -> Option<nat>, minted: nat -> Option<bool>, owner: nat -> Option<nat>)

  datatype Options = Options(contract: nat, deploymentHash: nat, maxBlocks: nat)

  const CHAIN_ID := 31337

  predicate ValidOptions(o: Options) {
    1 <= o.maxBlocks <= 1024
  }

  /** The indexer's reducer, in another component: applyScanBatch, promoteFinalized, markFinalityRevoked. */
  datatype Reducer = Reducer(
    scan: (Indexer, Option<nat>, seq<Header>, seq<Log>) -> Option<Indexer>,
    promote: (Indexer, Option<nat>, Header) -> Option<Indexer>,
    revoke: Indexer -> Indexer)
  {
    /** What the tick relies on. */
    ghost predicate Valid() {
      && (forall ix, saved, headers, logs :: scan(ix, saved, headers, logs).Some? ==>
            SameDeployment(ix, scan(ix, saved, headers, logs).value) && scan(ix, saved, headers, logs).value.promoted == ix.promoted)
      && (forall ix, saved, boundary :: promote(ix, saved, boundary).Some? ==>
            var after := promote(ix, saved, boundary).value;
            SameDeployment(ix, after)
            && (after.running && !after.blockage && (ix.promoted.Some? ==> ix.promoted.value.height < boundary.number)
                ==> after.promoted == Some(Checkpoint(boundary.number, boundary.hash))))
      && (forall ix, saved, headers, logs :: scan(ix, saved, headers, logs).Some? ==> Consecutive(headers))
      && (forall ix, saved, headers, logs, boundary ::
            scan(ix, saved, headers, logs).Some? && Covers(ix, headers, boundary)
            && promote(scan(ix, saved, headers, logs).value, saved, boundary).Some?
            ==> Sourced(ix, logs, promote(scan(ix, saved, headers, logs).value, saved, boundary).value))
      && (forall ix :: SameDeployment(ix, revoke(ix)) && revoke(ix).promoted == ix.promoted
                       && !revoke(ix).running && forall e :: e in revoke(ix).entries ==> !e.finalized)
    }
  }

  predicate SameDeployment(ix: Indexer, after: Indexer) {
    after.chainId == ix.chainId && after.contract == ix.contract && after.deployment == ix.deployment
  }

  predicate Consecutive(headers: seq<Header>) {
    forall i :: 0 < i < |headers| ==> headers[i].number == headers[i - 1].number + 1
  }

  /** The headers run from right behind the promoted height up to the boundary. */
  predicate Covers(ix: Indexer, headers: seq<Header>, boundary: Header) {
    headers != [] && Consecutive(headers) && headers[0].number == NextHeight(ix) && headers[|headers| - 1] == boundary
  }

  function EventAuthorization(ix: Indexer, e: Entry): Option<nat> {
    if e.event in ix.mintEvents then Some(ix.mintEvents[e.event]) else None
  }

  /** Every authorization behind a finalized entry was behind one before, or its mint is in the scanned logs. */
  ghost predicate Sourced(ix: Indexer, logs: seq<Log>, after: Indexer) {
    forall e :: e in after.entries && e.finalized && EventAuthorization(after, e).Some? ==>
                  var id := EventAuthorization(after, e).value;
                  (exists b :: b in ix.entries && b.finalized && EventAuthorization(ix, b) == Some(id))
                  || (exists log :: log in logs && log.Mint? && log.authorizationId == id)
  }

  // ----- checks -----

  function Require(condition: bool, code: Code, incident: bool): Result<bool, Failure> {
    if condition then Ok(true) else Err(Failure(code, incident))
  }

  function Answer<T>(o: Option<T>): Result<T, Failure> {
    match o
    case Some(v) => Ok(v)
    case None => Err(Failure(Unavailable, false))
  }

  // ----- the pinned window -----

  /** The block range of a tick, with the head it is pinned to and the saved checkpoint's hash as read back. */
  datatype Window = Window(head: Header, saved: Option<nat>, from: nat, through: nat)

  function NextHeight(ix: Indexer): nat {
    match ix.promoted
    case None => ix.deployment
    case Some(c) => c.height + 1
  }

  function Through(o: Options, from: nat, height: nat): nat
    requires ValidOptions(o)
  {
    if from + o.maxBlocks - 1 < height then from + o.maxBlocks - 1 else height
  }

  function Pinned(o: Options, rpc: Rpc, ix: Indexer): Result<Window, Failure>
    requires ValidOptions(o)
  {
    var _ :- Require(ix.running, SafetyHalt, false);
    var _ :- Require(ix.chainId == CHAIN_ID && ix.contract == o.contract, ConfigMismatch, false);
    var chainId :- Answer(rpc.chainId);
    var _ :- Require(chainId == CHAIN_ID, ChainIdMismatch, true);
    var head :- Answer(rpc.head);
    var _ :- Require(head.number >= ix.deployment, ChainRewound, true);
    var deployment :- Answer(rpc.header(ix.deployment));
    var _ :- Require(deployment.hash == o.deploymentHash, DeploymentBlockMismatch, true);
    var code :- Answer(rpc.codeMatches);
    var _ :- Require(code, RuntimeCodeMismatch, true);
    var controls :- Answer(rpc.controlsMatch);
    var _ :- Require(controls, ControlChanged, false);
    var saved :- SavedHash(rpc, ix, head);
    var from := NextHeight(ix);
    Ok(Window(head, saved, from, Through(o, from, head.number)))
  }

  function SavedHash(rpc: Rpc, ix: Indexer, head: Header): Result<Option<nat>, Failure> {
    match ix.promoted
    case None => Ok(None)
    case Some(c) =>
      var _ :- Require(head.number >= c.height, ChainRewound, true);
      var header :- Answer(rpc.header(c.height));
      var _ :- Require(header.hash == c.hash, ConfirmedBlockReorg, true);
      Ok(Some(header.hash))
  }

  // ----- the scan -----

  function Range(from: nat, count: nat): (r: seq<nat>)
    ensures |r| == count && forall i :: 0 <= i < count ==> r[i] == from + i
  {
    seq(count, i => from + i)
  }

  function HeaderStep(rpc: Rpc): (seq<Header>, nat) -> Result<seq<Header>, Failure> {
    (acc: seq<Header>, n: nat) => AddHeader(rpc, acc, n)
  }

  function AddHeader(rpc: Rpc, acc: seq<Header>, n: nat): Result<seq<Header>, Failure> {
    var header :- Answer(rpc.header(n));
    Ok(acc + [header])
  }

  function FindAuthorization(authorizations: seq<Authorization>, id: nat): (r: Option<nat>)
    ensures r.Some? ==> r.value < |authorizations| && authorizations[r.value].id == id
    ensures r.None? ==> forall i :: 0 <= i < |authorizations| ==> authorizations[i].id != id
    ensures r.Some? ==> forall i :: 0 <= i < r.value ==> authorizations[i].id != id
  {
    FirstWith(authorizations, (a: Authorization) => a.id, id)
  }

  predicate Mintable(status: Status) {
    status == Issued || status == SigningUnknown || status == Consumed
  }

  function LogStep(rpc: Rpc, authorizations: seq<Authorization>, frozen: set<nat>, deployment: nat, headers: seq<Header>): (seq<Log>, RawLog) -> Result<seq<Log>, Failure> {
    (acc: seq<Log>, raw: RawLog) => AddLog(rpc, authorizations, frozen, deployment, headers, acc, raw)
  }

  function FindHeader(headers: seq<Header>, hash: nat): Option<Header>
    decreases |headers|
  {
    if headers == [] then None
    else if headers[0].hash == hash then Some(headers[0])
    else FindHeader(headers[1..], hash)
  }

  /** A log is kept only when its receipt agrees with it; a mint, only for a durable, issued, matching authorization. */
  function AddLog(rpc: Rpc, authorizations: seq<Authorization>, frozen: set<nat>, deployment: nat, headers: seq<Header>, acc: seq<Log>, raw: RawLog): Result<seq<Log>, Failure> {
    var _ :- Require(!raw.removed, RemovedLog, true);
    if raw.decoded.None? then Ok(acc)
    else
      var log := raw.decoded.value;
      var _ :- Require(raw.receiptAgrees, ReceiptLogMismatch, false);
      if !log.Mint? then
        var _ :- Require(log.Transfer? || log.height == deployment, ControlChanged, false);
        Ok(acc + [log])
      else
        var found := FindAuthorization(authorizations, log.authorizationId);
        var _ :- Require(found.Some? && authorizations[found.value].signatureId in frozen, MintEvidenceMissing, false);
        var record := authorizations[found.value];
        var _ :- Require(record.attested && Mintable(record.status), AuthorizationNotIssued, false);
        var evidence :- Answer(rpc.evidence(raw, record));
        var _ :- Require(evidence, EvidenceMismatch, false);
        var block := FindHeader(headers, raw.blockHash);
        var _ :- Require(block.Some? && record.validAfter <= block.value.timestamp <= record.deadline, MintWindowMismatch, false);
        Ok(acc + [log])
  }

  /** Scans and promotes the window; an empty window changes nothing. */
  function Scanned(o: Options, reducer: Reducer, rpc: Rpc, s: Snapshot, ix: Indexer, w: Window): Result<Indexer, Failure> {
    if w.from > w.through then Ok(ix)
    else
      var headers :- Fold(HeaderStep(rpc), [], Range(w.from, w.through - w.from + 1));
      var raw :- Answer(rpc.logs(w.from, w.through));
      var logs :- Fold(LogStep(rpc, s.authorizations, s.frozen, ix.deployment, headers), [], raw);
      var _ :- Require(rpc.receiptsComplete, LogScanIncomplete, false);
      var scanned :- Answer(reducer.scan(ix, w.saved, headers, logs));
      var _ :- Require(scanned.running, SafetyHalt, true);
      var _ :- Require(scanned.logsValid, ValidationFailed, false);
      var _ :- Require(scanned.controlsReady, ControlHistoryIncomplete, false);
      var boundary :- Boundary(headers, w.through);
      var again :- Answer(rpc.reread(w.through));
      var _ :- Require(again.hash == boundary.hash, ScanBoundaryChanged, true);
      var promoted :- Answer(reducer.promote(scanned, w.saved, boundary));
      var _ :- Require(promoted.running && !promoted.blockage, ConfirmationBlocked, false);
      Ok(promoted)
  }

  /** The last header read. A node that answers for another height is refused by the reducer's header validation. */
  function Boundary(headers: seq<Header>, through: nat): Result<Header, Failure> {
    if headers != [] && headers[|headers| - 1].number == through then Ok(headers[|headers| - 1])
    else Err(Failure(Unavailable, false))
  }

  // ----- reported attempts -----

  function AttemptStep(rpc: Rpc, through: nat, record: Authorization): (seq<Attempt>, Attempt) -> Result<seq<Attempt>, Failure> {
    (acc: seq<Attempt>, a: Attempt) => AddAttempt(rpc, through, record, acc, a)
  }

  /** A report is only a hint: it can turn into a reverted attempt, nothing else. */
  function AddAttempt(rpc: Rpc, through: nat, record: Authorization, acc: seq<Attempt>, a: Attempt): Result<seq<Attempt>, Failure> {
    if a.state == Included || a.state == Reverted then Ok(acc + [a])
    else
      var receipt :- Answer(rpc.receipt(a.tx));
      if receipt.None? || receipt.value.height > through then Ok(acc + [a])
      else
        var matches :- Answer(rpc.transactionMatches(a.tx, record));
        if !matches then Ok(acc + [a])
        else
          var header :- Answer(rpc.reread(receipt.value.height));
          var _ :- Require(header.hash == receipt.value.hash, ReceiptReorg, true);
          Ok(acc + [if receipt.value.reverted then a.(state := Reverted) else a])
  }

  function AttemptsStep(rpc: Rpc, through: nat, authorizations: seq<Authorization>): (seq<Attempts>, Attempts) -> Result<seq<Attempts>, Failure> {
    (acc: seq<Attempts>, a: Attempts) => AddAttempts(rpc, through, authorizations, acc, a)
  }

  function AddAttempts(rpc: Rpc, through: nat, authorizations: seq<Authorization>, acc: seq<Attempts>, a: Attempts): Result<seq<Attempts>, Failure> {
    var found := FindAuthorization(authorizations, a.authorizationId);
    if found.None? then Ok(acc + [a])
    else
      var list :- Fold(AttemptStep(rpc, through, authorizations[found.value]), [], a.list);
      Ok(acc + [Attempts(a.authorizationId, list)])
  }

  // ----- projecting confirmed mints -----

  function FindAttempts(attempts: seq<Attempts>, id: nat): (r: Option<nat>)
    ensures r.Some? ==> r.value < |attempts| && attempts[r.value].authorizationId == id
    ensures r.None? ==> forall i :: 0 <= i < |attempts| ==> attempts[i].authorizationId != id
    ensures r.Some? ==> forall i :: 0 <= i < r.value ==> attempts[i].authorizationId != id
  {
    FirstWith(attempts, (a: Attempts) => a.authorizationId, id)
  }

  function FindAttempt(list: seq<Attempt>, tx: nat): (r: Option<nat>)
    ensures r.Some? ==> r.value < |list| && list[r.value].tx == tx
    ensures r.None? ==> forall i :: 0 <= i < |list| ==> list[i].tx != tx
    ensures r.Some? ==> forall i :: 0 <= i < r.value ==> list[i].tx != tx
  {
    FirstWith(list, (a: Attempt) => a.tx, tx)
  }

  /** The attempt of the confirmed transaction is marked included, or recorded if nobody reported it. */
  function IncludeIn(list: seq<Attempt>, tx: nat): seq<Attempt> {
    match FindAttempt(list, tx)
    case Some(i) => list[i := list[i].(state := Included)]
    case None => list + [Attempt(tx, Included)]
  }

  function Include(attempts: seq<Attempts>, id: nat, tx: nat): seq<Attempts> {
    match FindAttempts(attempts, id)
    case Some(i) => attempts[i := attempts[i].(list := IncludeIn(attempts[i].list, tx))]
    case None => attempts + [Attempts(id, [Attempt(tx, Included)])]
  }

  function ProjectStep(ix: Indexer): (Snapshot, Entry) -> Result<Snapshot, Failure> {
    (acc: Snapshot, e: Entry) => ProjectEntry(ix, acc, e)
  }

  function ProjectEntry(ix: Indexer, s: Snapshot, e: Entry): Result<Snapshot, Failure> {
    if !e.finalized then Ok(s)
    else
      var event := EventAuthorization(ix, e);
      var _ :- Require(event.Some?, ConfirmedEventMissing, false);
      var found := FindAuthorization(s.authorizations, event.value);
      var _ :- Require(found.Some? && e.tokenId in ix.holders, ConfirmedEvidenceMissing, false);
      var i := found.value;
      var projection := Projection(Finalized, Some(event.value), Some(e.tx), Some(e.tokenId), Some(ix.holders[e.tokenId]));
      Ok(Snapshot(
           s.authorizations[i := s.authorizations[i].(status := Consumed)], s.frozen,
           Include(s.attempts, event.value, e.tx),
           s.projections[e.signatureId := projection],
           s.gallery[e.signatureId := projection]))
  }

  function Projected(s: Snapshot, ix: Indexer): Result<Snapshot, Failure> {
    Fold(ProjectStep(ix), s, ix.entries)
  }

  // ----- at the head -----

  const UNMINTED := Projection(Unminted, None, None, None, None)

  predicate Expirable(status: Status) {
    status == Issued || status == Prepared || status == SigningUnknown
  }

  predicate KnownMint(ix: Indexer, signatureId: nat) {
    exists e :: e in ix.entries && e.finalized && e.signatureId == signatureId
  }

  function Withdrawn(projections: map<nat, Projection>, id: nat): map<nat, Projection> {
    map k | k in projections ::
      if projections[k].authorizationId == Some(id) && (projections[k].state == Authorized || projections[k].state == Submitted) then UNMINTED
      else projections[k]
  }

  function ExpireStep(rpc: Rpc, ix: Indexer, head: Header): (Snapshot, nat) -> Result<Snapshot, Failure> {
    (acc: Snapshot, i: nat) => ExpireAt(rpc, ix, head, acc, i)
  }

  function ExpireAt(rpc: Rpc, ix: Indexer, head: Header, s: Snapshot, i: nat): Result<Snapshot, Failure> {
    if i >= |s.authorizations| then Ok(s)
    else
      var record := s.authorizations[i];
      var onChain :- Answer(rpc.authorizationState(record.id));
      var minted :- Answer(rpc.minted(record.digest));
      var _ :- Require(onChain == 1 || minted ==> KnownMint(ix, record.signatureId), RedeemedMintNotObserved, false);
      var expires := Expirable(record.status) && onChain == 0 && !minted && head.timestamp > record.deadline;
      var _ :- Require(onChain == 0 || onChain == 1, ControlChanged, false);
      Ok(if expires
         then s.(authorizations := s.authorizations[i := record.(status := Expired)], projections := Withdrawn(s.projections, record.id))
         else s)
  }

  function HolderStep(rpc: Rpc, ix: Indexer): (bool, Entry) -> Result<bool, Failure> {
    (acc: bool, e: Entry) => CheckHolder(rpc, ix, acc, e)
  }

  function CheckHolder(rpc: Rpc, ix: Indexer, acc: bool, e: Entry): Result<bool, Failure> {
    if !e.finalized then Ok(acc)
    else
      var owner :- Answer(rpc.owner(e.tokenId));
      var _ :- Require(e.tokenId in ix.holders && ix.holders[e.tokenId] == owner, HolderScanMismatch, false);
      Ok(acc)
  }

  predicate CaughtUp(ix: Indexer, head: Header) {
    ix.promoted.Some? && ix.promoted.value.height == head.number
  }

  function AtHead(rpc: Rpc, s: Snapshot, ix: Indexer, head: Header): Result<Snapshot, Failure> {
    if !CaughtUp(ix, head) then Ok(s)
    else
      var expired :- Fold(ExpireStep(rpc, ix, head), s, Range(0, |s.authorizations|));
      var _ :- Fold(HolderStep(rpc, ix), true, ix.entries);
      Ok(expired)
  }

  // ----- the tick -----

  /** Everything a tick does before its last look at the head; a failure carries nothing of it. */
  function Reconciled(o: Options, reducer: Reducer, rpc: Rpc, s: Snapshot, ix: Indexer): Result<(Snapshot, Indexer, bool), Failure>
    requires ValidOptions(o)
  {
    var w :- Pinned(o, rpc, ix);
    var state :- Scanned(o, reducer, rpc, s, ix, w);
    var attempts :- Fold(AttemptsStep(rpc, w.through, s.authorizations), [], s.attempts);
    var projected :- Projected(s.(attempts := attempts), state);
    var settled :- AtHead(rpc, projected, state, w.head);
    var again :- Answer(rpc.reread(w.head.number));
    var _ :- Require(again.hash == w.head.hash, HeadChanged, true);
    Ok((settled, state, CaughtUp(state, w.head)))
  }

  datatype TickResult = TickResult(snapshot: Snapshot, indexer: Indexer, ready: bool, code: Option<Code>)

  function RevokeFinalized(projections: map<nat, Projection>): map<nat, Projection> {
    map k | k in projections ::
      if projections[k].state == Finalized then projections[k].(state := FinalityRevoked) else projections[k]
  }

  /** What is returned when a tick fails. */
  function Failed(reducer: Reducer, s: Snapshot, ix: Indexer, f: Failure): TickResult {
    if f.incident
    then TickResult(s.(projections := RevokeFinalized(s.projections), gallery := map[]), reducer.revoke(ix.(running := false)), false, Some(f.code))
    else TickResult(s, ix, false, Some(f.code))
  }

  function Tick(o: Options, reducer: Reducer, rpc: Rpc, s: Snapshot, ix: Indexer): TickResult
    requires ValidOptions(o)
  {
    match Reconciled(o, reducer, rpc, s, ix)
    case Err(f) => Failed(reducer, s, ix, f)
    case Ok((snapshot, indexer, caughtUp)) => TickResult(snapshot, indexer, caughtUp, if caughtUp then None else Some(CatchingUp))
  }
}
