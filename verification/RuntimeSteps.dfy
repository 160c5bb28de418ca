/**
 The rehearsal's single-writer runtime as a step system: a promise-tail queue of
 operations, the transactional save of the mint store together with the indexer
 cursor, and everything that can go wrong between two awaits.
 */
module RuntimeSteps {
  import opened Wrappers

  /** What the mint store holds: mutations of operations, and projections of the chain up to a cursor. */
  datatype Effect = Mutation(op: nat, index: nat) | Projection(cursor: nat)

  /** A mint snapshot and an indexer cursor. */
  datatype Image = Image(mint: seq<Effect>, indexer: nat)

  /** How the operation itself ended. */
  datatype Verdict = Returned | Threw

  datatype Purpose = Midway | Last(verdict: Verdict) | Publish

  datatype Outcome = Acknowledged(verdict: Verdict) | Unavailable

  datatype Status = Waiting | Body | Saving(purpose: Purpose) | Settled(outcome: Outcome) | Lost

  /** One call of run: the promise it waits for, how far it is, and how often it mutated the store. */
  datatype Operation = Operation(after: Option<nat>, status: Status, mutations: nat)

  datatype Transaction =
    | NoTransaction
    | Open(owner: nat, captured: Image, draft: Image, written: nat)
    | Applied(owner: nat, captured: Image)
    | Doubtful(draft: Image)

  datatype State = State(
    ops: seq<Operation>, base: nat, tail: Option<nat>, failure: bool, running: bool,
    writer: bool, writerFailure: bool,
    live: Image, rows: Image, transaction: Transaction,
    captures: seq<Image>, started: seq<nat>)

  /** A save that is not storable is refused while its two values are encoded, before its transaction. */
  datatype Event =
    | Submit
    | Start(op: nat)
    | Mutate(op: nat)
    | Checkpoint(op: nat, storable: bool)
    | Reconcile(op: nat, cursor: nat, storable: bool)
    | Finish(op: nat, verdict: Verdict, storable: bool)
    | WriteRow
    | Commit
    | Reply
    | Break
    | LateCommit
    | LoseOwnership
    | Release
    | Restart

  /** A fresh process over a stored image. */
  function Initial(image: Image): State {
    State([], 0, None, false, false, true, false, image, image, NoTransaction, [image], [])
  }

  predicate Owned(s: State) {
    s.writer && !s.writerFailure
  }

  predicate Healthy(s: State) {
    !s.failure && Owned(s)
  }

  predicate IsAcknowledged(op: Operation) {
    op.status.Settled? && op.status.outcome.Acknowledged?
  }

  function WithStatus(s: State, k: nat, status: Status): State
    requires k < |s.ops|
  {
    s.(ops := s.ops[k := s.ops[k].(status := status)])
  }

  /** The save captures both values at once, then its transaction opens. */
  function Begin(s: State, k: nat, purpose: Purpose, image: Image): State
    requires k < |s.ops|
  {
    WithStatus(s, k, Saving(purpose)).(transaction := Open(k, image, s.rows, 0), captures := s.captures + [image])
  }

  function Settle(s: State, k: nat, outcome: Outcome): State
    requires k < |s.ops|
  {
    WithStatus(s, k, Settled(outcome)).(running := false)
  }

  /** The awaited save rejects: a checkpoint records it, a bare save only throws into the operation. */
  function SaveThrew(s: State, k: nat): (t: State)
    requires k < |s.ops| && s.ops[k].status.Saving?
    ensures |t.ops| == |s.ops| && t.ops == s.ops[k := t.ops[k]] && !IsAcknowledged(t.ops[k])
    ensures t.rows == s.rows && t.live == s.live && t.captures == s.captures && t.started == s.started
    ensures t.writer == s.writer && t.writerFailure == s.writerFailure && t.transaction == s.transaction
  {
    match s.ops[k].status.purpose
    case Midway => WithStatus(s, k, Body).(failure := true)
    case Last(_) => Settle(s, k, Unavailable).(failure := true)
    case Publish => WithStatus(s, k, Body)
  }

  function SaveSucceeded(s: State, k: nat, captured: Image): (t: State)
    requires k < |s.ops| && s.ops[k].status.Saving?
    ensures |t.ops| == |s.ops| && t.ops == s.ops[k := t.ops[k]]
    ensures t.live == if s.ops[k].status.purpose.Publish? then captured else s.live
    ensures t.rows == s.rows && t.captures == s.captures && t.started == s.started
    ensures t.writer == s.writer && t.writerFailure == s.writerFailure && t.transaction == s.transaction
  {
    match s.ops[k].status.purpose
    case Midway => if Healthy(s) then WithStatus(s, k, Body) else SaveThrew(s, k)
    case Last(verdict) => if Healthy(s) then Settle(s, k, Acknowledged(verdict)) else SaveThrew(s, k)
    case Publish => WithStatus(s, k, Body).(live := captured)
  }

  predicate InBody(s: State, k: nat) {
    k < |s.ops| && s.ops[k].status.Body?
  }

  predicate InFlight(t: Transaction) {
    t.Open? || t.Applied?
  }

  predicate OwnerSaves(s: State) {
    InFlight(s.transaction) && s.transaction.owner < |s.ops| && s.ops[s.transaction.owner].status.Saving?
  }

  predicate Enabled(s: State, e: Event) {
    match e
    case Submit => true
    case Start(k) =>
      && k < |s.ops| && s.ops[k].status.Waiting?
      && (s.ops[k].after.Some? ==> s.ops[k].after.value < |s.ops| && s.ops[s.ops[k].after.value].status.Settled?)
    case Mutate(k) => InBody(s, k)
    case Checkpoint(k, _) => InBody(s, k)
    case Reconcile(k, _, _) => InBody(s, k)
    case Finish(k, _, _) => InBody(s, k)
    case WriteRow => s.transaction.Open? && s.transaction.written < 2
    case Commit => s.transaction.Open? && s.transaction.written == 2
    case Reply => s.transaction.Applied? && OwnerSaves(s)
    case Break => OwnerSaves(s)
    case LateCommit => s.transaction.Doubtful?
    case LoseOwnership => s.writer
    case Release => s.writer
    case Restart => true
  }

  function Step(s: State, e: Event): State
    requires Enabled(s, e)
  {
    match e
    case Submit => s.(ops := s.ops + [Operation(s.tail, Waiting, 0)], tail := Some(|s.ops|))
    case Start(k) =>
      if Healthy(s) then WithStatus(s, k, Body).(running := true, started := s.started + [k])
      else WithStatus(s, k, Settled(Unavailable)).(failure := true)
    case Mutate(k) =>
      var op := s.ops[k];
      s.(ops := s.ops[k := op.(mutations := op.mutations + 1)],
         live := s.live.(mint := s.live.mint + [Mutation(k, op.mutations)]))
    case Checkpoint(k, storable) =>
      if !Healthy(s) then s.(failure := true)
      else if !s.running then s
      else if !storable then s.(failure := true)
      else Begin(s, k, Midway, s.live)
    case Reconcile(k, cursor, storable) =>
      if !Owned(s) || !storable then s
      else Begin(s, k, Publish, Image(s.live.mint + [Projection(cursor)], cursor))
    case Finish(k, verdict, storable) =>
      if !Healthy(s) then Settle(s, k, Unavailable).(failure := true)
      else if !s.running then Settle(s, k, Unavailable)
      else if !storable then Settle(s, k, Unavailable).(failure := true)
      else Begin(s, k, Last(verdict), s.live)
    case WriteRow =>
      var t := s.transaction;
      var draft := if t.written == 0 then t.draft.(mint := t.captured.mint) else t.draft.(indexer := t.captured.indexer);
      s.(transaction := t.(draft := draft, written := t.written + 1))
    case Commit => s.(rows := s.transaction.draft, transaction := Applied(s.transaction.owner, s.transaction.captured))
    case Reply =>
      var t := s.transaction;
      var closed := s.(transaction := NoTransaction);
      if Owned(s) then SaveSucceeded(closed, t.owner, t.captured) else SaveThrew(closed, t.owner)
    case Break =>
      var t := s.transaction;
      var left := if t.Open? && t.written == 2 then Doubtful(t.draft) else NoTransaction;
      SaveThrew(s.(transaction := left, writerFailure := true), t.owner)
    case LateCommit => s.(rows := s.transaction.draft, transaction := NoTransaction)
    case LoseOwnership => s.(writerFailure := true)
    case Release => s.(writer := false)
    case Restart =>
      s.(ops := Abandon(s.ops), base := |s.ops|, tail := None, failure := false, running := false,
         writer := true, writerFailure := false, live := s.rows, transaction := NoTransaction)
  }

  /** What a crash leaves of the operations: the settled ones; no other one will settle. */
  function Abandon(ops: seq<Operation>): (r: seq<Operation>)
    ensures |r| == |ops|
    ensures forall k :: 0 <= k < |ops| ==> r[k] == if ops[k].status.Settled? then ops[k] else ops[k].(status := Lost)
  {
    seq(|ops|, k requires 0 <= k < |ops| => if ops[k].status.Settled? then ops[k] else ops[k].(status := Lost))
  }

  // ----- runs -----

  predicate Legal(s: State, events: seq<Event>)
    decreases |events|
  {
    events == [] || (Enabled(s, events[0]) && Legal(Step(s, events[0]), events[1..]))
  }

  function After(s: State, events: seq<Event>): State
    requires Legal(s, events)
    decreases |events|
  {
    if events == [] then s else After(Step(s, events[0]), events[1..])
  }

  lemma {:induction false} RunsCompose(s: State, before: seq<Event>, later: seq<Event>)
    requires Legal(s, before + later)
    ensures Legal(s, before) && Legal(After(s, before), later)
    ensures After(s, before + later) == After(After(s, before), later)
    decreases |before|
  {
    if before == [] {
      assert before + later == later;
    } else {
      var all := before + later;
      assert all[0] == before[0] && all[1..] == before[1..] + later;
      hide Step, Enabled;
      RunsCompose(Step(s, before[0]), before[1..], later);
    }
  }

  // ----- the invariant -----

  predicate Active(status: Status) {
    status.Body? || status.Saving?
  }

  /** Operations settle in the order in which they were submitted, one at a time. */
  ghost predicate Chained(s: State) {
    && s.base <= |s.ops|
    && s.tail == (if |s.ops| == s.base then None else Some(|s.ops| - 1))
    && (forall k :: s.base <= k < |s.ops| ==> s.ops[k].after == if k == s.base then None else Some(k - 1))
    && (forall k :: s.base <= k < |s.ops| ==> !s.ops[k].status.Lost?)
    && (forall k :: 0 <= k < s.base ==> s.ops[k].status.Settled? || s.ops[k].status.Lost?)
    && (forall j, k :: s.base <= j < k < |s.ops| ==> s.ops[k].status.Waiting? || s.ops[j].status.Settled?)
    && (forall k :: 0 <= k < |s.ops| && Active(s.ops[k].status) ==> s.running)
  }

  ghost predicate StartedInOrder(s: State) {
    && (forall i, j :: 0 <= i < j < |s.started| ==> s.started[i] < s.started[j])
    && (forall i :: 0 <= i < |s.started| ==> s.started[i] < |s.ops| && !s.ops[s.started[i]].status.Waiting?)
  }

  /** The cursor of the latest projection. */
  function LatestCursor(mint: seq<Effect>, otherwise: nat): nat {
    if mint == [] then otherwise
    else if mint[|mint| - 1].Projection? then mint[|mint| - 1].cursor
    else LatestCursor(mint[..|mint| - 1], otherwise)
  }

  /** The cursor stands where the projection in the mint store stands. */
  predicate Consistent(image: Image, otherwise: nat) {
    image.indexer == LatestCursor(image.mint, otherwise)
  }

  /** Everything acknowledged, and every projection readers can see, is in the image. */
  ghost predicate Keeps(s: State, image: Image) {
    && (forall k, i :: 0 <= k < |s.ops| && IsAcknowledged(s.ops[k]) && 0 <= i < s.ops[k].mutations ==> Mutation(k, i) in image.mint)
    && (forall c :: Projection(c) in s.live.mint ==> Projection(c) in image.mint)
  }

  /** The transaction in flight belongs to the one saving operation and carries one captured pair. */
  ghost predicate TransactionValid(s: State) {
    && (forall k :: 0 <= k < |s.ops| && s.ops[k].status.Saving? ==> InFlight(s.transaction) && s.transaction.owner == k)
    && match s.transaction
       case NoTransaction => true
       case Open(owner, captured, draft, written) =>
         && OwnerSaves(s) && CapturedFor(s, s.ops[owner].status.purpose, captured)
         && captured in s.captures && written <= 2
         && draft == Image(if written >= 1 then captured.mint else s.rows.mint, if written == 2 then captured.indexer else s.rows.indexer)
       case Applied(owner, captured) =>
         OwnerSaves(s) && CapturedFor(s, s.ops[owner].status.purpose, captured) && s.rows == captured
       case Doubtful(draft) =>
         s.writerFailure && draft in s.captures && Keeps(s, draft)
  }

  predicate CapturedFor(s: State, purpose: Purpose, captured: Image) {
    captured == if purpose.Publish? then Image(s.live.mint + [Projection(captured.indexer)], captured.indexer) else s.live
  }

  ghost predicate Applies(s: State) {
    forall k, i :: s.base <= k < |s.ops| && 0 <= i < s.ops[k].mutations ==> Mutation(k, i) in s.live.mint
  }

  ghost predicate Invariant(s: State, cursor: nat) {
    && Chained(s)
    && StartedInOrder(s)
    && TransactionValid(s)
    && Applies(s)
    && Keeps(s, s.live) && Keeps(s, s.rows)
    && s.rows in s.captures
    && Consistent(s.live, cursor)
    && (forall image :: image in s.captures ==> Consistent(image, cursor))
  }
}
