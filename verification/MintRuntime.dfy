/** The two objects of the rehearsal runtime, each method proved to be one step of the step system. */
module MintRuntime {
  import opened Wrappers
  import opened RuntimeSteps

  /** The exclusive database writer and the two rows it commits together. */
  class LocalPostgresState {
    var writer: bool
    var writerFailure: bool
    var rows: Image
    var transaction: Transaction
    var captures: seq<Image>

    constructor (image: Image)
      ensures !writer && !writerFailure && rows == image && transaction == NoTransaction && captures == [image]
    {
      writer, writerFailure := false, false;
      rows, transaction, captures := image, NoTransaction, [image];
    }

    /** granted is the database's answer to the try for the session lock. */
    method AcquireExclusiveWriter(granted: bool) returns (ok: bool)
      modifies this`writer
      ensures ok <==> !old(writer) && !writerFailure && granted
      ensures writer == (old(writer) || ok)
    {
      if writer || writerFailure {
        return false;
      }
      if !granted {
        return false;
      }
      writer := true;
      return true;
    }

    method AssertExclusiveWriter() returns (ok: bool)
      ensures ok <==> writer && !writerFailure
    {
      if writerFailure {
        return false;
      }
      return writer;
    }

    /** The synchronous part of saveRuntime: ownership, then both values are captured and encoded, or refused, then BEGIN. */
    method SaveRuntime(owner: nat, image: Image, storable: bool) returns (ok: bool)
      modifies this`transaction, this`captures
      ensures ok <==> writer && !writerFailure && storable
      ensures transaction == if ok then Open(owner, image, rows, 0) else old(transaction)
      ensures captures == if ok then old(captures) + [image] else old(captures)
    {
      ok := AssertExclusiveWriter();
      if ok && !storable {
        return false;
      }
      if ok {
        transaction := Open(owner, image, rows, 0);
        captures := captures + [image];
      }
    }

    /** The next of the two row upserts, inside the transaction. */
    method UpsertRow()
      requires transaction.Open? && transaction.written < 2
      modifies this`transaction
      ensures transaction.Open? && transaction.owner == old(transaction.owner) && transaction.captured == old(transaction.captured)
      ensures transaction.written == old(transaction.written) + 1
      ensures transaction.draft == if old(transaction.written) == 0 then Image(transaction.captured.mint, old(transaction.draft.indexer))
                                   else Image(old(transaction.draft.mint), transaction.captured.indexer)
    {
      var draft := transaction.draft;
      if transaction.written == 0 {
        draft := draft.(mint := transaction.captured.mint);
      } else {
        draft := draft.(indexer := transaction.captured.indexer);
      }
      transaction := transaction.(draft := draft, written := transaction.written + 1);
    }

    method CommitRows()
      requires transaction.Open? && transaction.written == 2
      modifies this`transaction, this`rows
      ensures rows == old(transaction.draft) && transaction == Applied(old(transaction.owner), old(transaction.captured))
    {
      rows := transaction.draft;
      transaction := Applied(transaction.owner, transaction.captured);
    }

    /** The commit's reply arrived; saveRuntime checks ownership once more. */
    method CommitReplied() returns (ok: bool)
      requires transaction.Applied?
      modifies this`transaction
      ensures transaction == NoTransaction
      ensures ok <==> writer && !writerFailure
    {
      transaction := NoTransaction;
      ok := AssertExclusiveWriter();
    }

    /** A query of the transaction failed. Whether a commit already sent takes effect stays open. */
    method QueryFailed()
      requires transaction.Open? || transaction.Applied?
      modifies this`transaction, this`writerFailure
      ensures writerFailure
      ensures transaction == if old(transaction).Open? && old(transaction).written == 2 then Doubtful(old(transaction).draft) else NoTransaction
    {
      if transaction.Open? && transaction.written == 2 {
        transaction := Doubtful(transaction.draft);
      } else {
        transaction := NoTransaction;
      }
      writerFailure := true;
    }
  }

  /** The queue of operations. live is the mint store with the indexer that belongs to it. */
  class LocalMintRuntime {
    const durable: LocalPostgresState
    var tail: Option<nat>
    var failure: bool
    var running: bool
    var operations: seq<Operation>
    var base: nat
    var started: seq<nat>
    var live: Image

    ghost function View(): State
      reads this, durable
    {
      State(operations, base, tail, failure, running, durable.writer, durable.writerFailure,
            live, durable.rows, durable.transaction, durable.captures, started)
    }

    constructor (durable: LocalPostgresState)
      ensures this.durable == durable
      ensures durable.writer && !durable.writerFailure && durable.transaction == NoTransaction && durable.captures == [durable.rows]
              ==> View() == Initial(durable.rows)
    {
      this.durable := durable;
      tail, failure, running := None, false, false;
      operations, base, started := [], 0, [];
      live := durable.rows;
    }

    method AssertHealthy() returns (ok: bool)
      modifies this`failure
      ensures ok <==> Healthy(old(View()))
      ensures View() == if ok then old(View()) else old(View()).(failure := true)
    {
      if failure {
        return false;
      }
      ok := durable.AssertExclusiveWriter();
      if !ok {
        failure := true;
      }
    }

    /** run: the new promise waits for the tail and becomes the tail. */
    method Run() returns (k: nat)
      modifies this`operations, this`tail
      ensures k == |old(operations)| && View() == Step(old(View()), Submit)
    {
      k := |operations|;
      operations := operations + [Operation(tail, Waiting, 0)];
      tail := Some(k);
    }

    method SetStatus(k: nat, status: Status)
      requires k < |operations|
      modifies this`operations
      ensures View() == WithStatus(old(View()), k, status)
    {
      operations := operations[k := operations[k].(status := status)];
    }

    /** The promise that operation k waited for has settled. */
    method Begin(k: nat)
      requires Enabled(View(), Start(k))
      modifies this
      ensures View() == Step(old(View()), Start(k))
    {
      var ok := AssertHealthy();
      if ok {
        running := true;
        started := started + [k];
        SetStatus(k, Body);
      } else {
        SetStatus(k, Settled(Unavailable));
      }
    }

    method MutateStore(k: nat)
      requires Enabled(View(), Mutate(k))
      modifies this`operations, this`live
      ensures View() == Step(old(View()), Mutate(k))
    {
      var op := operations[k];
      live := live.(mint := live.mint + [Mutation(k, op.mutations)]);
      operations := operations[k := op.(mutations := op.mutations + 1)];
    }

    /** checkpoint, called by operation k: the check, the running guard, and the start of the save. */
    method CheckpointNow(k: nat, storable: bool)
      requires Enabled(View(), Checkpoint(k, storable))
      modifies this, durable
      ensures View() == Step(old(View()), Checkpoint(k, storable))
    {
      var ok := AssertHealthy();
      if ok && running {
        ok := durable.SaveRuntime(k, live, storable);
        if ok {
          SetStatus(k, Saving(Midway));
        } else {
          failure := true;
        }
      }
    }

    /** reconcile, called by operation k: the tick's result is saved before anybody can see it. */
    method SaveReconciled(k: nat, cursor: nat, storable: bool)
      requires Enabled(View(), Reconcile(k, cursor, storable))
      modifies this, durable
      ensures View() == Step(old(View()), Reconcile(k, cursor, storable))
    {
      var ok := durable.SaveRuntime(k, Image(live.mint + [Projection(cursor)], cursor), storable);
      if ok {
        SetStatus(k, Saving(Publish));
      }
    }

    /** The operation returned or threw; either way a last checkpoint follows. */
    method Conclude(k: nat, verdict: Verdict, storable: bool)
      requires Enabled(View(), Finish(k, verdict, storable))
      modifies this, durable
      ensures View() == Step(old(View()), Finish(k, verdict, storable))
    {
      var ok := AssertHealthy();
      if ok && running {
        ok := durable.SaveRuntime(k, live, storable);
        if ok {
          SetStatus(k, Saving(Last(verdict)));
          return;
        }
        failure := true;
        SetStatus(k, Settled(Unavailable));
        running := false;
      } else {
        SetStatus(k, Settled(Unavailable));
        running := false;
      }
    }

    method Saved()
      requires Enabled(View(), Reply)
      modifies this, durable
      ensures View() == Step(old(View()), Reply)
    {
      var k, captured := durable.transaction.owner, durable.transaction.captured;
      var ok := durable.CommitReplied();
      if !ok {
        Rejected(k);
        return;
      }
      match operations[k].status.purpose
      case Publish =>
        live := captured;
        SetStatus(k, Body);
      case Midway =>
        ok := AssertHealthy();
        SetStatus(k, Body);
      case Last(verdict) =>
        ok := AssertHealthy();
        SetStatus(k, Settled(if ok then Acknowledged(verdict) else Unavailable));
        running := false;
    }

    method SaveFailed()
      requires Enabled(View(), Break)
      modifies this, durable
      ensures View() == Step(old(View()), Break)
    {
      var k := durable.transaction.owner;
      durable.QueryFailed();
      Rejected(k);
    }

    /** The await on operation k's save throws. */
    method Rejected(k: nat)
      requires k < |operations| && operations[k].status.Saving?
      modifies this
      ensures View() == SaveThrew(old(View()), k)
    {
      match operations[k].status.purpose
      case Publish =>
        SetStatus(k, Body);
      case Midway =>
        failure := true;
        SetStatus(k, Body);
      case Last(_) =>
        failure := true;
        SetStatus(k, Settled(Unavailable));
        running := false;
    }
  }
}
