/** The transactions over cells, runs and batches, statement by statement. */
module RunStore {
  import opened Collections
  import opened CellRuns
  import opened BulkRuns

  class RunStore {
    var cells: map<CellKey, Cell>
    var runs: map<RunId, Run>
    var rowVersions: map<RowId, nat>
    var ledger: set<RunId>
    var batches: map<BatchId, Batch>

    constructor ()
      ensures State() == Store(map[], map[], map[], {}, map[]) && Sound(State())
    {
      cells, runs, rowVersions, ledger, batches := map[], map[], map[], {}, map[];
    }

    function State(): Store
      reads this
    {
      Store(cells, runs, rowVersions, ledger, batches)
    }

    /** prepareTargetCell followed by the run insert. */
    method QueueCellRun(key: CellKey, runId: RunId, rejected: bool) returns (queued: bool)
      modifies this`cells, this`runs
      ensures queued <==> QueueRun(old(State()), key, runId, rejected).Some?
      ensures State() == QueueRun(old(State()), key, runId, rejected).GetOr(old(State()))
    {
      if rejected { return false; }
      if key !in cells {
        cells := cells[key := Cell(Queued, 1, 0)];
      } else {
        if cells[key].status == Queued || cells[key].status == Running { return false; }
        cells := cells[key := cells[key].(status := Queued)];
      }
      runs := runs[runId := Run(key, RunQueued, 0)];
      return true;
    }

    method SetCellStatus(key: CellKey, status: CellStatus)
      modifies this`cells
      ensures cells == if key in old(cells) then old(cells)[key := old(cells)[key].(status := status)] else old(cells)
    {
      if key in cells { cells := cells[key := cells[key].(status := status)]; }
    }

    method MarkRunning(runId: RunId) returns (claimed: bool)
      modifies this`cells, this`runs
      ensures State() == CellRuns.MarkRunning(old(State()), runId)
      ensures claimed <==> runId in old(runs) && old(runs)[runId].status == RunQueued
    {
      if runId !in runs || runs[runId].status != RunQueued { return false; }
      runs := runs[runId := runs[runId].(status := RunRunning, attempt := runs[runId].attempt + 1)];
      SetCellStatus(runs[runId].cell, Running);
      return true;
    }

    method MarkRetryScheduled(runId: RunId) returns (scheduled: bool)
      modifies this`cells, this`runs
      ensures State() == CellRuns.MarkRetryScheduled(old(State()), runId)
      ensures scheduled <==> IsRunning(old(State()), runId)
    {
      if runId !in runs || runs[runId].status != RunRunning { return false; }
      runs := runs[runId := runs[runId].(status := RunQueued)];
      SetCellStatus(runs[runId].cell, Queued);
      return true;
    }

    method BumpRowVersion(rowId: RowId)
      modifies this`rowVersions
      ensures State() == BumpRow(old(State()), rowId)
    {
      if rowId in rowVersions { rowVersions := rowVersions[rowId := rowVersions[rowId] + 1]; }
    }

    method MarkSucceeded(runId: RunId, value: nat, billed: bool) returns (stored: bool)
      modifies this`cells, this`runs, this`rowVersions, this`ledger
      ensures State() == CellRuns.MarkSucceeded(old(State()), runId, value, billed)
      ensures stored <==> IsRunning(old(State()), runId)
    {
      if runId !in runs || runs[runId].status != RunRunning { return false; }
      runs := runs[runId := runs[runId].(status := RunSucceeded)];
      var key := runs[runId].cell;
      if key in cells { cells := cells[key := Cell(Succeeded, cells[key].version + 1, value)]; }
      BumpRowVersion(key.rowId);
      if billed { ledger := ledger + {runId}; }
      return true;
    }

    method MarkFailed(runId: RunId) returns (stored: bool)
      modifies this`cells, this`runs, this`rowVersions
      ensures State() == CellRuns.MarkFailed(old(State()), runId)
      ensures stored <==> IsRunning(old(State()), runId)
    {
      if runId !in runs || runs[runId].status != RunRunning { return false; }
      runs := runs[runId := runs[runId].(status := RunFailed)];
      SetCellStatus(runs[runId].cell, Failed);
      BumpRowVersion(runs[runId].cell.rowId);
      return true;
    }

    /** cancelBulkRunBatch, for a member allowed to cancel. */
    method CancelBulkRunBatch(id: BatchId) returns (result: CancelResult)
      requires Sound(State()) && id in batches
      modifies this`cells, this`runs, this`batches
      ensures (State(), result) == CancelBatch(old(State()), id)
      ensures Sound(State())
    {
      CancelIsSound(State(), id);
      result := CancelStatements(id);
    }

    method CancelStatements(id: BatchId) returns (result: CancelResult)
      requires id in batches
      modifies this`cells, this`runs, this`batches
      ensures (State(), result) == CancelBatch(old(State()), id)
    {
      hide SkipPending;
      var batch := batches[id];
      if batch.status == BatchCancelled { return CancelDone; }
      if batch.status == BatchCompleted || batch.status == BatchFailed { return CancelConflict; }
      var items, skipped := SkipPendingItems(batch.items);
      var cancelled := set r | r in runs && r in BatchRuns(batch) &&
                       (runs[r].status == RunQueued || runs[r].status == RunRunning);
      assert cancelled == Cancellable(State(), id);
      CancelRunsAndCells(cancelled);
      batches := batches[id := batch.(items := items, status := BatchCancelled,
                                      skippedRowCount := batch.skippedRowCount + skipped)];
      return CancelDone;
    }

    method CancelRunsAndCells(cancelled: set<RunId>)
      requires cancelled <= runs.Keys
      modifies this`cells, this`runs
      ensures runs == CancelRuns(old(runs), cancelled)
      ensures cells == CancelCells(old(cells), set r | r in cancelled :: old(runs)[r].cell)
    {
      var keys := set r | r in cancelled :: runs[r].cell;
      runs := map r | r in runs :: if r in cancelled then runs[r].(status := RunCancelled) else runs[r];
      if cancelled != {} {
        cells := map k | k in cells ::
          if k in keys && (cells[k].status == Queued || cells[k].status == Running) then cells[k].(status := Cancelled)
             else cells[k];
      } else {
        assert keys == {};
        assert CancelCells(cells, keys) == cells;
      }
    }

    /** expandBulkRunBatchChunk. */
    method ExpandBulkRunBatchChunk(id: BatchId, requests: Requests, chunkSize: int) returns (result: ChunkResult)
      requires Sound(State()) && id in batches && RunsAreNew(State(), requests)
      modifies this`cells, this`runs, this`batches
      ensures (State(), result) == ExpandChunk(old(State()), id, requests, SafeChunkSize(chunkSize))
      ensures Sound(State()) && batches.Keys == old(batches).Keys
      ensures Pending(batches[id].items) + result.processed == Pending(old(batches)[id].items)
      ensures result.status == BatchRunning ==> result.processed > 0
    {
      ghost var before := State();
      result := ExpandChunkStatements(id, requests, SafeChunkSize(chunkSize));
      ExpandIsSound(before, id, requests, SafeChunkSize(chunkSize));
      ChunkAccounts(before, id, requests, SafeChunkSize(chunkSize));
    }

    method ExpandChunkStatements(id: BatchId, requests: Requests, safeChunkSize: nat) returns (result: ChunkResult)
      requires id in batches
      modifies this`cells, this`runs, this`batches
      ensures (State(), result) == ExpandChunk(old(State()), id, requests, safeChunkSize)
    {
      hide ExpandAll, Pick;
      var batch := batches[id];
      if batch.status == BatchCompleted || batch.status == BatchFailed || batch.status == BatchCancelled {
        return ChunkResult(0, batch.status);
      }
      if !batch.hasCreator {
        batches := batches[id := batch.(status := BatchFailed)];
        return ChunkResult(0, BatchFailed);
      }
      batches := batches[id := batch.(status := BatchRunning)];
      ghost var started := State();
      assert started == Started(old(State()), id);
      var picked := Pick(batch.items, safeChunkSize);
      var queued, skipped := ExpandPicked(id, requests, picked);
      var processed := queued + skipped;
      var completed := batch.queuedRowCount + batch.skippedRowCount + processed == batch.selectedRowCount;
      var missingItems := picked == [] && !completed;
      var status := if missingItems then BatchFailed else if completed then BatchCompleted else BatchRunning;
      ghost var counted := Counted(State(), id, queued, skipped);
      batches := batches[id := batches[id].(queuedRowCount := batches[id].queuedRowCount + queued,
                                            skippedRowCount := batches[id].skippedRowCount + skipped,
                                              status := status)];
      assert State() == counted.(batches := counted.batches[id := counted.batches[id].(status := status)]);
      return ChunkResult(processed, status);
    }

    /** The loop over the picked items; the batch counters are written once,
        by the caller. */
    method ExpandPicked(id: BatchId, requests: Requests, picked: seq<nat>) returns (queued: nat, skipped: nat)
      requires id in batches && ArePositions(picked, batches[id].items)
      modifies this`cells, this`runs, this`batches
      ensures queued + skipped == |picked|
      ensures id in batches && Counted(State(), id, queued, skipped) == ExpandAll(old(State()), id, requests, picked)
    {
      hide ExpandOne;
      queued, skipped := 0, 0;
      ghost var started := State();
      CountingNothing(started, id);
      for n := 0 to |picked|
        invariant ArePositions(picked[..n], started.batches[id].items)
        invariant queued + skipped == n
        invariant id in batches && |batches[id].items| == |started.batches[id].items|
        invariant Counted(State(), id, queued, skipped) == ExpandAll(started, id, requests, picked[..n])
      {
        assert picked[..n + 1][..n] == picked[..n];
        var run := ExpandItem(id, requests, picked[n], queued, skipped);
        if run { queued := queued + 1; } else { skipped := skipped + 1; }
      }
      assert picked[..|picked|] == picked;
    }

    method ExpandItem(id: BatchId, requests: Requests, k: nat, ghost queued: nat,
                      ghost skipped: nat) returns (run: bool)
      requires id in batches && k < |batches[id].items|
      modifies this`cells, this`runs, this`batches
      ensures id in batches && |batches[id].items| == |old(batches)[id].items|
      ensures Counted(State(), id, if run then queued + 1 else queued, if run then skipped else skipped + 1) ==
        ExpandOne(Counted(old(State()), id, queued, skipped), id, requests, k)
    {
      var batch := batches[id];
      var item := batch.items[k];
      var key := CellKey(item.rowId, batch.columnId);
      var status := if key in cells then Some(cells[key].status) else None;
      run := false;
      if ShouldSelectCell(status, batch.mode) {
        run := QueueCellRun(key, requests.newRun(k), item.rowId in requests.rejected);
      }
      if run {
        var taken := item.(status := ItemQueued, runId := Some(requests.newRun(k)));
        batches := batches[id := batch.(items := batch.items[k := taken])];
      } else {
        batches := batches[id := batch.(items := batch.items[k := item.(status := ItemSkipped)])];
      }
      assert Counted(State(), id, if run then queued + 1 else queued, if run then skipped else skipped + 1).batches ==
        ExpandOne(Counted(old(State()), id, queued, skipped), id, requests, k).batches;
    }

    /** apps/worker/src/expand-bulk-run.ts: chunk after chunk until the batch
        stops running.  It ends for every chunk size and every sequence of
        answers, because each running chunk leaves fewer items pending. */
    method ExpandBulkRun(id: BatchId, rejectedAt: nat -> set<RowId>, chunkSize: int) returns (status: BatchStatus)
      requires Sound(State()) && id in batches
      modifies this`cells, this`runs, this`batches
      ensures Sound(State()) && batches.Keys == old(batches).Keys
      ensures status == batches[id].status && status != BatchRunning && status != BatchQueued
      ensures Accounted(batches[id]) == Accounted(old(batches)[id])
    {
      var round := 0;
      while true
        invariant Sound(State()) && batches.Keys == old(batches).Keys
        invariant Accounted(batches[id]) == Accounted(old(batches)[id])
        decreases Pending(batches[id].items)
      {
        var base := FirstUnusedRun();
        var requests := Requests(rejectedAt(round), k => base + k);
        ChunkAccounts(State(), id, requests, SafeChunkSize(chunkSize));
        var result := ExpandBulkRunBatchChunk(id, requests, chunkSize);
        if result.status != BatchRunning { return result.status; }
        round := round + 1;
      }
    }

    /** Stands for crypto.randomUUID: an identifier no run has. */
    method FirstUnusedRun() returns (base: RunId)
      ensures forall r :: r in runs ==> r < base
    {
      base := 0;
      var rest := runs.Keys;
      while rest != {}
        invariant forall r :: r in runs ==> r in rest || r < base
      {
        var r :| r in rest;
        rest := rest - {r};
        if r >= base { base := r + 1; }
      }
    }
  }

  method SkipPendingItems(before: seq<Item>) returns (items: seq<Item>, skipped: nat)
    ensures items == SkipPending(before) && skipped == Pending(before)
  {
    items, skipped := [], 0;
    for k := 0 to |before|
      invariant items == SkipPending(before[..k])
      invariant skipped == Pending(before[..k])
    {
      assert before[..k + 1][..k] == before[..k];
      if before[k].status == ItemPending {
        items := items + [before[k].(status := ItemSkipped)];
        skipped := skipped + 1;
      } else {
        items := items + [before[k]];
      }
    }
    assert before[..|before|] == before;
  }

  lemma CountingNothing(s: Store, id: BatchId)
    requires id in s.batches
    ensures Counted(s, id, 0, 0) == s
  {
    assert s.batches[id := s.batches[id]] == s.batches;
  }

  function SafeChunkSize(chunkSize: int): (n: nat)
    ensures 1 <= n <= 100
  {
    if chunkSize < 1 then 1 else if chunkSize > 100 then 100 else chunkSize
  }

  /** The store with the loop counters added to the batch. */
  ghost function Counted(s: Store, id: BatchId, queued: nat, skipped: nat): Store
    requires id in s.batches
  {
    s.(batches := s.batches[id := s.batches[id].(queuedRowCount := s.batches[id].queuedRowCount + queued,
                                                 skippedRowCount := s.batches[id].skippedRowCount + skipped)])
  }
}
