/** What bulk runs and their cell runs do to cells, read from the store alone
    (packages/db/src/bulk-runs.ts:110-577; packages/db/src/enrichments.ts:
    872-939; apps/worker/src/execute-cell-run.ts:140-729). */
module BulkOutcomes {
  import opened Collections
  import opened CellRuns
  import opened BulkRuns

  // ---- cancellation -----------------------------------------------------------

  /** Some item of the batch names the run. */
  ghost predicate Names(batch: Batch, runId: RunId) {
    exists k :: 0 <= k < |batch.items| && batch.items[k].runId == Some(runId)
  }

  /** A run of the batch that is queued or running. */
  ghost predicate IsUnderWay(s: Store, id: BatchId, runId: RunId)
    requires id in s.batches
  {
    runId in s.runs && Names(s.batches[id], runId) &&
    (s.runs[runId].status == RunQueued || s.runs[runId].status == RunRunning)
  }

  lemma NamedRuns(batch: Batch, runId: RunId)
    ensures runId in BatchRuns(batch) <==> Names(batch, runId)
  {
    if Names(batch, runId) {
      var k :| 0 <= k < |batch.items| && batch.items[k].runId == Some(runId);
      assert batch.items[k] in batch.items;
    }
  }

  lemma CancellableMeans(s: Store, id: BatchId)
    requires id in s.batches
    ensures forall r :: r in Cancellable(s, id) <==> IsUnderWay(s, id, r)
  {
    forall r ensures r in Cancellable(s, id) <==> IsUnderWay(s, id, r) { NamedRuns(s.batches[id], r); }
  }

  /** Cancelling an open batch cancels every queued or running run an item names,
      with its cell, and no other run or cell; values, versions and the ledger
      stay.  A completed or failed batch is a conflict, a cancelled one stays. */
  lemma CancelStopsItsRuns(s: Store, id: BatchId)
    requires Agreement(s) && id in s.batches
    ensures var (after, result) := CancelBatch(s, id);
            (result == CancelConflict <==>
             s.batches[id].status == BatchCompleted || s.batches[id].status == BatchFailed) &&
            (s.batches[id].status.Terminal() ==> after == s) &&
            (!s.batches[id].status.Terminal() ==>
               after.runs.Keys == s.runs.Keys && after.cells.Keys == s.cells.Keys &&
               (forall r :: r in s.runs ==>
                  after.runs[r] == if IsUnderWay(s, id, r) then s.runs[r].(status := RunCancelled) else s.runs[r]) &&
               (forall r :: r in s.runs && IsUnderWay(s, id, r) ==>
                  after.cells[s.runs[r].cell] == s.cells[s.runs[r].cell].(status := Cancelled)) &&
               (forall key :: key in s.cells &&
                              (forall r :: r in s.runs && IsUnderWay(s, id, r) ==> s.runs[r].cell != key) ==>
                  after.cells[key] == s.cells[key]) &&
               after.rowVersions == s.rowVersions && after.ledger == s.ledger)
  {
    CancellableMeans(s, id);
    hide IsUnderWay, BatchRuns, SkipPending;
    if !s.batches[id].status.Terminal() {
      var cancelled := Cancellable(s, id);
      forall r | r in s.runs && IsUnderWay(s, id, r) ensures s.cells[s.runs[r].cell].status.Active() {
        assert AgreesAt(s.cells, s.runs, s.runs[r].cell);
        assert r in ActiveRuns(s.runs, s.runs[r].cell);
      }
    }
  }

  /** Whatever happens after a cancellation, no result of a run its batch names
      changes anything. */
  lemma CancelledRunsStaySilent(s: Store, id: BatchId, events: seq<Event>, runId: RunId, value: nat, billed: bool)
    requires Sound(s) && id in s.batches && CancelBatch(s, id).1 == CancelDone && !s.batches[id].status.Terminal()
    requires runId in s.runs && Names(s.batches[id], runId)
    requires AllEnabled(CancelBatch(s, id).0, events)
    requires forall n :: 0 <= n < |events| ==> !(events[n].Request? && events[n].runId == runId)
    requires forall n :: 0 <= n < |events| && events[n].Expand? ==> forall k :: events[n].requests.newRun(k) != runId
    ensures var t := RunEvents(CancelBatch(s, id).0, events);
            MarkSucceeded(t, runId, value, billed) == t && MarkFailed(t, runId) == t &&
            MarkRetryScheduled(t, runId) == t && MarkRunning(t, runId) == t
  {
    hide Sound, CancelBatch, AllEnabled, RunEvents, MarkSucceeded, MarkFailed, MarkRetryScheduled, MarkRunning, Names;
    CancelIsSound(s, id);
    NamedRunIsOver(s, id, runId);
    LateResultsChangeNothing(CancelBatch(s, id).0, events, runId, value, billed);
  }

  lemma NamedRunIsOver(s: Store, id: BatchId, runId: RunId)
    requires Sound(s) && id in s.batches && !s.batches[id].status.Terminal()
    requires runId in s.runs && Names(s.batches[id], runId)
    ensures var after := CancelBatch(s, id).0; runId in after.runs && !after.runs[runId].status.Active()
  {
    hide CancelBatch, Names;
    CancelStopsItsRuns(s, id);
  }

  // ---- expansion --------------------------------------------------------------

  /** A cell that gets a run: none there yet, or one neither queued nor running,
      nor succeeded when only pending cells were asked for. */
  ghost predicate IsSelectable(s: Store, key: CellKey, mode: Mode) {
    key in s.cells ==>
      s.cells[key].status != Queued && s.cells[key].status != Running &&
      (mode == PendingOnly ==> s.cells[key].status != Succeeded)
  }

  function KeyOf(batch: Batch, k: nat): CellKey
    requires k < |batch.items|
  {
    CellKey(batch.items[k].rowId, batch.columnId)
  }

  ghost predicate GetsARun(s: Store, batch: Batch, requests: Requests, k: nat)
    requires k < |batch.items|
  {
    IsSelectable(s, KeyOf(batch, k), batch.mode) && batch.items[k].rowId !in requests.rejected
  }

  /** The item as expansion leaves it. */
  ghost predicate IsExpanded(before: Item, after: Item, queued: bool, runId: RunId) {
    after == if queued then Item(before.rowId, ItemQueued, Some(runId)) else before.(status := ItemSkipped)
  }

  /** A queued run of the cell, and the cell waiting for it with its old value. */
  ghost predicate IsQueuedFor(s: Store, after: Store, key: CellKey, runId: RunId) {
    runId in after.runs && after.runs[runId] == Run(key, RunQueued, 0) &&
    key in after.cells &&
    after.cells[key] == if key in s.cells then s.cells[key].(status := Queued) else Cell(Queued, 1, 0)
  }

  lemma ExpandOneMeans(s: Store, id: BatchId, requests: Requests, k: nat)
    requires id in s.batches && k < |s.batches[id].items|
    ensures var after, batch := ExpandOne(s, id, requests, k), s.batches[id];
            id in after.batches && |after.batches[id].items| == |batch.items| &&
            after.batches[id].columnId == batch.columnId && after.batches[id].mode == batch.mode &&
            IsExpanded(batch.items[k], after.batches[id].items[k], GetsARun(s, batch, requests, k),
                       requests.newRun(k)) &&
            (forall j :: 0 <= j < |batch.items| && j != k ==> after.batches[id].items[j] == batch.items[j]) &&
            (GetsARun(s, batch, requests, k) ==> IsQueuedFor(s, after, KeyOf(batch, k), requests.newRun(k))) &&
            (!GetsARun(s, batch, requests, k) ==> after.cells == s.cells && after.runs == s.runs) &&
            (forall key :: key != KeyOf(batch, k) ==> (key in after.cells <==> key in s.cells)) &&
            (forall key :: key != KeyOf(batch, k) && key in s.cells ==> after.cells[key] == s.cells[key]) &&
            (forall r :: r in s.runs && r != requests.newRun(k) ==> r in after.runs && after.runs[r] == s.runs[r])
  {
  }

  ghost predicate RowsAreDistinct(batch: Batch) {
    forall i, j :: 0 <= i < j < |batch.items| ==> batch.items[i].rowId != batch.items[j].rowId
  }

  /** What a prefix of the loop has made of the items, of their cells and runs. */
  ghost predicate ExpandedSoFar(s: Store, id: BatchId, requests: Requests, picked: seq<nat>, after: Store)
    requires id in s.batches
  {
    var batch := s.batches[id];
    id in after.batches && |after.batches[id].items| == |batch.items| &&
    after.batches[id].columnId == batch.columnId && after.batches[id].mode == batch.mode &&
    forall k :: 0 <= k < |batch.items| ==>
      if k in picked then
        IsExpanded(batch.items[k], after.batches[id].items[k], GetsARun(s, batch, requests, k), requests.newRun(k)) &&
        (GetsARun(s, batch, requests, k) ==> IsQueuedFor(s, after, KeyOf(batch, k), requests.newRun(k)))
      else
        after.batches[id].items[k] == batch.items[k] &&
        (KeyOf(batch, k) in after.cells <==> KeyOf(batch, k) in s.cells) &&
        (KeyOf(batch, k) in s.cells ==> after.cells[KeyOf(batch, k)] == s.cells[KeyOf(batch, k)])
  }

  lemma {:induction false} ExpandAllMeans(s: Store, id: BatchId, requests: Requests, picked: seq<nat>)
    requires RunsAreNew(s, requests) && id in s.batches && RowsAreDistinct(s.batches[id])
    requires ArePositions(picked, s.batches[id].items) && Ascending(picked)
    ensures ExpandedSoFar(s, id, requests, picked, ExpandAll(s, id, requests, picked))
  {
    if picked != [] {
      var n := |picked| - 1;
      var before := ExpandAll(s, id, requests, picked[..n]);
      assert ArePositions(picked[..n], s.batches[id].items);
      ExpandAllMeans(s, id, requests, picked[..n]);
      assert picked == picked[..n] + [picked[n]] && picked[n] !in picked[..n];
      ExpandNextMeans(s, id, requests, picked[..n], picked[n], before);
    }
  }

  lemma ExpandNextMeans(s: Store, id: BatchId, requests: Requests, done: seq<nat>, k: nat, before: Store)
    requires RunsAreNew(s, requests) && id in s.batches && RowsAreDistinct(s.batches[id])
    requires k < |s.batches[id].items| && k !in done && ExpandedSoFar(s, id, requests, done, before)
    ensures ExpandedSoFar(s, id, requests, done + [k], ExpandOne(before, id, requests, k))
  {
    hide ExpandOne;
    ExpandOneMeans(before, id, requests, k);
    var batch, after := s.batches[id], ExpandOne(before, id, requests, k);
    forall j | 0 <= j < |batch.items| && j != k ensures KeyOf(batch, j) != KeyOf(batch, k) {}
    assert GetsARun(before, before.batches[id], requests, k) <==> GetsARun(s, batch, requests, k);
    forall j | 0 <= j < |batch.items| && j in done && GetsARun(s, batch, requests, j)
      ensures IsQueuedFor(s, after, KeyOf(batch, j), requests.newRun(j))
    {
      assert requests.newRun(j) != requests.newRun(k);
    }
  }

  /** The picked positions are the first pending ones. */
  lemma {:induction false} PickTakesTheFirst(items: seq<Item>, limit: nat, k: nat)
    requires k < |items|
    ensures k in Pick(items, limit) <==> items[k].status == ItemPending && Pending(items[..k]) < limit
  {
    var n := |items| - 1;
    PickCounts(items[..n], limit);
    if k < n {
      PickTakesTheFirst(items[..n], limit, k);
      assert items[..n][..k] == items[..k] && items[..n][k] == items[k];
    } else {
      forall i | 0 <= i < |Pick(items[..n], limit)| ensures Pick(items[..n], limit)[i] != n {}
    }
  }

  /** A chunk of an open batch expands its first pending items, as many as the
      chunk holds: an item gets a queued run exactly when its cell can be selected
      in the batch's mode and the request is not rejected, and is skipped
      otherwise; later items, and the cells of items without a run, stay. */
  lemma ChunkSelectsCells(s: Store, id: BatchId, requests: Requests, chunk: nat, k: nat)
    requires RunsAreNew(s, requests) && id in s.batches && RowsAreDistinct(s.batches[id])
    requires !s.batches[id].status.Terminal() && s.batches[id].hasCreator && k < |s.batches[id].items|
    ensures var batch, after := s.batches[id], ExpandChunk(s, id, requests, chunk).0;
            id in after.batches && k < |after.batches[id].items| &&
            if batch.items[k].status == ItemPending && Pending(batch.items[..k]) < chunk then
              IsExpanded(batch.items[k], after.batches[id].items[k], GetsARun(s, batch, requests, k),
                         requests.newRun(k)) &&
              (GetsARun(s, batch, requests, k) ==> IsQueuedFor(s, after, KeyOf(batch, k), requests.newRun(k)))
            else
              after.batches[id].items[k] == batch.items[k] &&
              (KeyOf(batch, k) in s.cells ==>
                 KeyOf(batch, k) in after.cells && after.cells[KeyOf(batch, k)] == s.cells[KeyOf(batch, k)])
  {
    hide ExpandAll, Pick, Pending;
    var batch, started := s.batches[id], Started(s, id);
    var picked := Pick(batch.items, chunk);
    PickTakesTheFirst(batch.items, chunk, k);
    ExpandAllMeans(started, id, requests, picked);
  }

  lemma ChunkLeaves(s: Store, id: BatchId, requests: Requests, chunk: nat)
    requires Agreement(s) && RunsAreNew(s, requests) && id in s.batches && BatchIsSound(s.batches[id]) && chunk > 0
    ensures var (after, result) := ExpandChunk(s, id, requests, chunk);
            id in after.batches && result.status == after.batches[id].status &&
            Pending(after.batches[id].items) + result.processed == Pending(s.batches[id].items)
  {
    hide Agreement, BatchIsSound, RunsAreNew, ExpandChunk, Pending;
    ChunkAccounts(s, id, requests, chunk);
  }

  lemma ChunkAnswers(s: Store, id: BatchId, requests: Requests, chunk: nat)
    requires id in s.batches && !s.batches[id].status.Terminal() && s.batches[id].hasCreator && chunk > 0
    ensures var batch, result := s.batches[id], ExpandChunk(s, id, requests, chunk).1;
            result.processed == (if Pending(batch.items) < chunk then Pending(batch.items) else chunk) &&
            result.status ==
            if batch.queuedRowCount + batch.skippedRowCount + result.processed == batch.selectedRowCount
            then BatchCompleted
            else if result.processed == 0 then BatchFailed else BatchRunning
  {
    hide ExpandAll, Pick, Pending;
    PickCounts(s.batches[id].items, chunk);
  }

  /** While no row of the batch was deleted, a chunk completes it exactly when it
      leaves nothing pending and otherwise reports it running; a batch whose
      creator is gone fails. */
  lemma ChunkStatus(s: Store, id: BatchId, requests: Requests, chunk: nat)
    requires Agreement(s) && RunsAreNew(s, requests) && id in s.batches && BatchIsSound(s.batches[id]) && chunk > 0
    requires Tallied(s.batches[id]) && !s.batches[id].status.Terminal()
    ensures var (after, result) := ExpandChunk(s, id, requests, chunk);
            id in after.batches && result.status == after.batches[id].status &&
            result.status == if !s.batches[id].hasCreator then BatchFailed
                             else if Pending(after.batches[id].items) == 0 then BatchCompleted
                             else BatchRunning
  {
    CountsAddUp(s.batches[id].items);
    ChunkLeaves(s, id, requests, chunk);
    if s.batches[id].hasCreator {
      hide Agreement, BatchIsSound, RunsAreNew, ExpandChunk, Pending, Count;
      ChunkAnswers(s, id, requests, chunk);
    }
  }

  /** A new batch has one pending item for every selected row, in order, and
      counts them; without rows nothing is created. */
  lemma CreatedBatch(s: Store, id: BatchId, columnId: ColumnId, mode: Mode, rows: seq<RowId>)
    ensures CreateBatch(s, id, columnId, mode, rows).None? <==> rows == []
    ensures rows != [] ==>
              var after := CreateBatch(s, id, columnId, mode, rows).value;
              id in after.batches && after == s.(batches := after.batches) &&
              after.batches - {id} == s.batches - {id} &&
              var batch := after.batches[id];
              batch.columnId == columnId && batch.mode == mode && batch.status == BatchQueued &&
              batch.selectedRowCount == |rows| && batch.queuedRowCount == batch.skippedRowCount == 0 &&
              |batch.items| == |rows| && forall k :: 0 <= k < |rows| ==>
                batch.items[k] == Item(rows[k], ItemPending, None)
  {
  }

  // ---- results ----------------------------------------------------------------

  /** The event is a result of a running run for this cell. */
  ghost predicate Stores(s: Store, event: Event, key: CellKey) {
    event.Succeed? && event.runId in s.runs && s.runs[event.runId].status == RunRunning &&
    s.runs[event.runId].cell == key
  }

  /** The event ends a running run of the row, well or badly. */
  ghost predicate Ends(s: Store, event: Event, rowId: RowId) {
    (event.Succeed? || event.Fail?) && event.runId in s.runs && s.runs[event.runId].status == RunRunning &&
    s.runs[event.runId].cell.rowId == rowId
  }

  /** Only a result of a running run changes a cell's value and version; only the
      end of a running run advances the row; only a billed result that is stored
      enters the ledger; and nothing but the deletion of its row removes a cell. */
  lemma OnlyResultsWrite(s: Store, event: Event, key: CellKey)
    requires Sound(s) && Enabled(s, event) && key in s.cells && !(event.RowDeleted? && event.rowId == key.rowId)
    ensures var after := Step(s, event);
            key in after.cells &&
            (if Stores(s, event, key) then
               after.cells[key] == Cell(Succeeded, s.cells[key].version + 1, event.value)
             else after.cells[key].value == s.cells[key].value && after.cells[key].version == s.cells[key].version) &&
            (key.rowId in s.rowVersions ==>
               key.rowId in after.rowVersions &&
               after.rowVersions[key.rowId] == s.rowVersions[key.rowId] + if Ends(s, event, key.rowId) then 1 else 0)
  {
    hide Agreement, BatchIsSound, CreateBatch, ExpandChunk, CancelBatch;
    match event
    case Expand(id, requests, chunk) => ExpandingKeepsValues(s, id, requests, chunk, key);
    case Cancel(id) => CancellingKeepsValues(s, id, key);
    case Create(id, columnId, mode, rows) => CreatedBatch(s, id, columnId, mode, rows);
    case _ =>
  }

  lemma CancellingKeepsValues(s: Store, id: BatchId, key: CellKey)
    requires id in s.batches && key in s.cells
    ensures var after := CancelBatch(s, id).0;
            key in after.cells && after.cells[key].value == s.cells[key].value &&
            after.cells[key].version == s.cells[key].version && after.rowVersions == s.rowVersions &&
            after.ledger == s.ledger
  {
  }

  lemma {:induction false} ExpandingAllKeepsValues(s: Store, id: BatchId, requests: Requests, picked: seq<nat>,
                                                   key: CellKey)
    requires id in s.batches && ArePositions(picked, s.batches[id].items) && key in s.cells
    ensures var after := ExpandAll(s, id, requests, picked);
            key in after.cells && after.cells[key].value == s.cells[key].value &&
            after.cells[key].version == s.cells[key].version && after.rowVersions == s.rowVersions &&
            after.ledger == s.ledger
  {
    if picked != [] {
      var n := |picked| - 1;
      assert ArePositions(picked[..n], s.batches[id].items);
      ExpandingAllKeepsValues(s, id, requests, picked[..n], key);
    }
  }

  lemma ExpandingKeepsValues(s: Store, id: BatchId, requests: Requests, chunk: nat, key: CellKey)
    requires id in s.batches && key in s.cells
    ensures var after := ExpandChunk(s, id, requests, chunk).0;
            key in after.cells && after.cells[key].value == s.cells[key].value &&
            after.cells[key].version == s.cells[key].version && after.rowVersions == s.rowVersions &&
            after.ledger == s.ledger
  {
    hide ExpandAll, Pick;
    ExpandingAllKeepsValues(Started(s, id), id, requests, Pick(s.batches[id].items, chunk), key);
  }

  /** Only a billed result of a running run enters the ledger. */
  lemma OnlyBilledResultsAreCharged(s: Store, event: Event)
    requires Enabled(s, event)
    ensures Step(s, event).ledger == s.ledger +
            if event.Succeed? && event.billed && event.runId in s.runs && s.runs[event.runId].status == RunRunning
            then {event.runId} else {}
  {
    hide CancelBatch, ExpandChunk, CreateBatch;
    match event
    case Expand(id, requests, chunk) => ExpandingCharges(s, id, requests, chunk);
    case Cancel(id) => CancellingCharges(s, id);
    case Create(id, columnId, mode, rows) => CreatedBatch(s, id, columnId, mode, rows);
    case _ =>
  }

  lemma CancellingCharges(s: Store, id: BatchId)
    requires id in s.batches
    ensures CancelBatch(s, id).0.ledger == s.ledger
  {
  }

  lemma {:induction false} ExpandingAllCharges(s: Store, id: BatchId, requests: Requests, picked: seq<nat>)
    requires id in s.batches && ArePositions(picked, s.batches[id].items)
    ensures ExpandAll(s, id, requests, picked).ledger == s.ledger
  {
    if picked != [] {
      assert ArePositions(picked[..|picked| - 1], s.batches[id].items);
      ExpandingAllCharges(s, id, requests, picked[..|picked| - 1]);
    }
  }

  lemma ExpandingCharges(s: Store, id: BatchId, requests: Requests, chunk: nat)
    requires id in s.batches
    ensures ExpandChunk(s, id, requests, chunk).0.ledger == s.ledger
  {
    hide ExpandAll, Pick;
    ExpandingAllCharges(Started(s, id), id, requests, Pick(s.batches[id].items, chunk));
  }

  /** The cell status that goes with a run's status. */
  function CellStatusOf(status: RunStatus): CellStatus {
    match status
    case RunQueued => Queued
    case RunRunning => Running
    case RunSucceeded => Succeeded
    case RunFailed => Failed
    case RunCancelled => Cancelled
  }

  /** Starting takes a queued run, and retrying, success and failure a running
      one; the run moves on, a start counts an attempt, and its cell follows. */
  lemma RunsMoveOn(s: Store, runId: RunId, value: nat, billed: bool)
    requires Agreement(s) && runId in s.runs
    ensures Moves(s, MarkRunning(s, runId), runId, RunQueued, RunRunning, 1)
    ensures Moves(s, MarkRetryScheduled(s, runId), runId, RunRunning, RunQueued, 0)
    ensures Moves(s, MarkSucceeded(s, runId, value, billed), runId, RunRunning, RunSucceeded, 0)
    ensures Moves(s, MarkFailed(s, runId), runId, RunRunning, RunFailed, 0)
  {
    hide AgreesAt;
  }

  ghost predicate Moves(s: Store, after: Store, runId: RunId, from: RunStatus, to: RunStatus, attempts: nat)
    requires runId in s.runs
  {
    var run := s.runs[runId];
    if run.status != from then after == s
    else
      after.runs == s.runs[runId := Run(run.cell, to, run.attempt + attempts)] &&
      after.cells.Keys == s.cells.Keys && run.cell in after.cells && after.cells[run.cell].status == CellStatusOf(to) &&
      (forall key :: key in s.cells && key != run.cell ==> after.cells[key] == s.cells[key]) &&
      after.batches == s.batches
  }

  /** A request outside a batch queues a run exactly when its cell is not queued
      or running and it is not rejected. */
  lemma RequestsQueue(s: Store, key: CellKey, runId: RunId, rejected: bool)
    requires runId !in s.runs
    ensures QueueRun(s, key, runId, rejected).Some? <==> !rejected && IsSelectable(s, key, All)
    ensures QueueRun(s, key, runId, rejected).Some? ==>
              var after := QueueRun(s, key, runId, rejected).value;
              IsQueuedFor(s, after, key, runId) && after.runs - {runId} == s.runs &&
              after.cells - {key} == s.cells - {key} && after == s.(runs := after.runs, cells := after.cells)
  {
  }

  // ---- deleting a row ---------------------------------------------------------

  /** The items of other rows stay, in order. */
  lemma {:induction false} ItemsOfOtherRows(left: seq<Item>, right: seq<Item>, rowId: RowId)
    ensures forall item :: item in Without(left, rowId) <==> item in left && item.rowId != rowId
    ensures Without(left + right, rowId) == Without(left, rowId) + Without(right, rowId)
    decreases |left| + |right|
  {
    if right != [] {
      var n := |right| - 1;
      ItemsOfOtherRows(left, right[..n], rowId);
      assert (left + right)[..|left + right| - 1] == left + right[..n];
    } else {
      assert left + right == left;
      if left != [] {
        ItemsOfOtherRows(left[..|left| - 1], [], rowId);
        assert left == left[..|left| - 1] + [left[|left| - 1]];
      }
    }
  }

  /** A deleted row takes its cells, their runs and its items with it; everything
      else stays, the counters of its batches included. */
  lemma DeletedRowIsGone(s: Store, rowId: RowId)
    ensures var after := DeleteRow(s, rowId);
            (forall key :: key in after.cells <==> key in s.cells && key.rowId != rowId) &&
            (forall key :: key in after.cells ==> after.cells[key] == s.cells[key]) &&
            (forall r :: r in after.runs <==> r in s.runs && s.runs[r].cell.rowId != rowId) &&
            (forall r :: r in after.runs ==> after.runs[r] == s.runs[r]) &&
            after.rowVersions == s.rowVersions - {rowId} && after.ledger == s.ledger &&
            after.batches.Keys == s.batches.Keys
    ensures forall b :: b in s.batches ==> LosesItems(s.batches[b], DeleteRow(s, rowId).batches[b], rowId)
  {
    hide Without;
    forall b | b in s.batches ensures LosesItems(s.batches[b], DeleteRow(s, rowId).batches[b], rowId) {
      ItemsOfOtherRows(s.batches[b].items, [], rowId);
    }
  }

  /** The batch lost exactly the row's items. */
  ghost predicate LosesItems(before: Batch, after: Batch, rowId: RowId) {
    after == before.(items := after.items) &&
    forall item :: item in after.items <==> item in before.items && item.rowId != rowId
  }
}
