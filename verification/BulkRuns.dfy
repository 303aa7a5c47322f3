/** Bulk-run batches (packages/db/src/bulk-runs.ts): creation, chunked
    expansion, cancellation and the cascade that deletes a row. */
module BulkRuns {
  import opened Collections
  import opened CellRuns

  // ---- counting items ---------------------------------------------------------

  function Pending(items: seq<Item>): nat {
    if items == [] then 0
    else Pending(items[..|items| - 1]) + if items[|items| - 1].status == ItemPending then 1 else 0
  }

  lemma {:induction false} PendingAfterUpdate(items: seq<Item>, k: nat, item: Item)
    requires k < |items|
    ensures Pending(items[k := item]) + (if items[k].status == ItemPending then 1 else 0) ==
            Pending(items) + (if item.status == ItemPending then 1 else 0)
  {
    var n := |items| - 1;
    if k == n {
      assert items[k := item][..n] == items[..n];
    } else {
      assert items[k := item][..n] == items[..n][k := item];
      PendingAfterUpdate(items[..n], k, item);
    }
  }

  lemma {:induction false} NoPendingMeansNone(items: seq<Item>)
    ensures Pending(items) == 0 <==> forall k :: 0 <= k < |items| ==> items[k].status != ItemPending
  {
    if items != [] { NoPendingMeansNone(items[..|items| - 1]); }
  }

  /** Everything a batch has accounted for or still has to. */
  function Accounted(batch: Batch): nat {
    batch.queuedRowCount + batch.skippedRowCount + Pending(batch.items)
  }

  /** The counters never exceed the selection, and a completed or cancelled
      batch has nothing left to expand. */
  ghost predicate BatchIsSound(batch: Batch) {
    Accounted(batch) <= batch.selectedRowCount &&
    (batch.status == BatchCompleted || batch.status == BatchCancelled ==> Pending(batch.items) == 0)
  }

  ghost predicate Sound(s: Store) {
    Agreement(s) && forall b :: b in s.batches ==> BatchIsSound(s.batches[b])
  }

  // ---- creation ---------------------------------------------------------------

  function NewItems(rows: seq<RowId>): seq<Item> {
    seq(|rows|, k requires 0 <= k < |rows| => Item(rows[k], ItemPending, None))
  }

  function CreateBatch(s: Store, id: BatchId, columnId: ColumnId, mode: Mode, rows: seq<RowId>): Option<Store> {
    if rows == [] then None
    else Some(s.(batches := s.batches[id := Batch(columnId, mode, true, |rows|, 0, 0, BatchQueued, NewItems(rows))]))
  }

  lemma {:induction false} NewItemsArePending(rows: seq<RowId>)
    ensures Pending(NewItems(rows)) == |rows|
  {
    if rows != [] {
      NewItemsArePending(rows[..|rows| - 1]);
      assert NewItems(rows)[..|rows| - 1] == NewItems(rows[..|rows| - 1]);
    }
  }

  // ---- expansion --------------------------------------------------------------

  /** What queueEnrichmentCellRunInTransaction answers for a row before it
      writes, and the identifier the run of the k-th item would get. */
  datatype Requests = Requests(rejected: set<RowId>, newRun: nat -> RunId)

  ghost predicate RunsAreNew(s: Store, requests: Requests) {
    (forall k :: requests.newRun(k) !in s.runs) &&
    (forall i, j :: requests.newRun(i) == requests.newRun(j) ==> i == j)
  }

  ghost predicate ArePositions(picked: seq<nat>, items: seq<Item>) {
    forall i :: 0 <= i < |picked| ==> picked[i] < |items|
  }

  /** The first `limit` pending positions, in sequence order. */
  function Pick(items: seq<Item>, limit: nat): (picked: seq<nat>)
    ensures |picked| <= limit
    ensures ArePositions(picked, items) && Ascending(picked)
    ensures forall i :: 0 <= i < |picked| ==> items[picked[i]].status == ItemPending
  {
    if items == [] then []
    else
      var n := |items| - 1;
      var picked := Pick(items[..n], limit);
      if |picked| < limit && items[n].status == ItemPending then picked + [n] else picked
  }

  lemma {:induction false} PickCounts(items: seq<Item>, limit: nat)
    ensures |Pick(items, limit)| == if Pending(items) < limit then Pending(items) else limit
  {
    if items != [] { PickCounts(items[..|items| - 1], limit); }
  }

  /** One item of the loop: skip it or give it a run. */
  function ExpandOne(s: Store, id: BatchId, requests: Requests, k: nat): Store
    requires id in s.batches && k < |s.batches[id].items|
  {
    var batch := s.batches[id];
    var item := batch.items[k];
    var key := CellKey(item.rowId, batch.columnId);
    var status := if key in s.cells then Some(s.cells[key].status) else None;
    var queued := if ShouldSelectCell(status, batch.mode)
                  then QueueRun(s, key, requests.newRun(k), item.rowId in requests.rejected)
                  else None;
    match queued
    case None => s.(batches := s.batches[id := batch.(items := batch.items[k := item.(status := ItemSkipped)],
                                                      skippedRowCount := batch.skippedRowCount + 1)])
    case Some(t) =>
      var taken := item.(status := ItemQueued, runId := Some(requests.newRun(k)));
      t.(batches := s.batches[id := batch.(items := batch.items[k := taken],
                                           queuedRowCount := batch.queuedRowCount + 1)])
  }

  function ExpandAll(s: Store, id: BatchId, requests: Requests, picked: seq<nat>): (after: Store)
    requires id in s.batches && ArePositions(picked, s.batches[id].items)
    ensures id in after.batches && |after.batches[id].items| == |s.batches[id].items|
  {
    if picked == [] then s
    else
      var n := |picked| - 1;
      assert ArePositions(picked[..n], s.batches[id].items);
      ExpandOne(ExpandAll(s, id, requests, picked[..n]), id, requests, picked[n])
  }

  datatype ChunkResult = ChunkResult(processed: nat, status: BatchStatus)

  function Started(s: Store, id: BatchId): Store
    requires id in s.batches
  {
    s.(batches := s.batches[id := s.batches[id].(status := BatchRunning)])
  }

  /** expandBulkRunBatchChunk with the chunk size already clamped. */
  function ExpandChunk(s: Store, id: BatchId, requests: Requests, chunk: nat): (Store, ChunkResult)
    requires id in s.batches
  {
    var batch := s.batches[id];
    if batch.status.Terminal() then (s, ChunkResult(0, batch.status))
    else if !batch.hasCreator then
      (s.(batches := s.batches[id := batch.(status := BatchFailed)]), ChunkResult(0, BatchFailed))
    else
      var picked := Pick(batch.items, chunk);
      var t := ExpandAll(Started(s, id), id, requests, picked);
      var completed := batch.queuedRowCount + batch.skippedRowCount + |picked| == batch.selectedRowCount;
      var status := if picked == [] && !completed then BatchFailed
                    else if completed then BatchCompleted
                    else BatchRunning;
      (t.(batches := t.batches[id := t.batches[id].(status := status)]), ChunkResult(|picked|, status))
  }

  /** Each item changes exactly one counter by one and leaves the others. */
  lemma ExpandOneAccounts(s: Store, id: BatchId, requests: Requests, k: nat)
    requires Agreement(s) && id in s.batches && k < |s.batches[id].items| &&
             s.batches[id].items[k].status == ItemPending
    requires requests.newRun(k) !in s.runs
    ensures var after := ExpandOne(s, id, requests, k);
      Agreement(after) && after.batches.Keys == s.batches.Keys &&
      (forall b :: b in s.batches && b != id ==> after.batches[b] == s.batches[b]) &&
      Accounted(after.batches[id]) == Accounted(s.batches[id]) &&
      Pending(after.batches[id].items) + 1 == Pending(s.batches[id].items)
    ensures var before, after := s.batches[id], ExpandOne(s, id, requests, k).batches[id];
      after == before.(items := after.items, queuedRowCount := after.queuedRowCount,
                       skippedRowCount := after.skippedRowCount) &&
      |after.items| == |before.items| && after.items[k].status != ItemPending &&
      after.items[k].rowId == before.items[k].rowId &&
      (forall j :: 0 <= j < |before.items| && j != k ==> after.items[j] == before.items[j])
    ensures forall r :: r in ExpandOne(s, id, requests, k).runs ==> r in s.runs || r == requests.newRun(k)
    ensures forall r :: r in s.runs ==>
              r in ExpandOne(s, id, requests, k).runs && ExpandOne(s, id, requests, k).runs[r] == s.runs[r]
  {
    ExpandOneAgrees(s, id, requests, k);
    hide Agreement, QueueRun, ShouldSelectCell, Pending;
    var items := s.batches[id].items;
    PendingAfterUpdate(items, k, items[k].(status := ItemSkipped));
    PendingAfterUpdate(items, k, items[k].(status := ItemQueued, runId := Some(requests.newRun(k))));
  }

  lemma ExpandOneAgrees(s: Store, id: BatchId, requests: Requests, k: nat)
    requires Agreement(s) && id in s.batches && k < |s.batches[id].items| && requests.newRun(k) !in s.runs
    ensures Agreement(ExpandOne(s, id, requests, k))
    ensures forall r :: r in ExpandOne(s, id, requests, k).runs ==> r in s.runs || r == requests.newRun(k)
    ensures forall r :: r in s.runs ==>
              r in ExpandOne(s, id, requests, k).runs && ExpandOne(s, id, requests, k).runs[r] == s.runs[r]
  {
    hide Agreement;
    var item := s.batches[id].items[k];
    var key := CellKey(item.rowId, s.batches[id].columnId);
    var attempt := QueueRun(s, key, requests.newRun(k), item.rowId in requests.rejected);
    if attempt.Some? { QueueRunAgrees(s, key, requests.newRun(k), item.rowId in requests.rejected); }
    var after := ExpandOne(s, id, requests, k);
    if after.runs == s.runs && after.cells == s.cells {
      StatusDecides(s, after);
    } else {
      StatusDecides(attempt.value, after);
    }
  }

  /** What a prefix of the loop has done to the store. */
  ghost predicate ExpandedBy(s: Store, id: BatchId, requests: Requests, picked: seq<nat>, after: Store)
    requires id in s.batches && ArePositions(picked, s.batches[id].items)
  {
    Agreement(after) && after.batches.Keys == s.batches.Keys &&
    (forall b :: b in s.batches && b != id ==> after.batches[b] == s.batches[b]) &&
    Accounted(after.batches[id]) == Accounted(s.batches[id]) &&
    Pending(after.batches[id].items) + |picked| == Pending(s.batches[id].items) &&
    after.batches[id].queuedRowCount + after.batches[id].skippedRowCount ==
      s.batches[id].queuedRowCount + s.batches[id].skippedRowCount + |picked| &&
    after.batches[id].status == s.batches[id].status &&
    after.batches[id].selectedRowCount == s.batches[id].selectedRowCount &&
    |after.batches[id].items| == |s.batches[id].items| &&
    (forall j :: 0 <= j < |s.batches[id].items| && j !in picked ==>
     after.batches[id].items[j] == s.batches[id].items[j]) &&
    (forall j :: 0 <= j < |s.batches[id].items| && j in picked ==> after.batches[id].items[j].status != ItemPending) &&
    (forall r :: r in s.runs ==> r in after.runs && after.runs[r] == s.runs[r]) &&
    (forall r :: r in after.runs ==> r in s.runs || exists j :: j in picked && r == requests.newRun(j))
  }

  lemma {:induction false} ExpandAllAccounts(s: Store, id: BatchId, requests: Requests, picked: seq<nat>)
    requires Agreement(s) && RunsAreNew(s, requests)
    requires id in s.batches && ArePositions(picked, s.batches[id].items) && Ascending(picked)
    requires forall i :: 0 <= i < |picked| ==> s.batches[id].items[picked[i]].status == ItemPending
    ensures ExpandedBy(s, id, requests, picked, ExpandAll(s, id, requests, picked))
  {
    if picked != [] {
      var n := |picked| - 1;
      var before := ExpandAll(s, id, requests, picked[..n]);
      assert ArePositions(picked[..n], s.batches[id].items);
      ExpandAllAccounts(s, id, requests, picked[..n]);
      ExpandNext(s, id, requests, picked[..n], picked[n], before);
      assert picked == picked[..n] + [picked[n]];
    }
  }

  lemma ExpandNext(s: Store, id: BatchId, requests: Requests, done: seq<nat>, k: nat, before: Store)
    requires RunsAreNew(s, requests)
    requires id in s.batches && ArePositions(done, s.batches[id].items) && k < |s.batches[id].items| && k !in done
    requires s.batches[id].items[k].status == ItemPending
    requires ExpandedBy(s, id, requests, done, before)
    ensures ExpandedBy(s, id, requests, done + [k], ExpandOne(before, id, requests, k))
  {
    assert before.batches[id].items[k] == s.batches[id].items[k];
    assert requests.newRun(k) !in before.runs;
    ExpandOneAccounts(before, id, requests, k);
    forall r | r in ExpandOne(before, id, requests, k).runs
      ensures r in s.runs || exists j :: j in done + [k] && r == requests.newRun(j)
    {
      if r == requests.newRun(k) { assert k in done + [k]; }
      else if r !in s.runs { var j :| j in done && r == requests.newRun(j); assert j in done + [k]; }
    }
  }

  /** The batch stays sound, its account is unchanged, items that were not
      pending are untouched, and a chunk that reports `running` made
      progress. */
  ghost predicate ChunkOutcome(before: Batch, after: Batch, result: ChunkResult) {
    BatchIsSound(after) && Accounted(after) == Accounted(before) && after.selectedRowCount == before.selectedRowCount &&
    result.status == after.status &&
    Pending(after.items) + result.processed == Pending(before.items) &&
    (result.status == BatchRunning ==> result.processed > 0) &&
    |after.items| == |before.items| &&
    forall j :: 0 <= j < |before.items| && before.items[j].status != ItemPending ==> after.items[j] == before.items[j]
  }

  lemma ChunkAccounts(s: Store, id: BatchId, requests: Requests, chunk: nat)
    requires Agreement(s) && RunsAreNew(s, requests) && id in s.batches && BatchIsSound(s.batches[id]) && chunk > 0
    ensures var (after, result) := ExpandChunk(s, id, requests, chunk);
      Agreement(after) && after.batches.Keys == s.batches.Keys &&
      ChunkOutcome(s.batches[id], after.batches[id], result) &&
      (forall b :: b in s.batches && b != id ==> after.batches[b] == s.batches[b]) &&
      (forall r :: r in s.runs ==> r in after.runs && after.runs[r] == s.runs[r])
    ensures s.batches[id].status.Terminal() ==> ExpandChunk(s, id, requests, chunk).0 == s
  {
    if !s.batches[id].status.Terminal() {
      if s.batches[id].hasCreator {
        ActiveChunkAccounts(s, id, requests, chunk);
      } else {
        StatusDecides(s, ExpandChunk(s, id, requests, chunk).0);
      }
    }
  }

  lemma ActiveChunkAccounts(s: Store, id: BatchId, requests: Requests, chunk: nat)
    requires Agreement(s) && RunsAreNew(s, requests) && id in s.batches && BatchIsSound(s.batches[id]) && chunk > 0
    requires !s.batches[id].status.Terminal() && s.batches[id].hasCreator
    ensures var (after, result) := ExpandChunk(s, id, requests, chunk);
      Agreement(after) && after.batches.Keys == s.batches.Keys &&
      ChunkOutcome(s.batches[id], after.batches[id], result) &&
      (forall b :: b in s.batches && b != id ==> after.batches[b] == s.batches[b]) &&
      (forall r :: r in s.runs ==> r in after.runs && after.runs[r] == s.runs[r])
  {
    hide Agreement, Pending, ExpandAll, ExpandOne, Pick;
    var batch, started := s.batches[id], Started(s, id);
    var picked := Pick(batch.items, chunk);
    PickCounts(batch.items, chunk);
    StatusDecides(s, started);
    ExpandAllAccounts(started, id, requests, picked);
    var t := ExpandAll(started, id, requests, picked);
    assert ExpandedBy(started, id, requests, picked, t);
    StatusDecides(t, ExpandChunk(s, id, requests, chunk).0);
    assert forall j :: 0 <= j < |picked| ==> batch.items[picked[j]].status == ItemPending;
  }

  // ---- cancellation -----------------------------------------------------------

  function SkipPending(items: seq<Item>): seq<Item> {
    seq(|items|, k requires 0 <= k < |items| =>
      if items[k].status == ItemPending then items[k].(status := ItemSkipped) else items[k])
  }

  lemma SkipPendingLeavesNone(items: seq<Item>)
    ensures Pending(SkipPending(items)) == 0
  {
    NoPendingMeansNone(SkipPending(items));
  }

  function BatchRuns(batch: Batch): set<RunId> {
    set item | item in batch.items && item.runId.Some? :: item.runId.value
  }

  /** The active runs of the batch. */
  function Cancellable(s: Store, id: BatchId): set<RunId>
    requires id in s.batches
  {
    set r | r in s.runs && r in BatchRuns(s.batches[id]) && s.runs[r].status.Active()
  }

  function CancelRuns(runs: map<RunId, Run>, cancelled: set<RunId>): map<RunId, Run> {
    map r | r in runs :: if r in cancelled then runs[r].(status := RunCancelled) else runs[r]
  }

  function CancelCells(cells: map<CellKey, Cell>, keys: set<CellKey>): map<CellKey, Cell> {
    map k | k in cells :: if k in keys && cells[k].status.Active() then cells[k].(status := Cancelled) else cells[k]
  }

  datatype CancelResult = CancelDone | CancelConflict

  function CancelBatch(s: Store, id: BatchId): (Store, CancelResult)
    requires id in s.batches
  {
    var batch := s.batches[id];
    if batch.status == BatchCancelled then (s, CancelDone)
    else if batch.status.Terminal() then (s, CancelConflict)
    else
      var cancelled := Cancellable(s, id);
      (s.(runs := CancelRuns(s.runs, cancelled),
          cells := CancelCells(s.cells, set r | r in cancelled :: s.runs[r].cell),
          batches := s.batches[id := batch.(items := SkipPending(batch.items), status := BatchCancelled,
                                            skippedRowCount := batch.skippedRowCount + Pending(batch.items))]),
       CancelDone)
  }

  /** Cancelling the runs of a batch cancels exactly their cells. */
  lemma CancelAgrees(s: Store, cancelled: set<RunId>)
    requires Agreement(s) && forall r :: r in cancelled ==> r in s.runs && s.runs[r].status.Active()
    ensures Agreement(s.(runs := CancelRuns(s.runs, cancelled),
                         cells := CancelCells(s.cells, set r | r in cancelled :: s.runs[r].cell)))
  {
    var keys := set r | r in cancelled :: s.runs[r].cell;
    var runs, cells := CancelRuns(s.runs, cancelled), CancelCells(s.cells, keys);
    forall k ensures AgreesAt(cells, runs, k) {
      assert AgreesAt(s.cells, s.runs, k);
      if k in s.cells && s.cells[k].status.Active() {
        var r :| r in s.runs && ActiveRuns(s.runs, k) == {r} && SameStatus(s.runs[r].status, s.cells[k].status);
        assert r in ActiveRuns(s.runs, k);
        forall q ensures q in ActiveRuns(runs, k) <==> q == r && r !in cancelled {
          assert q in ActiveRuns(s.runs, k) <==> q == r;
        }
        if k in keys {
          var q :| q in cancelled && s.runs[q].cell == k;
          assert q in ActiveRuns(s.runs, k);
        }
      } else {
        forall q ensures q !in ActiveRuns(runs, k) { assert q !in ActiveRuns(s.runs, k); }
      }
    }
  }

  lemma CancelAccounts(s: Store, id: BatchId)
    requires Agreement(s) && id in s.batches && BatchIsSound(s.batches[id])
    ensures var (after, result) := CancelBatch(s, id);
      Agreement(after) && BatchIsSound(after.batches[id]) && after.batches.Keys == s.batches.Keys &&
      Accounted(after.batches[id]) == Accounted(s.batches[id]) &&
      (forall b :: b in s.batches && b != id ==> after.batches[b] == s.batches[b]) &&
      (result == CancelConflict ==> after == s) &&
      (result == CancelDone ==> after.batches[id].status == BatchCancelled && Pending(after.batches[id].items) == 0)
  {
    if !s.batches[id].status.Terminal() {
      CancelAgrees(s, Cancellable(s, id));
      SkipPendingLeavesNone(s.batches[id].items);
      var after := CancelBatch(s, id).0;
      StatusDecides(s.(runs := after.runs, cells := after.cells), after);
    }
  }

  // ---- deleting a row ---------------------------------------------------------

  function Without(items: seq<Item>, rowId: RowId): seq<Item> {
    if items == [] then []
    else Without(items[..|items| - 1], rowId) + if items[|items| - 1].rowId == rowId then [] else [items[|items| - 1]]
  }

  lemma {:induction false} WithoutShrinks(items: seq<Item>, rowId: RowId)
    ensures Pending(Without(items, rowId)) <= Pending(items)
  {
    if items != [] {
      var n := |items| - 1;
      WithoutShrinks(items[..n], rowId);
      if items[n].rowId != rowId {
        assert Without(items, rowId)[..|Without(items, rowId)| - 1] == Without(items[..n], rowId);
      } else {
        assert Without(items, rowId) == Without(items[..n], rowId);
      }
    }
  }

  /** The foreign keys cascade to cells, runs and bulk-run items. */
  function DeleteRow(s: Store, rowId: RowId): Store {
    s.(cells := map k | k in s.cells && k.rowId != rowId :: s.cells[k],
       runs := map r | r in s.runs && s.runs[r].cell.rowId != rowId :: s.runs[r],
       rowVersions := s.rowVersions - {rowId},
       batches := map b | b in s.batches :: s.batches[b].(items := Without(s.batches[b].items, rowId)))
  }

  lemma DeleteRowIsSound(s: Store, rowId: RowId)
    requires Sound(s)
    ensures Sound(DeleteRow(s, rowId))
  {
    var after := DeleteRow(s, rowId);
    forall k ensures AgreesAt(after.cells, after.runs, k) {
      assert AgreesAt(s.cells, s.runs, k);
      if k.rowId == rowId { assert ActiveRuns(after.runs, k) == {}; }
      else { assert ActiveRuns(after.runs, k) == ActiveRuns(s.runs, k); }
    }
    forall b | b in after.batches ensures BatchIsSound(after.batches[b]) {
      assert BatchIsSound(s.batches[b]);
      WithoutShrinks(s.batches[b].items, rowId);
    }
  }

  // ---- whole runs -------------------------------------------------------------

  datatype Event =
    | Request(key: CellKey, runId: RunId, rejected: bool)
    | Start(runId: RunId)
    | Retry(runId: RunId)
    | Succeed(runId: RunId, value: nat, billed: bool)
    | Fail(runId: RunId)
    | Create(id: BatchId, columnId: ColumnId, mode: Mode, rows: seq<RowId>)
    | Expand(id: BatchId, requests: Requests, chunk: nat)
    | Cancel(id: BatchId)
    | RowDeleted(rowId: RowId)

  ghost predicate Enabled(s: Store, event: Event) {
    match event
    case Request(_, runId, _) => runId !in s.runs
    case Create(id, _, _, _) => id !in s.batches
    case Expand(id, requests, chunk) => id in s.batches && RunsAreNew(s, requests) && chunk > 0
    case Cancel(id) => id in s.batches
    case _ => true
  }

  function Step(s: Store, event: Event): Store {
    match event
    case Request(key, runId, rejected) => QueueRun(s, key, runId, rejected).GetOr(s)
    case Start(runId) => MarkRunning(s, runId)
    case Retry(runId) => MarkRetryScheduled(s, runId)
    case Succeed(runId, value, billed) => MarkSucceeded(s, runId, value, billed)
    case Fail(runId) => MarkFailed(s, runId)
    case Create(id, columnId, mode, rows) => CreateBatch(s, id, columnId, mode, rows).GetOr(s)
    case Expand(id, requests, chunk) => if id in s.batches then ExpandChunk(s, id, requests, chunk).0 else s
    case Cancel(id) => if id in s.batches then CancelBatch(s, id).0 else s
    case RowDeleted(rowId) => DeleteRow(s, rowId)
  }

  /** A run that has ended, or a batch that has, keeps its outcome; only
      deleting a row removes anything. */
  ghost predicate OutcomesKept(s: Store, after: Store) {
    (forall r :: r in s.runs && !s.runs[r].status.Active() && r in after.runs ==> after.runs[r] == s.runs[r]) &&
    (forall b :: b in s.batches ==> b in after.batches) &&
    (forall b :: b in s.batches && s.batches[b].status.Terminal() ==>
      after.batches[b].status == s.batches[b].status &&
      after.batches[b].queuedRowCount == s.batches[b].queuedRowCount &&
      after.batches[b].skippedRowCount == s.batches[b].skippedRowCount)
  }

  lemma StepIsSound(s: Store, event: Event)
    requires Sound(s) && Enabled(s, event)
    ensures Sound(Step(s, event)) && OutcomesKept(s, Step(s, event))
  {
    hide Sound, OutcomesKept;
    match event
    case Request(key, runId, rejected) => RequestIsSound(s, key, runId, rejected);
    case Create(id, columnId, mode, rows) => CreateIsSound(s, id, columnId, mode, rows);
    case Expand(id, requests, chunk) => ExpandIsSound(s, id, requests, chunk);
    case Cancel(id) => CancelIsSound(s, id);
    case RowDeleted(rowId) => RowDeletedIsSound(s, rowId);
    case _ => TransitionIsSound(s, event);
  }

  /** Transitions of single runs leave batches and ended runs alone. */
  lemma SameBatchesAreSound(s: Store, after: Store)
    requires Sound(s) && Agreement(after) && after.batches == s.batches
    requires forall r :: r in s.runs && !s.runs[r].status.Active() && r in after.runs ==> after.runs[r] == s.runs[r]
    ensures Sound(after) && OutcomesKept(s, after)
  {
    hide Agreement, BatchIsSound;
  }

  lemma RequestIsSound(s: Store, key: CellKey, runId: RunId, rejected: bool)
    requires Sound(s) && runId !in s.runs
    ensures var after := QueueRun(s, key, runId, rejected).GetOr(s); Sound(after) && OutcomesKept(s, after)
  {
    hide Agreement, BatchIsSound;
    if QueueRun(s, key, runId, rejected).Some? { QueueRunAgrees(s, key, runId, rejected); }
  }

  lemma TransitionIsSound(s: Store, event: Event)
    requires Sound(s) && (event.Start? || event.Retry? || event.Succeed? || event.Fail?)
    ensures Sound(Step(s, event)) && OutcomesKept(s, Step(s, event))
  {
    hide Agreement, BatchIsSound, OutcomesKept, ExpandChunk, CancelBatch, DeleteRow, CreateBatch, QueueRun;
    if event.Succeed? {
      TransitionsAgree(s, event.runId, event.value, event.billed);
    } else {
      TransitionsAgree(s, event.runId, 0, false);
    }
    SameBatchesAreSound(s, Step(s, event));
  }

  lemma CreateIsSound(s: Store, id: BatchId, columnId: ColumnId, mode: Mode, rows: seq<RowId>)
    requires Sound(s) && id !in s.batches
    ensures var after := Step(s, Create(id, columnId, mode, rows)); Sound(after) && OutcomesKept(s, after)
  {
    hide Agreement, QueueRun, MarkRunning, MarkRetryScheduled, MarkSucceeded, MarkFailed, ExpandChunk, CancelBatch,
      DeleteRow, NewItems;
    NewItemsArePending(rows);
    StatusDecides(s, Step(s, Create(id, columnId, mode, rows)));
  }

  lemma RowDeletedIsSound(s: Store, rowId: RowId)
    requires Sound(s)
    ensures Sound(DeleteRow(s, rowId)) && OutcomesKept(s, DeleteRow(s, rowId))
  {
    hide Sound;
    DeleteRowIsSound(s, rowId);
  }

  lemma ExpandIsSound(s: Store, id: BatchId, requests: Requests, chunk: nat)
    requires Sound(s) && RunsAreNew(s, requests) && id in s.batches && chunk > 0
    ensures Sound(ExpandChunk(s, id, requests, chunk).0) && OutcomesKept(s, ExpandChunk(s, id, requests, chunk).0)
  {
    hide Agreement, ExpandChunk;
    ChunkAccounts(s, id, requests, chunk);
  }

  lemma CancelIsSound(s: Store, id: BatchId)
    requires Sound(s) && id in s.batches
    ensures Sound(CancelBatch(s, id).0) && OutcomesKept(s, CancelBatch(s, id).0)
  {
    hide Agreement, Pending, BatchIsSound;
    CancelAccounts(s, id);
  }

  function RunEvents(s: Store, events: seq<Event>): Store {
    if events == [] then s else Step(RunEvents(s, events[..|events| - 1]), events[|events| - 1])
  }

  ghost predicate AllEnabled(s: Store, events: seq<Event>) {
    events == [] ||
    (AllEnabled(s, events[..|events| - 1]) && Enabled(RunEvents(s, events[..|events| - 1]), events[|events| - 1]))
  }

  /** Every reachable state is sound: cells and runs agree, the counters add
      up, and a completed or cancelled batch has nothing pending. */
  lemma {:induction false} AlwaysSound(s: Store, events: seq<Event>)
    requires Sound(s) && AllEnabled(s, events)
    ensures Sound(RunEvents(s, events))
  {
    if events != [] {
      AlwaysSound(s, events[..|events| - 1]);
      StepIsSound(RunEvents(s, events[..|events| - 1]), events[|events| - 1]);
    }
  }

  /** Whatever happens afterwards, a result that arrives for a run that ended
      (for instance because its batch was cancelled) changes no cell, no row
      version and no ledger entry. */
  lemma {:induction false} LateResultsChangeNothing(s: Store, events: seq<Event>, runId: RunId, value: nat,
                                                    billed: bool)
    requires Sound(s) && AllEnabled(s, events)
    requires runId in s.runs && !s.runs[runId].status.Active()
    requires forall n :: 0 <= n < |events| ==> !(events[n].Request? && events[n].runId == runId)
    requires forall n :: 0 <= n < |events| && events[n].Expand? ==> forall k :: events[n].requests.newRun(k) != runId
    ensures var t := RunEvents(s, events);
      MarkSucceeded(t, runId, value, billed) == t && MarkFailed(t, runId) == t &&
      MarkRetryScheduled(t, runId) == t && MarkRunning(t, runId) == t
    ensures var t := RunEvents(s, events); runId in t.runs ==> t.runs[runId] == s.runs[runId]
  {
    if events != [] {
      var n := |events| - 1;
      var before := RunEvents(s, events[..n]);
      LateResultsChangeNothing(s, events[..n], runId, value, billed);
      AlwaysSound(s, events[..n]);
      StepIsSound(before, events[n]);
      if runId !in before.runs { NoRebirth(before, events[n], runId); }
    }
  }

  lemma NoRebirth(s: Store, event: Event, runId: RunId)
    requires Sound(s) && Enabled(s, event) && runId !in s.runs
    requires !(event.Request? && event.runId == runId)
    requires event.Expand? ==> forall k :: event.requests.newRun(k) != runId
    ensures runId !in Step(s, event).runs
  {
    if event.Expand? && !s.batches[event.id].status.Terminal() && s.batches[event.id].hasCreator {
      var started, picked := Started(s, event.id), Pick(s.batches[event.id].items, event.chunk);
      StatusDecides(s, started);
      ExpandAllAccounts(started, event.id, event.requests, picked);
    }
  }

  // ---- what the counters count ------------------------------------------------

  function Count(items: seq<Item>, status: ItemStatus): nat {
    if items == [] then 0
    else Count(items[..|items| - 1], status) + if items[|items| - 1].status == status then 1 else 0
  }

  lemma {:induction false} CountAfterUpdate(items: seq<Item>, status: ItemStatus, k: nat, item: Item)
    requires k < |items|
    ensures Count(items[k := item], status) + (if items[k].status == status then 1 else 0) ==
            Count(items, status) + (if item.status == status then 1 else 0)
  {
    var n := |items| - 1;
    if k == n {
      assert items[k := item][..n] == items[..n];
    } else {
      assert items[k := item][..n] == items[..n][k := item];
      CountAfterUpdate(items[..n], status, k, item);
    }
  }

  lemma {:induction false} CountsAddUp(items: seq<Item>)
    ensures Count(items, ItemQueued) + Count(items, ItemSkipped) + Pending(items) == |items|
  {
    if items != [] { CountsAddUp(items[..|items| - 1]); }
  }

  lemma {:induction false} NewItemsAreUncounted(rows: seq<RowId>)
    ensures Count(NewItems(rows), ItemQueued) == Count(NewItems(rows), ItemSkipped) == 0
  {
    if rows != [] {
      NewItemsAreUncounted(rows[..|rows| - 1]);
      assert NewItems(rows)[..|rows| - 1] == NewItems(rows[..|rows| - 1]);
    }
  }

  lemma {:induction false} SkippingCounts(items: seq<Item>)
    ensures Count(SkipPending(items), ItemQueued) == Count(items, ItemQueued)
    ensures Count(SkipPending(items), ItemSkipped) == Count(items, ItemSkipped) + Pending(items)
  {
    if items != [] {
      var n := |items| - 1;
      assert SkipPending(items)[..n] == SkipPending(items[..n]);
      SkippingCounts(items[..n]);
    }
  }

  /** Each counter is the number of items it stands for, and the selection is
      all of them. */
  ghost predicate Tallied(batch: Batch) {
    batch.queuedRowCount == Count(batch.items, ItemQueued) &&
    batch.skippedRowCount == Count(batch.items, ItemSkipped) &&
    batch.selectedRowCount == |batch.items|
  }

  ghost predicate AllTallied(s: Store) {
    forall b :: b in s.batches ==> Tallied(s.batches[b])
  }

  lemma ExpandOneTallies(s: Store, id: BatchId, requests: Requests, k: nat)
    requires id in s.batches && k < |s.batches[id].items| && s.batches[id].items[k].status == ItemPending
    requires Tallied(s.batches[id])
    ensures Tallied(ExpandOne(s, id, requests, k).batches[id])
  {
    hide ShouldSelectCell, QueueRun, Count;
    var items := s.batches[id].items;
    var skipped := items[k].(status := ItemSkipped);
    var queued := items[k].(status := ItemQueued, runId := Some(requests.newRun(k)));
    CountAfterUpdate(items, ItemQueued, k, skipped);
    CountAfterUpdate(items, ItemSkipped, k, skipped);
    CountAfterUpdate(items, ItemQueued, k, queued);
    CountAfterUpdate(items, ItemSkipped, k, queued);
  }

  lemma {:induction false} ExpandAllTallies(s: Store, id: BatchId, requests: Requests, picked: seq<nat>)
    requires Agreement(s) && RunsAreNew(s, requests)
    requires id in s.batches && ArePositions(picked, s.batches[id].items) && Ascending(picked)
    requires forall i :: 0 <= i < |picked| ==> s.batches[id].items[picked[i]].status == ItemPending
    requires Tallied(s.batches[id])
    ensures Tallied(ExpandAll(s, id, requests, picked).batches[id])
  {
    hide Agreement, Tallied, ExpandOne;
    if picked != [] {
      var n := |picked| - 1;
      assert ArePositions(picked[..n], s.batches[id].items);
      ExpandAllTallies(s, id, requests, picked[..n]);
      ExpandAllAccounts(s, id, requests, picked[..n]);
      ExpandOneTallies(ExpandAll(s, id, requests, picked[..n]), id, requests, picked[n]);
    }
  }

  lemma ExpandTallies(s: Store, id: BatchId, requests: Requests, chunk: nat)
    requires Agreement(s) && RunsAreNew(s, requests) && id in s.batches && Tallied(s.batches[id])
    ensures Tallied(ExpandChunk(s, id, requests, chunk).0.batches[id])
  {
    hide Agreement, ExpandAll, Pick, Count;
    var batch, started := s.batches[id], Started(s, id);
    if !batch.status.Terminal() && batch.hasCreator {
      var picked := Pick(batch.items, chunk);
      StatusDecides(s, started);
      ExpandAllTallies(started, id, requests, picked);
    }
  }

  lemma StepTallies(s: Store, event: Event)
    requires Sound(s) && Enabled(s, event) && !event.RowDeleted?
    requires AllTallied(s)
    ensures AllTallied(Step(s, event))
  {
    hide Agreement, BatchIsSound, Tallied, ExpandChunk, CancelBatch, CreateBatch;
    if event.Create? {
      CreateTallies(s, event.id, event.columnId, event.mode, event.rows);
    } else if event.Expand? {
      ExpandTallies(s, event.id, event.requests, event.chunk);
      ChunkAccounts(s, event.id, event.requests, event.chunk);
    } else if event.Cancel? {
      CancelTallies(s, event.id);
      CancelAccounts(s, event.id);
    } else {
      assert Step(s, event).batches == s.batches;
    }
  }

  lemma CreateTallies(s: Store, id: BatchId, columnId: ColumnId, mode: Mode, rows: seq<RowId>)
    requires AllTallied(s)
    ensures AllTallied(CreateBatch(s, id, columnId, mode, rows).GetOr(s))
  {
    hide Count;
    NewItemsAreUncounted(rows);
  }

  lemma CancelTallies(s: Store, id: BatchId)
    requires id in s.batches && Tallied(s.batches[id])
    ensures Tallied(CancelBatch(s, id).0.batches[id])
  {
    hide Count, Cancellable, CancelRuns, CancelCells;
    SkippingCounts(s.batches[id].items);
  }

  /** While no row is deleted, over any interleaving: `queued` and `skipped` are
      the numbers of queued and skipped items, and with the pending ones they
      add up to the selection. */
  lemma {:induction false} CountersCountItems(s: Store, events: seq<Event>, id: BatchId)
    requires Sound(s) && AllTallied(s) && AllEnabled(s, events)
    requires forall n :: 0 <= n < |events| ==> !events[n].RowDeleted?
    requires id in RunEvents(s, events).batches
    ensures var batch := RunEvents(s, events).batches[id];
            batch.queuedRowCount == Count(batch.items, ItemQueued) &&
            batch.skippedRowCount == Count(batch.items, ItemSkipped) &&
            Accounted(batch) == batch.selectedRowCount
  {
    EveryRunTallies(s, events);
    CountsAddUp(RunEvents(s, events).batches[id].items);
  }

  lemma {:induction false} EveryRunTallies(s: Store, events: seq<Event>)
    requires Sound(s) && AllTallied(s) && AllEnabled(s, events)
    requires forall n :: 0 <= n < |events| ==> !events[n].RowDeleted?
    ensures AllTallied(RunEvents(s, events))
  {
    hide Sound, AllTallied, Step, Enabled;
    if events != [] {
      var n := |events| - 1;
      EveryRunTallies(s, events[..n]);
      AlwaysSound(s, events[..n]);
      StepTallies(RunEvents(s, events[..n]), events[n]);
    }
  }

  // ---- an item leaves pending once --------------------------------------------

  ghost predicate RowIsGone(batch: Batch, rowId: RowId) {
    forall k :: 0 <= k < |batch.items| ==> batch.items[k].rowId != rowId
  }

  /** Items that have left pending stay as they are until their row is deleted,
      and a row that is gone stays gone. */
  ghost predicate ItemsSettled(before: Batch, after: Batch) {
    (forall k :: 0 <= k < |before.items| && before.items[k].status != ItemPending ==>
      before.items[k] in after.items || RowIsGone(after, before.items[k].rowId)) &&
    forall rowId :: RowIsGone(before, rowId) ==> RowIsGone(after, rowId)
  }

  lemma {:induction false} WithoutKeepsOthers(items: seq<Item>, rowId: RowId, item: Item)
    ensures item in Without(items, rowId) <==> item in items && item.rowId != rowId
  {
    if items != [] {
      var n := |items| - 1;
      WithoutKeepsOthers(items[..n], rowId, item);
      assert item in items <==> item in items[..n] || item == items[n];
    }
  }

  lemma DeletionSettles(batch: Batch, rowId: RowId)
    ensures ItemsSettled(batch, batch.(items := Without(batch.items, rowId)))
  {
    forall item: Item ensures item in Without(batch.items, rowId) <==> item in batch.items && item.rowId != rowId {
      WithoutKeepsOthers(batch.items, rowId, item);
    }
  }

  /** Positions and rows stay, and only pending items change. */
  lemma SamePlacesSettle(before: Batch, after: Batch)
    requires |after.items| == |before.items|
    requires forall k :: 0 <= k < |before.items| ==> after.items[k].rowId == before.items[k].rowId
    requires forall k :: 0 <= k < |before.items| && before.items[k].status != ItemPending ==>
               after.items[k] == before.items[k]
    ensures ItemsSettled(before, after)
  {
    forall k | 0 <= k < |before.items| && before.items[k].status != ItemPending ensures before.items[k] in after.items {
      assert after.items[k] == before.items[k];
    }
  }

  lemma {:induction false} ExpandAllKeepsRows(s: Store, id: BatchId, requests: Requests, picked: seq<nat>, k: nat)
    requires id in s.batches && ArePositions(picked, s.batches[id].items) && k < |s.batches[id].items|
    ensures ExpandAll(s, id, requests, picked).batches[id].items[k].rowId == s.batches[id].items[k].rowId
  {
    hide QueueRun, ShouldSelectCell;
    if picked != [] {
      var n := |picked| - 1;
      assert ArePositions(picked[..n], s.batches[id].items);
      ExpandAllKeepsRows(s, id, requests, picked[..n], k);
    }
  }

  lemma ExpandSettles(s: Store, id: BatchId, requests: Requests, chunk: nat)
    requires Sound(s) && RunsAreNew(s, requests) && id in s.batches && chunk > 0
    ensures ItemsSettled(s.batches[id], ExpandChunk(s, id, requests, chunk).0.batches[id])
  {
    hide Agreement, ExpandAll, Pick, Pending;
    var before, after := s.batches[id], ExpandChunk(s, id, requests, chunk).0.batches[id];
    ChunkAccounts(s, id, requests, chunk);
    var started, picked := Started(s, id), Pick(before.items, chunk);
    forall k | 0 <= k < |before.items| ensures after.items[k].rowId == before.items[k].rowId {
      ExpandAllKeepsRows(started, id, requests, picked, k);
    }
    SamePlacesSettle(before, after);
  }

  lemma StepSettles(s: Store, event: Event, id: BatchId)
    requires Sound(s) && Enabled(s, event) && id in s.batches
    ensures var after := Step(s, event); id in after.batches && ItemsSettled(s.batches[id], after.batches[id])
  {
    hide Agreement, BatchIsSound, ExpandChunk, RowIsGone, ItemsSettled;
    SamePlacesSettle(s.batches[id], s.batches[id]);
    match event
    case Expand(b, requests, chunk) =>
      ChunkAccounts(s, b, requests, chunk);
      if b == id { ExpandSettles(s, id, requests, chunk); }
    case Cancel(b) =>
      if b == id { SamePlacesSettle(s.batches[id], CancelBatch(s, id).0.batches[id]); }
    case RowDeleted(rowId) => DeletionSettles(s.batches[id], rowId);
    case _ => assert id in Step(s, event).batches && Step(s, event).batches[id] == s.batches[id];
  }

  lemma SettledInTurn(first: Batch, second: Batch, third: Batch)
    requires ItemsSettled(first, second) && ItemsSettled(second, third)
    ensures ItemsSettled(first, third)
  {
  }

  /** Over any interleaving an item leaves pending once: whatever happens later,
      it keeps its status and its run for as long as its row exists. */
  lemma {:induction false} ItemsLeavePendingOnce(s: Store, events: seq<Event>, id: BatchId)
    requires Sound(s) && AllEnabled(s, events) && id in s.batches
    ensures var after := RunEvents(s, events); id in after.batches && ItemsSettled(s.batches[id], after.batches[id])
  {
    hide Sound, Step, Enabled, ItemsSettled;
    if events == [] {
      SamePlacesSettle(s.batches[id], s.batches[id]);
    } else {
      var n := |events| - 1;
      var before := RunEvents(s, events[..n]);
      ItemsLeavePendingOnce(s, events[..n], id);
      AlwaysSound(s, events[..n]);
      StepSettles(before, events[n], id);
      SettledInTurn(s.batches[id], before.batches[id], Step(before, events[n]).batches[id]);
    }
  }
}
