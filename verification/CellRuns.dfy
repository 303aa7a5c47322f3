/** Cell runs and bulk runs: packages/db/src/enrichments.ts (queueing),
    apps/worker/src/execute-cell-run.ts (running) and
    packages/db/src/bulk-runs.ts (batches).  Queueing, starting, retrying,
    finishing and cancelling race on one cell; every transaction is one step. */
module CellRuns {
  import opened Collections

  type RowId = nat
  type ColumnId = nat
  type RunId = nat
  type BatchId = nat

  datatype CellKey = CellKey(rowId: RowId, columnId: ColumnId)

  datatype CellStatus = Idle | Queued | Running | Succeeded | Failed | Stale | Cancelled {
    predicate Active() { this == Queued || this == Running }
  }

  /** `value` is an opaque token for the stored cell value. */
  datatype Cell = Cell(status: CellStatus, version: nat, value: nat)

  datatype RunStatus = RunQueued | RunRunning | RunSucceeded | RunFailed | RunCancelled {
    predicate Active() { this == RunQueued || this == RunRunning }
  }

  datatype Run = Run(cell: CellKey, status: RunStatus, attempt: nat)

  datatype Mode = PendingOnly | All

  datatype ItemStatus = ItemPending | ItemQueued | ItemSkipped

  datatype Item = Item(rowId: RowId, status: ItemStatus, runId: Option<RunId>)

  datatype BatchStatus = BatchQueued | BatchRunning | BatchCompleted | BatchFailed | BatchCancelled {
    predicate Terminal() { this == BatchCompleted || this == BatchFailed || this == BatchCancelled }
  }

  /** `items` are in the order of their sequence numbers. */
  datatype Batch = Batch(
    columnId: ColumnId,
    mode: Mode,
    hasCreator: bool,
    selectedRowCount: nat,
    queuedRowCount: nat,
    skippedRowCount: nat,
    status: BatchStatus,
    items: seq<Item>)

  datatype Store = Store(
    cells: map<CellKey, Cell>,
    runs: map<RunId, Run>,
    rowVersions: map<RowId, nat>,
    ledger: set<RunId>,
    batches: map<BatchId, Batch>)

  // ---- policy: packages/domain/src/bulk-run-policy.ts -------------------------

  function ExcludedStatuses(mode: Mode): set<CellStatus> {
    if mode == All then {Queued, Running} else {Queued, Running, Succeeded}
  }

  predicate ShouldSelectCell(status: Option<CellStatus>, mode: Mode) {
    status.None? || status.value !in ExcludedStatuses(mode)
  }

  // ---- runs of one cell -------------------------------------------------------

  function ActiveRuns(runs: map<RunId, Run>, key: CellKey): set<RunId> {
    set r | r in runs && runs[r].cell == key && runs[r].status.Active()
  }

  predicate SameStatus(run: RunStatus, cell: CellStatus) {
    (run == RunQueued && cell == Queued) || (run == RunRunning && cell == Running)
  }

  /** The cell is queued or running exactly when exactly one of its runs is,
      with the same status. */
  ghost predicate AgreesAt(cells: map<CellKey, Cell>, runs: map<RunId, Run>, key: CellKey) {
    if key in cells && cells[key].status.Active() then
      exists r :: r in runs && ActiveRuns(runs, key) == {r} && SameStatus(runs[r].status, cells[key].status)
    else ActiveRuns(runs, key) == {}
  }

  ghost predicate Agreement(s: Store) {
    (forall key :: AgreesAt(s.cells, s.runs, key)) &&
    (forall r :: r in s.runs ==> s.runs[r].cell in s.cells)
  }

  /** prepareTargetCell and the run insert: None when the cell is active or
      the request is rejected before anything is written. */
  function QueueRun(s: Store, key: CellKey, runId: RunId, rejected: bool): Option<Store> {
    if rejected || (key in s.cells && s.cells[key].status.Active()) then None
    else
      var cell := if key in s.cells then s.cells[key].(status := Queued) else Cell(Queued, 1, 0);
      Some(s.(cells := s.cells[key := cell], runs := s.runs[runId := Run(key, RunQueued, 0)]))
  }

  predicate IsRunning(s: Store, runId: RunId) {
    runId in s.runs && s.runs[runId].status == RunRunning
  }

  function SetBoth(s: Store, runId: RunId, run: Run, status: CellStatus): Store
    requires runId in s.runs
  {
    var key := s.runs[runId].cell;
    s.(runs := s.runs[runId := run],
       cells := if key in s.cells then s.cells[key := s.cells[key].(status := status)] else s.cells)
  }

  function MarkRunning(s: Store, runId: RunId): Store {
    if runId !in s.runs || s.runs[runId].status != RunQueued then s
    else SetBoth(s, runId, s.runs[runId].(status := RunRunning, attempt := s.runs[runId].attempt + 1), Running)
  }

  function MarkRetryScheduled(s: Store, runId: RunId): Store {
    if !IsRunning(s, runId) then s else SetBoth(s, runId, s.runs[runId].(status := RunQueued), Queued)
  }

  function BumpRow(s: Store, rowId: RowId): Store {
    if rowId in s.rowVersions then s.(rowVersions := s.rowVersions[rowId := s.rowVersions[rowId] + 1]) else s
  }

  function MarkSucceeded(s: Store, runId: RunId, value: nat, billed: bool): Store {
    if !IsRunning(s, runId) then s
    else
      var key := s.runs[runId].cell;
      var done := SetBoth(s, runId, s.runs[runId].(status := RunSucceeded), Succeeded);
      var valued :=
        if key in done.cells
        then done.(cells := done.cells[key := Cell(Succeeded, done.cells[key].version + 1, value)])
        else done;
      BumpRow(valued, key.rowId).(ledger := if billed then s.ledger + {runId} else s.ledger)
  }

  function MarkFailed(s: Store, runId: RunId): Store {
    if !IsRunning(s, runId) then s
    else BumpRow(SetBoth(s, runId, s.runs[runId].(status := RunFailed), Failed), s.runs[runId].cell.rowId)
  }

  // ---- agreement is kept ------------------------------------------------------

  lemma QueueRunAgrees(s: Store, key: CellKey, runId: RunId, rejected: bool)
    requires Agreement(s) && runId !in s.runs && QueueRun(s, key, runId, rejected).Some?
    ensures Agreement(QueueRun(s, key, runId, rejected).value)
  {
    var after := QueueRun(s, key, runId, rejected).value;
    forall k ensures AgreesAt(after.cells, after.runs, k) {
      assert AgreesAt(s.cells, s.runs, k);
      if k == key {
        assert ActiveRuns(after.runs, k) == {runId};
      } else {
        assert ActiveRuns(after.runs, k) == ActiveRuns(s.runs, k);
      }
    }
  }

  lemma SetBothAgrees(s: Store, runId: RunId, status: RunStatus, attempt: nat, cellStatus: CellStatus)
    requires Agreement(s) && runId in s.runs && s.runs[runId].status.Active()
    requires if status.Active() then SameStatus(status, cellStatus) else !cellStatus.Active()
    ensures Agreement(SetBoth(s, runId, s.runs[runId].(status := status, attempt := attempt), cellStatus))
  {
    var after := SetBoth(s, runId, s.runs[runId].(status := status, attempt := attempt), cellStatus);
    var key := s.runs[runId].cell;
    assert AgreesAt(s.cells, s.runs, key) && runId in ActiveRuns(s.runs, key);
    forall k ensures AgreesAt(after.cells, after.runs, k) {
      assert AgreesAt(s.cells, s.runs, k);
      if k == key {
        assert ActiveRuns(s.runs, k) == {runId};
        forall r ensures r in ActiveRuns(after.runs, k) <==> status.Active() && r == runId {
          assert r in ActiveRuns(s.runs, k) <==> r == runId;
        }
      } else {
        assert ActiveRuns(after.runs, k) == ActiveRuns(s.runs, k);
      }
    }
  }

  /** Value, version, row version and ledger play no part in the agreement. */
  lemma StatusDecides(s: Store, t: Store)
    requires Agreement(s) && t.runs == s.runs && t.cells.Keys == s.cells.Keys
    requires forall k :: k in s.cells ==> t.cells[k].status == s.cells[k].status
    ensures Agreement(t)
  {
    forall k ensures AgreesAt(t.cells, t.runs, k) { assert AgreesAt(s.cells, s.runs, k); }
  }

  lemma TransitionsAgree(s: Store, runId: RunId, value: nat, billed: bool)
    requires Agreement(s)
    ensures Agreement(MarkRunning(s, runId)) && Agreement(MarkRetryScheduled(s, runId))
    ensures Agreement(MarkSucceeded(s, runId, value, billed)) && Agreement(MarkFailed(s, runId))
  {
    if runId in s.runs && s.runs[runId].status.Active() {
      var attempt := s.runs[runId].attempt;
      if s.runs[runId].status == RunQueued {
        SetBothAgrees(s, runId, RunRunning, attempt + 1, Running);
      } else {
        SetBothAgrees(s, runId, RunQueued, attempt, Queued);
        SetBothAgrees(s, runId, RunSucceeded, attempt, Succeeded);
        SetBothAgrees(s, runId, RunFailed, attempt, Failed);
        var done := SetBoth(s, runId, s.runs[runId].(status := RunSucceeded), Succeeded);
        StatusDecides(done, MarkSucceeded(s, runId, value, billed));
        StatusDecides(SetBoth(s, runId, s.runs[runId].(status := RunFailed), Failed), MarkFailed(s, runId));
      }
    }
  }
}
