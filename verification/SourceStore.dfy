/** The source transactions statement by statement (packages/db/src/sources.ts:
    367-417, 439-482, 487-902, 921-991). */
module SourceStore {
  import opened Collections
  import opened IngestionMapping
  import opened Upsert
  import opened ChunkUpsert
  import opened TableWriter
  import opened SourceRuns
  import opened SourcePages

  class SourceStore {
    const config: Config
    const table: TableWriter
    var runs: seq<Run>
    var lastSeen: map<Key, nat>
    var archived: set<Key>
    var archivedRows: set<RowId>
    var watermark: Option<int>
    var active: bool

    constructor (naming: Naming, config: Config, columns: seq<Column>)
      ensures fresh(table) && table.naming == naming && this.config == config
      ensures State() == Source([], Schema(columns, []), Grid(map[], map[], 0, []), map[], {}, {}, None, true)
    {
      this.config := config;
      table := new TableWriter(naming, columns);
      runs, lastSeen, archived, archivedRows, watermark, active := [], map[], {}, {}, None, true;
    }

    function State(): Source
      reads this, table
    {
      Source(runs, table.SchemaState(), table.TableState(), lastSeen, archived, archivedRows, watermark, active)
    }

    method InsertRun(scheduledFor: int, window: Option<Window>)
      modifies this`runs
      ensures State() == NewRun(old(State()), scheduledFor, window)
    {
      runs := runs + [Run(Queued, scheduledFor, window, 0, 0, 0, 0, 0, 0, 0, [])];
    }

    /** assertNoActiveSourceRun. */
    method FindOpenRun() returns (found: bool)
      ensures found <==> HasOpenRun(runs)
    {
      var i := 0;
      while i < |runs|
        invariant 0 <= i <= |runs|
        invariant forall k :: 0 <= k < i ==> !IsOpen(runs[k].status)
      {
        if IsOpen(runs[i].status) { return true; }
        i := i + 1;
      }
      return false;
    }

    method QueueManualSourceRun(now: int) returns (queued: bool)
      modifies this`runs
      ensures queued <==> QueueManual(config, old(State()), now).Some?
      ensures State() == QueueManual(config, old(State()), now).GetOr(old(State()))
    {
      if !active { return false; }
      var busy := FindOpenRun();
      if busy { return false; }
      var window := NextWindow(config, State(), now);
      if window.None? || IsScheduled(runs, now) { return false; }
      InsertRun(now, window.value);
      return true;
    }

    /** The body of queueDueSourceRuns' loop after the schedule moved on. */
    method QueueDueSourceRun(scheduledFor: int, now: int) returns (aborted: bool)
      modifies this`runs
      ensures aborted <==> QueueDue(config, old(State()), scheduledFor, now).None?
      ensures State() == QueueDue(config, old(State()), scheduledFor, now).GetOr(old(State()))
    {
      var busy := FindOpenRun();
      if busy { return false; }
      var window := NextWindow(config, State(), now);
      if window.None? { return true; }
      if !IsScheduled(runs, scheduledFor) { InsertRun(scheduledFor, window.value); }
      return false;
    }

    method MarkSourceRunRunning(r: nat) returns (ready: bool)
      requires r < |runs|
      modifies this`runs
      ensures State() == MarkRunning(old(State()), r)
      ensures ready <==> IsOpen(old(runs)[r].status)
    {
      if !IsOpen(runs[r].status) { return false; }
      runs := runs[r := runs[r].(attempt := runs[r].attempt + 1, status := Running)];
      return true;
    }

    method SetSourceRunWorkerFailure(r: nat, retrying: bool)
      requires r < |runs|
      modifies this`runs
      ensures State() == WorkerFailure(old(State()), r, retrying)
    {
      if IsOpen(runs[r].status) { runs := runs[r := runs[r].(status := if retrying then Queued else Failed)]; }
    }

    /** applySourceRunPage; a refused page changes nothing. */
    method ApplySourceRunPage(r: nat, expectedPage: int, page: Page, more: bool,
                              ghost start: Source) returns (result: PageResult)
      requires Sound(table.naming, config, start, State()) && r < |runs| && IsNormalized(page)
      modifies this, table
      ensures (State(), result) == ApplyPage(table.naming, config, old(State()), r, expectedPage, page, more)
      ensures Sound(table.naming, config, start, State())
    {
      PageIsSound(table.naming, config, start, State(), r, expectedPage, page, more);
      SoundGrid(table.naming, config, start, State());
      hide Sound, ApplyPage, IsNormalized;
      result := PageStatements(r, expectedPage, page, more);
    }

    static lemma SoundGrid(naming: Naming, config: Config, start: Source, source: Source)
      requires Sound(naming, config, start, source)
      ensures GridIsSound(source.grid)
    {
    }

    method PageStatements(r: nat, expectedPage: int, page: Page, more: bool) returns (result: PageResult)
      requires GridIsSound(table.TableState()) && r < |runs| && IsNormalized(page)
      modifies this, table
      ensures (State(), result) == ApplyPage(table.naming, config, old(State()), r, expectedPage, page, more)
    {
      hide WriteChunk, NewCount, GridIsSound, IsNormalized, PageKeys, RowsOfKeys, SeenNow, Missing, Snapshots,
        KeysAreDistinct;
      var run := runs[r];
      if run.status == Succeeded { return AlreadySucceeded; }
      if run.status != Running || expectedPage < 1 || expectedPage > config.maxPages { return Refused; }
      if run.pageCount >= expectedPage { return Replayed; }
      if run.pageCount + 1 != expectedPage || PageIsRefused(config, State(), r, page, more) { return Refused; }
      SnapshotFacts(page);
      ghost var before := State();
      var pushes := Snapshots(page);
      var created := table.WriteRecords(page.fields, pushes);
      if created.None? { return Refused; }
      FinishPage(r, page, more, created.value, before);
      return Applied;
    }

    /** The statements after the cells were written: restored records, seen keys,
        archived records, counters and the watermark. */
    method FinishPage(r: nat, page: Page, more: bool, created: nat, ghost before: Source)
      requires r < |runs| && created == NewCount(before.grid.identities, Snapshots(page)) && created <= |page.records|
      requires (runs, lastSeen, archived, archivedRows, watermark, active) ==
               (before.runs, before.lastSeen, before.archived, before.archivedRows, before.watermark, before.active)
      modifies this
      ensures State() == Accept(config, before, r, page, more, old(table.SchemaState()), old(table.TableState()))
    {
      hide NewCount, PageKeys, RowsOfKeys, SeenNow, Missing, Snapshots;
      var run := runs[r];
      var keys := PageKeys(page);
      var toRestore := archived * keys;
      archivedRows := archivedRows - RowsOfKeys(table.identities, toRestore);
      archived := archived - keys;
      lastSeen := SeenNow(lastSeen, page, r);
      var missing := Missing(config, table.identities, table.identities.Keys - archived, lastSeen, r, more);
      archivedRows := archivedRows + RowsOfKeys(table.identities, missing);
      archived := archived + missing;
      if !more && config.hubSpot && run.window.Some? { watermark := Some(run.window.value.end); }
      runs := runs[r := AdvanceRun(run, page, created, |toRestore|, |missing|, more)];
    }
  }
}
