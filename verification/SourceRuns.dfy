/** Pull sources (packages/db/src/sources.ts:367-417, 487-991, 1018-1140): the
    transactions of one source over its runs, records and table. */
module SourceRuns {
  import opened Collections
  import opened IngestionMapping
  import opened Upsert
  import opened ChunkUpsert

  /** HUBSPOT_INCREMENTAL_SAFETY_LAG_MS; instants are milliseconds. */
  const SAFETY_LAG: int := 5 * 60_000

  datatype Config = Config(hubSpot: bool, initialSyncFrom: int, archiveMissing: bool, paginated: bool, maxPages: nat,
                           maxRecords: nat)

  datatype Status = Queued | Running | Succeeded | Failed | Cancelled

  datatype Window = Window(start: int, end: int)

  /** One fetched page. */
  datatype Page = Page(fields: seq<string>, records: seq<Record>)

  /** A run; `pages` lists the pages it has accepted. */
  datatype Run = Run(status: Status, scheduledFor: int, window: Option<Window>, attempt: nat, pageCount: nat,
                     received: nat, created: nat, updated: nat, archived: nat, restored: nat, pages: seq<Page>)

  /** A source: its runs in creation order, its mapping and table, and for each
      record key the run that saw it last, whether it is archived, and the
      archived rows. */
  datatype Source = Source(runs: seq<Run>, schema: Schema, grid: Grid, lastSeen: map<Key, nat>, archived: set<Key>,
                           archivedRows: set<RowId>, watermark: Option<int>, active: bool)

  predicate IsOpen(status: Status) {
    status == Queued || status == Running
  }

  predicate HasOpenRun(runs: seq<Run>) {
    exists i :: 0 <= i < |runs| && IsOpen(runs[i].status)
  }

  // ---- queueing ---------------------------------------------------------------

  /** sourceIncrementalWindow; the outer None is its conflict. */
  function NextWindow(config: Config, source: Source, observedAt: int): Option<Option<Window>> {
    if !config.hubSpot then Some(None)
    else
      var start := source.watermark.GetOr(config.initialSyncFrom);
      var end := observedAt - SAFETY_LAG;
      if start >= end then None else Some(Some(Window(start, end)))
  }

  predicate IsScheduled(runs: seq<Run>, scheduledFor: int) {
    exists i :: 0 <= i < |runs| && runs[i].scheduledFor == scheduledFor
  }

  function NewRun(source: Source, scheduledFor: int, window: Option<Window>): Source {
    source.(runs := source.runs + [Run(Queued, scheduledFor, window, 0, 0, 0, 0, 0, 0, 0, [])])
  }

  /** queueManualSourceRun at a given instant; None is an abort. */
  function QueueManual(config: Config, source: Source, now: int): Option<Source> {
    if !source.active || HasOpenRun(source.runs) then None
    else
      match NextWindow(config, source, now)
      case None => None
      case Some(window) => if IsScheduled(source.runs, now) then None else Some(NewRun(source, now, window))
  }

  /** What queueDueSourceRuns does for one due source; None is the throw that
      aborts the whole call. */
  function QueueDue(config: Config, source: Source, scheduledFor: int, now: int): Option<Source> {
    if HasOpenRun(source.runs) then Some(source)
    else
      match NextWindow(config, source, now)
      case None => None
      case Some(window) =>
        Some(if IsScheduled(source.runs, scheduledFor) then source else NewRun(source, scheduledFor, window))
  }

  // ---- claiming and failing ---------------------------------------------------

  function WithRun(source: Source, r: nat, run: Run): Source
    requires r < |source.runs|
  {
    source.(runs := source.runs[r := run])
  }

  function MarkRunning(source: Source, r: nat): Source
    requires r < |source.runs|
  {
    var run := source.runs[r];
    if IsOpen(run.status) then WithRun(source, r, run.(attempt := run.attempt + 1, status := Running)) else source
  }

  function WorkerFailure(source: Source, r: nat, retrying: bool): Source
    requires r < |source.runs|
  {
    var run := source.runs[r];
    if IsOpen(run.status) then WithRun(source, r, run.(status := if retrying then Queued else Failed)) else source
  }

  // ---- one page ---------------------------------------------------------------

  function Snapshots(page: Page): (r: seq<Push>)
    ensures |r| == |page.records|
  {
    seq(|page.records|, k requires 0 <= k < |page.records| => Push(page.fields, page.records[k], true))
  }

  function PageKeys(page: Page): set<Key> {
    set i | 0 <= i < |page.records| :: page.records[i].key
  }

  /** What the response normalizer guarantees of a page
      (packages/domain/src/source-policy.ts:326-331). */
  predicate IsNormalized(page: Page) {
    forall i, j :: 0 <= i < j < |page.records| ==> page.records[i].key != page.records[j].key
  }

  predicate RepeatsKey(source: Source, r: nat, page: Page) {
    exists k :: k in PageKeys(page) && k in source.lastSeen && source.lastSeen[k] == r
  }

  function RowsOfKeys(identities: map<Key, RowId>, keys: set<Key>): set<RowId> {
    set k | k in keys && k in identities :: identities[k]
  }

  function SeenNow(lastSeen: map<Key, nat>, page: Page, r: nat): map<Key, nat> {
    lastSeen + map k | k in PageKeys(page) :: r
  }

  /** The live records a completed run in archive mode did not see. */
  function Missing(config: Config, identities: map<Key, RowId>, live: set<Key>, lastSeen: map<Key, nat>, r: nat,
                   more: bool): set<Key> {
    if !more && config.archiveMissing then set k | k in live && k in identities && !(k in lastSeen && lastSeen[k] == r)
    else {}
  }

  datatype PageResult = AlreadySucceeded | Replayed | Applied | Refused

  predicate PageIsRefused(config: Config, source: Source, r: nat, page: Page, more: bool)
    requires r < |source.runs|
  {
    source.runs[r].received + |page.records| > config.maxRecords || (!config.paginated && more) ||
    RepeatsKey(source, r, page)
  }

  function AdvanceRun(run: Run, page: Page, created: nat, restored: nat, archived: nat, more: bool): Run
    requires created <= |page.records|
  {
    run.(pageCount := run.pageCount + 1, received := run.received + |page.records|, created := run.created + created,
         updated := run.updated + |page.records| - created, restored := run.restored + restored,
           archived := run.archived + archived,
         status := if more then Running else Succeeded, pages := run.pages + [page])
  }

  /** The writes of an accepted page. */
  function Accept(config: Config, source: Source, r: nat, page: Page, more: bool, schema: Schema, grid: Grid): Source
    requires r < |source.runs|
  {
    var run := source.runs[r];
    var keys := PageKeys(page);
    var restored := source.archived * keys;
    var lastSeen := SeenNow(source.lastSeen, page, r);
    var missing := Missing(config, grid.identities, grid.identities.Keys - (source.archived - keys), lastSeen, r, more);
    var created := NewCount(source.grid.identities, Snapshots(page));
    Source(source.runs[r := AdvanceRun(run, page, created, |restored|, |missing|, more)],
           schema, grid, lastSeen, source.archived - keys + missing,
           source.archivedRows - RowsOfKeys(grid.identities, restored) + RowsOfKeys(grid.identities, missing),
           if !more && config.hubSpot && run.window.Some? then Some(run.window.value.end) else source.watermark,
           source.active)
  }

  /** applySourceRunPage; `more` says that a next cursor is stored. */
  function ApplyPage(naming: Naming, config: Config, source: Source, r: nat, expectedPage: int, page: Page,
                     more: bool): (Source, PageResult)
    requires r < |source.runs|
  {
    var run := source.runs[r];
    if run.status == Succeeded then (source, AlreadySucceeded)
    else if run.status != Running || expectedPage < 1 || expectedPage > config.maxPages then (source, Refused)
    else if run.pageCount >= expectedPage then (source, Replayed)
    else if run.pageCount + 1 != expectedPage || PageIsRefused(config, source, r, page, more) then (source, Refused)
    else
      match WriteChunk(naming, source.schema, source.grid, page.fields, Snapshots(page))
      case None => (source, Refused)
      case Some((schema, grid)) => (Accept(config, source, r, page, more, schema, grid), Applied)
  }

  // ---- runs of the system -----------------------------------------------------

  datatype Event =
    | Manual(now: int)
    | Due(scheduledFor: int, now: int)
    | Start(run: nat)
    | Failure(run: nat, retrying: bool)
    | ReceivePage(run: nat, expectedPage: int, page: Page, more: bool)
    | SetActive(active: bool)

  /** Pages reach the transaction only after normalization. */
  function Step(naming: Naming, config: Config, source: Source, event: Event): Source {
    match event
    case Manual(now) => QueueManual(config, source, now).GetOr(source)
    case Due(scheduledFor, now) => QueueDue(config, source, scheduledFor, now).GetOr(source)
    case Start(r) => if r < |source.runs| then MarkRunning(source, r) else source
    case Failure(r, retrying) => if r < |source.runs| then WorkerFailure(source, r, retrying) else source
    case ReceivePage(r, expectedPage, page, more) =>
      if r < |source.runs| && IsNormalized(page) then ApplyPage(naming, config, source, r, expectedPage, page, more).0
         else source
    case SetActive(active) => source.(active := active)
  }

  ghost predicate IsHistory(naming: Naming, config: Config, states: seq<Source>, events: seq<Event>) {
    |states| == |events| + 1 &&
    forall k :: 0 <= k < |events| ==> states[k + 1] == Step(naming, config, states[k], events[k])
  }

  ghost predicate IsNew(source: Source) {
    source.runs == [] && source.grid.identities == map[] && source.lastSeen == map[] &&
    source.archived == {} && source.archivedRows == {} && source.watermark == None
  }

  /** Only the newest run can still be open. */
  ghost predicate OnlyLastIsOpen(runs: seq<Run>) {
    forall i :: 0 <= i < |runs| - 1 ==> !IsOpen(runs[i].status)
  }

  lemma StepKeepsOneOpen(naming: Naming, config: Config, source: Source, event: Event)
    requires OnlyLastIsOpen(source.runs)
    ensures OnlyLastIsOpen(Step(naming, config, source, event).runs)
  {
    hide WriteChunk, NewCount, IsNormalized, RepeatsKey;
  }

  lemma {:induction false} HistoryKeepsOneOpen(naming: Naming, config: Config, states: seq<Source>, events: seq<Event>)
    requires IsHistory(naming, config, states, events) && IsNew(states[0])
    ensures OnlyLastIsOpen(states[|events|].runs)
  {
    hide Step;
    if events != [] {
      var n := |events| - 1;
      HistoryKeepsOneOpen(naming, config, states[..n + 1], events[..n]);
      StepKeepsOneOpen(naming, config, states[n], events[n]);
    }
  }

  /** Whatever was queued by hand, by a tick or again after a failure, a source
      has at most one queued or running run, and it is the newest. */
  lemma AtMostOneActiveRun(naming: Naming, config: Config, states: seq<Source>, events: seq<Event>, i: nat)
    requires IsHistory(naming, config, states, events) && IsNew(states[0])
    requires i < |states[|events|].runs| && IsOpen(states[|events|].runs[i].status)
    ensures i == |states[|events|].runs| - 1
  {
    HistoryKeepsOneOpen(naming, config, states, events);
  }
}
