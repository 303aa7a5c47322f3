/** The scheduler over all sources of an installation (packages/db/src/sources.ts:
    115-250, 298-485): creation, manual runs, pausing and resuming, and ticks.
    Every operation reads the clock, which need not be monotone. */
module SourceScheduler {
  import opened Collections
  import opened IngestionMapping
  import opened Upsert
  import opened ChunkUpsert
  import opened SourceRuns
  import opened SourceWindows

  /** SOURCE_SCHEDULE_MINUTES. */
  type Interval = m: nat | m == 15 || m == 60 || m == 360 || m == 1_440 witness 15

  /** A source and its schedule; no interval is the manual schedule. */
  datatype Scheduled = Scheduled(config: Config, source: Source, nextRunAt: Option<int>, interval: Option<Interval>)

  /** `latest` is the latest reading of the clock so far. */
  datatype Scheduler = Scheduler(latest: int, sources: seq<Scheduled>)

  // ---- one source -------------------------------------------------------------

  function NewSource(schema: Schema): Source {
    Source([], schema, Grid(map[], map[], 0, []), map[], {}, {}, None, true)
  }

  /** createHttpJsonSource and createHubSpotContactsSource; None is the refusal
      of an initial instant inside the safety lag. */
  function Create(config: Config, schema: Schema, interval: Option<Interval>, now: int): Option<Scheduled> {
    if config.hubSpot && config.initialSyncFrom >= now - SAFETY_LAG then None
    else
      var nextRunAt := if interval.Some? then Some(now + interval.value * 60_000) else None;
      Some(Scheduled(config, NewSource(schema), nextRunAt, interval))
  }

  predicate MappedColumnsAreActive(schema: Schema) {
    forall i :: 0 <= i < |schema.mapping| ==>
      schema.mapping[i].columnId < |schema.columns| && !schema.columns[schema.mapping[i].columnId].archived
  }

  /** setSourceStatus; None is its conflict. */
  function SetSourceStatus(s: Scheduled, active: bool, now: int): Option<Scheduled> {
    if active && !MappedColumnsAreActive(s.source.schema) then None
    else
      var nextRunAt := if active && s.interval.Some? then Some(now) else None;
      Some(s.(source := s.source.(active := active), nextRunAt := nextRunAt))
  }

  predicate IsDue(s: Scheduled, now: int) {
    s.source.active && s.nextRunAt.Some? && s.nextRunAt.value <= now
  }

  /** One selected source of queueDueSourceRuns; None is the throw that rolls
      back the whole call. */
  function TickOne(s: Scheduled, now: int): Option<Scheduled> {
    if s.nextRunAt.None? || s.interval.None? then Some(s)
    else
      match QueueDue(s.config, s.source, s.nextRunAt.value, now)
      case None => None
      case Some(source) =>
        Some(s.(source := source, nextRunAt := Some(NextScheduled(s.nextRunAt.value, s.interval.value, now))))
  }

  /** A new source has no runs and is due one interval after its creation, a
      manual one never; a HubSpot source needs an initial instant that is more than
      five minutes old. */
  lemma CreationMeans(config: Config, schema: Schema, interval: Option<Interval>, now: int, t: int)
    ensures Create(config, schema, interval, now).Some? <==> (config.hubSpot ==> config.initialSyncFrom < now - 300_000)
    ensures Create(config, schema, interval, now).Some? ==>
              var created := Create(config, schema, interval, now).value;
              created.config == config && created.interval == interval && IsNew(created.source) &&
              created.source.schema == schema &&
              (IsDue(created, t) <==> interval.Some? && t >= now + interval.value * 60_000)
  {
  }

  /** A paused source is never due; resuming needs every mapped column to be active
      and makes a scheduled source due at once.  Its runs and records stay. */
  lemma StatusMeans(s: Scheduled, active: bool, now: int, t: int)
    ensures SetSourceStatus(s, active, now).Some? <==>
            (active ==> forall entry :: entry in s.source.schema.mapping ==>
                          entry.columnId < |s.source.schema.columns| &&
                          !s.source.schema.columns[entry.columnId].archived)
    ensures SetSourceStatus(s, active, now).Some? ==>
              var after := SetSourceStatus(s, active, now).value;
              after.source == s.source.(active := active) && after.config == s.config &&
              after.interval == s.interval && (IsDue(after, t) <==> active && s.interval.Some? && t >= now) &&
              (!active ==> after.nextRunAt == None)
  {
    var mapping := s.source.schema.mapping;
    assert MappedColumnsAreActive(s.source.schema) <==>
           forall entry :: entry in mapping ==>
             entry.columnId < |s.source.schema.columns| && !s.source.schema.columns[entry.columnId].archived by {
      if MappedColumnsAreActive(s.source.schema) {
        forall entry | entry in mapping
          ensures entry.columnId < |s.source.schema.columns| && !s.source.schema.columns[entry.columnId].archived
        {
          var i :| 0 <= i < |mapping| && mapping[i] == entry;
        }
      } else {
        var i :| 0 <= i < |mapping| && !(mapping[i].columnId < |s.source.schema.columns| &&
                                        !s.source.schema.columns[mapping[i].columnId].archived);
        assert mapping[i] in mapping;
      }
    }
  }

  // ---- a tick -----------------------------------------------------------------

  ghost predicate ArePositions(selected: seq<nat>, sources: seq<Scheduled>) {
    (forall k :: 0 <= k < |selected| ==> selected[k] < |sources|) &&
    forall j, k :: 0 <= j < k < |selected| ==> selected[j] != selected[k]
  }

  /** The query of queueDueSourceRuns: due sources, the earliest first, up to the
      clamped limit. */
  ghost predicate IsSelection(sources: seq<Scheduled>, selected: seq<nat>, now: int, limit: int) {
    ArePositions(selected, sources) &&
    |selected| <= Clamped(limit) &&
    (forall k :: 0 <= k < |selected| ==> IsDue(sources[selected[k]], now)) &&
    (forall j, k :: 0 <= j < k < |selected| ==>
      sources[selected[j]].nextRunAt.value <= sources[selected[k]].nextRunAt.value) &&
    forall i :: 0 <= i < |sources| && IsDue(sources[i], now) && i !in selected ==>
      |selected| == Clamped(limit) &&
      forall k :: 0 <= k < |selected| ==> sources[selected[k]].nextRunAt.value <= sources[i].nextRunAt.value
  }

  function Clamped(limit: int): int {
    if limit < 1 then 1 else if limit > 100 then 100 else limit
  }

  /** The loop over the selected sources; None rolls back all of them. */
  function Tick(sources: seq<Scheduled>, selected: seq<nat>, now: int): (r: Option<seq<Scheduled>>)
    requires forall k :: 0 <= k < |selected| ==> selected[k] < |sources|
    ensures r.Some? ==> |r.value| == |sources|
  {
    if selected == [] then Some(sources)
    else
      var n := |selected| - 1;
      match Tick(sources, selected[..n], now)
      case None => None
      case Some(done) =>
        match TickOne(done[selected[n]], now)
        case None => None
        case Some(source) => Some(done[selected[n] := source])
  }

  /** A scheduled idle HubSpot source whose succeeded runs, or whose initial
      instant, reach up to this reading less the safety lag. */
  ghost predicate BlocksTick(s: Scheduled, now: int) {
    s.nextRunAt.Some? && s.interval.Some? && !HasOpenRun(s.source.runs) && s.config.hubSpot &&
    s.source.watermark.GetOr(s.config.initialSyncFrom) >= now - SAFETY_LAG
  }

  /** A tick that does not abort handles each selected source and no other. */
  lemma {:induction false} TickHandlesSelected(sources: seq<Scheduled>, selected: seq<nat>, now: int)
    requires ArePositions(selected, sources) && Tick(sources, selected, now).Some?
    ensures var after := Tick(sources, selected, now).value;
            (forall k :: 0 <= k < |selected| ==> TickOne(sources[selected[k]], now) == Some(after[selected[k]])) &&
            forall i :: 0 <= i < |sources| && i !in selected ==> after[i] == sources[i]
  {
    hide TickOne;
    if selected != [] {
      var n := |selected| - 1;
      TickHandlesSelected(sources, selected[..n], now);
      var done := Tick(sources, selected[..n], now).value;
      assert selected == selected[..n] + [selected[n]] && selected[n] !in selected[..n];
      assert done[selected[n]] == sources[selected[n]];
      forall k | 0 <= k < n
        ensures TickOne(sources[selected[k]], now) == Some(Tick(sources, selected, now).value[selected[k]])
      {
        assert selected[..n][k] == selected[k] != selected[n];
      }
    }
  }

  /** One such source aborts the tick for all the others; nothing else does. */
  lemma {:induction false} TickAbortsExactlyWhenBlocked(sources: seq<Scheduled>, selected: seq<nat>, now: int)
    requires ArePositions(selected, sources)
    ensures Tick(sources, selected, now).None? <==>
              exists k :: 0 <= k < |selected| && BlocksTick(sources[selected[k]], now)
  {
    hide TickOne, BlocksTick;
    if selected != [] {
      var n := |selected| - 1;
      TickAbortsExactlyWhenBlocked(sources, selected[..n], now);
      OneAbortsExactlyWhenBlocked(sources[selected[n]], now);
      assert selected == selected[..n] + [selected[n]] && selected[n] !in selected[..n];
      if Tick(sources, selected[..n], now).None? {
        var k :| 0 <= k < n && BlocksTick(sources[selected[..n][k]], now);
        assert BlocksTick(sources[selected[k]], now);
      } else {
        TickHandlesSelected(sources, selected[..n], now);
        assert Tick(sources, selected, now).None? <==> BlocksTick(sources[selected[n]], now);
        forall k | 0 <= k < n ensures !BlocksTick(sources[selected[k]], now) { assert selected[..n][k] == selected[k]; }
      }
    }
  }

  lemma OneAbortsExactlyWhenBlocked(s: Scheduled, now: int)
    ensures TickOne(s, now).None? <==> BlocksTick(s, now)
  {
    hide NewRun, NextScheduled, HasOpenRun, IsScheduled;
  }

  // ---- histories --------------------------------------------------------------

  datatype Event =
    | CreateSource(config: Config, schema: Schema, interval: Option<Interval>, now: int)
    | RunManually(i: nat, now: int)
    | SetStatus(i: nat, active: bool, now: int)
    | TickSources(selected: seq<nat>, limit: int, now: int)
    | Work(i: nat, event: SourceRuns.Event)

  /** What workers do to a source: start and fail runs and apply pages. */
  predicate IsWork(event: SourceRuns.Event) {
    event.Start? || event.Failure? || event.ReceivePage?
  }

  ghost predicate Enabled(s: Scheduler, event: Event) {
    match event
    case CreateSource(_, _, _, _) => true
    case RunManually(i, _) => i < |s.sources|
    case SetStatus(i, _, _) => i < |s.sources|
    case TickSources(selected, limit, now) => IsSelection(s.sources, selected, now, limit)
    case Work(i, event) => i < |s.sources| && IsWork(event)
  }

  function Reading(event: Event): Option<int> {
    if event.Work? then None else Some(event.now)
  }

  /** The sources after an event. */
  function After(naming: Naming, sources: seq<Scheduled>, event: Event): seq<Scheduled> {
    match event
    case CreateSource(config, schema, interval, now) =>
      (match Create(config, schema, interval, now)
       case None => sources
       case Some(created) => sources + [created])
    case RunManually(i, now) =>
      if i >= |sources| then sources
      else sources[i := sources[i].(source := QueueManual(sources[i].config, sources[i].source,
                                                          now).GetOr(sources[i].source))]
    case SetStatus(i, active, now) =>
      if i >= |sources| then sources else sources[i := SetSourceStatus(sources[i], active, now).GetOr(sources[i])]
    case TickSources(selected, _, now) =>
      if exists k :: 0 <= k < |selected| && selected[k] >= |sources| then sources
      else Tick(sources, selected, now).GetOr(sources)
    case Work(i, event) =>
      if i >= |sources| then sources
      else sources[i := sources[i].(source := SourceRuns.Step(naming, sources[i].config, sources[i].source, event))]
  }

  function Step(naming: Naming, s: Scheduler, event: Event): Scheduler {
    var latest := if Reading(event).GetOr(s.latest) > s.latest then event.now else s.latest;
    Scheduler(latest, After(naming, s.sources, event))
  }

  /** From an installation without sources. */
  function RunAll(naming: Naming, start: int, events: seq<Event>): Scheduler {
    if events == [] then Scheduler(start, []) else Step(naming, RunAll(naming, start, events[..|events| - 1]),
                                                        events[|events| - 1])
  }

  ghost predicate AllEnabled(naming: Naming, start: int, events: seq<Event>) {
    events == [] ||
    (AllEnabled(naming, start, events[..|events| - 1]) &&
     Enabled(RunAll(naming, start, events[..|events| - 1]), events[|events| - 1]))
  }

  // ---- the windows stay behind the clock --------------------------------------

  /** A HubSpot source has come no further than the latest reading less the
      safety lag, and its windows tile what it has covered. */
  ghost predicate IsBehind(s: Scheduled, latest: int) {
    s.config.hubSpot ==>
      WindowsFit(s.config, s.source) && s.config.initialSyncFrom + SAFETY_LAG < latest &&
      forall i :: 0 <= i < |s.source.runs| ==>
        s.source.runs[i].window.Some? && s.source.runs[i].window.value.end + SAFETY_LAG <= latest
  }

  ghost predicate AllBehind(s: Scheduler) {
    forall i :: 0 <= i < |s.sources| ==> IsBehind(s.sources[i], s.latest)
  }

  /** The front is the initial instant or the end of some run. */
  lemma {:induction false} FrontIsBehind(config: Config, runs: seq<Run>, latest: int)
    requires config.initialSyncFrom + SAFETY_LAG <= latest
    requires forall i :: 0 <= i < |runs| ==> runs[i].window.Some? && runs[i].window.value.end + SAFETY_LAG <= latest
    ensures Front(config, runs) + SAFETY_LAG <= latest
  {
    if runs != [] { FrontIsBehind(config, runs[..|runs| - 1], latest); }
  }

  lemma BehindDoesNotBlock(s: Scheduled, latest: int, now: int)
    requires IsBehind(s, latest) && latest < now
    ensures !BlocksTick(s, now)
  {
    hide WindowFits, Front;
    if s.config.hubSpot { FrontIsBehind(s.config, s.source.runs, latest); }
  }

  /** Queueing at a reading, by hand or by a tick. */
  lemma QueueingStaysBehind(naming: Naming, s: Scheduled, latest: int, event: SourceRuns.Event, now: int, next: int)
    requires IsBehind(s, latest) && latest <= next && now <= next
    requires event == Manual(now) || (event.Due? && event.now == now)
    ensures IsBehind(s.(source := SourceRuns.Step(naming, s.config, s.source, event)), next)
  {
    hide WindowsFit, ApplyPage, MarkRunning, WorkerFailure, HasOpenRun, IsScheduled;
    if s.config.hubSpot { StepKeepsWindows(naming, s.config, s.source, event); }
  }

  lemma WorkStaysBehind(naming: Naming, s: Scheduled, latest: int, event: SourceRuns.Event)
    requires IsBehind(s, latest) && IsWork(event)
    ensures IsBehind(s.(source := SourceRuns.Step(naming, s.config, s.source, event)), latest)
  {
    hide WindowsFit, WriteChunk, RepeatsKey, NewCount, Missing, SeenNow, RowsOfKeys, PageKeys, IsNormalized;
    if s.config.hubSpot { StepKeepsWindows(naming, s.config, s.source, event); }
  }

  lemma TickStaysBehind(naming: Naming, s: Scheduled, latest: int, now: int, next: int)
    requires IsBehind(s, latest) && latest <= next && now <= next && TickOne(s, now).Some?
    ensures IsBehind(TickOne(s, now).value, next)
  {
    hide WindowsFit, QueueDue, NextScheduled;
    if s.nextRunAt.Some? && s.interval.Some? {
      QueueingStaysBehind(naming, s, latest, Due(s.nextRunAt.value, now), now, next);
    }
  }

  lemma CreatedIsBehind(config: Config, schema: Schema, interval: Option<Interval>, now: int, next: int)
    requires Create(config, schema, interval, now).Some? && now <= next
    ensures IsBehind(Create(config, schema, interval, now).value, next)
  {
  }

  lemma StepStaysBehind(naming: Naming, s: Scheduler, event: Event)
    requires AllBehind(s) && Enabled(s, event)
    ensures AllBehind(Step(naming, s, event))
  {
    hide IsBehind, Create, QueueManual, SetSourceStatus, SourceRuns.Step, TickOne;
    var after := Step(naming, s, event);
    forall i | 0 <= i < |after.sources| ensures IsBehind(after.sources[i], after.latest) {
      OneStaysBehind(naming, s, event, i);
    }
  }

  lemma OneStaysBehind(naming: Naming, s: Scheduler, event: Event, i: nat)
    requires AllBehind(s) && Enabled(s, event) && i < |Step(naming, s, event).sources|
    ensures IsBehind(Step(naming, s, event).sources[i], Step(naming, s, event).latest)
  {
    hide IsBehind, Create, QueueManual, SetSourceStatus, SourceRuns.Step, TickOne, IsDue, WindowsFit;
    var after := Step(naming, s, event);
    if i < |s.sources| { LaterIsBehind(s.sources[i], s.latest, after.latest); }
    match event
    case CreateSource(config, schema, interval, now) =>
      if i >= |s.sources| { CreatedIsBehind(config, schema, interval, now, after.latest); }
    case RunManually(j, now) =>
      if i == j { ManualStaysBehind(naming, s.sources[i], s.latest, now, after.latest); }
    case SetStatus(j, active, now) =>
      if i == j { StatusStaysBehind(s.sources[i], after.latest, active, now); }
    case Work(j, work) =>
      if i == j { WorkStaysBehind(naming, s.sources[i], s.latest, work); }
    case TickSources(selected, _, now) =>
      if Tick(s.sources, selected, now).Some? { TickHandlesSelected(s.sources, selected, now); }
      if Tick(s.sources, selected, now).Some? && i in selected {
        var k :| 0 <= k < |selected| && selected[k] == i;
        TickStaysBehind(naming, s.sources[i], s.latest, now, after.latest);
      }
  }

  lemma LaterIsBehind(s: Scheduled, latest: int, next: int)
    requires IsBehind(s, latest) && latest <= next
    ensures IsBehind(s, next)
  {
    hide WindowsFit;
  }

  lemma ManualStaysBehind(naming: Naming, s: Scheduled, latest: int, now: int, next: int)
    requires IsBehind(s, latest) && latest <= next && now <= next
    ensures IsBehind(s.(source := QueueManual(s.config, s.source, now).GetOr(s.source)), next)
  {
    hide IsBehind, QueueManual;
    QueueingStaysBehind(naming, s, latest, Manual(now), now, next);
  }

  lemma StatusStaysBehind(s: Scheduled, latest: int, active: bool, now: int)
    requires IsBehind(s, latest)
    ensures IsBehind(SetSourceStatus(s, active, now).GetOr(s), latest)
  {
    hide MappedColumnsAreActive, WindowFits, Front;
  }

  lemma {:induction false} EveryHistoryStaysBehind(naming: Naming, start: int, events: seq<Event>)
    requires AllEnabled(naming, start, events)
    ensures AllBehind(RunAll(naming, start, events))
  {
    hide AllBehind, Step, Enabled;
    if events == [] {
      NothingIsBehind(start);
    } else {
      var n := |events| - 1;
      EveryHistoryStaysBehind(naming, start, events[..n]);
      StepStaysBehind(naming, RunAll(naming, start, events[..n]), events[n]);
    }
  }

  lemma NothingIsBehind(start: int)
    ensures AllBehind(Scheduler(start, []))
  {
  }

  // ---- what a tick guarantees -------------------------------------------------

  /** The source has a run under way, or one recorded for the occurrence it was due
      for, or gets one for it, and it is due again at the next occurrence after now. */
  ghost predicate IsServed(before: Scheduled, after: Scheduled, now: int)
    requires before.nextRunAt.Some? && before.interval.Some?
  {
    var n, due := |before.source.runs|, before.nextRunAt.value;
    !IsDue(after, now) && after.interval == before.interval && after.nextRunAt.Some? &&
    IsNextOccurrence(due, before.interval.value, now, after.nextRunAt.value) &&
    if HasOpenRun(before.source.runs) || IsScheduled(before.source.runs, due) then after.source == before.source
    else
      |after.source.runs| == n + 1 && after.source.runs[..n] == before.source.runs &&
      after.source.runs[n].status == Queued && after.source.runs[n].scheduledFor == due
  }

  ghost predicate IsNextOccurrence(due: int, interval: nat, now: int, next: int) {
    next > now && IsOccurrence(due, interval, next) &&
    forall t :: IsOccurrence(due, interval, t) && t > now ==> next <= t
  }

  lemma DueSourceIsServed(s: Scheduled, now: int)
    requires IsDue(s, now) && s.interval.Some? && TickOne(s, now).Some?
    ensures IsServed(s, TickOne(s, now).value, now)
  {
    hide NextScheduled, IsOccurrence;
    NextScheduledIsEarliest(s.nextRunAt.value, s.interval.value, now);
  }

  /** Whatever happened before, a tick whose reading is later than every earlier
      one never aborts. It serves the due sources with a schedule, except that a
      full batch may leave out sources that are due no earlier than those it took. */
  lemma TicksNeverAbort(naming: Naming, start: int, events: seq<Event>, selected: seq<nat>, limit: int, now: int)
    requires AllEnabled(naming, start, events)
    requires var s := RunAll(naming, start, events); s.latest < now && IsSelection(s.sources, selected, now, limit)
    ensures var sources := RunAll(naming, start, events).sources;
            var after := Tick(sources, selected, now);
            after.Some? &&
            forall i :: 0 <= i < |sources| && IsDue(sources[i], now) && sources[i].interval.Some? ==>
              if i in selected then IsServed(sources[i], after.value[i], now)
              else |selected| == Clamped(limit) &&
                   forall k :: 0 <= k < |selected| ==>
                     sources[selected[k]].nextRunAt.value <= sources[i].nextRunAt.value
  {
    hide AllEnabled, RunAll, IsBehind, BlocksTick, IsServed, TickOne;
    var s := RunAll(naming, start, events);
    EveryHistoryStaysBehind(naming, start, events);
    TickAbortsExactlyWhenBlocked(s.sources, selected, now);
    forall k | 0 <= k < |selected| ensures !BlocksTick(s.sources[selected[k]], now) {
      BehindDoesNotBlock(s.sources[selected[k]], s.latest, now);
    }
    var after := Tick(s.sources, selected, now).value;
    TickHandlesSelected(s.sources, selected, now);
    forall i | 0 <= i < |s.sources| && IsDue(s.sources[i], now) && s.sources[i].interval.Some? && i in selected
      ensures IsServed(s.sources[i], after[i], now)
    {
      var k :| 0 <= k < |selected| && selected[k] == i;
      DueSourceIsServed(s.sources[i], now);
    }
  }

  // ---- a clock that stands still ----------------------------------------------

  lemma RunOne(naming: Naming, start: int, events: seq<Event>, event: Event)
    requires AllEnabled(naming, start, events) && Enabled(RunAll(naming, start, events), event)
    ensures AllEnabled(naming, start, events + [event])
    ensures RunAll(naming, start, events + [event]) == Step(naming, RunAll(naming, start, events), event)
  {
    assert (events + [event])[..|events|] == events;
  }

  const HTTP: Config := Config(false, 0, false, false, 1, 1)
  const HUBSPOT: Config := Config(true, -400_000, false, true, 10, 1_000)
  const NOTHING: Schema := Schema([], [])

  /** An HTTP source and a HubSpot source, every fifteen minutes, and a manual
      run of the second one at the instant both become due; it gets one empty
      page and succeeds. */
  const STANDSTILL: seq<Event> :=
    [CreateSource(HTTP, NOTHING, Some(15), 0), CreateSource(HUBSPOT, NOTHING, Some(15), 0), RunManually(1, 900_000),
     Work(1, Start(0)), Work(1, ReceivePage(0, 1, Page([], []), false))]

  const QUEUED: Source :=
    NewSource(NOTHING).(runs := [Run(Queued, 900_000, Some(Window(-400_000, 600_000)), 0, 0, 0, 0, 0, 0, 0, [])])

  const RUNNING: Source :=
    NewSource(NOTHING).(runs := [Run(Running, 900_000, Some(Window(-400_000, 600_000)), 1, 0, 0, 0, 0, 0, 0, [])])

  lemma EmptyPageIsWritten(naming: Naming, source: Source)
    requires source.schema == NOTHING && source.grid == Grid(map[], map[], 0, [])
    ensures WriteChunk(naming, source.schema, source.grid, [], Snapshots(Page([], []))).Some?
  {
  }

  lemma EmptyPageCompletes(naming: Naming)
    ensures var after := ApplyPage(naming, HUBSPOT, RUNNING, 0, 1, Page([], []), false).0;
            |after.runs| == 1 && after.runs[0].status == Succeeded && after.watermark == Some(600_000) && after.active
  {
    hide WriteChunk;
    EmptyPageIsWritten(naming, RUNNING);
  }

  lemma FirstEvents(naming: Naming)
    ensures AllEnabled(naming, 0, STANDSTILL[..2])
    ensures RunAll(naming, 0, STANDSTILL[..2]) ==
            Scheduler(0, [Scheduled(HTTP, NewSource(NOTHING), Some(900_000), Some(15)),
                          Scheduled(HUBSPOT, NewSource(NOTHING), Some(900_000), Some(15))])
  {
    assert STANDSTILL[..0] == [];
    RunOne(naming, 0, [], STANDSTILL[0]);
    RunOne(naming, 0, [STANDSTILL[0]], STANDSTILL[1]);
    assert STANDSTILL[..2] == [STANDSTILL[0]] + [STANDSTILL[1]];
  }

  lemma ManualRunStarts(naming: Naming)
    ensures AllEnabled(naming, 0, STANDSTILL[..4])
    ensures RunAll(naming, 0, STANDSTILL[..4]) ==
            Scheduler(900_000, [Scheduled(HTTP, NewSource(NOTHING), Some(900_000), Some(15)),
                                Scheduled(HUBSPOT, RUNNING, Some(900_000), Some(15))])
  {
    hide RunAll, AllEnabled, ApplyPage;
    FirstEvents(naming);
    RunOne(naming, 0, STANDSTILL[..2], STANDSTILL[2]);
    assert STANDSTILL[..3] == STANDSTILL[..2] + [STANDSTILL[2]];
    var queued := NewRun(NewSource(NOTHING), 900_000, Some(Window(-400_000, 600_000)));
    assert queued.runs == QUEUED.runs && QueueManual(HUBSPOT, NewSource(NOTHING), 900_000) == Some(queued);
    var plain := Scheduled(HTTP, NewSource(NOTHING), Some(900_000), Some(15));
    assert RunAll(naming, 0, STANDSTILL[..3]).sources == [plain, Scheduled(HUBSPOT, QUEUED, Some(900_000), Some(15))];
    RunOne(naming, 0, STANDSTILL[..3], STANDSTILL[3]);
    assert STANDSTILL[..4] == STANDSTILL[..3] + [STANDSTILL[3]];
    var running := MarkRunning(QUEUED, 0);
    assert running.runs == RUNNING.runs;
    assert RunAll(naming, 0, STANDSTILL[..4]).sources == [plain, Scheduled(HUBSPOT, RUNNING, Some(900_000), Some(15))];
  }

  lemma StandstillRuns(naming: Naming)
    ensures AllEnabled(naming, 0, STANDSTILL)
    ensures var s := RunAll(naming, 0, STANDSTILL);
            s.latest == 900_000 && |s.sources| == 2 &&
            s.sources[0] == Scheduled(HTTP, NewSource(NOTHING), Some(900_000), Some(15)) &&
            s.sources[1].config == HUBSPOT && s.sources[1].nextRunAt == Some(900_000) &&
            s.sources[1].interval == Some(15) &&
            s.sources[1].source.active && |s.sources[1].source.runs| == 1 &&
            s.sources[1].source.runs[0].status == Succeeded && s.sources[1].source.watermark == Some(600_000)
  {
    hide RunAll, AllEnabled, ApplyPage;
    ManualRunStarts(naming);
    RunOne(naming, 0, STANDSTILL[..4], STANDSTILL[4]);
    assert STANDSTILL == STANDSTILL[..4] + [STANDSTILL[4]];
    EmptyPageCompletes(naming);
  }

  /** The bound is sharp: a tick that reads the instant at which the last
      succeeded run was queued, here of another source, aborts, and the HTTP
      source that is due as well gets no run. */
  lemma StandingClockAborts(naming: Naming)
    ensures var s := RunAll(naming, 0, STANDSTILL);
            AllEnabled(naming, 0, STANDSTILL) && s.latest == 900_000 &&
            IsSelection(s.sources, [0, 1], 900_000, 25) && Tick(s.sources, [0, 1], 900_000).None? &&
            After(naming, s.sources, TickSources([0, 1], 25, 900_000)) == s.sources && s.sources[0].source.runs == []
  {
    hide RunAll, AllEnabled;
    var s := RunAll(naming, 0, STANDSTILL);
    StandstillRuns(naming);
    TickAbortsExactlyWhenBlocked(s.sources, [0, 1], 900_000);
    assert BlocksTick(s.sources[[0, 1][1]], 900_000);
  }

  // ---- the transaction --------------------------------------------------------

  class SourceTable {
    var sources: seq<Scheduled>

    constructor ()
      ensures sources == []
    {
      sources := [];
    }

    /** queueDueSourceRuns over the rows its query returned. */
    method QueueDueSourceRuns(selected: seq<nat>, now: int) returns (aborted: bool)
      requires ArePositions(selected, sources)
      modifies this
      ensures sources == Tick(old(sources), selected, now).GetOr(old(sources))
      ensures aborted <==> exists k :: 0 <= k < |selected| && BlocksTick(old(sources)[selected[k]], now)
    {
      TickAbortsExactlyWhenBlocked(sources, selected, now);
      hide BlocksTick, NextScheduled, QueueDue;
      var before := sources;
      var k := 0;
      while k < |selected|
        invariant 0 <= k <= |selected| && |sources| == |before|
        invariant Tick(before, selected[..k], now) == Some(sources)
      {
        assert selected[..k + 1][..k] == selected[..k];
        var s := sources[selected[k]];
        if s.nextRunAt.Some? && s.interval.Some? {
          var queued := QueueDue(s.config, s.source, s.nextRunAt.value, now);
          if queued.None? {
            TickStops(before, selected, k + 1, now);
            sources := before;
            return true;
          }
          var next := NextScheduled(s.nextRunAt.value, s.interval.value, now);
          sources := sources[selected[k] := s.(source := queued.value, nextRunAt := Some(next))];
        } else {
          assert sources[selected[k] := s] == sources;
        }
        k := k + 1;
      }
      assert selected[..k] == selected;
      return false;
    }
  }

  lemma {:induction false} TickStops(sources: seq<Scheduled>, selected: seq<nat>, n: nat, now: int)
    requires ArePositions(selected, sources) && n <= |selected| && Tick(sources, selected[..n], now).None?
    ensures Tick(sources, selected, now).None?
    decreases |selected|
  {
    if n == |selected| {
      assert selected[..n] == selected;
    } else {
      var m := |selected| - 1;
      assert selected[..m][..n] == selected[..n];
      TickStops(sources, selected[..m], n, now);
    }
  }
}
