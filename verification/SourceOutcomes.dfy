/** What queueing, failing and applying a page do, read from the runs, the page
    and the records alone (packages/db/src/sources.ts:367-485, 487-991,
    1115-1140). */
module SourceOutcomes {
  import opened Collections
  import opened IngestionMapping
  import opened Upsert
  import opened ChunkUpsert
  import opened SourceRuns
  import opened SourcePages

  // ---- queueing ---------------------------------------------------------------

  ghost predicate IsUnderWay(run: Run) {
    run.status == Queued || run.status == Running
  }

  ghost predicate SomeIsUnderWay(runs: seq<Run>) {
    exists i :: 0 <= i < |runs| && IsUnderWay(runs[i])
  }

  ghost predicate SomeIsScheduledFor(runs: seq<Run>, t: int) {
    exists i :: 0 <= i < |runs| && runs[i].scheduledFor == t
  }

  /** Where the next window starts. */
  ghost predicate StartsAt(config: Config, source: Source, start: int) {
    (source.watermark.Some? ==> start == source.watermark.value) &&
    (source.watermark.None? ==> start == config.initialSyncFrom)
  }

  /** HubSpot has no window to offer until its start is five minutes old. */
  ghost predicate HasWindow(config: Config, source: Source, now: int) {
    config.hubSpot ==> forall start: int :: StartsAt(config, source, start) ==> start < now - 300_000
  }

  /** One untouched run more, for the next window if the source has windows. */
  ghost predicate GetsRun(config: Config, source: Source, after: Source, scheduledFor: int, now: int) {
    var n := |source.runs|;
    after == source.(runs := after.runs) && |after.runs| == n + 1 && after.runs[..n] == source.runs &&
    after.runs[n].status == Queued && after.runs[n].scheduledFor == scheduledFor && after.runs[n].pages == [] &&
    after.runs[n].pageCount == 0 && after.runs[n].attempt == 0 && after.runs[n].received == 0 &&
    (config.hubSpot ==>
       after.runs[n].window.Some? && StartsAt(config, source, after.runs[n].window.value.start) &&
       after.runs[n].window.value.end == now - 300_000) &&
    (!config.hubSpot ==> after.runs[n].window.None?)
  }

  /** A manual run is queued exactly when the source is active, no run is under
      way, none has this instant and there is a window. */
  lemma ManualIsExact(config: Config, source: Source, now: int)
    ensures QueueManual(config, source, now).Some? <==>
            source.active && !SomeIsUnderWay(source.runs) && !SomeIsScheduledFor(source.runs, now) &&
            HasWindow(config, source, now)
    ensures QueueManual(config, source, now).Some? ==>
              GetsRun(config, source, QueueManual(config, source, now).value, now, now)
  {
    QueueingFacts(config, source, now, now);
  }

  /** A due run is queued for its occurrence exactly when no run is under way and
      none has the occurrence; the call throws exactly when no run is under way
      and there is no window; otherwise the source stays. */
  lemma DueIsExact(config: Config, source: Source, scheduledFor: int, now: int)
    ensures QueueDue(config, source, scheduledFor, now).None? <==>
            !SomeIsUnderWay(source.runs) && !HasWindow(config, source, now)
    ensures var after := QueueDue(config, source, scheduledFor, now);
            after.Some? ==>
              if SomeIsUnderWay(source.runs) || SomeIsScheduledFor(source.runs, scheduledFor) then after.value == source
              else GetsRun(config, source, after.value, scheduledFor, now)
  {
    QueueingFacts(config, source, scheduledFor, now);
  }

  lemma QueueingFacts(config: Config, source: Source, scheduledFor: int, now: int)
    ensures HasOpenRun(source.runs) <==> SomeIsUnderWay(source.runs)
    ensures IsScheduled(source.runs, scheduledFor) <==> SomeIsScheduledFor(source.runs, scheduledFor)
    ensures NextWindow(config, source, now).Some? <==> HasWindow(config, source, now)
    ensures NextWindow(config, source, now).Some? ==>
              GetsRun(config, source, NewRun(source, scheduledFor, NextWindow(config, source, now).value), scheduledFor,
                      now)
  {
    if HasOpenRun(source.runs) {
      var i :| 0 <= i < |source.runs| && IsOpen(source.runs[i].status);
      assert IsUnderWay(source.runs[i]);
    }
    if SomeIsUnderWay(source.runs) {
      var i :| 0 <= i < |source.runs| && IsUnderWay(source.runs[i]);
      assert IsOpen(source.runs[i].status);
    }
    assert StartsAt(config, source, source.watermark.GetOr(config.initialSyncFrom));
  }

  // ---- claiming and failing ---------------------------------------------------

  /** Every claim of a run under way is one more attempt at the page after the
      last accepted one.  A failure to be retried leaves the run claimable; after
      the last failure it neither runs nor accepts a page again. */
  lemma AttemptsContinue(naming: Naming, config: Config, source: Source, r: nat, retrying: bool, expectedPage: int,
                         page: Page, more: bool)
    requires r < |source.runs| && IsUnderWay(source.runs[r])
    ensures var run, claimed := source.runs[r], MarkRunning(source, r);
            claimed == source.(runs := source.runs[r := claimed.runs[r]]) && claimed.runs[r].status == Running &&
            claimed.runs[r] == run.(status := Running, attempt := run.attempt + 1)
    ensures var failed := WorkerFailure(source, r, retrying);
            failed == source.(runs := source.runs[r := failed.runs[r]]) &&
            failed.runs[r].pages == source.runs[r].pages &&
            failed.runs[r].pageCount == source.runs[r].pageCount &&
            failed.runs[r].received == source.runs[r].received &&
            (retrying ==> failed.runs[r].status == Queued && MarkRunning(failed, r).runs[r].status == Running) &&
            (!retrying ==>
               failed.runs[r].status == Failed && MarkRunning(failed, r) == failed &&
               ApplyPage(naming, config, failed, r, expectedPage, page, more) == (failed, Refused))
  {
    hide WriteChunk, PageIsRefused, Accept;
  }

  /** Runs that have ended are neither claimed nor failed. */
  lemma EndedRunsStay(source: Source, r: nat, retrying: bool)
    requires r < |source.runs| && !IsUnderWay(source.runs[r])
    ensures MarkRunning(source, r) == source && WorkerFailure(source, r, retrying) == source
  {
  }

  // ---- one page ---------------------------------------------------------------

  /** No record of the page was in an accepted page of the run. */
  ghost predicate IsUnseen(run: Run, page: Page) {
    forall i, p, j :: 0 <= i < |page.records| && 0 <= p < |run.pages| && 0 <= j < |run.pages[p].records| ==>
      page.records[i].key != run.pages[p].records[j].key
  }

  /** The page is the running run's next one, within the limits, new to the run,
      and can be written record by record. */
  ghost predicate IsAcceptable(naming: Naming, config: Config, source: Source, r: nat, expectedPage: int, page: Page,
                               more: bool)
    requires r < |source.runs|
  {
    var run := source.runs[r];
    run.status == Running && 1 <= expectedPage <= config.maxPages && expectedPage == run.pageCount + 1 &&
    run.received + |page.records| <= config.maxRecords && (more ==> config.paginated) && IsUnseen(run, page) &&
    WritePage(naming, source.schema, source.grid, page).Some?
  }

  lemma UnseenMeans(source: Source, r: nat, page: Page)
    requires NewestRunIsCurrent(source) && r == |source.runs| - 1
    ensures RepeatsKey(source, r, page) <==> !IsUnseen(source.runs[r], page)
  {
    var run := source.runs[r];
    if !IsUnseen(run, page) {
      var i, p, j :| 0 <= i < |page.records| && 0 <= p < |run.pages| && 0 <= j < |run.pages[p].records| &&
        page.records[i].key == run.pages[p].records[j].key;
      assert page.records[i].key in PageKeys(page) && page.records[i].key in KeysOf(run.pages);
    }
    if RepeatsKey(source, r, page) {
      var k :| k in PageKeys(page) && k in source.lastSeen && source.lastSeen[k] == r;
      assert k in KeysOf(run.pages);
    }
  }

  /** A page is applied exactly when it is acceptable; a page accepted before is
      answered again, as is any page of a succeeded run; all others are refused. */
  lemma AnswerIsExact(naming: Naming, config: Config, start: Source, source: Source, r: nat, expectedPage: int,
                      page: Page, more: bool)
    requires Sound(naming, config, start, source) && r < |source.runs| && IsNormalized(page)
    ensures ApplyPage(naming, config, source, r, expectedPage, page, more).1 ==
            if source.runs[r].status == Succeeded then AlreadySucceeded
            else if source.runs[r].status == Running && 1 <= expectedPage <= config.maxPages &&
                    expectedPage <= source.runs[r].pageCount then Replayed
            else if IsAcceptable(naming, config, source, r, expectedPage, page, more) then Applied
            else Refused
  {
    SoundParts(naming, config, start, source);
    hide WriteChunk, WritePage, GridIsSound, Accept, IsUnseen, RepeatsKey, IsNormalized, Sound;
    PageIsSequential(naming, source.schema, source.grid, page);
    if source.runs[r].status == Running { UnseenMeans(source, r, page); }
  }

  lemma SoundParts(naming: Naming, config: Config, start: Source, source: Source)
    requires Sound(naming, config, start, source)
    ensures NewestRunIsCurrent(source) && RecordsAreSound(source) && GridIsSound(source.grid)
    ensures forall i :: 0 <= i < |source.runs| - 1 ==> !IsUnderWay(source.runs[i])
  {
  }

  /** An accepted page counts its records: known keys as updated, the archived
      ones among them as restored, and the others as created. */
  lemma PageIsCounted(naming: Naming, config: Config, start: Source, source: Source, r: nat, expectedPage: int,
                      page: Page, more: bool)
    requires Sound(naming, config, start, source) && r < |source.runs| && IsNormalized(page)
    requires ApplyPage(naming, config, source, r, expectedPage, page, more).1 == Applied
    ensures var before, run := source.runs[r],
                ApplyPage(naming, config, source, r, expectedPage, page, more).0.runs[r];
            var known := KeysOf([page]) * source.grid.identities.Keys;
            run.pages == before.pages + [page] && run.pageCount == expectedPage && run.attempt == before.attempt &&
            run.status == (if more then Running else Succeeded) && run.window == before.window &&
            run.received == before.received + |page.records| &&
            run.updated == before.updated + |known| && run.created == before.created + |page.records| - |known| &&
            run.restored == before.restored + |source.archived * KeysOf([page])|
  {
    hide WriteChunk, GridIsSound, IsNormalized, Missing, RowsOfKeys, SeenNow, NewCount, Sound, RepeatsKey, PageKeys,
      Snapshots, KeysOf;
    OnePage(page);
    SnapshotFacts(page);
    KnownKeysAreCounted(source.grid.identities, Snapshots(page));
  }

  lemma OnePage(page: Page)
    ensures KeysOf([page]) == PageKeys(page)
  {
    KeysOfAppended([], page);
    NothingSeen();
    assert [] + [page] == [page];
  }

  /** Before the last page only restoring changes the archive.  The last page of a
      run in archive mode archives, and counts, exactly the live records that none
      of its pages holds; it alone moves the watermark, to its window's end. */
  lemma ArchiveIsExactAfter(naming: Naming, config: Config, start: Source, source: Source, r: nat, expectedPage: int,
                            page: Page, more: bool)
    requires Sound(naming, config, start, source) && r < |source.runs| && IsNormalized(page)
    requires ApplyPage(naming, config, source, r, expectedPage, page, more).1 == Applied
    ensures var after := ApplyPage(naming, config, source, r, expectedPage, page, more).0;
            var missing := if !more && config.archiveMissing
                           then LiveKeys(source) - KeysOf(source.runs[r].pages + [page]) else {};
            after.archived == source.archived - KeysOf([page]) + missing &&
            after.runs[r].archived == source.runs[r].archived + |missing| && after.active == source.active &&
            after.watermark == if !more && config.hubSpot && source.runs[r].window.Some?
                               then Some(source.runs[r].window.value.end) else source.watermark
  {
    hide WriteChunk, GridIsSound, IsNormalized, SeenNow, Sound, RepeatsKey, PageKeys, Snapshots, KeysOf, IsAccepted,
      RecordsAreSound, NewestRunIsCurrent, KeepsRows, LiveKeys, Accept, ApplyPage, RowsOfKeys;
    SoundParts(naming, config, start, source);
    OnePage(page);
    AppliedIsAccepted(naming, config, source, r, expectedPage, page, more);
    var written := WriteChunk(naming, source.schema, source.grid, page.fields, Snapshots(page)).value;
    AcceptedGrid(naming, config, source, r, page, more, written.0, written.1);
    AcceptLeaves(config, source, r, page, more, written.0, written.1);
    if !more && config.archiveMissing { MissingMeans(config, source, r, page, written.1); }
  }

  lemma AppliedIsAccepted(naming: Naming, config: Config, source: Source, r: nat, expectedPage: int, page: Page,
                          more: bool)
    requires r < |source.runs| && IsNormalized(page)
    requires ApplyPage(naming, config, source, r, expectedPage, page, more).1 == Applied
    ensures var written := WriteChunk(naming, source.schema, source.grid, page.fields, Snapshots(page));
            written.Some? && source.runs[r].status == Running &&
            IsAccepted(naming, config, source, r, page, more, written.value.0, written.value.1) &&
            ApplyPage(naming, config, source, r, expectedPage, page, more).0 ==
            Accept(config, source, r, page, more, written.value.0, written.value.1)
  {
    hide WriteChunk, IsNormalized, Snapshots, RepeatsKey, Accept;
  }

  lemma AcceptLeaves(config: Config, source: Source, r: nat, page: Page, more: bool, schema: Schema, grid: Grid)
    requires r < |source.runs|
    ensures var after := Accept(config, source, r, page, more, schema, grid);
            var missing := Missing(config, grid.identities, grid.identities.Keys - (source.archived - PageKeys(page)),
                                   SeenNow(source.lastSeen, page, r), r, more);
            after.archived == source.archived - PageKeys(page) + missing && after.active == source.active &&
            after.runs[r].archived == source.runs[r].archived + |missing| &&
            after.watermark == if !more && config.hubSpot && source.runs[r].window.Some?
                               then Some(source.runs[r].window.value.end) else source.watermark
  {
    hide NewCount, PageKeys, RowsOfKeys, SeenNow, Missing, Snapshots;
  }

  lemma MissingMeans(config: Config, source: Source, r: nat, page: Page, grid: Grid)
    requires RecordsAreSound(source) && NewestRunIsCurrent(source) && r == |source.runs| - 1 && config.archiveMissing
    requires grid.identities.Keys == source.grid.identities.Keys + PageKeys(page)
    ensures Missing(config, grid.identities, grid.identities.Keys - (source.archived - PageKeys(page)),
                    SeenNow(source.lastSeen, page, r), r, false) ==
            LiveKeys(source) - KeysOf(source.runs[r].pages + [page])
  {
    var missing := Missing(config, grid.identities, grid.identities.Keys - (source.archived - PageKeys(page)),
                           SeenNow(source.lastSeen, page, r), r, false);
    hide PageKeys, KeysOf, SeenNow, GridIsSound, RowsOfKeys;
    KeysOfAppended(source.runs[r].pages, page);
    SeenNowKeys(source.lastSeen, page, r);
    SeenGrows(source.lastSeen, page, r, KeysOf(source.runs[r].pages));
    forall k ensures k in missing <==> k in LiveKeys(source) - KeysOf(source.runs[r].pages + [page]) {
    }
  }
}
