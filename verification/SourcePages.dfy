/** What applied source pages add up to (packages/db/src/sources.ts:521-880):
    every page once and in order, counters that balance, no key twice in a run,
    and archival only at the end of a complete run. */
module SourcePages {
  import opened Collections
  import opened IngestionMapping
  import opened Upsert
  import opened ChunkUpsert
  import opened SourceRuns

  // ---- the sequential reference -----------------------------------------------

  /** One page: extend the mapping, then upsert its records one by one. */
  function WritePage(naming: Naming, schema: Schema, grid: Grid, page: Page): Option<(Schema, Grid)> {
    match ExtendMapping(naming, schema, page.fields)
    case None => None
    case Some(next) =>
      match UpsertAll(naming, next.mapping, grid, Snapshots(page))
      case None => None
      case Some(after) => Some((next, after))
  }

  function WritePages(naming: Naming, schema: Schema, grid: Grid, pages: seq<Page>): Option<(Schema, Grid)> {
    if pages == [] then Some((schema, grid))
    else
      match WritePages(naming, schema, grid, pages[..|pages| - 1])
      case None => None
      case Some(next) => WritePage(naming, next.0, next.1, pages[|pages| - 1])
  }

  /** The accepted pages of all runs, in run order then page order. */
  function AllPages(runs: seq<Run>): seq<Page> {
    if runs == [] then [] else AllPages(runs[..|runs| - 1]) + runs[|runs| - 1].pages
  }

  // ---- one run ----------------------------------------------------------------

  function RecordCount(pages: seq<Page>): nat {
    if pages == [] then 0 else RecordCount(pages[..|pages| - 1]) + |pages[|pages| - 1].records|
  }

  function KeysOf(pages: seq<Page>): set<Key> {
    set p, i | 0 <= p < |pages| && 0 <= i < |pages[p].records| :: pages[p].records[i].key
  }

  lemma KeysOfAppended(pages: seq<Page>, page: Page)
    ensures KeysOf(pages + [page]) == KeysOf(pages) + PageKeys(page)
  {
    var all := pages + [page];
    forall k ensures k in KeysOf(all) <==> k in KeysOf(pages) + PageKeys(page) {
      if k in KeysOf(pages) {
        var p, i :| 0 <= p < |pages| && 0 <= i < |pages[p].records| && pages[p].records[i].key == k;
        assert all[p].records[i].key == k;
      }
      if k in PageKeys(page) {
        var i :| 0 <= i < |page.records| && page.records[i].key == k;
        assert all[|pages|].records[i].key == k;
      }
    }
  }

  /** No record key appears twice in the run, within a page or across pages. */
  ghost predicate NoKeyTwice(pages: seq<Page>) {
    (forall p :: 0 <= p < |pages| ==> IsNormalized(pages[p])) &&
    (forall p, q :: 0 <= p < q < |pages| ==> PageKeys(pages[p]) * PageKeys(pages[q]) == {})
  }

  ghost predicate RunIsSound(config: Config, run: Run) {
    run.pageCount == |run.pages| <= config.maxPages &&
    run.received == RecordCount(run.pages) <= config.maxRecords &&
    run.received == run.created + run.updated && run.restored <= run.updated &&
    (run.archived > 0 ==> run.status == Succeeded && config.archiveMissing) &&
    NoKeyTwice(run.pages)
  }

  ghost predicate RunsAreSound(config: Config, runs: seq<Run>) {
    forall i :: 0 <= i < |runs| ==> RunIsSound(config, runs[i])
  }

  // ---- records ----------------------------------------------------------------

  ghost predicate RecordsAreSound(source: Source) {
    GridIsSound(source.grid) &&
    source.lastSeen.Keys == source.grid.identities.Keys &&
    (forall k :: k in source.lastSeen ==> source.lastSeen[k] < |source.runs|) &&
    source.archived <= source.grid.identities.Keys &&
    source.archivedRows == RowsOfKeys(source.grid.identities, source.archived)
  }

  ghost predicate SawExactly(lastSeen: map<Key, nat>, r: nat, keys: set<Key>) {
    forall k :: k in lastSeen && lastSeen[k] == r <==> k in keys
  }

  /** The newest run last saw exactly the keys of its pages, and they are live. */
  ghost predicate NewestRunIsCurrent(source: Source) {
    source.runs != [] ==>
      var r := |source.runs| - 1;
      var keys := KeysOf(source.runs[r].pages);
      SawExactly(source.lastSeen, r, keys) && keys * source.archived == {}
  }

  function LiveKeys(source: Source): set<Key> {
    source.grid.identities.Keys - source.archived
  }

  /** After a complete run in archive mode the live records are the seen ones. */
  ghost predicate ArchiveIsExact(config: Config, source: Source) {
    config.archiveMissing && source.runs != [] && source.runs[|source.runs| - 1].status == Succeeded ==>
      LiveKeys(source) == KeysOf(source.runs[|source.runs| - 1].pages)
  }

  ghost predicate Refines(naming: Naming, start: Source, source: Source) {
    WritePages(naming, start.schema, start.grid, AllPages(source.runs)) == Some((source.schema, source.grid))
  }

  ghost predicate Sound(naming: Naming, config: Config, start: Source, source: Source) {
    OnlyLastIsOpen(source.runs) && RunsAreSound(config, source.runs) && RecordsAreSound(source) &&
    NewestRunIsCurrent(source) && ArchiveIsExact(config, source) && Refines(naming, start, source)
  }

  // ---- steps that apply no page -----------------------------------------------

  lemma NewRunIsSound(naming: Naming, config: Config, start: Source, source: Source, scheduledFor: int,
                      window: Option<Window>)
    requires Sound(naming, config, start, source) && !HasOpenRun(source.runs)
    ensures Sound(naming, config, start, NewRun(source, scheduledFor, window))
  {
    hide WritePages, GridIsSound, KeysOf, IsNormalized;
    var after := NewRun(source, scheduledFor, window);
    var n := |source.runs|;
    assert after.runs[..n] == source.runs;
    assert AllPages(after.runs) == AllPages(source.runs);
    NothingSeen();
    assert NoKeyTwice([]) && RunIsSound(config, after.runs[n]);
  }

  lemma NothingSeen()
    ensures KeysOf([]) == {} && RecordCount([]) == 0
  {
  }

  lemma StatusChangeIsSound(naming: Naming, config: Config, start: Source, source: Source, r: nat, run: Run)
    requires Sound(naming, config, start, source) && r < |source.runs| && IsOpen(source.runs[r].status)
    requires run == source.runs[r].(status := run.status, attempt := run.attempt) && run.status != Succeeded
    ensures Sound(naming, config, start, WithRun(source, r, run))
  {
    hide WritePages, GridIsSound, KeysOf, IsNormalized, NoKeyTwice, RecordCount;
    var n := |source.runs| - 1;
    assert r == n;
    assert source.runs[r := run][..n] == source.runs[..n];
    assert AllPages(source.runs[r := run]) == AllPages(source.runs);
    assert RunIsSound(config, source.runs[r]);
  }

  // ---- an accepted page -------------------------------------------------------

  /** A page that reached its writes. */
  ghost predicate IsAccepted(naming: Naming, config: Config, source: Source, r: nat, page: Page, more: bool,
                             schema: Schema, grid: Grid) {
    r < |source.runs| && source.runs[r].status == Running && source.runs[r].pageCount < config.maxPages &&
    IsNormalized(page) && !PageIsRefused(config, source, r, page, more) &&
    WriteChunk(naming, source.schema, source.grid, page.fields, Snapshots(page)) == Some((schema, grid))
  }

  lemma SnapshotFacts(page: Page)
    requires IsNormalized(page)
    ensures KeysAreDistinct(Snapshots(page)) && Keys(Snapshots(page)) == PageKeys(page)
  {
    var pushes := Snapshots(page);
    assert forall i :: 0 <= i < |pushes| ==> pushes[i].record == page.records[i];
    forall k ensures k in Keys(pushes) <==> k in PageKeys(page) {
      if k in PageKeys(page) {
        var i :| 0 <= i < |page.records| && page.records[i].key == k;
        assert pushes[i].record.key == k;
      }
    }
  }

  lemma RestoredAtMostUpdated(source: Source, page: Page)
    requires IsNormalized(page) && source.archived <= source.grid.identities.Keys
    ensures |source.archived * PageKeys(page)| <= |page.records| - NewCount(source.grid.identities, Snapshots(page))
  {
    SnapshotFacts(page);
    KnownKeysAreCounted(source.grid.identities, Snapshots(page));
    SubsetCount(source.archived * PageKeys(page), PageKeys(page) * source.grid.identities.Keys);
  }

  lemma AcceptedRunIsSound(naming: Naming, config: Config, start: Source, source: Source, r: nat, page: Page,
                           more: bool, schema: Schema, grid: Grid)
    requires Sound(naming, config, start, source) && IsAccepted(naming, config, source, r, page, more, schema, grid)
    ensures RunsAreSound(config, Accept(config, source, r, page, more, schema, grid).runs)
  {
    hide WritePages, WriteChunk, GridIsSound, KeysOf, NewCount, IsNormalized, PageKeys;
    var run := source.runs[r];
    assert RunIsSound(config, run);
    RestoredAtMostUpdated(source, page);
    var after := Accept(config, source, r, page, more, schema, grid).runs[r];
    assert after.pages[..|run.pages|] == run.pages;
    PagesStayDistinct(source, r, page);
    NothingMissing(config, source, r, page, more, grid);
  }

  lemma NothingMissing(config: Config, source: Source, r: nat, page: Page, more: bool, grid: Grid)
    ensures var missing := Missing(config, grid.identities, grid.identities.Keys - (source.archived - PageKeys(page)),
                                   SeenNow(source.lastSeen, page, r), r, more);
            |missing| > 0 ==> !more && config.archiveMissing
  {
  }

  lemma PagesStayDistinct(source: Source, r: nat, page: Page)
    requires NewestRunIsCurrent(source) && r == |source.runs| - 1 && !RepeatsKey(source, r, page)
    requires NoKeyTwice(source.runs[r].pages) && IsNormalized(page)
    ensures NoKeyTwice(source.runs[r].pages + [page])
  {
    hide IsNormalized;
    var pages := source.runs[r].pages;
    forall p | 0 <= p < |pages| ensures PageKeys(pages[p]) * PageKeys(page) == {} {
      forall k | k in PageKeys(pages[p]) ensures k !in PageKeys(page) {
        var i :| 0 <= i < |pages[p].records| && pages[p].records[i].key == k;
        assert k in KeysOf(pages);
      }
    }
  }

  lemma AcceptedGrid(naming: Naming, config: Config, source: Source, r: nat, page: Page, more: bool, schema: Schema,
                     grid: Grid)
    requires GridIsSound(source.grid) && IsAccepted(naming, config, source, r, page, more, schema, grid)
    ensures GridIsSound(grid) && KeepsRows(source.grid, grid)
    ensures grid.identities.Keys == source.grid.identities.Keys + PageKeys(page)
  {
    hide WriteChunk, IsNormalized, PageIsRefused, ExtendMapping, UpsertAll, PageKeys, GridIsSound, KeepsRows,
      KeysAreDistinct, Snapshots, Keys;
    SnapshotFacts(page);
    WrittenChunk(naming, source.schema, source.grid, page.fields, Snapshots(page));
  }

  lemma AcceptedRecordsAreSound(naming: Naming, config: Config, source: Source, r: nat, page: Page, more: bool,
                                schema: Schema, grid: Grid)
    requires RecordsAreSound(source) && IsAccepted(naming, config, source, r, page, more, schema, grid)
    ensures RecordsAreSound(Accept(config, source, r, page, more, schema, grid))
  {
    hide WriteChunk, NewCount, IsNormalized, PageIsRefused, PageKeys, RowsOfKeys, GridIsSound, KeepsRows, AdvanceRun,
      Snapshots, SeenNow, Missing;
    AcceptedGrid(naming, config, source, r, page, more, schema, grid);
    var keys := PageKeys(page);
    var lastSeen := SeenNow(source.lastSeen, page, r);
    var live := grid.identities.Keys - (source.archived - keys);
    var missing := Missing(config, grid.identities, live, lastSeen, r, more);
    SeenNowKeys(source.lastSeen, page, r);
    KeptKeys(source.grid, grid);
    MissingAreKnown(config, grid.identities, live, lastSeen, r, more);
    ArchivedRowsFollow(source.grid, grid, source.archived, source.archived * keys, missing);
    assert source.archived - source.archived * keys == source.archived - keys;
  }

  lemma MissingAreKnown(config: Config, identities: map<Key, RowId>, live: set<Key>, lastSeen: map<Key, nat>, r: nat,
                        more: bool)
    ensures Missing(config, identities, live, lastSeen, r, more) <= identities.Keys
  {
  }

  lemma KeptKeys(before: Grid, after: Grid)
    requires KeepsRows(before, after)
    ensures before.identities.Keys <= after.identities.Keys
  {
  }

  lemma SeenNowKeys(lastSeen: map<Key, nat>, page: Page, r: nat)
    ensures SeenNow(lastSeen, page, r).Keys == lastSeen.Keys + PageKeys(page)
    ensures forall k :: k in SeenNow(lastSeen, page, r) ==>
              SeenNow(lastSeen, page, r)[k] == if k in PageKeys(page) then r else lastSeen[k]
  {
    hide PageKeys;
  }

  /** The archived rows stay the rows of the archived keys. */
  lemma ArchivedRowsFollow(before: Grid, after: Grid, archived: set<Key>, restored: set<Key>, missing: set<Key>)
    requires GridIsSound(after) && KeepsRows(before, after)
    requires archived <= before.identities.Keys && restored <= archived && missing <= after.identities.Keys
    ensures RowsOfKeys(before.identities, archived) - RowsOfKeys(after.identities, restored) +
            RowsOfKeys(after.identities, missing) ==
            RowsOfKeys(after.identities, archived - restored + missing)
  {
    var ids := after.identities;
    assert RowsOfKeys(before.identities, archived) == RowsOfKeys(ids, archived);
    forall row ensures row in RowsOfKeys(ids, archived - restored + missing) <==>
                       row in RowsOfKeys(ids, archived) - RowsOfKeys(ids, restored) + RowsOfKeys(ids, missing) {
      if row in RowsOfKeys(ids, archived - restored + missing) {
        var k :| k in archived - restored + missing && k in ids && ids[k] == row;
        if k in missing { assert row in RowsOfKeys(ids, missing); }
      }
      if row in RowsOfKeys(ids, archived) && row !in RowsOfKeys(ids, restored) {
        var k :| k in archived && k in ids && ids[k] == row;
        assert k in archived - restored + missing;
      }
      if row in RowsOfKeys(ids, missing) {
        var k :| k in missing && k in ids && ids[k] == row;
        assert k in archived - restored + missing;
      }
    }
  }

  lemma AcceptShape(config: Config, source: Source, r: nat, page: Page, more: bool, schema: Schema, grid: Grid)
    requires r < |source.runs|
    ensures var after := Accept(config, source, r, page, more, schema, grid);
            var lastSeen := SeenNow(source.lastSeen, page, r);
            var archived := source.archived - PageKeys(page);
            |after.runs| == |source.runs| && after.runs[r].pages == source.runs[r].pages + [page] &&
            after.runs[r].status == (if more then Running else Succeeded) &&
            after.lastSeen == lastSeen && after.grid == grid &&
            after.archived == archived + Missing(config, grid.identities, grid.identities.Keys - archived, lastSeen, r,
                                                 more)
  {
    hide NewCount, PageKeys, RowsOfKeys, SeenNow, Missing, Snapshots;
  }

  lemma AcceptedPageIsCurrent(naming: Naming, config: Config, source: Source, r: nat, page: Page, more: bool,
                              schema: Schema, grid: Grid)
    requires RecordsAreSound(source) && NewestRunIsCurrent(source) && r == |source.runs| - 1
    requires IsAccepted(naming, config, source, r, page, more, schema, grid)
    ensures NewestRunIsCurrent(Accept(config, source, r, page, more, schema, grid))
    ensures ArchiveIsExact(config, Accept(config, source, r, page, more, schema, grid))
  {
    hide WriteChunk, KeysOf, NewCount, IsNormalized, PageIsRefused, PageKeys, RowsOfKeys, GridIsSound, KeepsRows,
      Snapshots, SeenNow, SawExactly, Missing, Accept;
    AcceptShape(config, source, r, page, more, schema, grid);
    AcceptedGrid(naming, config, source, r, page, more, schema, grid);
    SeenNowKeys(source.lastSeen, page, r);
    var before := KeysOf(source.runs[r].pages);
    KeysOfAppended(source.runs[r].pages, page);
    SeenGrows(source.lastSeen, page, r, before);
    var lastSeen := SeenNow(source.lastSeen, page, r);
    LiveAreSeen(config, grid.identities, lastSeen, source.archived - PageKeys(page), r, before + PageKeys(page), more);
  }

  lemma SeenGrows(lastSeen: map<Key, nat>, page: Page, r: nat, keys: set<Key>)
    requires SawExactly(lastSeen, r, keys)
    ensures SawExactly(SeenNow(lastSeen, page, r), r, keys + PageKeys(page))
  {
    hide PageKeys;
    SeenNowKeys(lastSeen, page, r);
  }

  /** Seen records stay live; what a complete run did not see is archived. */
  lemma LiveAreSeen(config: Config, identities: map<Key, RowId>, lastSeen: map<Key, nat>, archived: set<Key>, r: nat,
                    keys: set<Key>, more: bool)
    requires SawExactly(lastSeen, r, keys) && lastSeen.Keys == identities.Keys && keys * archived == {}
    ensures var after := archived + Missing(config, identities, identities.Keys - archived, lastSeen, r, more);
            keys * after == {} && (!more && config.archiveMissing ==> identities.Keys - after == keys)
  {
    var after := archived + Missing(config, identities, identities.Keys - archived, lastSeen, r, more);
    forall k | k in keys ensures k !in after {
      assert k in lastSeen && lastSeen[k] == r;
      assert k !in keys * archived;
    }
    if !more && config.archiveMissing {
      forall k ensures k in identities.Keys - after <==> k in keys {
        assert k in lastSeen && lastSeen[k] == r <==> k in keys;
      }
    }
  }

  // ---- refinement -------------------------------------------------------------

  lemma PageIsSequential(naming: Naming, schema: Schema, grid: Grid, page: Page)
    requires GridIsSound(grid) && IsNormalized(page)
    ensures WritePage(naming, schema, grid, page) == WriteChunk(naming, schema, grid, page.fields, Snapshots(page))
  {
    hide ExtendMapping, UpsertAll, UpsertChunk, GridIsSound, IsNormalized, Snapshots, PageKeys;
    SnapshotFacts(page);
    var extended := ExtendMapping(naming, schema, page.fields);
    if extended.Some? { ChunkIsSequential(naming, extended.value.mapping, grid, Snapshots(page)); }
  }

  lemma AcceptedPageRefines(naming: Naming, config: Config, start: Source, source: Source, r: nat, page: Page,
                            more: bool, schema: Schema, grid: Grid)
    requires Refines(naming, start, source) && GridIsSound(source.grid) && r == |source.runs| - 1
    requires IsAccepted(naming, config, source, r, page, more, schema, grid)
    ensures Refines(naming, start, Accept(config, source, r, page, more, schema, grid))
  {
    hide WriteChunk, WritePage, GridIsSound, PageIsRefused, NewCount, PageKeys, Missing, RowsOfKeys, SeenNow,
      IsNormalized;
    var after := Accept(config, source, r, page, more, schema, grid);
    assert after.runs[..r] == source.runs[..r];
    assert AllPages(after.runs) == AllPages(source.runs) + [page];
    assert (AllPages(source.runs) + [page])[..|AllPages(source.runs)|] == AllPages(source.runs);
    PageIsSequential(naming, source.schema, source.grid, page);
  }

  // ---- every step -------------------------------------------------------------

  lemma AcceptIsSound(naming: Naming, config: Config, start: Source, source: Source, r: nat, page: Page, more: bool,
                      schema: Schema, grid: Grid)
    requires Sound(naming, config, start, source) && IsAccepted(naming, config, source, r, page, more, schema, grid)
    ensures Sound(naming, config, start, Accept(config, source, r, page, more, schema, grid))
  {
    hide WriteChunk, RunsAreSound, NewestRunIsCurrent, ArchiveIsExact, Refines, GridIsSound, NewCount, PageKeys,
      Missing, RowsOfKeys, SeenNow, IsNormalized, PageIsRefused;
    assert r == |source.runs| - 1;
    AcceptedRunIsSound(naming, config, start, source, r, page, more, schema, grid);
    AcceptedRecordsAreSound(naming, config, source, r, page, more, schema, grid);
    AcceptedPageIsCurrent(naming, config, source, r, page, more, schema, grid);
    AcceptedPageRefines(naming, config, start, source, r, page, more, schema, grid);
  }

  lemma PageIsSound(naming: Naming, config: Config, start: Source, source: Source, r: nat, expectedPage: int,
                    page: Page, more: bool)
    requires Sound(naming, config, start, source) && r < |source.runs| && IsNormalized(page)
    ensures Sound(naming, config, start, ApplyPage(naming, config, source, r, expectedPage, page, more).0)
  {
    hide Sound, WriteChunk, Accept, PageIsRefused, IsNormalized;
    var written := WriteChunk(naming, source.schema, source.grid, page.fields, Snapshots(page));
    if ApplyPage(naming, config, source, r, expectedPage, page, more).1 == Applied {
      AcceptIsSound(naming, config, start, source, r, page, more, written.value.0, written.value.1);
    }
  }

  lemma StepIsSound(naming: Naming, config: Config, start: Source, source: Source, event: Event)
    requires Sound(naming, config, start, source)
    ensures Sound(naming, config, start, Step(naming, config, source, event))
  {
    hide Sound, ApplyPage, IsNormalized, NewRun, NextWindow, HasOpenRun;
    match event
    case Manual(now) =>
      if QueueManual(config, source, now).Some? {
        NewRunIsSound(naming, config, start, source, now, NextWindow(config, source, now).value);
      }
    case Due(scheduledFor, now) =>
      if QueueDue(config, source, scheduledFor, now).GetOr(source) != source {
        NewRunIsSound(naming, config, start, source, scheduledFor, NextWindow(config, source, now).value);
      }
    case Start(r) =>
      if r < |source.runs| && IsOpen(source.runs[r].status) {
        StatusChangeIsSound(naming, config, start, source, r,
                            source.runs[r].(attempt := source.runs[r].attempt + 1, status := Running));
      }
    case Failure(r, retrying) =>
      if r < |source.runs| && IsOpen(source.runs[r].status) {
        StatusChangeIsSound(naming, config, start, source, r,
                            source.runs[r].(status := if retrying then Queued else Failed));
      }
    case ReceivePage(r, expectedPage, page, more) =>
      if r < |source.runs| && IsNormalized(page) {
        PageIsSound(naming, config, start, source, r, expectedPage, page, more);
      }
    case SetActive(active) => ActivityIsFree(naming, config, start, source, active);
  }

  lemma ActivityIsFree(naming: Naming, config: Config, start: Source, source: Source, active: bool)
    requires Sound(naming, config, start, source)
    ensures Sound(naming, config, start, source.(active := active))
  {
    hide WritePages, GridIsSound, KeysOf, RunIsSound;
  }

  lemma NewIsSound(naming: Naming, config: Config, source: Source)
    requires IsNew(source)
    ensures Sound(naming, config, source, source)
  {
  }

  /** Whatever runs are queued, retried, fail or receive stale and repeated
      pages, the table is what the accepted pages make of it, each applied once
      and in order, and the counters, records and archive agree with them. */
  lemma {:induction false} EveryHistoryIsSound(naming: Naming, config: Config, states: seq<Source>, events: seq<Event>)
    requires IsHistory(naming, config, states, events) && IsNew(states[0])
    ensures Sound(naming, config, states[0], states[|events|])
  {
    hide Step, Sound, IsNew;
    if events == [] {
      NewIsSound(naming, config, states[0]);
    } else {
      var n := |events| - 1;
      EveryHistoryIsSound(naming, config, states[..n + 1], events[..n]);
      StepIsSound(naming, config, states[0], states[n], events[n]);
    }
  }

  // ---- consequences -----------------------------------------------------------

  /** Sending an accepted page again, or any earlier one, changes nothing, and a
      page beyond the next one is refused. */
  lemma PagesApplyOnce(naming: Naming, config: Config, source: Source, r: nat, expectedPage: int, page: Page,
                       more: bool)
    requires r < |source.runs|
    ensures var (after, result) := ApplyPage(naming, config, source, r, expectedPage, page, more);
            (result != Applied ==> after == source) &&
            (result == Applied ==>
             expectedPage == source.runs[r].pageCount + 1 && after.runs[r].pageCount == expectedPage &&
                                   ApplyPage(naming, config, after, r, expectedPage, page, more) ==
                                   (after, if more then Replayed else AlreadySucceeded))
  {
    hide WriteChunk, RepeatsKey, NewCount, Missing, RowsOfKeys, SeenNow, PageKeys;
  }

  /** While pages remain nothing is archived; a page restores exactly the
      archived records it names. */
  lemma UnfinishedRunsArchiveNothing(naming: Naming, config: Config, source: Source, r: nat, expectedPage: int,
                                     page: Page)
    requires r < |source.runs|
    requires ApplyPage(naming, config, source, r, expectedPage, page, true).1 == Applied
    ensures var after := ApplyPage(naming, config, source, r, expectedPage, page, true).0;
            after.archived == source.archived - PageKeys(page) && after.runs[r].status == Running &&
            after.runs[r].archived == source.runs[r].archived && after.watermark == source.watermark
  {
    hide WriteChunk, RepeatsKey, NewCount, RowsOfKeys, SeenNow, PageKeys;
  }

  /** A key keeps its row for ever, archived or not. */
  lemma StepKeepsRows(naming: Naming, config: Config, start: Source, source: Source, event: Event)
    requires Sound(naming, config, start, source)
    ensures KeepsRows(source.grid, Step(naming, config, source, event).grid)
  {
    hide WriteChunk, PageIsRefused, ApplyPage, NextWindow, IsNormalized, KeepsRows, GridIsSound, Refines,
      NewestRunIsCurrent, RunsAreSound, ArchiveIsExact;
    KeepsOwnRows(source.grid);
    match event
    case ReceivePage(r, expectedPage, page, more) =>
      if r < |source.runs| && IsNormalized(page) { PageKeepsRows(naming, config, source, r, expectedPage, page, more); }
    case _ =>
  }

  lemma PageKeepsRows(naming: Naming, config: Config, source: Source, r: nat, expectedPage: int, page: Page, more: bool)
    requires GridIsSound(source.grid) && r < |source.runs| && IsNormalized(page)
    ensures KeepsRows(source.grid, ApplyPage(naming, config, source, r, expectedPage, page, more).0.grid)
  {
    hide WriteChunk, PageIsRefused, IsNormalized, KeepsRows, GridIsSound, PageKeys, Snapshots, NewCount, Missing,
      RowsOfKeys, SeenNow;
    KeepsOwnRows(source.grid);
    var written := WriteChunk(naming, source.schema, source.grid, page.fields, Snapshots(page));
    if ApplyPage(naming, config, source, r, expectedPage, page, more).1 == Applied {
      AcceptedGrid(naming, config, source, r, page, more, written.value.0, written.value.1);
    }
  }

  /** A record whose field is missing from a page is cleared, never preserved. */
  lemma SnapshotsPreserveNothing(naming: Naming, mapping: seq<Mapped>, page: Page)
    ensures !PreservesAny(naming, mapping, Snapshots(page))
  {
  }
}
