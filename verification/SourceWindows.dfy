/** Incremental windows and schedules (packages/db/src/sources.ts:396-417,
    850-861, 1115-1140; packages/domain/src/source-policy.ts:241-253). */
module SourceWindows {
  import opened Collections
  import opened IngestionMapping
  import opened Upsert
  import opened ChunkUpsert
  import opened SourceRuns

  /** How far the succeeded runs have come. */
  ghost function Front(config: Config, runs: seq<Run>): int {
    if runs == [] then config.initialSyncFrom
    else
      var last := runs[|runs| - 1];
      if last.status == Succeeded && last.window.Some? then last.window.value.end else Front(config, runs[..|runs| - 1])
  }

  ghost predicate WindowFits(config: Config, runs: seq<Run>, i: nat)
    requires i < |runs|
  {
    runs[i].window.Some? && runs[i].window.value.start == Front(config, runs[..i]) &&
    runs[i].window.value.start < runs[i].window.value.end
  }

  /** Every window, of failed and open runs too, starts where the succeeded runs
      before it had ended, and is not empty. */
  ghost predicate WindowsFit(config: Config, source: Source) {
    OnlyLastIsOpen(source.runs) &&
    source.watermark.GetOr(config.initialSyncFrom) == Front(config, source.runs) &&
    forall i :: 0 <= i < |source.runs| ==> WindowFits(config, source.runs, i)
  }

  lemma {:induction false} FrontWithOpenLast(config: Config, runs: seq<Run>, run: Run)
    requires run.status != Succeeded
    ensures Front(config, runs + [run]) == Front(config, runs)
  {
    assert (runs + [run])[..|runs|] == runs;
  }

  lemma NewRunFits(config: Config, source: Source, scheduledFor: int, now: int)
    requires WindowsFit(config, source) && config.hubSpot && !HasOpenRun(source.runs)
    requires NextWindow(config, source, now).Some?
    ensures WindowsFit(config, NewRun(source, scheduledFor, NextWindow(config, source, now).value))
  {
    var after := NewRun(source, scheduledFor, NextWindow(config, source, now).value);
    var n := |source.runs|;
    assert after.runs[..n] == source.runs;
    FrontWithOpenLast(config, source.runs, after.runs[n]);
    forall i | 0 <= i < n ensures WindowFits(config, after.runs, i) {
      assert WindowFits(config, source.runs, i);
      assert after.runs[..i] == source.runs[..i];
    }
  }

  /** Changing the open last run, without completing it or by completing it. */
  lemma LastRunFits(config: Config, source: Source, after: Source, run: Run)
    requires WindowsFit(config, source) && source.runs != []
    requires IsOpen(source.runs[|source.runs| - 1].status)
    requires after.runs == source.runs[|source.runs| - 1 := run]
    requires run.window == source.runs[|source.runs| - 1].window
    requires after.watermark == if run.status == Succeeded then Some(run.window.GetOr(Window(0, 0)).end)
                                else source.watermark
    ensures WindowsFit(config, after)
  {
    var n := |source.runs| - 1;
    assert after.runs[..n] == source.runs[..n];
    assert WindowFits(config, source.runs, n);
    forall i | 0 <= i <= n ensures WindowFits(config, after.runs, i) {
      assert WindowFits(config, source.runs, i);
      assert after.runs[..i] == source.runs[..i];
    }
  }

  lemma PageKeepsWindows(naming: Naming, config: Config, source: Source, r: nat, expectedPage: int, page: Page,
                         more: bool)
    requires WindowsFit(config, source) && config.hubSpot && r < |source.runs|
    ensures WindowsFit(config, ApplyPage(naming, config, source, r, expectedPage, page, more).0)
  {
    hide WriteChunk, NewCount, RepeatsKey, Front, Missing, RowsOfKeys, SeenNow, PageKeys;
    var (after, result) := ApplyPage(naming, config, source, r, expectedPage, page, more);
    if result == Applied {
      assert WindowFits(config, source.runs, r);
      LastRunFits(config, source, after, after.runs[r]);
    }
  }

  lemma StepKeepsWindows(naming: Naming, config: Config, source: Source, event: Event)
    requires WindowsFit(config, source) && config.hubSpot
    ensures WindowsFit(config, Step(naming, config, source, event))
  {
    hide ApplyPage, IsNormalized, WindowFits, Front, NextWindow, NewRun;
    var after := Step(naming, config, source, event);
    if after.runs != source.runs || after.watermark != source.watermark {
      match event
      case Manual(now) => NewRunFits(config, source, now, now);
      case Due(scheduledFor, now) => NewRunFits(config, source, scheduledFor, now);
      case Start(r) => LastRunFits(config, source, after, after.runs[r]);
      case Failure(r, _) => LastRunFits(config, source, after, after.runs[r]);
      case ReceivePage(r, expectedPage, page, more) =>
        PageKeepsWindows(naming, config, source, r, expectedPage, page, more);
      case SetActive(_) => assert false;
    }
  }

  lemma {:induction false} EveryHistoryKeepsWindows(naming: Naming, config: Config, states: seq<Source>,
                                                    events: seq<Event>)
    requires IsHistory(naming, config, states, events) && IsNew(states[0]) && config.hubSpot
    ensures WindowsFit(config, states[|events|])
  {
    hide Step;
    if events != [] {
      var n := |events| - 1;
      EveryHistoryKeepsWindows(naming, config, states[..n + 1], events[..n]);
      StepKeepsWindows(naming, config, states[n], events[n]);
    }
  }

  // ---- the succeeded windows tile the past ------------------------------------

  ghost predicate Covers(run: Run, t: int) {
    run.status == Succeeded && run.window.Some? && run.window.value.start <= t < run.window.value.end
  }

  ghost predicate Covered(runs: seq<Run>, t: int) {
    exists i :: 0 <= i < |runs| && Covers(runs[i], t)
  }

  ghost predicate CoveredOnce(runs: seq<Run>, t: int) {
    forall i, j :: 0 <= i < j < |runs| ==> !(Covers(runs[i], t) && Covers(runs[j], t))
  }

  lemma {:induction false} SucceededWindowsTile(config: Config, runs: seq<Run>, t: int)
    requires forall i :: 0 <= i < |runs| ==> WindowFits(config, runs, i)
    ensures Covered(runs, t) <==> config.initialSyncFrom <= t < Front(config, runs)
    ensures CoveredOnce(runs, t)
    ensures config.initialSyncFrom <= Front(config, runs)
  {
    if runs != [] {
      var n := |runs| - 1;
      forall i | 0 <= i < n ensures WindowFits(config, runs[..n], i) {
        assert WindowFits(config, runs, i);
        assert runs[..n][..i] == runs[..i];
      }
      SucceededWindowsTile(config, runs[..n], t);
      assert WindowFits(config, runs, n);
      assert forall i :: 0 <= i < n ==> runs[..n][i] == runs[i];
      if Covered(runs[..n], t) {
        var i :| 0 <= i < n && Covers(runs[..n][i], t);
        assert Covers(runs[i], t);
      }
      forall i | 0 <= i < n ensures !(Covers(runs[i], t) && Covers(runs[n], t)) {
        if Covers(runs[i], t) { assert Covers(runs[..n][i], t); }
      }
    }
  }

  /** Every instant from `initialSyncFrom` up to the watermark lies in the window
      of exactly one succeeded run, and no other instant in any, whatever runs
      failed, were retried or were refused in between. */
  lemma WindowsTile(naming: Naming, config: Config, states: seq<Source>, events: seq<Event>, t: int)
    requires IsHistory(naming, config, states, events) && IsNew(states[0]) && config.hubSpot
    ensures var source := states[|events|];
            (Covered(source.runs, t) <==>
             config.initialSyncFrom <= t < source.watermark.GetOr(config.initialSyncFrom)) &&
            CoveredOnce(source.runs, t)
  {
    hide Step, Covered, CoveredOnce;
    EveryHistoryKeepsWindows(naming, config, states, events);
    SucceededWindowsTile(config, states[|events|].runs, t);
  }

  // ---- schedules --------------------------------------------------------------

  /** nextScheduledSourceRun; the interval is in minutes and at least five. */
  function NextScheduled(scheduledFor: int, interval: nat, now: int): int
    requires interval >= 5
  {
    var intervalMs := interval * 60_000;
    var intervals := (now - scheduledFor) / intervalMs + 1;
    scheduledFor + (if intervals < 1 then 1 else intervals) * intervalMs
  }

  ghost predicate IsOccurrence(scheduledFor: int, interval: nat, t: int) {
    exists k: int :: k >= 1 && t == scheduledFor + k * (interval * 60_000)
  }

  /** Missed intervals coalesce: the next run is the earliest later occurrence
      of the schedule that is after now. */
  lemma NextScheduledIsEarliest(scheduledFor: int, interval: nat, now: int)
    requires interval >= 5
    ensures var next := NextScheduled(scheduledFor, interval, now);
            next > now && next > scheduledFor && IsOccurrence(scheduledFor, interval, next) &&
            forall t :: IsOccurrence(scheduledFor, interval, t) && t > now ==> next <= t
  {
    var ms := interval * 60_000;
    var elapsed := now - scheduledFor;
    var next := NextScheduled(scheduledFor, interval, now);
    var k := if elapsed / ms + 1 < 1 then 1 else elapsed / ms + 1;
    assert next == scheduledFor + k * ms;
    assert elapsed == ms * (elapsed / ms) + elapsed % ms;
    assert k >= elapsed / ms + 1;
    Monotone(elapsed / ms + 1, k, ms);
    Monotone(1, k, ms);
    assert (elapsed / ms) * ms <= elapsed;
    forall t | IsOccurrence(scheduledFor, interval, t) && t > now ensures next <= t {
      var j: int :| j >= 1 && t == scheduledFor + j * ms;
      if j < k {
        Monotone(j, k - 1, ms);
      } else {
        Monotone(k, j, ms);
      }
    }
  }

  lemma Monotone(a: int, b: int, m: nat)
    requires a <= b
    ensures a * m <= b * m
  {
  }
}
