/** What recording and processing do, read from the configuration and the row
    alone (packages/db/src/row-automations.ts:49-562). */
module SettlementOutcomes {
  import opened Collections
  import opened FormulaGraph
  import opened RowSettlements
  import EnrichmentCascade

  // ---- dirty columns ----------------------------------------------------------

  /** Some unconsumed settlement carries the column. */
  ghost predicate IsOpen(s: RowState, c: ColumnId) {
    exists i :: i in s.settlements && s.settlements[i].consumedBy == None && c in s.settlements[i].changed
  }

  /** Some unconsumed settlement that has queued no runs carries it. */
  ghost predicate IsFresh(s: RowState, c: ColumnId) {
    exists i :: i in s.settlements && s.settlements[i].consumedBy == None && s.settlements[i].queuedRunCount == 0 &&
      c in s.settlements[i].changed
  }

  ghost predicate DependsOnFresh(a: Automation, s: RowState, c: ColumnId) {
    exists x :: Dependency(c, x) in a.dependencies && IsFresh(s, x)
  }

  /** An on_change column with a dependency row leading from it to a fresh dirty
      column. */
  ghost predicate IsTriggered(a: Automation, s: RowState, c: ColumnId) {
    c in a.onChange && DependsOnFresh(a, s, c)
  }

  ghost function Triggered(a: Automation, s: RowState): set<ColumnId> {
    set c | c in a.onChange && IsTriggered(a, s, c)
  }

  lemma OpenMeans(s: RowState, c: ColumnId)
    ensures c in OpenColumns(s.settlements) <==> IsOpen(s, c)
  {
    if IsOpen(s, c) {
      var i :| i in s.settlements && s.settlements[i].consumedBy == None && c in s.settlements[i].changed;
      assert s.settlements[i].Open();
    }
  }

  lemma FreshMeans(s: RowState, c: ColumnId)
    ensures c in FreshColumns(s.settlements) <==> IsFresh(s, c)
  {
    if IsFresh(s, c) {
      var i :| i in s.settlements && s.settlements[i].consumedBy == None && s.settlements[i].queuedRunCount == 0 &&
        c in s.settlements[i].changed;
      assert s.settlements[i].Fresh();
    }
    if c in FreshColumns(s.settlements) {
      var i :| i in s.settlements && s.settlements[i].Fresh() && c in s.settlements[i].changed;
      assert s.settlements[i].consumedBy == None;
    }
  }

  lemma WaveIsTriggered(a: Automation, s: RowState)
    ensures a.Dependents(FreshColumns(s.settlements)) == Triggered(a, s)
  {
    hide FreshColumns, IsFresh;
    var dirty := FreshColumns(s.settlements);
    forall x ensures x in dirty <==> IsFresh(s, x) { FreshMeans(s, x); }
    forall c ensures c in a.Dependents(dirty) <==> c in Triggered(a, s) {
      if c in a.Dependents(dirty) {
        var e :| e in a.dependencies && e.dependsOnColumnId in dirty && e.columnId in a.onChange && e.columnId == c;
        assert Dependency(c, e.dependsOnColumnId) == e;
        assert DependsOnFresh(a, s, c);
      }
      if c in Triggered(a, s) {
        var x :| Dependency(c, x) in a.dependencies && IsFresh(s, x);
        assert Dependency(c, x).columnId == c;
      }
    }
  }

  // ---- processing -------------------------------------------------------------

  /** The settlement names the row as it is now. */
  ghost predicate IsCurrent(s: RowState, rowVersion: nat) {
    !s.archived && s.version == rowVersion
  }

  /** When the wave of triggered columns is queued. */
  ghost predicate Starts(a: Automation, e: Environment, s: RowState, rowVersion: nat) {
    var wave := Triggered(a, s);
    IsCurrent(s, rowVersion) && wave != {} && wave * s.active == {} && |wave| <= e.maximumRuns &&
    wave * e.rejected == {}
  }

  /** When the limit stops the wave. */
  ghost predicate IsBlocked(a: Automation, e: Environment, s: RowState, rowVersion: nat) {
    var wave := Triggered(a, s);
    IsCurrent(s, rowVersion) && wave * s.active == {} && |wave| > e.maximumRuns
  }

  /** When queueing one of its runs throws. */
  ghost predicate Throws(a: Automation, e: Environment, s: RowState, rowVersion: nat) {
    var wave := Triggered(a, s);
    IsCurrent(s, rowVersion) && wave * s.active == {} && |wave| <= e.maximumRuns && wave * e.rejected != {}
  }

  /** When nothing is triggered or under way. */
  ghost predicate Delivers(a: Automation, s: RowState, rowVersion: nat) {
    IsCurrent(s, rowVersion) && Triggered(a, s) == {} && s.active == {}
  }

  /** An entry that hands over the open dirty columns of the row. */
  ghost predicate Carries(s: RowState, entry: LogEntry) {
    entry.rowVersion == s.version && forall c :: c in entry.columns <==> IsOpen(s, c)
  }

  /** The settlement carries on with every open dirty column. */
  ghost predicate Collects(s: RowState, after: RowState, id: SettlementId, runs: nat)
    requires id in after.settlements
  {
    var settlement := after.settlements[id];
    settlement.status == Succeeded && settlement.consumedBy == None && settlement.queuedRunCount == runs &&
    forall c :: c in settlement.changed <==> IsOpen(s, c)
  }

  /** Every settlement that was open was consumed by this one. */
  ghost predicate ConsumesOthers(s: RowState, after: RowState, id: SettlementId)
  {
    after.settlements.Keys == s.settlements.Keys &&
    forall i :: i in s.settlements && i != id ==>
      after.settlements[i] ==
      if s.settlements[i].consumedBy == None then s.settlements[i].(consumedBy := Some(id), status := Skipped)
      else s.settlements[i]
  }

  lemma DecisionMeans(a: Automation, e: Environment, s: RowState, id: SettlementId, rowVersion: nat)
    requires id in s.settlements && s.settlements[id].Pending() && s.settlements[id].rowVersion == rowVersion
    ensures Decide(a, e, s, id, rowVersion) ==
            if Starts(a, e, s, rowVersion) then Queue(Triggered(a, s))
            else if IsBlocked(a, e, s, rowVersion) then Block
            else if Throws(a, e, s, rowVersion) then Stop(Thrown)
            else if Delivers(a, s, rowVersion) then Deliver(e.writeback(OpenColumns(s.settlements)))
            else Skip
  {
    WaveIsTriggered(a, s);
    hide Triggered, OpenColumns, FreshColumns;
  }

  lemma OpenIsCarried(s: RowState)
    ensures forall c :: c in OpenColumns(s.settlements) <==> IsOpen(s, c)
  {
    forall c ensures c in OpenColumns(s.settlements) <==> IsOpen(s, c) { OpenMeans(s, c); }
  }

  lemma QueueingMeans(s: RowState, id: SettlementId, columns: set<ColumnId>)
    requires id in s.settlements && s.settlements[id].consumedBy == None
    ensures var after := Queueing(s, id, columns);
            after.active == s.active + columns && after.log == s.log &&
            ConsumesOthers(s, after, id) && Collects(s, after, id, |columns|)
  {
    OpenIsCarried(s);
    hide OpenColumns, IsOpen;
  }

  lemma BlockingMeans(s: RowState, id: SettlementId, enrichment: bool)
    requires id in s.settlements
    ensures var after := Blocking(s, id, enrichment);
            ClosesWith(s, after, id, Failed) &&
            if enrichment then after.log[|s.log|].FanoutBlocked?
            else after.log[|s.log|] == Delivered(s.version, OpenColumns(s.settlements))
  {
    OpenIsCarried(s);
    hide OpenColumns, IsOpen;
  }

  lemma DeliveringMeans(s: RowState, id: SettlementId, count: nat)
    requires id in s.settlements
    ensures var after := Delivering(s, id, count);
            ClosesWith(s, after, id, Succeeded) && after.settlements[id].queuedDeliveryCount == count &&
            after.log[|s.log|] == Delivered(s.version, OpenColumns(s.settlements))
  {
    OpenIsCarried(s);
    hide OpenColumns, IsOpen;
  }

  lemma OthersStartNothing(a: Automation, s: RowState, id: SettlementId, decision: Decision)
    requires id in s.settlements && !decision.Queue?
    ensures Apply(a, s, id, decision).0.active == s.active
  {
    hide OpenColumns, Merge;
  }

  lemma PendingIsOpen(s: RowState, id: SettlementId)
    requires Consistent(s) && id in s.settlements && s.settlements[id].Pending()
    ensures s.settlements[id].consumedBy == None
  {
    assert Proper(s.settlements, id);
  }

  /** A pending settlement queues a run for exactly the triggered columns or for
      none.  It queues them exactly when the row is current, none of them is
      active or rejected and they are within the limit; it then carries on with
      all open dirty columns. */
  lemma WaveIsExact(a: Automation, e: Environment, s: RowState, id: SettlementId, rowVersion: nat)
    requires Consistent(s)
    requires id in s.settlements && s.settlements[id].Pending() && s.settlements[id].rowVersion == rowVersion
    ensures var (after, result) := Process(a, e, s, id, rowVersion);
            if Starts(a, e, s, rowVersion) then
              (forall c :: c in after.active <==> c in s.active || IsTriggered(a, s, c)) &&
              result == ResultSucceeded(0, |Triggered(a, s)|) && after.log == s.log &&
              ConsumesOthers(s, after, id) && Collects(s, after, id, |Triggered(a, s)|)
            else after.active == s.active
  {
    DecisionMeans(a, e, s, id, rowVersion);
    PendingIsOpen(s, id);
    QueueingMeans(s, id, Triggered(a, s));
    assert forall c :: c in Triggered(a, s) <==> IsTriggered(a, s, c);
    if !Starts(a, e, s, rowVersion) { OthersStartNothing(a, s, id, Decide(a, e, s, id, rowVersion)); }
    hide Consistent, OpenColumns, Decide, IsOpen, Queueing, IsTriggered, Triggered, ConsumesOthers, Collects, Skipping,
      Blocking, Delivering, Starts, IsBlocked, Throws, Delivers;
  }

  /** It consults the destinations, with exactly the open dirty columns, exactly
      when the row is current and nothing is triggered or active; the limits fail
      it; a rejected column throws; otherwise it only skips itself. */
  lemma OtherwiseDelivers(a: Automation, e: Environment, s: RowState, id: SettlementId, rowVersion: nat)
    requires id in s.settlements && s.settlements[id].Pending() && s.settlements[id].rowVersion == rowVersion
    requires !Starts(a, e, s, rowVersion)
    ensures var (after, result) := Process(a, e, s, id, rowVersion);
            if IsBlocked(a, e, s, rowVersion) then
              result == ResultFailed && ClosesWith(s, after, id, Failed) && after.log[|s.log|].FanoutBlocked?
            else if Throws(a, e, s, rowVersion) then (after, result) == (s, Thrown)
            else if Delivers(a, s, rowVersion) then
              |after.log| == |s.log| + 1 && after.log[|s.log|].Delivered? &&
              match e.writeback(after.log[|s.log|].columns)
              case WritebackBlocked => result == ResultFailed && ClosesWith(s, after, id, Failed)
              case WritebackQueued(count) =>
                result == ResultSucceeded(count + a.webhooks, 0) && ClosesWith(s, after, id, Succeeded) &&
                after.settlements[id].queuedDeliveryCount == count + a.webhooks
            else
              result == ResultSkipped && after == s.(settlements := after.settlements) &&
              after.settlements == s.settlements[id := s.settlements[id].(status := Skipped)]
  {
    DecisionMeans(a, e, s, id, rowVersion);
    BlockingMeans(s, id, true);
    BlockingMeans(s, id, false);
    forall count ensures DeliversAs(s, id, count) { DeliveringMeans(s, id, count); }
    hide OpenColumns, Decide, IsOpen, Blocking, Delivering, Triggered, ClosesWith, Starts, IsBlocked, Throws, Delivers;
  }

  ghost predicate DeliversAs(s: RowState, id: SettlementId, count: nat)
    requires id in s.settlements
  {
    var after := Delivering(s, id, count);
    ClosesWith(s, after, id, Succeeded) && after.settlements[id].queuedDeliveryCount == count &&
    after.log[|s.log|] == Delivered(s.version, OpenColumns(s.settlements))
  }

  /** One log entry carries the open dirty columns and no settlement keeps any. */
  ghost predicate ClosesWith(s: RowState, after: RowState, id: SettlementId, status: SettlementStatus) {
    |after.log| == |s.log| + 1 && after.log[..|s.log|] == s.log && Carries(s, after.log[|s.log|]) &&
    ConsumesOthers(s, after, id) && id in after.settlements && after.settlements[id].status == status &&
    after.settlements[id].consumedBy == Some(id) && after.active == s.active
  }

  /** A settlement that has ended answers as before and changes nothing; a failed
      or unknown one throws. */
  lemma EndedAnswersAgain(a: Automation, e: Environment, s: RowState, id: SettlementId, rowVersion: nat)
    requires id in s.settlements && s.settlements[id].rowVersion == rowVersion ==> !s.settlements[id].Pending()
    ensures var (after, result) := Process(a, e, s, id, rowVersion);
            after == s &&
            if id !in s.settlements || s.settlements[id].rowVersion != rowVersion || s.settlements[id].status == Failed
            then result == Thrown
            else if s.settlements[id].status == Skipped then result == ResultSkipped
            else result == ResultSucceeded(s.settlements[id].queuedDeliveryCount, s.settlements[id].queuedRunCount)
  {
  }

  /** Over every run of steps, a processed settlement starts a run of a column
      only if the column was in on_change mode then and depended on a column that
      was dirty and fresh. */
  lemma NoManualColumnStarts(s: RowState, events: seq<Event>, n: nat, c: ColumnId)
    requires Consistent(s) && AllEnabled(s, events) && n < |events| && events[n].Processed?
    requires c !in Run(s, events[..n]).active && c in Run(s, events[..n + 1]).active
    ensures IsTriggered(events[n].automation, Run(s, events[..n]), c)
  {
    hide Run, Process, Consistent, AllEnabled;
    var before, event := Run(s, events[..n]), events[n];
    assert events[..n + 1][..n] == events[..n];
    assert Run(s, events[..n + 1]) == Step(before, event) by { RunLast(s, events[..n + 1]); }
    var id, rowVersion := event.id, event.rowVersion;
    if id in before.settlements && before.settlements[id].Pending() && before.settlements[id].rowVersion == rowVersion {
      RunIsConsistent(s, events, n);
      WaveIsExact(event.automation, event.environment, before, id, rowVersion);
    } else {
      EndedAnswersAgain(event.automation, event.environment, before, id, rowVersion);
    }
  }

  lemma {:induction false} RunIsConsistent(s: RowState, events: seq<Event>, n: nat)
    requires Consistent(s) && AllEnabled(s, events) && n <= |events|
    ensures Consistent(Run(s, events[..n]))
  {
    hide Consistent, Step, Enabled;
    if n > 0 {
      RunIsConsistent(s, events, n - 1);
      assert events[..n][..n - 1] == events[..n - 1] && Enabled(Run(s, events[..n - 1]), events[n - 1]);
      StepConserves(Run(s, events[..n - 1]), events[n - 1]);
    } else {
      assert events[..n] == [];
    }
  }

  lemma RunLast(s: RowState, events: seq<Event>)
    requires events != []
    ensures Run(s, events) == Step(Run(s, events[..|events| - 1]), events[|events| - 1])
  {
  }

  // ---- recording --------------------------------------------------------------

  /** Somebody has to hear about the mutation: a webhook, a writeback that reads
      a changed column, an on_change column that depends on one, or a settlement
      whose delivery waits for its runs. */
  ghost predicate IsHeard(a: Automation, s: RowState, changed: set<ColumnId>) {
    a.webhooks > 0 ||
    (exists c :: c in changed && c in a.writebackColumns) ||
    (exists c, x :: Dependency(c, x) in a.dependencies && x in changed && c in a.onChange) ||
    IsDeliveryWaiting(s)
  }

  ghost predicate IsDeliveryWaiting(s: RowState) {
    exists i :: i in s.settlements && s.settlements[i].status == Succeeded && s.settlements[i].queuedRunCount > 0 &&
      s.settlements[i].consumedBy == None
  }

  /** Every mutation is the row's next version.  It leaves a pending settlement
      of that version with exactly its changed columns if and only if it is heard,
      and touches nothing else. */
  lemma RecordingIsExact(a: Automation, s: RowState, changed: set<ColumnId>, newId: SettlementId)
    requires newId !in s.settlements
    ensures var after := Record(a, s, changed, newId);
            after == s.(version := s.version + 1, settlements := after.settlements) &&
            (newId in after.settlements <==> IsHeard(a, s, changed)) &&
            after.settlements - {newId} == s.settlements &&
            (newId in after.settlements ==>
               after.settlements[newId].Pending() && after.settlements[newId].rowVersion == after.version &&
               after.settlements[newId].changed == changed && after.settlements[newId].Fresh())
  {
    assert a.Dependents(changed) != {} <==>
           exists c, x :: Dependency(c, x) in a.dependencies && x in changed && c in a.onChange by {
      DependentsMean(a, changed);
    }
    assert a.writebackColumns * changed != {} <==> exists c :: c in changed && c in a.writebackColumns by {
      if c :| c in changed && c in a.writebackColumns { assert c in a.writebackColumns * changed; }
    }
    assert IsDeliveryWaiting(s) <==>
           exists i :: i in s.settlements && s.settlements[i].status == Succeeded &&
             s.settlements[i].queuedRunCount > 0 && s.settlements[i].Open() by {
      WaitingMeans(s);
    }
  }

  lemma WaitingMeans(s: RowState)
    ensures IsDeliveryWaiting(s) <==>
            exists i :: i in s.settlements && s.settlements[i].status == Succeeded &&
              s.settlements[i].queuedRunCount > 0 && s.settlements[i].Open()
  {
  }

  lemma DependentsMean(a: Automation, changed: set<ColumnId>)
    ensures a.Dependents(changed) != {} <==>
            exists c, x :: Dependency(c, x) in a.dependencies && x in changed && c in a.onChange
  {
    if c, x :| Dependency(c, x) in a.dependencies && x in changed && c in a.onChange {
      var e := Dependency(c, x);
      assert e in a.dependencies && e.dependsOnColumnId in changed && e.columnId in a.onChange;
      assert e.columnId in a.Dependents(changed);
    }
    if a.Dependents(changed) != {} {
      var c :| c in a.Dependents(changed);
      var e :| e in a.dependencies && e.dependsOnColumnId in changed && e.columnId in a.onChange && e.columnId == c;
      assert Dependency(c, e.dependsOnColumnId) == e;
    }
  }

  /** After a failure that is to be retried the settlement can be processed
      again; after the last one processing it throws, whatever the row is. */
  lemma FailureMeans(a: Automation, e: Environment, s: RowState, id: SettlementId, retrying: bool)
    requires id in s.settlements && s.settlements[id].Pending()
    ensures var after := WorkerFailure(s, id, retrying);
            after.settlements - {id} == s.settlements - {id} && after == s.(settlements := after.settlements) &&
            id in after.settlements && (after.settlements[id].Pending() <==> retrying) &&
            (!retrying ==> Process(a, e, after, id, s.settlements[id].rowVersion) == (after, Thrown))
  {
  }

  // ---- results ----------------------------------------------------------------

  /** A result frees its cell and makes its column and the recomputed formulas
      dirty: the settlement it leaves triggers every on_change column that depends
      on one of them. */
  lemma ResultTriggers(a: Automation, s: EnrichmentCascade.Cascade, c: ColumnId, formulas: set<ColumnId>,
                       newId: SettlementId, d: ColumnId, x: ColumnId)
    requires EnrichmentCascade.Enabled(a, s, EnrichmentCascade.RunSucceeds(c, formulas, newId))
    requires d in a.onChange && Dependency(d, x) in a.dependencies && (x == c || x in formulas)
    ensures var after := EnrichmentCascade.Advance(a, s, EnrichmentCascade.RunSucceeds(c, formulas, newId));
            after.runs == s.runs - {c} && after.row.active == s.row.active - {c} &&
            newId in after.row.settlements && after.row.settlements[newId].Pending() &&
            after.row.settlements[newId].rowVersion == after.row.version == s.row.version + 1 &&
            after.row.settlements[newId].changed == {c} + formulas && IsTriggered(a, after.row, d)
  {
    hide Reachable, IsDeliveryWaiting;
    var freed := s.row.(active := s.row.active - {c});
    RecordingIsExact(a, freed, {c} + formulas, newId);
    assert IsHeard(a, freed, {c} + formulas);
    var after := Record(a, freed, {c} + formulas, newId);
    assert x in after.settlements[newId].changed;
    assert IsFresh(after, x);
  }

  /** A failed run frees its cell and makes nothing dirty. */
  lemma FailedRunChangesNothing(a: Automation, s: EnrichmentCascade.Cascade, c: ColumnId, newId: SettlementId,
                                x: ColumnId)
    requires EnrichmentCascade.Enabled(a, s, EnrichmentCascade.RunFails(c, newId))
    ensures var after := EnrichmentCascade.Advance(a, s, EnrichmentCascade.RunFails(c, newId));
            after.runs == s.runs - {c} && after.row.active == s.row.active - {c} &&
            after.row.version == s.row.version + 1 && (IsOpen(after.row, x) <==> IsOpen(s.row, x))
  {
    var freed := s.row.(active := s.row.active - {c});
    RecordingIsExact(a, freed, {}, newId);
    var after := Record(a, freed, {}, newId);
    forall i | i in s.row.settlements ensures i in after.settlements && after.settlements[i] == s.row.settlements[i] {
      assert i in after.settlements - {newId};
    }
  }
}
