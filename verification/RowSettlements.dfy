/** Row settlements (packages/db/src/row-automations.ts): every mutation of a
    row may leave a versioned dirty set; processing a settlement skips it,
    merges it into an enrichment wave, or consumes every open dirty set and
    evaluates the delivery destinations.

    The state is one row: settlements of different rows never meet. */
module RowSettlements {
  import opened Collections
  import opened FormulaGraph
  import Fanout

  type SettlementId = nat

  datatype SettlementStatus = Queued | Running | Succeeded | Skipped | Failed

  datatype Settlement = Settlement(
    rowVersion: nat,
    changed: set<ColumnId>,
    consumedBy: Option<SettlementId>,
    status: SettlementStatus,
    queuedRunCount: nat,
    queuedDeliveryCount: nat)
  {
    predicate Open() { consumedBy.None? }
    predicate Fresh() { consumedBy.None? && queuedRunCount == 0 }
    predicate Pending() { status == Queued || status == Running }
  }

  /** One consultation of the writeback and webhook destinations, or one
      fan-out block, with the dirty set it settled. */
  datatype LogEntry =
    | Delivered(rowVersion: nat, columns: set<ColumnId>)
    | FanoutBlocked(rowVersion: nat, columns: set<ColumnId>)

  /** `active` are the columns whose cell of this row is queued or running. */
  datatype RowState = RowState(
    version: nat,
    archived: bool,
    settlements: map<SettlementId, Settlement>,
    active: set<ColumnId>,
    log: seq<LogEntry>)

  /** What the table's configuration contributes: the dependency rows, the
      connector columns in on_change mode, whether an active row_settled
      webhook exists, and the columns active row_settled writebacks read. */
  datatype Automation = Automation(
    dependencies: seq<Dependency>,
    onChange: set<ColumnId>,
    webhooks: nat,
    writebackColumns: set<ColumnId>)
  {
    /** The on_change connector columns with an edge from a changed column. */
    function Dependents(changed: set<ColumnId>): set<ColumnId> {
      set e | e in dependencies && e.dependsOnColumnId in changed && e.columnId in onChange :: e.columnId
    }
  }

  datatype WritebackResult = WritebackQueued(count: nat) | WritebackBlocked

  /** Answers of code that is not part of this module: which columns the
      queueing transaction rejects, and what the writeback destinations decide
      about a dirty set. */
  datatype Environment = Environment(maximumRuns: nat, rejected: set<ColumnId>,
                                     writeback: set<ColumnId> -> WritebackResult)

  datatype SettlementResult =
    | ResultSucceeded(queuedDeliveryCount: nat, queuedRunCount: nat)
    | ResultSkipped
    | ResultFailed
    | Thrown

  // ---- dirty sets -----------------------------------------------------------

  /** The columns some unconsumed settlement still carries. */
  function OpenColumns(settlements: map<SettlementId, Settlement>): set<ColumnId> {
    set i, c | i in settlements && settlements[i].Open() && c in settlements[i].changed :: c
  }

  function FreshColumns(settlements: map<SettlementId, Settlement>): set<ColumnId> {
    set i, c | i in settlements && settlements[i].Fresh() && c in settlements[i].changed :: c
  }

  /** What every reachable state satisfies. */
  ghost predicate Consistent(s: RowState) {
    Versioned(s.settlements, s.version) &&
    forall i {:trigger Proper(s.settlements, i)} :: i in s.settlements ==> Proper(s.settlements, i)
  }

  ghost predicate Versioned(settlements: map<SettlementId, Settlement>, version: nat) {
    forall i :: i in settlements ==> settlements[i].rowVersion <= version
  }

  /** A consumed settlement is terminal and its consumer is no older; a
      pending one has queued nothing. */
  ghost predicate Proper(settlements: map<SettlementId, Settlement>, i: SettlementId)
    requires i in settlements
  {
    match settlements[i].consumedBy
    case None => settlements[i].Pending() ==> settlements[i].queuedRunCount == 0
    case Some(consumer) =>
      !settlements[i].Pending() &&
      consumer in settlements && settlements[i].rowVersion <= settlements[consumer].rowVersion &&
      (consumer != i ==> settlements[i].status == Skipped)
  }

  // ---- the steps ------------------------------------------------------------

  predicate NeedsSettlement(a: Automation, s: RowState, changed: set<ColumnId>) {
    a.webhooks > 0 ||
    a.writebackColumns * changed != {} ||
    a.Dependents(changed) != {} ||
    exists i :: i in s.settlements && s.settlements[i].status == Succeeded && s.settlements[i].queuedRunCount > 0 &&
      s.settlements[i].Open()
  }

  function Record(a: Automation, s: RowState, changed: set<ColumnId>, newId: SettlementId): RowState {
    var bumped := s.(version := s.version + 1);
    if !NeedsSettlement(a, s, changed) then bumped
    else bumped.(settlements := s.settlements[newId := Settlement(s.version + 1, changed, None, Queued, 0, 0)])
  }

  /** Every other open settlement is consumed by `id`, which becomes `ended`. */
  function Merge(settlements: map<SettlementId, Settlement>, id: SettlementId, ended: Settlement): map<SettlementId,
    Settlement> {
    map i | i in settlements :: if i == id then ended else Consumed(settlements[i], id)
  }

  function Consumed(settlement: Settlement, consumer: SettlementId): Settlement {
    if settlement.Open() then settlement.(consumedBy := Some(consumer), status := Skipped) else settlement
  }

  /** What one processing attempt does once the row is locked. */
  datatype Decision =
    | Stop(result: SettlementResult)
    | Skip
    | Block
    | Queue(columns: set<ColumnId>)
    | Deliver(writebacks: WritebackResult)

  function Decide(a: Automation, e: Environment, s: RowState, id: SettlementId, rowVersion: nat): Decision {
    if id !in s.settlements || s.settlements[id].rowVersion != rowVersion then Stop(Thrown)
    else
      match s.settlements[id].status
      case Succeeded => Stop(ResultSucceeded(s.settlements[id].queuedDeliveryCount, s.settlements[id].queuedRunCount))
      case Skipped => Stop(ResultSkipped)
      case Failed => Stop(Thrown)
      case _ =>
        var automatic := a.Dependents(FreshColumns(s.settlements));
        if s.archived || s.version != rowVersion || automatic * s.active != {} then Skip
        else if |automatic| > e.maximumRuns then Block
        else if automatic != {} then
          if automatic * e.rejected != {} then Stop(Thrown) else Queue(automatic)
        else if s.active != {} then Skip
        else Deliver(e.writeback(OpenColumns(s.settlements)))
  }

  function Apply(a: Automation, s: RowState, id: SettlementId, decision: Decision): (RowState, SettlementResult)
    requires !decision.Stop? ==> id in s.settlements
  {
    match decision
    case Stop(result) => (s, result)
    case Skip => (Skipping(s, id), ResultSkipped)
    case Block => (Blocking(s, id, true), ResultFailed)
    case Queue(columns) => (Queueing(s, id, columns), ResultSucceeded(0, |columns|))
    case Deliver(WritebackBlocked) => (Blocking(s, id, false), ResultFailed)
    case Deliver(WritebackQueued(count)) =>
      (Delivering(s, id, count + a.webhooks), ResultSucceeded(count + a.webhooks, 0))
  }

  function Process(a: Automation, e: Environment, s: RowState, id: SettlementId, rowVersion: nat): (RowState,
        SettlementResult) {
    Apply(a, s, id, Decide(a, e, s, id, rowVersion))
  }

  function Skipping(s: RowState, id: SettlementId): RowState
    requires id in s.settlements
  {
    s.(settlements := s.settlements[id := s.settlements[id].(status := Skipped)])
  }

  /** The wave: the settlement carries every open dirty set from now on. */
  function Queueing(s: RowState, id: SettlementId, columns: set<ColumnId>): RowState
    requires id in s.settlements
  {
    var ended := s.settlements[id].(changed := OpenColumns(s.settlements), queuedRunCount := |columns|,
                                    status := Succeeded);
    s.(settlements := Merge(s.settlements, id, ended), active := s.active + columns)
  }

  /** Either fan-out limit fails the settlement and closes every dirty set. */
  function Blocking(s: RowState, id: SettlementId, enrichment: bool): RowState
    requires id in s.settlements
  {
    var open := OpenColumns(s.settlements);
    s.(settlements := Merge(s.settlements, id, s.settlements[id].(status := Failed, consumedBy := Some(id))),
       log := s.log + [if enrichment then FanoutBlocked(s.version, open) else Delivered(s.version, open)])
  }

  function Delivering(s: RowState, id: SettlementId, count: nat): RowState
    requires id in s.settlements
  {
    s.(settlements := Merge(s.settlements, id,
                            s.settlements[id].(status := Succeeded, queuedDeliveryCount := count,
                                               consumedBy := Some(id))),
       log := s.log + [Delivered(s.version, OpenColumns(s.settlements))])
  }

  function WorkerFailure(s: RowState, id: SettlementId, retrying: bool): RowState {
    if id !in s.settlements || !s.settlements[id].Pending() then s
    else s.(settlements := s.settlements[id := s.settlements[id].(status := if retrying then Queued else Failed)])
  }

  // ---- one step: what it conserves ------------------------------------------

  /** The settlements consumed before a step are untouched by it. */
  ghost predicate ConsumedAreFrozen(before: RowState, after: RowState) {
    forall i :: i in before.settlements ==>
      i in after.settlements &&
      after.settlements[i].rowVersion == before.settlements[i].rowVersion &&
      (!before.settlements[i].Open() ==> after.settlements[i] == before.settlements[i])
  }

  /** Dirty columns leave the open set only into the log, all together. */
  ghost predicate Conserves(before: RowState, after: RowState) {
    (after.log == before.log && OpenColumns(before.settlements) <= OpenColumns(after.settlements)) ||
    (|after.log| == |before.log| + 1 && after.log[..|before.log|] == before.log &&
     after.log[|before.log|].columns == OpenColumns(before.settlements) && OpenColumns(after.settlements) == {})
  }

  lemma RecordKeepsConsistent(a: Automation, s: RowState, changed: set<ColumnId>, newId: SettlementId)
    requires Consistent(s) && newId !in s.settlements
    ensures Consistent(Record(a, s, changed, newId))
    ensures ConsumedAreFrozen(s, Record(a, s, changed, newId)) && Conserves(s, Record(a, s, changed, newId))
    ensures OpenColumns(Record(a, s, changed, newId).settlements) ==
      OpenColumns(s.settlements) + if NeedsSettlement(a, s, changed) then changed else {}
  {
    if NeedsSettlement(a, s, changed) {
      AddedSettlement(s.settlements, newId, Settlement(s.version + 1, changed, None, Queued, 0, 0));
      forall i | i in Record(a, s, changed, newId).settlements
        ensures Proper(Record(a, s, changed, newId).settlements, i)
      {
        if i != newId { assert Proper(s.settlements, i); }
      }
    }
  }

  lemma AddedSettlement(settlements: map<SettlementId, Settlement>, newId: SettlementId, added: Settlement)
    requires newId !in settlements && added.Open()
    ensures OpenColumns(settlements[newId := added]) == OpenColumns(settlements) + added.changed
  {
    var after := settlements[newId := added];
    forall c | c in OpenColumns(settlements) ensures c in OpenColumns(after) {
      var i :| i in settlements && settlements[i].Open() && c in settlements[i].changed;
      assert after[i] == settlements[i];
    }
    forall c | c in added.changed ensures c in OpenColumns(after) { assert after[newId] == added; }
  }

  lemma WorkerFailureKeepsConsistent(s: RowState, id: SettlementId, retrying: bool)
    requires Consistent(s)
    ensures Consistent(WorkerFailure(s, id, retrying))
    ensures ConsumedAreFrozen(s, WorkerFailure(s, id, retrying))
    ensures OpenColumns(WorkerFailure(s, id, retrying).settlements) == OpenColumns(s.settlements)
  {
    if id in s.settlements && s.settlements[id].Pending() {
      assert Proper(s.settlements, id);
      StatusKeepsConsistent(s, id, if retrying then Queued else Failed);
    }
  }

  lemma StatusKeepsConsistent(s: RowState, id: SettlementId, status: SettlementStatus)
    requires Consistent(s) && id in s.settlements && s.settlements[id].Pending()
    ensures var after := s.(settlements := s.settlements[id := s.settlements[id].(status := status)]);
      Consistent(after) && ConsumedAreFrozen(s, after) && OpenColumns(after.settlements) == OpenColumns(s.settlements)
  {
    var after := s.settlements[id := s.settlements[id].(status := status)];
    assert Proper(s.settlements, id);
    forall i | i in after ensures Proper(after, i) { assert Proper(s.settlements, i); }
    SameDirtySets(s.settlements, after);
  }

  lemma SameDirtySets(a: map<SettlementId, Settlement>, b: map<SettlementId, Settlement>)
    requires a.Keys == b.Keys
    requires forall i :: i in a ==> a[i].changed == b[i].changed && a[i].consumedBy == b[i].consumedBy
    ensures OpenColumns(a) == OpenColumns(b)
  {
    forall c ensures c in OpenColumns(a) <==> c in OpenColumns(b) {
      if c in OpenColumns(a) {
        var i :| i in a && a[i].Open() && c in a[i].changed; assert b[i].Open() && c in b[i].changed;
      }
      if c in OpenColumns(b) {
        var i :| i in b && b[i].Open() && c in b[i].changed; assert a[i].Open() && c in a[i].changed;
      }
    }
  }

  /** Skips, waves, replays and aborts leave the union of the open dirty sets
      unchanged.  Only a settlement that hands exactly that union to the
      destinations, or that a fan-out limit fails, empties it. */
  ghost predicate Settles(a: Automation, e: Environment, s: RowState, id: SettlementId, after: RowState) {
    var automatic := a.Dependents(FreshColumns(s.settlements));
    if after.log == s.log then OpenColumns(after.settlements) == OpenColumns(s.settlements)
    else
      OpenColumns(after.settlements) == {} &&
      after.log == s.log + [if |automatic| > e.maximumRuns then FanoutBlocked(s.version, OpenColumns(s.settlements))
                            else Delivered(s.version, OpenColumns(s.settlements))] &&
      (|automatic| <= e.maximumRuns ==> automatic == {} && s.active == {}) &&
      automatic * s.active == {} &&
      id in s.settlements && s.settlements[id].Open() && id in after.settlements &&
      after.settlements[id].consumedBy == Some(id)
  }

  lemma ProcessConserves(a: Automation, e: Environment, s: RowState, id: SettlementId, rowVersion: nat)
    requires Consistent(s)
    ensures var (after, result) := Process(a, e, s, id, rowVersion);
      Consistent(after) && ConsumedAreFrozen(s, after) && Settles(a, e, s, id, after) &&
      (result == Thrown ==> after == s)
  {
    var decision := Decide(a, e, s, id, rowVersion);
    if !decision.Stop? {
      assert Proper(s.settlements, id);
      ApplyConserves(a, s, id, decision);
    }
  }

  lemma ProcessKeepsConsistent(a: Automation, e: Environment, s: RowState, id: SettlementId, rowVersion: nat)
    requires Consistent(s)
    ensures Consistent(Process(a, e, s, id, rowVersion).0)
  {
    ProcessConserves(a, e, s, id, rowVersion);
  }

  lemma ApplyConserves(a: Automation, s: RowState, id: SettlementId, decision: Decision)
    requires Consistent(s) && !decision.Stop?
    requires id in s.settlements && s.settlements[id].Pending() && s.settlements[id].Open()
    requires !decision.Skip? ==> s.settlements[id].rowVersion == s.version
    ensures var (after, result) := Apply(a, s, id, decision);
      Consistent(after) && ConsumedAreFrozen(s, after) && result != Thrown
    ensures var (after, _) := Apply(a, s, id, decision);
      if decision.Block? then ClosedWith(s, id, after, FanoutBlocked(s.version, OpenColumns(s.settlements)))
      else if decision.Deliver? then ClosedWith(s, id, after, Delivered(s.version, OpenColumns(s.settlements)))
      else after.log == s.log && OpenColumns(after.settlements) == OpenColumns(s.settlements)
  {
    match decision
    case Skip => StatusKeepsConsistent(s, id, Skipped);
    case Block => BlockingConserves(s, id, true);
    case Queue(columns) => QueueingConserves(s, id, columns);
    case Deliver(WritebackBlocked) => BlockingConserves(s, id, false);
    case Deliver(WritebackQueued(count)) => DeliveringConserves(s, id, count + a.webhooks);
  }

  ghost predicate ClosedWith(s: RowState, id: SettlementId, after: RowState, entry: LogEntry) {
    OpenColumns(after.settlements) == {} && after.log == s.log + [entry] && after.log != s.log &&
    id in after.settlements && after.settlements[id].consumedBy == Some(id)
  }

  /** The settlement that is processed is the latest, so it may consume all
      the others. */
  ghost predicate MayEnd(s: RowState, id: SettlementId, ended: Settlement) {
    id in s.settlements && s.settlements[id].rowVersion == s.version == ended.rowVersion && s.settlements[id].Open() &&
    !ended.Pending() && (ended.Open() || ended.consumedBy == Some(id))
  }

  lemma MergeKeepsConsistent(s: RowState, id: SettlementId, ended: Settlement)
    requires Consistent(s) && MayEnd(s, id, ended)
    ensures Consistent(s.(settlements := Merge(s.settlements, id, ended)))
    ensures ConsumedAreFrozen(s, s.(settlements := Merge(s.settlements, id, ended)))
  {
    var after := Merge(s.settlements, id, ended);
    forall i | i in after ensures Proper(after, i) { MergedIsProper(s, id, ended, i); }
  }

  lemma MergedIsProper(s: RowState, id: SettlementId, ended: Settlement, i: SettlementId)
    requires MayEnd(s, id, ended) && i in s.settlements && Proper(s.settlements, i)
    requires s.settlements[i].rowVersion <= s.version
    ensures Proper(Merge(s.settlements, id, ended), i)
  {
    var after := Merge(s.settlements, id, ended);
    match after[i].consumedBy
    case None =>
    case Some(consumer) => assert after[consumer].rowVersion == s.settlements[consumer].rowVersion;
  }

  lemma BlockingConserves(s: RowState, id: SettlementId, enrichment: bool)
    requires Consistent(s) && id in s.settlements && s.settlements[id].Open() &&
             s.settlements[id].rowVersion == s.version
    ensures var after := Blocking(s, id, enrichment);
      Consistent(after) && ConsumedAreFrozen(s, after) &&
      ClosedWith(s, id, after, if enrichment then FanoutBlocked(s.version, OpenColumns(s.settlements))
                               else Delivered(s.version, OpenColumns(s.settlements)))
  {
    MergeKeepsConsistent(s, id, s.settlements[id].(status := Failed, consumedBy := Some(id)));
    assert |Blocking(s, id, enrichment).log| == |s.log| + 1;
  }

  lemma DeliveringConserves(s: RowState, id: SettlementId, count: nat)
    requires Consistent(s) && id in s.settlements && s.settlements[id].Open() &&
             s.settlements[id].rowVersion == s.version
    ensures var after := Delivering(s, id, count);
      Consistent(after) && ConsumedAreFrozen(s, after) &&
      ClosedWith(s, id, after, Delivered(s.version, OpenColumns(s.settlements)))
  {
    MergeKeepsConsistent(s, id, s.settlements[id].(status := Succeeded, queuedDeliveryCount := count,
                                                   consumedBy := Some(id)));
    assert |Delivering(s, id, count).log| == |s.log| + 1;
  }

  lemma QueueingConserves(s: RowState, id: SettlementId, columns: set<ColumnId>)
    requires Consistent(s) && id in s.settlements && s.settlements[id].Open() &&
             s.settlements[id].rowVersion == s.version
    ensures var after := Queueing(s, id, columns);
      Consistent(after) && ConsumedAreFrozen(s, after) && OpenColumns(after.settlements) == OpenColumns(s.settlements)
  {
    var ended := s.settlements[id].(changed := OpenColumns(s.settlements), queuedRunCount := |columns|,
                                    status := Succeeded);
    MergeKeepsConsistent(s, id, ended);
    var after := Merge(s.settlements, id, ended);
    forall c | c in OpenColumns(s.settlements) ensures c in OpenColumns(after) {
      assert after[id].Open() && c in after[id].changed;
    }
    forall c | c in OpenColumns(after) ensures c in OpenColumns(s.settlements) {
      var i :| i in after && after[i].Open() && c in after[i].changed;
      assert i == id;
    }
  }

  // ---- whole runs -----------------------------------------------------------

  /** Everything that can happen to the row's settlements.  `Activity` stands
      for enrichment runs starting and ending and for the row being archived
      or restored.  Every recording and processing reads the dependencies,
      webhooks and writebacks of its own moment. */
  datatype Event =
    | Mutated(automation: Automation, changed: set<ColumnId>, newId: SettlementId)
    | Processed(automation: Automation, environment: Environment, id: SettlementId, rowVersion: nat)
    | WorkerFailed(id: SettlementId, retrying: bool)
    | Activity(active: set<ColumnId>, archived: bool)

  ghost predicate Enabled(s: RowState, event: Event) {
    event.Mutated? ==> event.newId !in s.settlements
  }

  function Step(s: RowState, event: Event): RowState {
    match event
    case Mutated(a, changed, newId) => Record(a, s, changed, newId)
    case Processed(a, e, id, rowVersion) => Process(a, e, s, id, rowVersion).0
    case WorkerFailed(id, retrying) => WorkerFailure(s, id, retrying)
    case Activity(active, archived) => s.(active := active, archived := archived)
  }

  function Run(s: RowState, events: seq<Event>): RowState {
    if events == [] then s else Step(Run(s, events[..|events| - 1]), events[|events| - 1])
  }

  ghost predicate AllEnabled(s: RowState, events: seq<Event>) {
    forall n :: 0 <= n < |events| ==> Enabled(Run(s, events[..n]), events[n])
  }

  lemma StepConserves(s: RowState, event: Event)
    requires Consistent(s) && Enabled(s, event)
    ensures Consistent(Step(s, event)) && ConsumedAreFrozen(s, Step(s, event)) && Conserves(s, Step(s, event))
  {
    match event
    case Mutated(a, changed, newId) => RecordKeepsConsistent(a, s, changed, newId);
    case Processed(a, e, id, rowVersion) => ProcessConserves(a, e, s, id, rowVersion);
    case WorkerFailed(id, retrying) => WorkerFailureKeepsConsistent(s, id, retrying);
    case Activity(active, archived) =>
  }

  /** Over any run, a settlement once consumed never changes again. */
  lemma {:induction false} ConsumedOnce(s: RowState, events: seq<Event>, i: SettlementId)
    requires Consistent(s) && AllEnabled(s, events)
    requires i in s.settlements && !s.settlements[i].Open()
    ensures Consistent(Run(s, events))
    ensures i in Run(s, events).settlements && Run(s, events).settlements[i] == s.settlements[i]
  {
    if events != [] {
      var n := |events| - 1;
      PrefixEnabled(s, events, n);
      ConsumedOnce(s, events[..n], i);
      assert Enabled(Run(s, events[..n]), events[n]);
      StepConserves(Run(s, events[..n]), events[n]);
    }
  }

  lemma PrefixEnabled(s: RowState, events: seq<Event>, n: nat)
    requires n <= |events| && AllEnabled(s, events)
    ensures AllEnabled(s, events[..n])
  {
    forall k | 0 <= k < n ensures Enabled(Run(s, events[..n][..k]), events[..n][k]) {
      assert events[..n][..k] == events[..k];
      assert Enabled(Run(s, events[..k]), events[k]);
    }
  }

  ghost predicate Logged(log: seq<LogEntry>, from: nat, c: ColumnId) {
    exists k :: from <= k < |log| && c in log[k].columns
  }

  /** Over any run no dirty column is lost: it is still open, or some later
      log entry carried it. */
  lemma {:induction false} NothingIsLost(s: RowState, events: seq<Event>, c: ColumnId)
    requires Consistent(s) && AllEnabled(s, events)
    requires c in OpenColumns(s.settlements)
    ensures Consistent(Run(s, events)) && s.log <= Run(s, events).log
    ensures c in OpenColumns(Run(s, events).settlements) || Logged(Run(s, events).log, |s.log|, c)
  {
    if events != [] {
      var n := |events| - 1;
      var before, after := Run(s, events[..n]), Run(s, events);
      PrefixEnabled(s, events, n);
      NothingIsLost(s, events[..n], c);
      assert Enabled(before, events[n]);
      StepConserves(before, events[n]);
      if Logged(before.log, |s.log|, c) {
        var k :| |s.log| <= k < |before.log| && c in before.log[k].columns;
        assert after.log[k] == before.log[k];
      } else if after.log != before.log {
        assert c in after.log[|before.log|].columns;
      }
    }
  }

  // ---- the transactions -----------------------------------------------------

  /** One row as the database holds it; each method is one transaction. */
  class RowAutomation {
    const automation: Automation
    var version: nat
    var archived: bool
    var settlements: map<SettlementId, Settlement>
    var active: set<ColumnId>
    var log: seq<LogEntry>

    constructor (automation: Automation)
      ensures this.automation == automation && State() == RowState(1, false, map[], {}, [])
      ensures Consistent(State())
    {
      this.automation := automation;
      version, archived, settlements, active, log := 1, false, map[], {}, [];
    }

    function State(): RowState
      reads this
    {
      RowState(version, archived, settlements, active, log)
    }

    /** recordRowMutationAndMaybeQueueSettlement. */
    method RecordRowMutation(changedColumnIds: seq<ColumnId>, newId: SettlementId)
      returns (rowVersion: nat, settlementId: Option<SettlementId>)
      requires Consistent(State()) && newId !in settlements
      modifies this
      ensures State() == Record(automation, old(State()), Elements(changedColumnIds), newId)
      ensures Consistent(State())
      ensures rowVersion == version == old(version) + 1
      ensures settlementId == if newId in settlements then Some(newId) else None
    {
      RecordKeepsConsistent(automation, State(), Elements(changedColumnIds), newId);
      version := version + 1;
      var changed := Elements(changedColumnIds);
      var pendingDelivery := exists i :: i in settlements && settlements[i].status == Succeeded &&
                                         settlements[i].queuedRunCount > 0 && settlements[i].consumedBy == None;
      if automation.webhooks == 0 && automation.writebackColumns * changed == {} &&
         automation.Dependents(changed) == {} && !pendingDelivery {
        return version, None;
      }
      settlements := settlements[newId := Settlement(version, changed, None, Queued, 0, 0)];
      return version, Some(newId);
    }

    /** consumeCandidateSettlements: one UPDATE over the candidate ids, whatever
        they are.  Its callers pass unconsumed ones, and then consumed settlements
        stay frozen and exactly the candidates' dirty columns are closed. */
    method ConsumeCandidateSettlements(candidateIds: set<SettlementId>, consumer: SettlementId)
      modifies this`settlements
      ensures settlements.Keys == old(settlements).Keys
      ensures forall i :: i in settlements ==>
        settlements[i] == if i in candidateIds then old(settlements)[i].(consumedBy := Some(consumer),
            status := Skipped)
                          else old(settlements)[i]
      ensures (forall i :: i in candidateIds ==> i in old(settlements) && old(settlements)[i].Open()) ==>
        (forall i :: i in settlements && !old(settlements)[i].Open() ==> settlements[i] == old(settlements)[i]) &&
        OpenColumns(old(settlements)) ==
          OpenColumns(settlements) + set i, c | i in candidateIds && c in old(settlements)[i].changed :: c
    {
      settlements := map i | i in settlements ::
        if i in candidateIds then settlements[i].(consumedBy := Some(consumer), status := Skipped) else settlements[i];
    }

    /** queueAutomaticEnrichmentCellRunInTransaction, as far as this row's cell
        statuses go: it throws for a column the environment rejects and for a
        cell that is already active. */
    method QueueAutomaticRun(e: Environment, columnId: ColumnId) returns (queued: bool)
      modifies this`active
      ensures queued <==> columnId !in e.rejected && columnId !in old(active)
      ensures active == old(active) + if queued then {columnId} else {}
    {
      if columnId in e.rejected || columnId in active { return false; }
      active := active + {columnId};
      return true;
    }

    /** The transaction holds the row lock and has marked the settlement
        running. */
    ghost predicate Holding(before: RowState, id: SettlementId)
      reads this
    {
      id in before.settlements && before.settlements[id].Pending() && before.settlements[id].Open() &&
      State() == before.(settlements := before.settlements[id := before.settlements[id].(status := Running)])
    }

    method SkipSettlement(id: SettlementId, ghost before: RowState) returns (result: SettlementResult)
      requires Holding(before, id)
      modifies this`settlements
      ensures (State(), result) == (Skipping(before, id), ResultSkipped)
    {
      settlements := settlements[id := settlements[id].(status := Skipped)];
      assert settlements == Skipping(before, id).settlements;
      return ResultSkipped;
    }

    method BlockSettlement(id: SettlementId, candidates: set<SettlementId>, entry: LogEntry, ghost before: RowState,
                           ghost enrichment: bool)
      returns (result: SettlementResult)
      requires Holding(before, id)
      requires candidates == set i | i in before.settlements && before.settlements[i].Open()
      requires entry == if enrichment then FanoutBlocked(before.version, OpenColumns(before.settlements))
                        else Delivered(before.version, OpenColumns(before.settlements))
      modifies this`settlements, this`log
      ensures (State(), result) == (Blocking(before, id, enrichment), ResultFailed)
    {
      ConsumeCandidateSettlements(candidates, id);
      settlements := settlements[id := settlements[id].(consumedBy := Some(id), status := Failed)];
      log := log + [entry];
      assert settlements == Blocking(before, id, enrichment).settlements;
      return ResultFailed;
    }

    method CompleteWave(id: SettlementId, candidates: set<SettlementId>, deliveryChanged: set<ColumnId>,
                        columns: set<ColumnId>,
                        ghost before: RowState)
      returns (result: SettlementResult)
      requires id in before.settlements && before.settlements[id].Open()
      requires State() == before.(settlements := before.settlements[id := before.settlements[id].(status := Running)],
                                  active := before.active + columns)
      requires candidates == set i | i in before.settlements && before.settlements[i].Open()
      requires deliveryChanged == OpenColumns(before.settlements)
      modifies this`settlements
      ensures (State(), result) == (Queueing(before, id, columns), ResultSucceeded(0, |columns|))
    {
      ConsumeCandidateSettlements(candidates - {id}, id);
      settlements := settlements[id := settlements[id].(changed := deliveryChanged, consumedBy := None,
                                                         queuedRunCount := |columns|, status := Succeeded)];
      assert settlements == Queueing(before, id, columns).settlements;
      return ResultSucceeded(0, |columns|);
    }

    method CompleteDelivery(id: SettlementId, candidates: set<SettlementId>, deliveryChanged: set<ColumnId>, count: nat,
                            ghost before: RowState)
      returns (result: SettlementResult)
      requires Holding(before, id)
      requires candidates == set i | i in before.settlements && before.settlements[i].Open()
      requires deliveryChanged == OpenColumns(before.settlements)
      modifies this`settlements, this`log
      ensures (State(), result) == (Delivering(before, id, count), ResultSucceeded(count, 0))
    {
      log := log + [Delivered(version, deliveryChanged)];
      ConsumeCandidateSettlements(candidates, id);
      settlements := settlements[id := settlements[id].(consumedBy := Some(id), queuedDeliveryCount := count,
                                                        status := Succeeded)];
      assert settlements == Delivering(before, id, count).settlements;
      return ResultSucceeded(count, 0);
    }

    /** The loop over the decided columns; a throw leaves the rollback to the
        caller. */
    method QueueRuns(e: Environment, columnIds: seq<ColumnId>) returns (queued: bool)
      requires Ascending(columnIds) && Elements(columnIds) * active == {}
      modifies this`active
      ensures queued <==> Elements(columnIds) * e.rejected == {}
      ensures queued ==> active == old(active) + Elements(columnIds)
    {
      for n := 0 to |columnIds|
        invariant active == old(active) + Elements(columnIds[..n])
        invariant Elements(columnIds[..n]) * e.rejected == {}
      {
        assert columnIds[..n + 1] == columnIds[..n] + [columnIds[n]];
        AppendElements(columnIds[..n], columnIds[n]);
        assert columnIds[n] in Elements(columnIds);
        assert columnIds[n] !in Elements(columnIds[..n]);
        assert columnIds[n] !in Elements(columnIds) * old(active);
        assert columnIds[n] in e.rejected ==> columnIds[n] in Elements(columnIds) * e.rejected;
        queued := QueueAutomaticRun(e, columnIds[n]);
        if !queued { return; }
      }
      assert columnIds[..|columnIds|] == columnIds;
      return true;
    }

    /** processRowSettlement. */
    method ProcessRowSettlement(e: Environment, id: SettlementId, rowVersion: nat) returns (result: SettlementResult)
      requires Consistent(State())
      modifies this
      ensures (State(), result) == Process(automation, e, old(State()), id, rowVersion)
      ensures Consistent(State())
    {
      ProcessKeepsConsistent(automation, e, State(), id, rowVersion);
      if id !in settlements || settlements[id].rowVersion != rowVersion { return Thrown; }
      var settlement := settlements[id];
      if settlement.status == Succeeded {
        return ResultSucceeded(settlement.queuedDeliveryCount, settlement.queuedRunCount);
      }
      if settlement.status == Skipped { return ResultSkipped; }
      if settlement.status == Failed { return Thrown; }
      assert Proper(settlements, id);
      ghost var before := State();
      var settlementsBefore, activeBefore := settlements, active;
      settlements := settlements[id := settlement.(status := Running)];
      if archived || version != rowVersion {
        result := SkipSettlement(id, before);
        return;
      }
      result := SettleLatest(e, id, rowVersion, before);
      if result == Thrown {
        settlements, active := settlementsBefore, activeBefore;
      }
    }

    method SelectCandidates(id: SettlementId, rowVersion: nat, ghost before: RowState)
      returns (candidates: set<SettlementId>, deliveryChanged: set<ColumnId>, changed: set<ColumnId>)
      requires Holding(before, id) && Versioned(before.settlements, rowVersion)
      ensures candidates == set i | i in before.settlements && before.settlements[i].Open()
      ensures deliveryChanged == OpenColumns(before.settlements)
      ensures changed == FreshColumns(before.settlements)
    {
      candidates := set i | i in settlements && settlements[i].rowVersion <= rowVersion &&
      settlements[i].consumedBy == None;
      deliveryChanged := set i, c | i in candidates && c in settlements[i].changed :: c;
      changed := set i, c | i in candidates && settlements[i].queuedRunCount == 0 && c in settlements[i].changed :: c;
      CandidatesAreOpen(before.settlements, id, settlements, candidates, rowVersion);
    }

    /** The rest of the transaction, for a settlement of the row's current
        version; a throw leaves the rollback to the caller. */
    method SettleLatest(e: Environment, id: SettlementId, rowVersion: nat,
                        ghost before: RowState) returns (result: SettlementResult)
      requires Holding(before, id) && Versioned(before.settlements, rowVersion)
      requires rowVersion == version == before.settlements[id].rowVersion && !archived
      modifies this`settlements, this`active, this`log
      ensures result == Process(automation, e, before, id, rowVersion).1
      ensures result != Thrown ==> State() == Process(automation, e, before, id, rowVersion).0
      ensures result == Thrown ==> log == before.log
    {
      var candidates, deliveryChanged, changed := SelectCandidates(id, rowVersion, before);
      var automatic := automation.Dependents(changed);
      if automatic * active != {} {
        result := SkipSettlement(id, before);
        return;
      }

      var automaticIds := ListColumns(automatic);
      var decision := Fanout.DecideAutomaticFanout(automaticIds, e.maximumRuns);
      if decision.Blocked? {
        result := BlockSettlement(id, candidates, FanoutBlocked(rowVersion, deliveryChanged), before, true);
        return;
      }
      result := QueueOrDeliver(e, id, rowVersion, candidates, deliveryChanged, decision.columnIds, before);
    }

    method QueueOrDeliver(e: Environment, id: SettlementId, rowVersion: nat, candidates: set<SettlementId>,
                          deliveryChanged: set<ColumnId>,
                          columnIds: seq<ColumnId>, ghost before: RowState)
      returns (result: SettlementResult)
      requires Holding(before, id) && rowVersion == version
      requires candidates == set i | i in before.settlements && before.settlements[i].Open()
      requires deliveryChanged == OpenColumns(before.settlements)
      requires Ascending(columnIds) && Elements(columnIds) * active == {}
      modifies this`settlements, this`active, this`log
      ensures var automatic := Elements(columnIds);
        if automatic * e.rejected != {} then result == Thrown && log == before.log
        else
          (State(), result) == Apply(automation, before, id,
                                     if automatic != {} then Queue(automatic)
                                     else if before.active != {} then Skip else Deliver(e.writeback(deliveryChanged)))
    {
      DistinctCount(columnIds);
      var queued := QueueRuns(e, columnIds);
      if !queued { return Thrown; }
      if |columnIds| > 0 {
        result := CompleteWave(id, candidates, deliveryChanged, Elements(columnIds), before);
      } else if active != {} {
        assert active == before.active;
        result := SkipSettlement(id, before);
      } else {
        assert active == before.active;
        result := DeliverOrBlock(e, id, rowVersion, candidates, deliveryChanged, before);
      }
    }

    method DeliverOrBlock(e: Environment, id: SettlementId, rowVersion: nat, candidates: set<SettlementId>,
                          deliveryChanged: set<ColumnId>,
                          ghost before: RowState)
      returns (result: SettlementResult)
      requires Holding(before, id) && rowVersion == version
      requires candidates == set i | i in before.settlements && before.settlements[i].Open()
      requires deliveryChanged == OpenColumns(before.settlements)
      modifies this`settlements, this`log
      ensures (State(), result) == Apply(automation, before, id, Deliver(e.writeback(deliveryChanged)))
    {
      match e.writeback(deliveryChanged)
      case WritebackBlocked =>
        result := BlockSettlement(id, candidates, Delivered(rowVersion, deliveryChanged), before, false);
      case WritebackQueued(count) =>
        result := CompleteDelivery(id, candidates, deliveryChanged, count + automation.webhooks, before);
    }

    /** setRowSettlementWorkerFailure. */
    method SetWorkerFailure(id: SettlementId, retrying: bool)
      requires Consistent(State())
      modifies this`settlements
      ensures State() == WorkerFailure(old(State()), id, retrying) && Consistent(State())
    {
      WorkerFailureKeepsConsistent(State(), id, retrying);
      if id in settlements && (settlements[id].status == Queued || settlements[id].status == Running) {
        settlements := settlements[id := settlements[id].(status := if retrying then Queued else Failed)];
      }
    }
  }

  method ListColumns(columns: set<ColumnId>) returns (r: seq<ColumnId>)
    ensures Elements(r) == columns
  {
    r := [];
    var rest := columns;
    while rest != {}
      invariant Elements(r) + rest == columns
    {
      var c :| c in rest;
      r, rest := r + [c], rest - {c};
    }
  }

  /** Every open settlement is a candidate of the latest one. */
  lemma CandidatesAreOpen(before: map<SettlementId, Settlement>, id: SettlementId,
                          running: map<SettlementId, Settlement>,
                          candidates: set<SettlementId>, rowVersion: nat)
    requires id in before && running == before[id := before[id].(status := Running)]
    requires Versioned(before, rowVersion)
    requires candidates == set i | i in running && running[i].rowVersion <= rowVersion && running[i].consumedBy == None
    ensures candidates == set i | i in before && before[i].Open()
    ensures (set i, c | i in candidates && c in running[i].changed :: c) == OpenColumns(before)
    ensures (set i, c | i in candidates && running[i].queuedRunCount == 0 && c in running[i].changed :: c) ==
            FreshColumns(before)
  {
    forall i ensures i in candidates <==> i in before && before[i].Open() {}
    forall c ensures c in OpenColumns(before) <==> exists i :: i in candidates && c in running[i].changed {
      if c in OpenColumns(before) {
        var i :| i in before && before[i].Open() && c in before[i].changed;
        assert i in candidates && c in running[i].changed;
      }
    }
    forall c
      ensures c in FreshColumns(before) <==>
                exists i :: i in candidates && running[i].queuedRunCount == 0 && c in running[i].changed
    {
      if c in FreshColumns(before) {
        var i :| i in before && before[i].Fresh() && c in before[i].changed;
        assert i in candidates && c in running[i].changed;
      }
    }
  }
}
