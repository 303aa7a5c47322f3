/** Automatic enrichment terminates.

    A cascade is what one row does by itself after an edit: settlements are
    processed, the waves they queue run, retry, succeed or fail
    (apps/worker/src/execute-cell-run.ts), and every result records another
    mutation.  With an acyclic column graph and no further edits, a potential
    over the graph drops at every step. */
module EnrichmentCascade {
  import opened Collections
  import opened FormulaGraph
  import opened FormulaTraversal
  import opened RowSettlements
  import opened Sums

  /** packages/domain/src/bulk-run-policy.ts:10. */
  const MAXIMUM_CELL_RUN_ATTEMPTS: nat := 5
  /** apps/worker/src/process-row-settlement.ts:12. */
  const MAXIMUM_SETTLEMENT_RETRIES: nat := 2

  /** An active cell run; `attempt` counts the times it was started. */
  datatype ActiveRun = ActiveRun(running: bool, attempt: nat)

  datatype Cascade = Cascade(row: RowState, runs: map<ColumnId, ActiveRun>, retries: map<SettlementId, nat>)

  // ---- heights in the dependency graph --------------------------------------

  ghost function Columns(deps: seq<Dependency>): set<ColumnId> {
    (set e | e in deps :: e.columnId) + (set e | e in deps :: e.dependsOnColumnId)
  }

  ghost function Position(order: seq<ColumnId>, c: ColumnId): nat
    requires c in order
    ensures Position(order, c) < |order| && order[Position(order, c)] == c
  {
    var i :| 0 <= i < |order| && order[i] == c;
    i
  }

  /** Strictly smaller for every dependent column. */
  ghost function Height(deps: seq<Dependency>, c: ColumnId): nat {
    var order := VisitOrder(deps, Columns(deps));
    if c in order then |order| - Position(order, c) else 0
  }

  lemma HeightDrops(deps: seq<Dependency>, from: ColumnId, to: ColumnId)
    requires Acyclic(deps) && Dependency(to, from) in deps
    ensures Height(deps, to) < Height(deps, from)
  {
    var all := Columns(deps);
    var order := VisitOrder(deps, all);
    CompleteIffAcyclic(deps, all);
    var e := Dependency(to, from);
    assert e.columnId in all && e.dependsOnColumnId in all;
    assert to in Elements(order) && from in Elements(order);
    var i := Position(order, to);
    assert EarlierDependencies(deps, all, order, i);
    assert from in order[..i];
    var j :| 0 <= j < i && order[..i][j] == from;
    assert order[j] == order[Position(order, from)];
  }

  lemma {:induction false} ReachableIsLower(deps: seq<Dependency>, c: ColumnId, x: ColumnId)
    requires Acyclic(deps) && x in Reachable(deps, {c})
    ensures Height(deps, x) < Height(deps, c)
  {
    var e :| e in deps && e.columnId == x && exists w :: Reaches(deps, {c}, w, e.columnId);
    var walk :| Reaches(deps, {c}, walk, x);
    WalkDescends(deps, walk, |walk| - 1);
  }

  lemma {:induction false} WalkDescends(deps: seq<Dependency>, walk: seq<ColumnId>, n: nat)
    requires Acyclic(deps) && IsWalk(deps, walk) && 0 < n < |walk|
    ensures Height(deps, walk[n]) < Height(deps, walk[0])
  {
    assert Dependency(walk[n - 1 + 1], walk[n - 1]) in deps;
    HeightDrops(deps, walk[n - 1], walk[n]);
    if n > 1 { WalkDescends(deps, walk, n - 1); }
  }

  // ---- the potential --------------------------------------------------------

  /** What a fresh dirty column of height `h` may still cost, when no column
      has more than `n` dependents. */
  ghost function ColumnCost(n: nat, h: nat): nat
    decreases h, 0
  {
    if h == 0 then 0 else 1 + n * NewRunCost(n, h - 1)
  }

  /** A run pays for the settlement and the dirty columns of its result. */
  ghost function ResultCost(n: nat, h: nat): nat
    decreases h, 1
  {
    MAXIMUM_SETTLEMENT_RETRIES + 1 + (n + 1) * ColumnCost(n, h)
  }

  ghost function NewRunCost(n: nat, h: nat): nat
    decreases h, 2
  {
    ResultCost(n, h) + RunSteps(ActiveRun(false, 0))
  }

  ghost function RunSteps(run: ActiveRun): nat {
    if run.attempt > MAXIMUM_CELL_RUN_ATTEMPTS then 0
    else 2 * (MAXIMUM_CELL_RUN_ATTEMPTS - run.attempt) + if run.running then 2 else 1
  }

  lemma {:induction false} ColumnCostGrows(n: nat, low: nat, high: nat)
    requires low <= high
    ensures ColumnCost(n, low) <= ColumnCost(n, high)
    decreases high
  {
    if 0 < low < high {
      ColumnCostGrows(n, low - 1, high - 1);
      Scale(n + 1, ColumnCost(n, low - 1), ColumnCost(n, high - 1));
      assert ResultCost(n, low - 1) <= ResultCost(n, high - 1);
      Scale(n, NewRunCost(n, low - 1), NewRunCost(n, high - 1));
    }
  }

  lemma Scale(k: nat, a: nat, b: nat)
    requires a <= b
    ensures k * a <= k * b
  {
  }

  ghost function Size(deps: seq<Dependency>): nat {
    |Columns(deps)|
  }

  ghost function Dirty(deps: seq<Dependency>): nat -> nat {
    c => ColumnCost(Size(deps), Height(deps, c))
  }

  ghost function SettlementCost(deps: seq<Dependency>, settlement: Settlement, retries: nat): nat {
    (if settlement.Fresh() then Sum(settlement.changed, Dirty(deps)) else 0) +
    (if settlement.Pending() then AttemptsLeft(retries) else 0)
  }

  ghost function AttemptsLeft(retries: nat): nat {
    if retries <= MAXIMUM_SETTLEMENT_RETRIES then MAXIMUM_SETTLEMENT_RETRIES + 1 - retries else 1
  }

  ghost function SettlementCosts(deps: seq<Dependency>, settlements: map<SettlementId, Settlement>,
                                 retries: map<SettlementId, nat>): nat -> nat {
    i => if i in settlements then SettlementCost(deps, settlements[i], if i in retries then retries[i] else 0) else 0
  }

  ghost function RunCost(deps: seq<Dependency>, c: ColumnId, run: ActiveRun): nat {
    ResultCost(Size(deps), Height(deps, c)) + RunSteps(run)
  }

  ghost function RunCosts(deps: seq<Dependency>, runs: map<ColumnId, ActiveRun>): nat -> nat {
    c => if c in runs then RunCost(deps, c, runs[c]) else 0
  }

  ghost function SettlementTotal(deps: seq<Dependency>, settlements: map<SettlementId, Settlement>,
                                 retries: map<SettlementId, nat>): nat {
    Sum(settlements.Keys, SettlementCosts(deps, settlements, retries))
  }

  ghost function RunTotal(deps: seq<Dependency>, runs: map<ColumnId, ActiveRun>): nat {
    Sum(runs.Keys, RunCosts(deps, runs))
  }

  ghost function Potential(deps: seq<Dependency>, s: Cascade): nat {
    SettlementTotal(deps, s.row.settlements, s.retries) + RunTotal(deps, s.runs)
  }

  // ---- the steps of a cascade -----------------------------------------------

  datatype Tick =
    | Settle(environment: Environment, id: SettlementId)
    | SettleThrows(id: SettlementId, retrying: bool)
    | StartRun(columnId: ColumnId)
    | RetryRun(columnId: ColumnId)
    | RunSucceeds(columnId: ColumnId, formulas: set<ColumnId>, newId: SettlementId)
    | RunFails(columnId: ColumnId, newId: SettlementId)

  /** The formulas a result recomputes are reachable from its column. */
  ghost predicate Enabled(a: Automation, s: Cascade, tick: Tick) {
    match tick
    case Settle(e, id) =>
      id in s.row.settlements && s.row.settlements[id].Pending() &&
      Process(a, e, s.row, id, s.row.settlements[id].rowVersion).1 != Thrown
    case SettleThrows(id, retrying) =>
      id in s.row.settlements && s.row.settlements[id].Pending() && id in s.retries &&
      (retrying ==> s.retries[id] < MAXIMUM_SETTLEMENT_RETRIES)
    case StartRun(c) => c in s.runs && !s.runs[c].running
    case RetryRun(c) => c in s.runs && s.runs[c].running && s.runs[c].attempt < MAXIMUM_CELL_RUN_ATTEMPTS
    case RunSucceeds(c, formulas, newId) =>
      c in s.runs && s.runs[c].running && formulas <= Reachable(a.dependencies, {c}) && newId !in s.row.settlements
    case RunFails(c, newId) => c in s.runs && s.runs[c].running && newId !in s.row.settlements
  }

  ghost function NewRuns(columns: set<ColumnId>): map<ColumnId, ActiveRun> {
    map c | c in columns :: ActiveRun(false, 0)
  }

  ghost function Advance(a: Automation, s: Cascade, tick: Tick): Cascade
    requires Enabled(a, s, tick)
  {
    match tick
    case Settle(e, id) =>
      var row := Process(a, e, s.row, id, s.row.settlements[id].rowVersion).0;
      s.(row := row, runs := s.runs + NewRuns(row.active - s.row.active))
    case SettleThrows(id, retrying) =>
      s.(row := WorkerFailure(s.row, id, retrying),
         retries := s.retries[id := s.retries[id] + if retrying then 1 else 0])
    case StartRun(c) => s.(runs := s.runs[c := ActiveRun(true, s.runs[c].attempt + 1)])
    case RetryRun(c) => s.(runs := s.runs[c := ActiveRun(false, s.runs[c].attempt)])
    case RunSucceeds(c, formulas, newId) => Result(a, s, c, {c} + formulas, newId)
    case RunFails(c, newId) => Result(a, s, c, {}, newId)
  }

  /** A terminal run leaves its cell inactive and records a mutation. */
  ghost function Result(a: Automation, s: Cascade, c: ColumnId, changed: set<ColumnId>, newId: SettlementId): Cascade {
    var row := Record(a, s.row.(active := s.row.active - {c}), changed, newId);
    Cascade(row, s.runs - {c}, if newId in row.settlements then s.retries[newId := 0] else s.retries)
  }

  ghost predicate WellFormed(s: Cascade) {
    Consistent(s.row) && s.row.active == s.runs.Keys && s.retries.Keys == s.row.settlements.Keys &&
    (forall i :: i in s.retries ==> s.retries[i] <= MAXIMUM_SETTLEMENT_RETRIES) &&
    (forall c :: c in s.runs ==> s.runs[c].attempt + (if s.runs[c].running then 0 else 1) <= MAXIMUM_CELL_RUN_ATTEMPTS)
  }

  // ---- every step costs -----------------------------------------------------

  lemma StrictlyLess(keys: set<nat>, f: nat -> nat, g: nat -> nat, x: nat)
    requires x in keys && f(x) < g(x)
    requires forall y :: y in keys ==> f(y) <= g(y)
    ensures Sum(keys, f) < Sum(keys, g)
  {
    SumSplit(keys, f, x);
    SumSplit(keys, g, x);
    SumAtMost(keys - {x}, f, g);
  }

  /** The runs of a wave cost less than the fresh columns that caused it: each
      of them is strictly downstream of one of those columns. */
  lemma {:induction false} WaveIsPaid(deps: seq<Dependency>, dirty: set<ColumnId>, wave: set<ColumnId>)
    requires Acyclic(deps)
    requires forall d :: d in wave ==> exists c :: c in dirty && Dependency(d, c) in deps
    ensures Sum(wave, NewRunCosts(deps)) <= Sum(dirty, Dirty(deps))
  {
    if dirty == {} {
      assert wave == {};
    } else {
      var x := Least(dirty);
      var direct := set d | d in wave && Dependency(d, x) in deps;
      WaveIsPaid(deps, dirty - {x}, wave - direct);
      assert wave == direct + (wave - direct);
      SumUnion(direct, wave - direct, NewRunCosts(deps));
      DependentsArePaid(deps, x, direct);
      SumSplit(dirty, Dirty(deps), x);
    }
  }

  lemma DependentsArePaid(deps: seq<Dependency>, x: ColumnId, direct: set<ColumnId>)
    requires Acyclic(deps)
    requires forall d :: d in direct ==> Dependency(d, x) in deps
    ensures Sum(direct, NewRunCosts(deps)) <= Dirty(deps)(x)
  {
    hide ResultCost, NewRunCost, Height;
    if direct != {} {
      var n, h := Size(deps), Height(deps, x);
      var some :| some in direct;
      HeightDrops(deps, x, some);
      forall d | d in direct ensures NewRunCosts(deps)(d) <= NewRunCost(n, h - 1) {
        HeightDrops(deps, x, d);
        NewRunCostGrows(n, Height(deps, d), h - 1);
      }
      AtMostSize(deps, x, direct);
      SumBounded(direct, NewRunCosts(deps), NewRunCost(n, h - 1));
      Scale2(|direct|, n, NewRunCost(n, h - 1));
    }
  }

  lemma AtMostSize(deps: seq<Dependency>, x: ColumnId, direct: set<ColumnId>)
    requires forall d :: d in direct ==> Dependency(d, x) in deps
    ensures |direct| <= Size(deps)
  {
    forall d | d in direct ensures d in Columns(deps) { assert Dependency(d, x).columnId == d; }
    SubsetCount(direct, Columns(deps));
  }

  lemma NewRunCostGrows(n: nat, low: nat, high: nat)
    requires low <= high
    ensures NewRunCost(n, low) <= NewRunCost(n, high)
  {
    ColumnCostGrows(n, low, high);
    Scale(n + 1, ColumnCost(n, low), ColumnCost(n, high));
  }

  lemma Scale2(a: nat, b: nat, k: nat)
    requires a <= b
    ensures a * k <= b * k
  {
  }

  lemma ReachableColumns(deps: seq<Dependency>, c: ColumnId)
    ensures Reachable(deps, {c}) <= Columns(deps)
  {
  }

  lemma DirtyIsBounded(deps: seq<Dependency>, c: ColumnId, changed: set<ColumnId>)
    requires Acyclic(deps) && changed <= {c} + Reachable(deps, {c})
    ensures forall x :: x in changed ==> Dirty(deps)(x) <= ColumnCost(Size(deps), Height(deps, c))
  {
    hide ColumnCost, Height, Reachable, Acyclic;
    forall x | x in changed ensures Dirty(deps)(x) <= ColumnCost(Size(deps), Height(deps, c)) {
      if x != c { ReachableIsLower(deps, c, x); }
      ColumnCostGrows(Size(deps), Height(deps, x), Height(deps, c));
    }
  }

  /** A result costs no more than its run had set aside. */
  lemma ResultIsPaid(deps: seq<Dependency>, c: ColumnId, changed: set<ColumnId>)
    requires Acyclic(deps)
    requires changed <= {c} + Reachable(deps, {c})
    ensures MAXIMUM_SETTLEMENT_RETRIES + 1 + Sum(changed, Dirty(deps)) <= ResultCost(Size(deps), Height(deps, c))
  {
    hide ColumnCost, NewRunCost, Height, Sum, Reachable, Acyclic, Dirty, Columns;
    var n, bound := Size(deps), ColumnCost(Size(deps), Height(deps, c));
    DirtyIsBounded(deps, c, changed);
    SumBounded(changed, Dirty(deps), bound);
    ReachableColumns(deps, c);
    SubsetCount(changed, {c} + Columns(deps));
    assert |{c} + Columns(deps)| <= n + 1;
    Scale2(|changed|, n + 1, bound);
  }

  lemma AddedCost(deps: seq<Dependency>, settlements: map<SettlementId, Settlement>, retries: map<SettlementId, nat>,
                  newId: SettlementId, added: Settlement)
    requires newId !in settlements
    ensures SettlementTotal(deps, settlements[newId := added], retries[newId := 0]) ==
            SettlementTotal(deps, settlements, retries) + SettlementCost(deps, added, 0)
  {
    hide Sum, SettlementCost;
    var keys := settlements.Keys;
    var f, g := SettlementCosts(deps, settlements, retries),
      SettlementCosts(deps, settlements[newId := added], retries[newId := 0]);
    assert settlements[newId := added].Keys == keys + {newId};
    SumSplit(keys + {newId}, g, newId);
    assert keys + {newId} - {newId} == keys;
    SumAtMost(keys, f, g);
    SumAtMost(keys, g, f);
  }

  lemma ChangedCost(deps: seq<Dependency>, settlements: map<SettlementId, Settlement>, retries: map<SettlementId, nat>,
                    id: SettlementId, changed: Settlement, tries: nat)
    requires id in settlements && id in retries
    requires SettlementCost(deps, changed, tries) < SettlementCost(deps, settlements[id], retries[id])
    ensures SettlementTotal(deps, settlements[id := changed], retries[id := tries]) < SettlementTotal(deps, settlements,
                retries)
  {
    assert settlements[id := changed].Keys == settlements.Keys;
    StrictlyLess(settlements.Keys, SettlementCosts(deps, settlements[id := changed], retries[id := tries]),
                 SettlementCosts(deps, settlements, retries), id);
  }

  lemma RemovedRun(deps: seq<Dependency>, runs: map<ColumnId, ActiveRun>, c: ColumnId)
    requires c in runs
    ensures RunTotal(deps, runs) == RunTotal(deps, runs - {c}) + RunCost(deps, c, runs[c])
  {
    var f, g := RunCosts(deps, runs), RunCosts(deps, runs - {c});
    SumSplit(runs.Keys, f, c);
    assert (runs - {c}).Keys == runs.Keys - {c};
    SumAtMost(runs.Keys - {c}, f, g);
    SumAtMost(runs.Keys - {c}, g, f);
  }

  lemma ChangedRun(deps: seq<Dependency>, runs: map<ColumnId, ActiveRun>, c: ColumnId, run: ActiveRun)
    requires c in runs && RunSteps(run) < RunSteps(runs[c])
    ensures RunTotal(deps, runs[c := run]) < RunTotal(deps, runs)
  {
    assert runs[c := run].Keys == runs.Keys;
    StrictlyLess(runs.Keys, RunCosts(deps, runs[c := run]), RunCosts(deps, runs), c);
  }

  lemma ActiveRunHasSteps(s: Cascade, c: ColumnId)
    requires WellFormed(s) && c in s.runs
    ensures RunSteps(s.runs[c]) > 0
  {
    hide Consistent;
  }

  /** A result records its mutation or, when it changed nothing, none. */
  lemma ResultShape(a: Automation, s: Cascade, c: ColumnId, changed: set<ColumnId>, newId: SettlementId)
    requires newId !in s.row.settlements
    ensures var after := Result(a, s, c, changed, newId);
            var added := Settlement(s.row.version + 1, changed, None, Queued, 0, 0);
            after.runs == s.runs - {c} &&
            ((after.row.settlements == s.row.settlements && after.retries == s.retries) ||
             (after.row.settlements == s.row.settlements[newId := added] && after.retries == s.retries[newId := 0]))
  {
  }

  lemma ResultDrops(a: Automation, s: Cascade, c: ColumnId, changed: set<ColumnId>, newId: SettlementId)
    requires Acyclic(a.dependencies) && WellFormed(s)
    requires c in s.runs && newId !in s.row.settlements && changed <= {c} + Reachable(a.dependencies, {c})
    ensures Potential(a.dependencies, Result(a, s, c, changed, newId)) < Potential(a.dependencies, s)
  {
    hide ColumnCost, ResultCost, NewRunCost, RunSteps, Result, Reachable, Acyclic, WellFormed, Sum, SettlementTotal,
      RunTotal, Height, Dirty;
    var deps := a.dependencies;
    var added := Settlement(s.row.version + 1, changed, None, Queued, 0, 0);
    ResultShape(a, s, c, changed, newId);
    ActiveRunHasSteps(s, c);
    RemovedRun(deps, s.runs, c);
    ResultIsPaid(deps, c, changed);
    AddedCost(deps, s.row.settlements, s.retries, newId, added);
    assert SettlementCost(deps, added, 0) == Sum(changed, Dirty(deps)) + MAXIMUM_SETTLEMENT_RETRIES + 1;
  }

  lemma ThrowDrops(a: Automation, s: Cascade, id: SettlementId, retrying: bool)
    requires WellFormed(s) && Enabled(a, s, SettleThrows(id, retrying))
    ensures Potential(a.dependencies, Advance(a, s, SettleThrows(id, retrying))) < Potential(a.dependencies, s)
  {
    hide ColumnCost, ResultCost, NewRunCost, Consistent, Sum;
    var deps, after := a.dependencies, Advance(a, s, SettleThrows(id, retrying));
    var settlement, tries := s.row.settlements[id].(status := if retrying then Queued else Failed),
      s.retries[id] + if retrying then 1 else 0;
    ChangedCost(deps, s.row.settlements, s.retries, id, settlement, tries);
    assert after.row.settlements == s.row.settlements[id := settlement] && after.retries == s.retries[id := tries];
    assert RunTotal(deps, after.runs) == RunTotal(deps, s.runs);
  }

  // ---- processing a settlement ----------------------------------------------

  /** Skipping ends one settlement. */
  lemma SkipDrops(deps: seq<Dependency>, row: RowState, retries: map<SettlementId, nat>, id: SettlementId)
    requires id in row.settlements && row.settlements[id].Pending() && id in retries
    ensures SettlementTotal(deps, Skipping(row, id).settlements, retries) < SettlementTotal(deps, row.settlements,
                retries)
  {
    hide ColumnCost, ResultCost, NewRunCost;
    ChangedCost(deps, row.settlements, retries, id, row.settlements[id].(status := RowSettlements.Skipped),
                retries[id]);
    assert retries[id := retries[id]] == retries;
  }

  /** Once every open settlement is consumed, none of them costs anything; a
      wave leaves one settlement open, but no longer fresh. */
  lemma MergedCostsNothing(deps: seq<Dependency>, row: RowState, retries: map<SettlementId, nat>, id: SettlementId,
                           ended: Settlement)
    requires Consistent(row) && MayEnd(row, id, ended)
    requires ended.Open() ==> ended.queuedRunCount > 0
    ensures SettlementTotal(deps, Merge(row.settlements, id, ended), retries) == 0
  {
    var after := Merge(row.settlements, id, ended);
    var f := SettlementCosts(deps, after, retries);
    forall i | i in after.Keys ensures f(i) <= 0 {
      assert Proper(row.settlements, i);
    }
    SumBounded(after.Keys, f, 0);
  }

  /** The open fresh dirty sets and the attempts left bound the potential from
      below. */
  lemma FreshIsCounted(deps: seq<Dependency>, row: RowState, retries: map<SettlementId, nat>, id: SettlementId)
    requires id in row.settlements && row.settlements[id].Pending()
    ensures Sum(FreshColumns(row.settlements), Dirty(deps)) < SettlementTotal(deps, row.settlements, retries)
  {
    hide ColumnCost, ResultCost, NewRunCost, Sum, FreshColumns, Dirty, SettlementCosts, SumEach, UnionOf;
    var keys, family := row.settlements.Keys, FreshFamily(row.settlements);
    forall i | i in keys ensures SumEach(family, Dirty(deps))(i) <= SettlementCosts(deps, row.settlements, retries)(i) {
      FreshIsPartOfCost(deps, row.settlements, retries, i);
    }
    FreshIsPartOfCost(deps, row.settlements, retries, id);
    FreshIsUnion(row.settlements);
    SumUnionOf(keys, family, Dirty(deps));
    StrictlyLess(keys, SumEach(family, Dirty(deps)), SettlementCosts(deps, row.settlements, retries), id);
  }

  lemma FreshIsPartOfCost(deps: seq<Dependency>, settlements: map<SettlementId, Settlement>,
                          retries: map<SettlementId, nat>, i: SettlementId)
    requires i in settlements
    ensures SumEach(FreshFamily(settlements), Dirty(deps))(i) <= SettlementCosts(deps, settlements, retries)(i)
    ensures settlements[i].Pending() ==>
              SumEach(FreshFamily(settlements), Dirty(deps))(i) < SettlementCosts(deps, settlements, retries)(i)
  {
    hide ColumnCost, Dirty;
  }

  lemma FreshIsUnion(settlements: map<SettlementId, Settlement>)
    ensures FreshColumns(settlements) == UnionOf(settlements.Keys, FreshFamily(settlements))
  {
    var keys, family := settlements.Keys, FreshFamily(settlements);
    forall c ensures c in FreshColumns(settlements) <==> c in UnionOf(keys, family) {
      if c in FreshColumns(settlements) {
        var i :| i in settlements && settlements[i].Fresh() && c in settlements[i].changed;
        assert i in keys && c in family(i);
      }
    }
  }

  ghost function FreshFamily(settlements: map<SettlementId, Settlement>): nat -> set<nat> {
    i => if i in settlements && settlements[i].Fresh() then settlements[i].changed else {}
  }

  ghost function NewRunCosts(deps: seq<Dependency>): nat -> nat {
    c => NewRunCost(Size(deps), Height(deps, c))
  }

  lemma AddedRuns(deps: seq<Dependency>, runs: map<ColumnId, ActiveRun>, wave: set<ColumnId>)
    requires runs.Keys !! wave
    ensures RunTotal(deps, runs + NewRuns(wave)) == RunTotal(deps, runs) + Sum(wave, NewRunCosts(deps))
  {
    var f, g := RunCosts(deps, runs + NewRuns(wave)), NewRunCosts(deps);
    assert (runs + NewRuns(wave)).Keys == runs.Keys + wave;
    SumUnion(runs.Keys, wave, f);
    SumAtMost(runs.Keys, f, RunCosts(deps, runs));
    SumAtMost(runs.Keys, RunCosts(deps, runs), f);
    SumAtMost(wave, f, g);
    SumAtMost(wave, g, f);
  }

  lemma WaveRunsArePaid(a: Automation, dirty: set<ColumnId>)
    requires Acyclic(a.dependencies)
    ensures Sum(a.Dependents(dirty), NewRunCosts(a.dependencies)) <= Sum(dirty, Dirty(a.dependencies))
  {
    var deps := a.dependencies;
    forall d | d in a.Dependents(dirty) ensures exists c :: c in dirty && Dependency(d, c) in deps {
      var e :| e in deps && e.dependsOnColumnId in dirty && e.columnId in a.onChange && e.columnId == d;
      assert Dependency(d, e.dependsOnColumnId) == e;
    }
    WaveIsPaid(deps, dirty, a.Dependents(dirty));
  }

  lemma QueueingCostsNothing(deps: seq<Dependency>, row: RowState, retries: map<SettlementId, nat>, id: SettlementId,
                             wave: set<ColumnId>)
    requires Consistent(row) && id in row.settlements && row.settlements[id].Pending() &&
             row.settlements[id].rowVersion == row.version
    requires wave != {}
    ensures SettlementTotal(deps, Queueing(row, id, wave).settlements, retries) == 0
  {
    assert Proper(row.settlements, id);
    MergedCostsNothing(deps, row, retries, id,
                       row.settlements[id].(changed := OpenColumns(row.settlements), queuedRunCount := |wave|,
                                            status := Succeeded));
  }

  lemma QueueDrops(a: Automation, s: Cascade, id: SettlementId, wave: set<ColumnId>)
    requires Acyclic(a.dependencies) && WellFormed(s)
    requires id in s.row.settlements && s.row.settlements[id].Pending() &&
             s.row.settlements[id].rowVersion == s.row.version
    requires wave == a.Dependents(FreshColumns(s.row.settlements)) && wave * s.row.active == {} && wave != {}
    ensures SettlementTotal(a.dependencies, Queueing(s.row, id, wave).settlements, s.retries) +
            RunTotal(a.dependencies, s.runs + NewRuns(wave)) < Potential(a.dependencies, s)
  {
    hide Consistent, Sum;
    QueueingCostsNothing(a.dependencies, s.row, s.retries, id, wave);
    forall c | c in wave ensures c !in s.row.active { assert c !in wave * s.row.active; }
    AddedRuns(a.dependencies, s.runs, wave);
    WaveRunsArePaid(a, FreshColumns(s.row.settlements));
    FreshIsCounted(a.dependencies, s.row, s.retries, id);
  }

  /** Blocking and delivering leave no open settlement at all. */
  lemma CloseDrops(deps: seq<Dependency>, row: RowState, retries: map<SettlementId, nat>, id: SettlementId,
                   ended: Settlement)
    requires Consistent(row) && MayEnd(row, id, ended) && !ended.Open()
    requires row.settlements[id].Pending()
    ensures SettlementTotal(deps, Merge(row.settlements, id, ended), retries) < SettlementTotal(deps, row.settlements,
                retries)
  {
    MergedCostsNothing(deps, row, retries, id, ended);
    FreshIsCounted(deps, row, retries, id);
  }

  lemma ApplyDrops(a: Automation, row: RowState, retries: map<SettlementId, nat>, id: SettlementId,
                   decision: RowSettlements.Decision)
    requires Consistent(row) && id in row.settlements && row.settlements[id].Pending() && id in retries
    requires !decision.Stop? && !decision.Queue?
    requires !decision.Skip? ==> row.settlements[id].rowVersion == row.version
    ensures Apply(a, row, id, decision).0.active == row.active
    ensures SettlementTotal(a.dependencies, Apply(a, row, id, decision).0.settlements, retries) <
            SettlementTotal(a.dependencies, row.settlements, retries)
  {
    hide Sum, OpenColumns, SettlementCost;
    assert Proper(row.settlements, id);
    var deps, settlement := a.dependencies, row.settlements[id];
    match decision
    case Skip => SkipDrops(deps, row, retries, id);
    case Block => CloseDrops(deps, row, retries, id, settlement.(status := Failed, consumedBy := Some(id)));
    case Deliver(WritebackBlocked) =>
      CloseDrops(deps, row, retries, id, settlement.(status := Failed, consumedBy := Some(id)));
    case Deliver(WritebackQueued(count)) =>
      CloseDrops(deps, row, retries, id,
                 settlement.(status := Succeeded, queuedDeliveryCount := count + a.webhooks, consumedBy := Some(id)));
  }

  lemma SettleDrops(a: Automation, s: Cascade, e: Environment, id: SettlementId)
    requires Acyclic(a.dependencies) && WellFormed(s) && Enabled(a, s, Settle(e, id))
    ensures Potential(a.dependencies, Advance(a, s, Settle(e, id))) < Potential(a.dependencies, s)
  {
    hide Consistent, Sum, OpenColumns, FreshColumns, Merge, SettlementTotal, RunTotal;
    var decision := Decide(a, e, s.row, id, s.row.settlements[id].rowVersion);
    var after := Advance(a, s, Settle(e, id));
    if decision.Queue? {
      QueueDrops(a, s, id, decision.columns);
      forall c | c in decision.columns ensures c !in s.row.active { assert c !in decision.columns * s.row.active; }
      assert after.row.active - s.row.active == decision.columns;
    } else {
      ApplyDrops(a, s.row, s.retries, id, decision);
      assert after.row.active - s.row.active == {};
      assert after.runs == s.runs;
    }
  }

  // ---- the main results -----------------------------------------------------

  lemma AdvanceKeepsWellFormed(a: Automation, s: Cascade, tick: Tick)
    requires WellFormed(s) && Enabled(a, s, tick)
    ensures WellFormed(Advance(a, s, tick))
  {
    match tick
    case Settle(e, id) => SettleKeepsWellFormed(a, s, e, id);
    case SettleThrows(id, retrying) => WorkerFailureKeepsConsistent(s.row, id, retrying);
    case StartRun(_) =>
    case RetryRun(_) =>
    case RunSucceeds(c, formulas, newId) => ResultKeepsWellFormed(a, s, c, {c} + formulas, newId);
    case RunFails(c, newId) => ResultKeepsWellFormed(a, s, c, {}, newId);
  }

  lemma SettleKeepsWellFormed(a: Automation, s: Cascade, e: Environment, id: SettlementId)
    requires WellFormed(s) && Enabled(a, s, Settle(e, id))
    ensures WellFormed(Advance(a, s, Settle(e, id)))
  {
    hide Consistent;
    ProcessKeepsConsistent(a, e, s.row, id, s.row.settlements[id].rowVersion);
    ProcessKeepsKeys(a, e, s.row, id, s.row.settlements[id].rowVersion);
  }

  lemma ProcessKeepsKeys(a: Automation, e: Environment, row: RowState, id: SettlementId, rowVersion: nat)
    ensures Process(a, e, row, id, rowVersion).0.settlements.Keys == row.settlements.Keys
    ensures row.active <= Process(a, e, row, id, rowVersion).0.active
  {
  }

  lemma ResultKeepsWellFormed(a: Automation, s: Cascade, c: ColumnId, changed: set<ColumnId>, newId: SettlementId)
    requires WellFormed(s) && c in s.runs && newId !in s.row.settlements
    ensures WellFormed(Result(a, s, c, changed, newId))
  {
    var idle := s.row.(active := s.row.active - {c});
    assert Consistent(idle) by {
      forall i | i in idle.settlements ensures Proper(idle.settlements, i) { assert Proper(s.row.settlements, i); }
    }
    RecordKeepsConsistent(a, idle, changed, newId);
  }

  lemma RunStepDrops(a: Automation, s: Cascade, tick: Tick)
    requires WellFormed(s) && Enabled(a, s, tick) && (tick.StartRun? || tick.RetryRun?)
    ensures Potential(a.dependencies, Advance(a, s, tick)) < Potential(a.dependencies, s)
  {
    hide ResultCost, Sum, Consistent, SettlementTotal, RunTotal;
    var c := tick.columnId;
    ChangedRun(a.dependencies, s.runs, c, Advance(a, s, tick).runs[c]);
  }

  /** Every step of an automatic cascade lowers the potential. */
  lemma EveryStepCosts(a: Automation, s: Cascade, tick: Tick)
    requires Acyclic(a.dependencies) && WellFormed(s) && Enabled(a, s, tick)
    ensures WellFormed(Advance(a, s, tick))
    ensures Potential(a.dependencies, Advance(a, s, tick)) < Potential(a.dependencies, s)
  {
    hide WellFormed, Potential, Acyclic, Result, Reachable;
    AdvanceKeepsWellFormed(a, s, tick);
    match tick
    case Settle(e, id) => SettleDrops(a, s, e, id);
    case SettleThrows(id, retrying) => ThrowDrops(a, s, id, retrying);
    case StartRun(_) => RunStepDrops(a, s, tick);
    case RetryRun(_) => RunStepDrops(a, s, tick);
    case RunSucceeds(c, formulas, newId) => ResultDrops(a, s, c, {c} + formulas, newId);
    case RunFails(c, newId) => ResultDrops(a, s, c, {}, newId);
  }

  ghost predicate IsCascade(a: Automation, s: Cascade, ticks: seq<Tick>)
    decreases |ticks|
  {
    ticks == [] || (Enabled(a, s, ticks[0]) && IsCascade(a, Advance(a, s, ticks[0]), ticks[1..]))
  }

  /** So no cascade is longer than the potential of the state it starts in. */
  lemma {:induction false} EveryCascadeIsFinite(a: Automation, s: Cascade, ticks: seq<Tick>)
    requires Acyclic(a.dependencies) && WellFormed(s) && IsCascade(a, s, ticks)
    ensures |ticks| <= Potential(a.dependencies, s)
    decreases |ticks|
  {
    if ticks != [] {
      EveryStepCosts(a, s, ticks[0]);
      EveryCascadeIsFinite(a, Advance(a, s, ticks[0]), ticks[1..]);
    }
  }

  // ---- where cascades start -------------------------------------------------

  /** An edit from outside, at any moment, records its mutation. */
  function Edit(a: Automation, s: Cascade, changed: set<ColumnId>, newId: SettlementId): Cascade {
    var row := Record(a, s.row, changed, newId);
    Cascade(row, s.runs, if newId in row.settlements then s.retries[newId := 0] else s.retries)
  }

  /** Whatever was edited, what follows by itself is a cascade again, so it ends. */
  lemma EditsStartFiniteCascades(a: Automation, s: Cascade, changed: set<ColumnId>, newId: SettlementId,
                                 ticks: seq<Tick>)
    requires Acyclic(a.dependencies) && WellFormed(s) && newId !in s.row.settlements
    requires IsCascade(a, Edit(a, s, changed, newId), ticks)
    ensures WellFormed(Edit(a, s, changed, newId))
    ensures |ticks| <= Potential(a.dependencies, Edit(a, s, changed, newId))
  {
    hide Consistent, Acyclic, Potential, IsCascade;
    RecordKeepsConsistent(a, s.row, changed, newId);
    assert WellFormed(Edit(a, s, changed, newId));
    EveryCascadeIsFinite(a, Edit(a, s, changed, newId), ticks);
  }
}
