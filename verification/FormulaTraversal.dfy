/** The loops of recomputeDependentFormulasForRow that build the adjacency
    lists, collect the reached columns breadth first and order them with a
    sorted ready list, each proved to compute its declarative counterpart in
    FormulaGraph. */
module FormulaTraversal {
  import opened Collections
  import opened FormulaGraph

  // ---- adjacency lists ----------------------------------------------------

  /** The dependents of one column, in the order the query returned them. */
  function DependentsOf(deps: seq<Dependency>, id: ColumnId): seq<ColumnId> {
    if deps == [] then []
    else
      var last := deps[|deps| - 1];
      DependentsOf(deps[..|deps| - 1], id) + if last.dependsOnColumnId == id then [last.columnId] else []
  }

  function Lookup(dependents: map<ColumnId, seq<ColumnId>>, id: ColumnId): seq<ColumnId> {
    if id in dependents then dependents[id] else []
  }

  lemma {:induction false} DependentsAreEdges(deps: seq<Dependency>, id: ColumnId)
    ensures forall x :: x in DependentsOf(deps, id) <==> Dependency(x, id) in deps
  {
    if deps != [] {
      DependentsAreEdges(deps[..|deps| - 1], id);
      var last := deps[|deps| - 1];
      assert deps == deps[..|deps| - 1] + [last];
      assert last == Dependency(last.columnId, last.dependsOnColumnId);
    }
  }

  method CollectDependents(deps: seq<Dependency>) returns (dependents: map<ColumnId, seq<ColumnId>>)
    ensures forall id :: Lookup(dependents, id) == DependentsOf(deps, id)
  {
    dependents := map[];
    for n := 0 to |deps|
      invariant forall id :: Lookup(dependents, id) == DependentsOf(deps[..n], id)
    {
      var dependency := deps[n];
      var current := Lookup(dependents, dependency.dependsOnColumnId);
      assert deps[..n + 1][..n] == deps[..n];
      dependents := dependents[dependency.dependsOnColumnId := current + [dependency.columnId]];
    }
    assert deps[..|deps|] == deps;
  }

  // ---- breadth-first search -----------------------------------------------

  ghost function Dependents(deps: seq<Dependency>): set<ColumnId> {
    set e | e in deps :: e.columnId
  }

  lemma ReachStep(deps: seq<Dependency>, sources: set<ColumnId>, from: ColumnId, to: ColumnId)
    requires from in sources || from in Reachable(deps, sources)
    requires Dependency(to, from) in deps
    ensures to in Reachable(deps, sources)
  {
    var walk: seq<ColumnId>;
    if from in sources {
      walk := [from, to];
    } else {
      var e :| e in deps && e.columnId == from && exists w :: Reaches(deps, sources, w, e.columnId);
      var w :| Reaches(deps, sources, w, from);
      walk := w + [to];
      forall i | 0 <= i < |walk| - 1 ensures Dependency(walk[i + 1], walk[i]) in deps {
        if i < |w| - 1 { assert walk[i + 1] == w[i + 1] && walk[i] == w[i]; }
      }
    }
    assert Reaches(deps, sources, walk, Dependency(to, from).columnId);
  }

  lemma {:induction false} ClosedContainsReachable(deps: seq<Dependency>, sources: set<ColumnId>, closed: set<ColumnId>)
    requires forall e :: e in deps && (e.dependsOnColumnId in sources || e.dependsOnColumnId in closed) ==>
               e.columnId in closed
    ensures Reachable(deps, sources) <= closed
  {
    forall e | e in deps && exists walk :: Reaches(deps, sources, walk, e.columnId) ensures e.columnId in closed {
      var walk :| Reaches(deps, sources, walk, e.columnId);
      for i := 1 to |walk|
        invariant i > 1 ==> walk[i - 1] in closed
      {
        assert Dependency(walk[i - 1 + 1], walk[i - 1]) in deps;
      }
    }
  }

  /** The inner loop of the search: every dependent not reached before is
      recorded and queued. */
  method Enqueue(next: seq<ColumnId>, seen: set<ColumnId>, before: seq<ColumnId>)
    returns (reachable: set<ColumnId>, queue: seq<ColumnId>)
    ensures reachable == seen + Elements(next)
    ensures before <= queue && |queue| - |before| == |reachable| - |seen|
    ensures Elements(queue) == Elements(before) + (reachable - seen)
  {
    reachable, queue := seen, before;
    for k := 0 to |next|
      invariant reachable == seen + Elements(next[..k])
      invariant before <= queue && |queue| - |before| == |reachable| - |seen|
      invariant Elements(queue) == Elements(before) + (reachable - seen)
    {
      var dependent := next[k];
      assert next[..k + 1] == next[..k] + [dependent];
      AppendElements(next[..k], dependent);
      if dependent !in reachable {
        AppendElements(queue, dependent);
        reachable := reachable + {dependent};
        queue := queue + [dependent];
      }
    }
    assert next[..|next|] == next;
  }

  /** Everything found so far is truly reached, and the dependents of every
      visited queue entry have been found. */
  ghost predicate Searching(deps: seq<Dependency>, sources: set<ColumnId>, reachable: set<ColumnId>,
                            queue: seq<ColumnId>, cursor: nat) {
    cursor <= |queue| &&
    reachable <= Reachable(deps, sources) &&
    Elements(queue) == sources + reachable &&
    forall i, x :: 0 <= i < cursor && Dependency(x, queue[i]) in deps ==> x in reachable
  }

  lemma SearchStep(deps: seq<Dependency>, sources: set<ColumnId>, seen: set<ColumnId>, before: seq<ColumnId>,
                   cursor: nat,
                   reachable: set<ColumnId>, queue: seq<ColumnId>)
    requires Searching(deps, sources, seen, before, cursor) && cursor < |before|
    requires reachable == seen + Elements(DependentsOf(deps, before[cursor]))
    requires before <= queue && Elements(queue) == Elements(before) + (reachable - seen)
    ensures Searching(deps, sources, reachable, queue, cursor + 1)
  {
    DependentsAreEdges(deps, before[cursor]);
    assert before[cursor] in Elements(before);
    forall x | x in Elements(DependentsOf(deps, before[cursor])) ensures x in Reachable(deps, sources) {
      ReachStep(deps, sources, before[cursor], x);
    }
  }

  lemma SearchDone(deps: seq<Dependency>, sources: set<ColumnId>, reachable: set<ColumnId>, queue: seq<ColumnId>)
    requires Searching(deps, sources, reachable, queue, |queue|)
    ensures reachable == Reachable(deps, sources)
  {
    forall e | e in deps && (e.dependsOnColumnId in sources || e.dependsOnColumnId in reachable)
      ensures e.columnId in reachable
    {
      assert e.dependsOnColumnId in Elements(queue);
      var i :| 0 <= i < |queue| && queue[i] == e.dependsOnColumnId;
      assert e == Dependency(e.columnId, queue[i]);
    }
    ClosedContainsReachable(deps, sources, reachable);
  }

  method CollectReachable(changed: seq<ColumnId>, deps: seq<Dependency>, dependents: map<ColumnId, seq<ColumnId>>)
    returns (reachable: set<ColumnId>)
    requires forall id :: Lookup(dependents, id) == DependentsOf(deps, id)
    ensures reachable == Reachable(deps, Elements(changed))
  {
    reachable := {};
    var queue := changed;
    var cursor := 0;
    ghost var sources, all := Elements(changed), Dependents(deps);
    while cursor < |queue|
      invariant |queue| == |changed| + |reachable|
      invariant Searching(deps, sources, reachable, queue, cursor)
      decreases |changed| + |all| - cursor
    {
      ghost var seen, before := reachable, queue;
      reachable, queue := Enqueue(Lookup(dependents, queue[cursor]), reachable, queue);
      SearchStep(deps, sources, seen, before, cursor, reachable, queue);
      cursor := cursor + 1;
      assert Reachable(deps, sources) <= all;
      SubsetCount(seen, all);
    }
    SearchDone(deps, sources, reachable, queue);
  }

  // ---- Kahn's algorithm with a sorted ready list --------------------------

  /** How many dependency rows lead from a column of `from` to `x`. */
  ghost function InDegree(deps: seq<Dependency>, x: ColumnId, from: set<ColumnId>): nat {
    if deps == [] then 0
    else
      var last := deps[|deps| - 1];
      InDegree(deps[..|deps| - 1], x, from) +
      if last.columnId == x && last.dependsOnColumnId in from then 1 else 0
  }

  ghost function Occurrences(s: seq<ColumnId>, x: ColumnId): nat {
    multiset(s)[x]
  }

  lemma {:induction false} InDegreeSplits(deps: seq<Dependency>, x: ColumnId, from: set<ColumnId>, id: ColumnId)
    requires id in from
    ensures InDegree(deps, x, from) == InDegree(deps, x, from - {id}) + Occurrences(DependentsOf(deps, id), x)
  {
    if deps != [] {
      InDegreeSplits(deps[..|deps| - 1], x, from, id);
    }
  }

  lemma {:induction false} InDegreeZero(deps: seq<Dependency>, x: ColumnId, from: set<ColumnId>)
    ensures InDegree(deps, x, from) == 0 <==> forall e :: e in deps && e.columnId == x ==> e.dependsOnColumnId !in from
  {
    if deps != [] {
      InDegreeZero(deps[..|deps| - 1], x, from);
      assert deps == deps[..|deps| - 1] + [deps[|deps| - 1]];
    }
  }

  lemma AvailableIsZero(deps: seq<Dependency>, reached: set<ColumnId>, done: set<ColumnId>, x: ColumnId)
    ensures Available(deps, reached, done, x) <==>
            x in reached && x !in done && InDegree(deps, x, reached - done) == 0
  {
    InDegreeZero(deps, x, reached - done);
  }

  method CountIndegrees(deps: seq<Dependency>, reachable: set<ColumnId>) returns (indegrees: map<ColumnId, nat>)
    ensures indegrees.Keys == reachable
    ensures forall x :: x in reachable ==> indegrees[x] == InDegree(deps, x, reachable)
  {
    indegrees := map id | id in reachable :: 0;
    for n := 0 to |deps|
      invariant indegrees.Keys == reachable
      invariant forall x :: x in reachable ==> indegrees[x] == InDegree(deps[..n], x, reachable)
    {
      var dependency := deps[n];
      assert deps[..n + 1][..n] == deps[..n];
      if dependency.columnId in reachable && dependency.dependsOnColumnId in reachable {
        indegrees := indegrees[dependency.columnId := indegrees[dependency.columnId] + 1];
      }
    }
    assert deps[..|deps|] == deps;
  }

  method SeqOfSet(s: set<ColumnId>) returns (r: seq<ColumnId>)
    ensures Distinct(r) && Elements(r) == s
  {
    r := [];
    var rest := s;
    while rest != {}
      invariant Distinct(r) && Elements(r) !! rest && Elements(r) + rest == s
    {
      var x :| x in rest;
      rest := rest - {x};
      assert x !in Elements(r);
      r := r + [x];
    }
  }

  /** A visited or available column no longer waits for an unvisited one. */
  lemma SettledIsNoDependent(deps: seq<Dependency>, reached: set<ColumnId>, ordered: seq<ColumnId>, id: ColumnId,
                             x: ColumnId)
    requires TopologicalPrefix(deps, reached, ordered)
    requires id in reached - Elements(ordered)
    requires x in ordered || Available(deps, reached, Elements(ordered), x)
    ensures x !in DependentsOf(deps, id)
  {
    DependentsAreEdges(deps, id);
    if x in ordered {
      var i :| 0 <= i < |ordered| && ordered[i] == x;
      assert EarlierDependencies(deps, reached, ordered, i);
    }
    assert Dependency(x, id) !in deps;
  }

  /** What holds between two visits of the main loop. */
  ghost predicate BetweenVisits(deps: seq<Dependency>, reachable: set<ColumnId>, ordered: seq<ColumnId>,
                                indegrees: map<ColumnId, nat>, ready: seq<ColumnId>) {
    Ascending(ready) && Elements(ready) == AllAvailable(deps, reachable, Elements(ordered)) &&
    IndegreesAre(deps, reachable - Elements(ordered), reachable, indegrees) &&
    TopologicalPrefix(deps, reachable, ordered) &&
    LeastFirst(deps, reachable, ordered) == VisitOrder(deps, reachable)
  }

  method OrderReachable(deps: seq<Dependency>, dependents: map<ColumnId, seq<ColumnId>>, reachable: set<ColumnId>)
    returns (ordered: seq<ColumnId>)
    requires forall id :: Lookup(dependents, id) == DependentsOf(deps, id)
    ensures ordered == VisitOrder(deps, reachable)
  {
    var indegrees := CountIndegrees(deps, reachable);
    InitiallyAvailable(deps, reachable, indegrees);
    var zero := SeqOfSet(set id | id in reachable && indegrees[id] == 0);
    var ready := Sort(zero);
    SortElements(zero);
    SortAscends(zero);
    ordered := [];
    assert reachable - Elements(ordered) == reachable;
    while ready != []
      invariant BetweenVisits(deps, reachable, ordered, indegrees, ready)
      decreases |reachable - Elements(ordered)|
    {
      var id := ready[0];
      FirstReady(deps, reachable, ordered, indegrees, ready);
      indegrees, ready := VisitDependents(deps, dependents, reachable, indegrees, ready[1..], ordered, id);
      SortElements(ready);
      SortAscends(ready);
      ordered, ready := ordered + [id], Sort(ready);
    }
    assert Elements(ready) == {};
  }

  lemma FirstReady(deps: seq<Dependency>, reachable: set<ColumnId>, ordered: seq<ColumnId>,
                   indegrees: map<ColumnId, nat>, ready: seq<ColumnId>)
    requires BetweenVisits(deps, reachable, ordered, indegrees, ready) && ready != []
    ensures Available(deps, reachable, Elements(ordered), ready[0])
    ensures Distinct(ready[1..])
    ensures Elements(ready[1..]) == AllAvailable(deps, reachable, Elements(ordered)) - {ready[0]}
    ensures reachable - Elements(ordered + [ready[0]]) == reachable - Elements(ordered) - {ready[0]}
    ensures |reachable - Elements(ordered + [ready[0]])| < |reachable - Elements(ordered)|
    ensures TopologicalPrefix(deps, reachable, ordered + [ready[0]])
    ensures LeastFirst(deps, reachable, ordered + [ready[0]]) == VisitOrder(deps, reachable)
  {
    TakesLeast(deps, reachable, ordered, ready);
    ShiftReady(ready);
    ExtendPrefix(deps, reachable, ordered, ready[0]);
    assert reachable - Elements(ordered + [ready[0]]) == reachable - Elements(ordered) - {ready[0]};
  }

  ghost predicate IndegreesAre(deps: seq<Dependency>, from: set<ColumnId>, reachable: set<ColumnId>,
                               indegrees: map<ColumnId, nat>) {
    indegrees.Keys == reachable &&
    forall x :: x in reachable ==> indegrees[x] == InDegree(deps, x, from)
  }

  lemma InitiallyAvailable(deps: seq<Dependency>, reachable: set<ColumnId>, indegrees: map<ColumnId, nat>)
    requires IndegreesAre(deps, reachable, reachable, indegrees)
    ensures (set id | id in reachable && indegrees[id] == 0) == AllAvailable(deps, reachable, {})
  {
    assert reachable - {} == reachable;
    forall x ensures x in reachable && indegrees[x] == 0 <==> Available(deps, reachable, {}, x) {
      AvailableIsZero(deps, reachable, {}, x);
    }
  }

  lemma ShiftReady(ready: seq<ColumnId>)
    requires ready != [] && Ascending(ready)
    ensures Distinct(ready[1..]) && Elements(ready[1..]) == Elements(ready) - {ready[0]}
  {
    assert ready == [ready[0]] + ready[1..];
  }

  lemma TakesLeast(deps: seq<Dependency>, reached: set<ColumnId>, ordered: seq<ColumnId>, ready: seq<ColumnId>)
    requires ready != [] && Ascending(ready) && Elements(ready) == AllAvailable(deps, reached, Elements(ordered))
    ensures LeastFirst(deps, reached, ordered) == LeastFirst(deps, reached, ordered + [ready[0]])
    ensures Available(deps, reached, Elements(ordered), ready[0])
  {
    var available := AllAvailable(deps, reached, Elements(ordered));
    assert ready[0] in Elements(ready);
    forall y | y in available ensures ready[0] <= y {
      assert y in Elements(ready);
    }
    assert IsLeast(ready[0], available);
    assert Least(available) == ready[0];
  }

  /** The inner loop: count the visited column out of each reached dependent
      and append the dependents that became available. */
  method VisitDependents(deps: seq<Dependency>, dependents: map<ColumnId, seq<ColumnId>>, reachable: set<ColumnId>,
                         before: map<ColumnId, nat>, rest: seq<ColumnId>, ghost ordered: seq<ColumnId>, id: ColumnId)
    returns (indegrees: map<ColumnId, nat>, ready: seq<ColumnId>)
    requires Lookup(dependents, id) == DependentsOf(deps, id)
    requires TopologicalPrefix(deps, reachable, ordered)
    requires Available(deps, reachable, Elements(ordered), id)
    requires IndegreesAre(deps, reachable - Elements(ordered), reachable, before)
    requires Distinct(rest)
    requires Elements(rest) == AllAvailable(deps, reachable, Elements(ordered)) - {id}
    ensures IndegreesAre(deps, reachable - Elements(ordered) - {id}, reachable, indegrees)
    ensures Distinct(ready)
    ensures Elements(ready) == AllAvailable(deps, reachable, Elements(ordered + [id]))
  {
    var next := Lookup(dependents, id);
    BeforeCounting(deps, reachable, ordered, id, before, rest);
    ghost var left := map x | x in reachable :: InDegree(deps, x, reachable - Elements(ordered) - {id});
    indegrees, ready := CountOut(next, reachable, before, rest, left);
    NewlyAvailable(deps, reachable, ordered, id, rest, ready, indegrees);
  }

  method CountOut(next: seq<ColumnId>, reachable: set<ColumnId>, before: map<ColumnId, nat>, rest: seq<ColumnId>,
                  ghost left: map<ColumnId, nat>)
    returns (indegrees: map<ColumnId, nat>, ready: seq<ColumnId>)
    requires before.Keys == reachable == left.Keys
    requires forall x :: x in reachable ==> before[x] == left[x] + Occurrences(next, x)
    requires Distinct(rest)
    requires forall x :: x in rest ==> x !in next
    ensures indegrees == left
    ensures Distinct(ready)
    ensures forall x :: x in ready <==> x in rest || (x in reachable && x in next && left[x] == 0)
  {
    indegrees, ready := before, rest;
    assert next[0..] == next;
    for k := 0 to |next|
      invariant indegrees.Keys == reachable
      invariant forall x :: x in reachable ==> indegrees[x] == left[x] + Occurrences(next[k..], x)
      invariant Distinct(ready)
      invariant forall x :: x in ready <==> x in rest || (x in reachable && x in next[..k] && indegrees[x] == 0)
    {
      var dependent := next[k];
      assert next[k..] == [dependent] + next[k + 1..];
      assert next[..k + 1] == next[..k] + [dependent];
      assert dependent in next;
      if dependent in reachable {
        assert dependent !in ready;
        indegrees := indegrees[dependent := indegrees[dependent] - 1];
        if indegrees[dependent] == 0 {
          ready := ready + [dependent];
        }
      }
    }
    assert next[..|next|] == next;
  }

  lemma BeforeCounting(deps: seq<Dependency>, reachable: set<ColumnId>, ordered: seq<ColumnId>, id: ColumnId,
                       before: map<ColumnId, nat>, rest: seq<ColumnId>)
    requires TopologicalPrefix(deps, reachable, ordered)
    requires Available(deps, reachable, Elements(ordered), id)
    requires IndegreesAre(deps, reachable - Elements(ordered), reachable, before)
    requires Elements(rest) == AllAvailable(deps, reachable, Elements(ordered)) - {id}
    ensures forall x :: x in reachable ==>
      before[x] == InDegree(deps, x, reachable - Elements(ordered) - {id}) + Occurrences(DependentsOf(deps, id), x)
    ensures forall x :: x in rest ==> x !in DependentsOf(deps, id)
  {
    forall x | x in reachable
      ensures before[x] == InDegree(deps, x, reachable - Elements(ordered) - {id}) +
              Occurrences(DependentsOf(deps, id), x)
    {
      InDegreeSplits(deps, x, reachable - Elements(ordered), id);
    }
    forall x | x in rest ensures x !in DependentsOf(deps, id) {
      assert x in Elements(rest);
      SettledIsNoDependent(deps, reachable, ordered, id, x);
    }
  }

  lemma NewlyAvailable(deps: seq<Dependency>, reachable: set<ColumnId>, ordered: seq<ColumnId>, id: ColumnId,
                       rest: seq<ColumnId>, ready: seq<ColumnId>, indegrees: map<ColumnId, nat>)
    requires TopologicalPrefix(deps, reachable, ordered)
    requires Available(deps, reachable, Elements(ordered), id)
    requires Elements(rest) == AllAvailable(deps, reachable, Elements(ordered)) - {id}
    requires IndegreesAre(deps, reachable - Elements(ordered) - {id}, reachable, indegrees)
    requires forall x :: x in ready <==>
               x in rest || (x in reachable && x in DependentsOf(deps, id) && indegrees[x] == 0)
    ensures Elements(ready) == AllAvailable(deps, reachable, Elements(ordered + [id]))
  {
    var done := Elements(ordered);
    assert Elements(ordered + [id]) == done + {id};
    assert reachable - (done + {id}) == reachable - done - {id};
    DependentsAreEdges(deps, id);
    forall x ensures x in ready <==> Available(deps, reachable, done + {id}, x) {
      AvailableIsZero(deps, reachable, done + {id}, x);
      assert x in rest <==> x in Elements(rest);
      if x in ready && x !in rest {
        if x in ordered || x == id { SettledIsNoDependent(deps, reachable, ordered, id, x); }
      }
    }
  }
}
