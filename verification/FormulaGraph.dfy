/** The column dependency graph of packages/db/src/formulas.ts: which columns a
    change reaches, and the order in which the reached columns are visited. */
module FormulaGraph {
  import opened Collections

  type ColumnId = nat

  /** One row of column_dependencies. */
  datatype Dependency = Dependency(columnId: ColumnId, dependsOnColumnId: ColumnId)

  // ---- what the algorithms should compute --------------------------------

  ghost predicate IsWalk(deps: seq<Dependency>, walk: seq<ColumnId>) {
    |walk| >= 2 &&
    forall i :: 0 <= i < |walk| - 1 ==> Dependency(walk[i + 1], walk[i]) in deps
  }

  ghost predicate Reaches(deps: seq<Dependency>, sources: set<ColumnId>, walk: seq<ColumnId>, target: ColumnId) {
    IsWalk(deps, walk) && walk[0] in sources && walk[|walk| - 1] == target
  }

  /** The columns at the end of some walk that starts at a changed column. */
  ghost function Reachable(deps: seq<Dependency>, sources: set<ColumnId>): set<ColumnId> {
    set e | e in deps && (exists walk :: Reaches(deps, sources, walk, e.columnId)) :: e.columnId
  }

  ghost predicate IsCycle(deps: seq<Dependency>, within: set<ColumnId>, walk: seq<ColumnId>) {
    IsWalk(deps, walk) && walk[0] == walk[|walk| - 1] && Elements(walk) <= within
  }

  ghost predicate Acyclic(deps: seq<Dependency>) {
    forall within, walk :: !IsCycle(deps, within, walk)
  }

  /** A column of the reached set whose reached dependencies are all done. */
  ghost predicate Available(deps: seq<Dependency>, reached: set<ColumnId>, done: set<ColumnId>, x: ColumnId) {
    x in reached && x !in done &&
    forall e :: e in deps && e.columnId == x && e.dependsOnColumnId in reached ==> e.dependsOnColumnId in done
  }

  ghost function AllAvailable(deps: seq<Dependency>, reached: set<ColumnId>, done: set<ColumnId>): set<ColumnId> {
    set x | x in reached && Available(deps, reached, done, x)
  }

  /** The greedy reference: repeatedly take the least available column. */
  ghost function LeastFirst(deps: seq<Dependency>, reached: set<ColumnId>, done: seq<ColumnId>): seq<ColumnId>
    decreases |reached - Elements(done)|
  {
    var ready := AllAvailable(deps, reached, Elements(done));
    if ready == {} then done
    else
      var next := Least(ready);
      assert reached - Elements(done + [next]) == reached - Elements(done) - {next};
      LeastFirst(deps, reached, done + [next])
  }

  ghost function VisitOrder(deps: seq<Dependency>, reached: set<ColumnId>): seq<ColumnId> {
    LeastFirst(deps, reached, [])
  }

  /** Every reached dependency of a listed column is listed before it. */
  ghost predicate RespectsEdges(deps: seq<Dependency>, reached: set<ColumnId>, order: seq<ColumnId>) {
    forall i :: 0 <= i < |order| ==> EarlierDependencies(deps, reached, order, i)
  }

  ghost predicate EarlierDependencies(deps: seq<Dependency>, reached: set<ColumnId>, order: seq<ColumnId>, i: nat)
    requires i < |order|
  {
    forall e :: e in deps && e.columnId == order[i] && e.dependsOnColumnId in reached
      ==> e.dependsOnColumnId in order[..i]
  }

  ghost predicate TopologicalPrefix(deps: seq<Dependency>, reached: set<ColumnId>, order: seq<ColumnId>) {
    Distinct(order) && Elements(order) <= reached && RespectsEdges(deps, reached, order)
  }

  // ---- properties of the reference order ---------------------------------

  lemma {:induction false} LeastFirstIsTopological(deps: seq<Dependency>, reached: set<ColumnId>, done: seq<ColumnId>)
    requires TopologicalPrefix(deps, reached, done)
    ensures TopologicalPrefix(deps, reached, LeastFirst(deps, reached, done))
    ensures AllAvailable(deps, reached, Elements(LeastFirst(deps, reached, done))) == {}
    decreases |reached - Elements(done)|
  {
    var ready := AllAvailable(deps, reached, Elements(done));
    if ready != {} {
      var next := Least(ready);
      assert reached - Elements(done + [next]) == reached - Elements(done) - {next};
      ExtendPrefix(deps, reached, done, next);
      LeastFirstIsTopological(deps, reached, done + [next]);
    }
  }

  lemma ExtendPrefix(deps: seq<Dependency>, reached: set<ColumnId>, done: seq<ColumnId>, next: ColumnId)
    requires TopologicalPrefix(deps, reached, done)
    requires Available(deps, reached, Elements(done), next)
    ensures TopologicalPrefix(deps, reached, done + [next])
  {
    var order := done + [next];
    forall i | 0 <= i < |order| ensures EarlierDependencies(deps, reached, order, i) {
      if i < |done| {
        assert order[..i] == done[..i];
        assert EarlierDependencies(deps, reached, done, i);
      } else {
        assert order[..i] == done;
      }
    }
    assert next !in done;
  }

  /** One step of any least-first listing. */
  ghost predicate PicksLeast(deps: seq<Dependency>, reached: set<ColumnId>, order: seq<ColumnId>, i: nat)
    requires i < |order|
  {
    IsLeast(order[i], AllAvailable(deps, reached, Elements(order[..i])))
  }

  /** Any listing that always takes a least available column and stops only
      when none is left is the visit order: it is unique, and it depends on
      the dependency rows as a set, not on the order the query returned. */
  lemma {:induction false} LeastFirstIsUnique(deps: seq<Dependency>, same: seq<Dependency>, reached: set<ColumnId>,
                                              order: seq<ColumnId>, from: nat)
    requires Elements(deps) == Elements(same)
    requires from <= |order|
    requires forall i :: from <= i < |order| ==> PicksLeast(deps, reached, order, i)
    requires AllAvailable(deps, reached, Elements(order)) == {}
    ensures LeastFirst(same, reached, order[..from]) == order
    decreases |order| - from
  {
    forall x ensures Available(deps, reached, Elements(order[..from]), x)
                  <==> Available(same, reached, Elements(order[..from]), x) {
      forall e ensures e in deps <==> e in same { assert e in Elements(deps) <==> e in Elements(same); }
    }
    assert AllAvailable(deps, reached, Elements(order[..from])) == AllAvailable(same, reached, Elements(order[..from]));
    if from == |order| {
      assert order[..from] == order;
    } else {
      assert PicksLeast(deps, reached, order, from);
      assert order[..from] + [order[from]] == order[..from + 1];
      LeastFirstIsUnique(deps, same, reached, order, from + 1);
    }
  }

  lemma {:induction false} VisitOrderIgnoresOrder(deps: seq<Dependency>, same: seq<Dependency>, reached: set<ColumnId>)
    requires Elements(deps) == Elements(same)
    ensures VisitOrder(deps, reached) == VisitOrder(same, reached)
  {
    LeastFirstPicksLeast(deps, reached, []);
    LeastFirstIsTopological(deps, reached, []);
    var order := VisitOrder(deps, reached);
    assert order[..0] == [];
    LeastFirstIsUnique(deps, same, reached, order, 0);
  }

  lemma {:induction false} LeastFirstPicksLeast(deps: seq<Dependency>, reached: set<ColumnId>, done: seq<ColumnId>)
    ensures done <= LeastFirst(deps, reached, done)
    ensures var order := LeastFirst(deps, reached, done);
      forall i :: |done| <= i < |order| ==> PicksLeast(deps, reached, order, i)
    decreases |reached - Elements(done)|
  {
    var ready := AllAvailable(deps, reached, Elements(done));
    if ready != {} {
      var next := Least(ready);
      assert reached - Elements(done + [next]) == reached - Elements(done) - {next};
      LeastFirstPicksLeast(deps, reached, done + [next]);
      var order := LeastFirst(deps, reached, done);
      assert order[..|done|] == done && order[|done|] == next;
      assert PicksLeast(deps, reached, order, |done|);
    }
  }

  /** The order lists the whole reached set exactly when no walk inside the
      set returns to its start: the cyclic error is thrown iff there is a
      cycle. */
  lemma CompleteIffAcyclic(deps: seq<Dependency>, reached: set<ColumnId>)
    ensures TopologicalPrefix(deps, reached, VisitOrder(deps, reached))
    ensures |VisitOrder(deps, reached)| == |reached| <==> Elements(VisitOrder(deps, reached)) == reached
    ensures |VisitOrder(deps, reached)| != |reached| <==> exists walk :: IsCycle(deps, reached, walk)
  {
    var order := VisitOrder(deps, reached);
    LeastFirstIsTopological(deps, reached, []);
    DistinctCount(order);
    SubsetCount(Elements(order), reached);
    if Elements(order) == reached {
      forall walk ensures !IsCycle(deps, reached, walk) { OrderedMeansNoCycle(deps, reached, order, walk); }
    } else {
      assert reached == Elements(order) + (reached - Elements(order));
      var walk := StuckMeansCycle(deps, reached, Elements(order));
    }
  }

  ghost predicate DependsWithin(deps: seq<Dependency>, within: set<ColumnId>, x: ColumnId) {
    exists y :: y in within && Dependency(x, y) in deps
  }

  lemma StuckMeansCycle(deps: seq<Dependency>, reached: set<ColumnId>,
                        done: set<ColumnId>) returns (walk: seq<ColumnId>)
    requires AllAvailable(deps, reached, done) == {} && reached - done != {}
    ensures IsCycle(deps, reached, walk)
  {
    var stuck := reached - done;
    forall x | x in stuck ensures DependsWithin(deps, stuck, x) {
      assert x !in AllAvailable(deps, reached, done);
      var e :| e in deps && e.columnId == x && e.dependsOnColumnId in reached && e.dependsOnColumnId !in done;
      assert e == Dependency(x, e.dependsOnColumnId);
    }
    var start :| start in stuck;
    walk := CycleAmongStuck(deps, stuck, [start]);
  }

  lemma OrderedMeansNoCycle(deps: seq<Dependency>, reached: set<ColumnId>, order: seq<ColumnId>, walk: seq<ColumnId>)
    requires TopologicalPrefix(deps, reached, order) && Elements(order) == reached
    ensures !IsCycle(deps, reached, walk)
  {
    if IsCycle(deps, reached, walk) {
      var at := WalkGoesForward(deps, reached, order, walk, |walk| - 1);
      assert false;
    }
  }

  /** Along a walk the position in the order strictly grows. */
  lemma {:induction false} WalkGoesForward(deps: seq<Dependency>, reached: set<ColumnId>, order: seq<ColumnId>,
                                           walk: seq<ColumnId>, n: nat) returns (at: nat)
    requires TopologicalPrefix(deps, reached, order) && Elements(order) == reached
    requires IsWalk(deps, walk) && Elements(walk) <= reached && n < |walk|
    ensures at < |order| && order[at] == walk[n]
    ensures n > 0 ==> walk[0] in order[..at]
  {
    assert walk[n] in Elements(walk);
    assert walk[n] in Elements(order);
    at :| 0 <= at < |order| && order[at] == walk[n];
    if n > 0 {
      var before := WalkGoesForward(deps, reached, order, walk, n - 1);
      assert EarlierDependencies(deps, reached, order, at);
      assert Dependency(walk[n - 1 + 1], walk[n - 1]) in deps;
      assert walk[n - 1] in Elements(walk);
      assert walk[n - 1] in order[..at];
      assert before < at;
      if n - 1 > 0 { assert order[..before] == order[..at][..before]; }
    }
  }

  ghost predicate Linked(deps: seq<Dependency>, walk: seq<ColumnId>) {
    forall i :: 0 <= i < |walk| - 1 ==> Dependency(walk[i + 1], walk[i]) in deps
  }

  lemma PrependLink(deps: seq<Dependency>, walk: seq<ColumnId>, y: ColumnId)
    requires walk != [] && Linked(deps, walk) && Dependency(walk[0], y) in deps
    ensures Linked(deps, [y] + walk)
    ensures Elements([y] + walk) == {y} + Elements(walk)
  {
    var longer := [y] + walk;
    forall i | 0 <= i < |longer| - 1 ensures Dependency(longer[i + 1], longer[i]) in deps {
      if i > 0 { assert Dependency(walk[i - 1 + 1], walk[i - 1]) in deps; }
    }
  }

  lemma RepeatIsCycle(deps: seq<Dependency>, within: set<ColumnId>, walk: seq<ColumnId>) returns (cycle: seq<ColumnId>)
    requires Linked(deps, walk) && Elements(walk) <= within && !Distinct(walk)
    ensures IsCycle(deps, within, cycle)
  {
    var i, j :| 0 <= i < j < |walk| && walk[i] == walk[j];
    cycle := walk[i..j + 1];
    forall k | 0 <= k < |cycle| - 1 ensures Dependency(cycle[k + 1], cycle[k]) in deps {
      assert Dependency(walk[i + k + 1], walk[i + k]) in deps;
    }
    forall x | x in cycle ensures x in within { assert x in Elements(walk); }
  }

  /** Walks inside the stuck set that repeat at most their first column. */
  ghost predicate IsBackWalk(deps: seq<Dependency>, stuck: set<ColumnId>, walk: seq<ColumnId>) {
    walk != [] && Linked(deps, walk) && Elements(walk) <= stuck && Distinct(walk[1..])
  }

  lemma StepBack(deps: seq<Dependency>, stuck: set<ColumnId>, walk: seq<ColumnId>) returns (longer: seq<ColumnId>)
    requires IsBackWalk(deps, stuck, walk) && Distinct(walk)
    requires DependsWithin(deps, stuck, walk[0])
    ensures IsBackWalk(deps, stuck, longer) && |longer| == |walk| + 1
  {
    var y :| y in stuck && Dependency(walk[0], y) in deps;
    longer := [y] + walk;
    PrependLink(deps, walk, y);
    assert longer[1..] == walk;
  }

  /** If every column of a set depends on a column of the set, stepping back
      often enough must repeat a column. */
  lemma {:induction false} CycleAmongStuck(deps: seq<Dependency>, stuck: set<ColumnId>, walk: seq<ColumnId>)
    returns (cycle: seq<ColumnId>)
    requires forall x :: x in stuck ==> DependsWithin(deps, stuck, x)
    requires IsBackWalk(deps, stuck, walk)
    ensures IsCycle(deps, stuck, cycle)
    decreases |stuck| + 1 - |walk|
  {
    if Distinct(walk) {
      DistinctCount(walk);
      SubsetCount(Elements(walk), stuck);
      assert walk[0] in Elements(walk);
      var longer := StepBack(deps, stuck, walk);
      cycle := CycleAmongStuck(deps, stuck, longer);
    } else {
      cycle := RepeatIsCycle(deps, stuck, walk);
    }
  }
}
