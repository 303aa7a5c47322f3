/** Incremental recomputation of a row's formula cells
    (packages/db/src/formulas.ts:202-360) and the transactions built on it. */
module FormulaRecompute {
  import opened Collections
  import opened FormulaGraph
  import opened FormulaTraversal
  import opened FormulaValues

  datatype CellStatus = Idle | Queued | Running | Succeeded | Failed | Stale | Cancelled

  datatype Cell = Cell(value: CellValue, status: CellStatus, version: nat)

  type RowCells = map<ColumnId, Cell>

  /** `None` stands for a stored configuration that does not parse. */
  datatype ColumnKind = InputColumn | FormulaColumn(expression: Option<Expression>) | ConnectorColumn

  datatype ColumnInfo = ColumnInfo(kind: ColumnKind, valueType: ValueType, archived: bool)

  datatype Schema = Schema(columns: map<ColumnId, ColumnInfo>, dependencies: seq<Dependency>) {
    predicate IsActiveFormula(id: ColumnId) {
      id in columns && columns[id].kind.FormulaColumn? && !columns[id].archived
    }

    function ActiveFormulas(): set<ColumnId> {
      set id | id in columns && IsActiveFormula(id)
    }

    /** Every reference of a formula has its column_dependencies row, as
        createFormulaColumn inserts them. */
    ghost predicate Declared() {
      forall id :: IsActiveFormula(id) && columns[id].kind.expression.Some? ==> DeclaredFormula(id)
    }

    ghost predicate DeclaredFormula(id: ColumnId)
      requires IsActiveFormula(id) && columns[id].kind.expression.Some?
    {
      forall c :: c in References(columns[id].kind.expression.value) ==> Dependency(id, c) in dependencies
    }

    ghost predicate CanonicalFormulas(p: Platform) {
      forall id :: IsActiveFormula(id) && columns[id].kind.expression.Some? ==>
        p.CanonicalLiterals(columns[id].kind.expression.value)
    }
  }

  function Values(cells: RowCells): map<ColumnId, CellValue> {
    map c | c in cells :: cells[c].value
  }

  // ---- the evaluation pass --------------------------------------------------

  datatype FormulaError = CyclicGraph | InvalidConfiguration(id: ColumnId) | WrongType(id: ColumnId)

  /** The in-memory values, the stored cells and the list of changed formulas
      after some prefix of the visit order, or the error that ended it. */
  datatype Pass =
    | Pass(values: map<ColumnId, CellValue>, cells: RowCells, changed: seq<ColumnId>)
    | Aborted(error: FormulaError)

  predicate Writes(cells: RowCells, id: ColumnId, value: CellValue) {
    id in cells || !value.Empty?
  }

  function WriteFormulaCell(p: Platform, cells: RowCells, id: ColumnId, value: CellValue): RowCells {
    if !Writes(cells, id, value) then cells
    else cells[id := Cell(p.Stored(value), Succeeded, if id in cells then cells[id].version + 1 else 1)]
  }

  function EvaluateOne(p: Platform, schema: Schema, pass: Pass, id: ColumnId): Pass {
    if pass.Aborted? || !schema.IsActiveFormula(id) then pass
    else
      match schema.columns[id].kind.expression
      case None => Aborted(InvalidConfiguration(id))
      case Some(expression) =>
        var value := p.Evaluate(expression, pass.values);
        if !value.Empty? && TypeOf(value) != schema.columns[id].valueType then Aborted(WrongType(id))
        else Pass(pass.values[id := value], WriteFormulaCell(p, pass.cells, id, value),
                  pass.changed + if Writes(pass.cells, id, value) then [id] else [])
  }

  function EvaluateAll(p: Platform, schema: Schema, cells: RowCells, order: seq<ColumnId>): Pass {
    if order == [] then Pass(Values(cells), cells, [])
    else EvaluateOne(p, schema, EvaluateAll(p, schema, cells, order[..|order| - 1]), order[|order| - 1])
  }

  /** One call of recomputeDependentFormulasForRow on one row. */
  ghost function RecomputeRow(p: Platform, schema: Schema, cells: RowCells, changed: seq<ColumnId>): Pass {
    var reached := Reachable(schema.dependencies, Elements(changed));
    if changed == [] || schema.ActiveFormulas() == {} || reached == {} then Pass(Values(cells), cells, [])
    else
      var order := VisitOrder(schema.dependencies, reached);
      if |order| != |reached| then Aborted(CyclicGraph) else EvaluateAll(p, schema, cells, order)
  }

  // ---- incremental recomputation agrees with full recomputation -------------

  /** The stored cell of a formula is its expression over the stored row. */
  ghost predicate Agrees(p: Platform, schema: Schema, cells: RowCells, id: ColumnId)
    requires schema.IsActiveFormula(id)
  {
    schema.columns[id].kind.expression.Some? ==>
      Read(Values(cells), id) == p.Evaluate(schema.columns[id].kind.expression.value, Values(cells))
  }

  ghost predicate AllAgree(p: Platform, schema: Schema, cells: RowCells) {
    forall id :: schema.IsActiveFormula(id) ==> Agrees(p, schema, cells, id)
  }

  /** What the pass guarantees about the first formulas of the order. */
  ghost predicate PassIsSound(p: Platform, schema: Schema, cells: RowCells, order: seq<ColumnId>, pass: Pass)
    requires pass.Pass?
  {
    (forall c :: c !in order || !schema.IsActiveFormula(c) ==>
      Read(pass.values, c) == Read(Values(cells), c) && Read(Values(pass.cells), c) == Read(Values(cells), c)) &&
    (forall c :: c in order && schema.IsActiveFormula(c) ==>
      schema.columns[c].kind.expression.Some? &&
      Read(pass.values, c) == p.Evaluate(schema.columns[c].kind.expression.value, pass.values) &&
      Read(Values(pass.cells), c) == p.Stored(Read(pass.values, c)))
  }

  lemma {:induction false} EvaluateAllIsSound(p: Platform, schema: Schema, cells: RowCells, reached: set<ColumnId>,
                                              order: seq<ColumnId>)
    requires schema.Declared()
    requires TopologicalPrefix(schema.dependencies, reached, order)
    requires EvaluateAll(p, schema, cells, order).Pass?
    ensures PassIsSound(p, schema, cells, order, EvaluateAll(p, schema, cells, order))
  {
    if order != [] {
      var n := |order| - 1;
      var before, id := order[..n], order[n];
      assert order == before + [id];
      PrefixStaysTopological(schema.dependencies, reached, order, n);
      EvaluateAllIsSound(p, schema, cells, reached, before);
      if schema.IsActiveFormula(id) {
        EvaluateOneIsSound(p, schema, cells, reached, before, id, EvaluateAll(p, schema, cells, before));
      }
    }
  }

  lemma PrefixStaysTopological(deps: seq<Dependency>, reached: set<ColumnId>, order: seq<ColumnId>, n: nat)
    requires TopologicalPrefix(deps, reached, order) && n <= |order|
    ensures TopologicalPrefix(deps, reached, order[..n])
  {
    forall i | 0 <= i < n ensures EarlierDependencies(deps, reached, order[..n], i) {
      assert order[..n][..i] == order[..i];
      assert EarlierDependencies(deps, reached, order, i);
    }
    assert Elements(order[..n]) <= Elements(order);
  }

  /** Writing a later formula does not disturb an earlier one: nothing earlier
      in the order references it. */
  lemma EvaluateOneIsSound(p: Platform, schema: Schema, cells: RowCells, reached: set<ColumnId>, before: seq<ColumnId>,
                           id: ColumnId, pass: Pass)
    requires schema.Declared() && schema.IsActiveFormula(id)
    requires TopologicalPrefix(schema.dependencies, reached, before + [id])
    requires pass.Pass? && PassIsSound(p, schema, cells, before, pass)
    requires EvaluateOne(p, schema, pass, id).Pass?
    ensures PassIsSound(p, schema, cells, before + [id], EvaluateOne(p, schema, pass, id))
  {
    var order, after := before + [id], EvaluateOne(p, schema, pass, id);
    assert order[|before|] == id;
    forall j | 0 <= j < |before| ensures before[j] != id { assert order[j] == before[j]; }
    forall c | c in order && schema.IsActiveFormula(c)
      ensures schema.columns[c].kind.expression.Some?
      ensures Read(after.values, c) == p.Evaluate(schema.columns[c].kind.expression.value, after.values)
      ensures Read(Values(after.cells), c) == p.Stored(Read(after.values, c))
    {
      var expression := schema.columns[c].kind.expression.value;
      EarlierDoesNotReference(schema, reached, order, c, id);
      p.EvaluateFrame(expression, pass.values, after.values);
      if c != id { assert c in before; }
    }
  }

  lemma EarlierDoesNotReference(schema: Schema, reached: set<ColumnId>, order: seq<ColumnId>, c: ColumnId,
                                last: ColumnId)
    requires schema.Declared() && schema.IsActiveFormula(c) && schema.columns[c].kind.expression.Some?
    requires TopologicalPrefix(schema.dependencies, reached, order)
    requires c in order && order != [] && last == order[|order| - 1]
    ensures last !in References(schema.columns[c].kind.expression.value)
  {
    var i :| 0 <= i < |order| && order[i] == c;
    assert EarlierDependencies(schema.dependencies, reached, order, i);
    assert last in Elements(order);
    assert schema.DeclaredFormula(c);
    forall k | 0 <= k < i ensures order[..i][k] != last { assert order[..i][k] == order[k]; }
    assert last !in order[..i];
    assert Dependency(c, last) !in schema.dependencies;
  }

  /** Main result.  If every formula outside the reached set agreed with its
      expression, then after one successful call every active formula of the
      row does, whatever chain of formulas and connector columns leads to it. */
  lemma IncrementalEqualsFull(p: Platform, schema: Schema, cells: RowCells, changed: seq<ColumnId>)
    requires p.Valid() && schema.Declared()
    requires schema.CanonicalFormulas(p) && p.CanonicalValues(Values(cells))
    requires forall id :: schema.IsActiveFormula(id) && id !in Reachable(schema.dependencies, Elements(changed)) ==>
      Agrees(p, schema, cells, id)
    requires RecomputeRow(p, schema, cells, changed).Pass?
    ensures AllAgree(p, schema, RecomputeRow(p, schema, cells, changed).cells)
    ensures p.CanonicalValues(Values(RecomputeRow(p, schema, cells, changed).cells))
  {
    var reached := Reachable(schema.dependencies, Elements(changed));
    var after := RecomputeRow(p, schema, cells, changed);
    if changed == [] {
      NothingReachedFromNothing(schema.dependencies);
    } else if schema.ActiveFormulas() == {} {
      assert forall id :: schema.IsActiveFormula(id) ==> id in schema.ActiveFormulas();
    } else if reached != {} {
      var order := VisitOrder(schema.dependencies, reached);
      CompleteIffAcyclic(schema.dependencies, reached);
      EvaluateAllIsSound(p, schema, cells, reached, order);
      forall c ensures Read(after.values, c) == Read(Values(after.cells), c) {
        MemoryIsStored(p, schema, cells, order, after, c);
      }
      forall id | schema.IsActiveFormula(id) ensures Agrees(p, schema, after.cells, id) {
        FormulaAgreesAfter(p, schema, cells, changed, order, after, id);
      }
      StoredValuesAreCanonical(p, schema, cells, order, after);
    }
  }

  lemma NothingReachedFromNothing(deps: seq<Dependency>)
    ensures Reachable(deps, Elements([])) == {}
  {
    var none: seq<ColumnId> := [];
    forall walk, x ensures !Reaches(deps, Elements(none), walk, x) {}
  }

  lemma WrittenValues(p: Platform, cells: RowCells, id: ColumnId, value: CellValue)
    ensures Values(WriteFormulaCell(p, cells, id, value)) ==
            if Writes(cells, id, value) then Values(cells)[id := p.Stored(value)] else Values(cells)
  {
  }

  lemma {:induction false} MemoryIsCanonical(p: Platform, schema: Schema, cells: RowCells, order: seq<ColumnId>)
    requires p.Valid() && schema.CanonicalFormulas(p) && p.CanonicalValues(Values(cells))
    requires EvaluateAll(p, schema, cells, order).Pass?
    ensures p.CanonicalValues(EvaluateAll(p, schema, cells, order).values)
    ensures p.CanonicalValues(Values(EvaluateAll(p, schema, cells, order).cells))
  {
    if order != [] {
      var n := |order| - 1;
      MemoryIsCanonical(p, schema, cells, order[..n]);
      if schema.IsActiveFormula(order[n]) {
        var before, expression := EvaluateAll(p, schema, cells, order[..n]),
          schema.columns[order[n]].kind.expression.value;
        p.EvaluateIsCanonical(expression, before.values);
        p.StoredIsCanonical(p.Evaluate(expression, before.values));
        WrittenValues(p, before.cells, order[n], p.Evaluate(expression, before.values));
      }
    }
  }

  lemma MemoryIsStored(p: Platform, schema: Schema, cells: RowCells, order: seq<ColumnId>, after: Pass, c: ColumnId)
    requires p.Valid() && schema.CanonicalFormulas(p) && p.CanonicalValues(Values(cells))
    requires after == EvaluateAll(p, schema, cells, order) && after.Pass?
    requires PassIsSound(p, schema, cells, order, after)
    ensures Read(after.values, c) == Read(Values(after.cells), c)
  {
    MemoryIsCanonical(p, schema, cells, order);
  }

  lemma StoredValuesAreCanonical(p: Platform, schema: Schema, cells: RowCells, order: seq<ColumnId>, after: Pass)
    requires p.Valid() && schema.CanonicalFormulas(p) && p.CanonicalValues(Values(cells))
    requires after == EvaluateAll(p, schema, cells, order) && after.Pass?
    ensures p.CanonicalValues(Values(after.cells))
  {
    MemoryIsCanonical(p, schema, cells, order);
  }

  lemma FormulaAgreesAfter(p: Platform, schema: Schema, cells: RowCells, changed: seq<ColumnId>, order: seq<ColumnId>,
                           after: Pass, id: ColumnId)
    requires schema.Declared() && schema.IsActiveFormula(id)
    requires Elements(order) == Reachable(schema.dependencies, Elements(changed))
    requires id !in order ==> Agrees(p, schema, cells, id)
    requires after.Pass? && PassIsSound(p, schema, cells, order, after)
    requires forall c :: Read(after.values, c) == Read(Values(after.cells), c)
    ensures Agrees(p, schema, after.cells, id)
  {
    if schema.columns[id].kind.expression.Some? {
      var expression := schema.columns[id].kind.expression.value;
      if id in order {
        p.EvaluateFrame(expression, after.values, Values(after.cells));
      } else {
        forall c | c in References(expression) ensures Read(Values(after.cells), c) == Read(Values(cells), c) {
          assert schema.DeclaredFormula(id);
          if c in order {
            assert c in Elements(order);
            ReachStep(schema.dependencies, Elements(changed), c, id);
          }
        }
        p.EvaluateFrame(expression, Values(after.cells), Values(cells));
      }
    }
  }

  /** Without any assumption on literals the agreement holds between the
      in-memory values of the call, and each stored formula cell is the stored
      form of its in-memory value. */
  lemma IncrementalEqualsFullBeforeStorage(p: Platform, schema: Schema, cells: RowCells, changed: seq<ColumnId>,
                                           id: ColumnId)
    requires schema.Declared()
    requires schema.IsActiveFormula(id) && id in Reachable(schema.dependencies, Elements(changed))
    requires RecomputeRow(p, schema, cells, changed).Pass?
    ensures schema.columns[id].kind.expression.Some?
    ensures var after := RecomputeRow(p, schema, cells, changed);
      Read(after.values, id) == p.Evaluate(schema.columns[id].kind.expression.value, after.values) &&
      Read(Values(after.cells), id) == p.Stored(Read(after.values, id))
  {
    var reached := Reachable(schema.dependencies, Elements(changed));
    if changed == [] { NothingReachedFromNothing(schema.dependencies); }
    assert id in schema.ActiveFormulas();
    CompleteIffAcyclic(schema.dependencies, reached);
    EvaluateAllIsSound(p, schema, cells, reached, VisitOrder(schema.dependencies, reached));
    assert id in Elements(VisitOrder(schema.dependencies, reached));
  }

  // ---- what is written --------------------------------------------------------

  ghost predicate IsVisited(schema: Schema, order: seq<ColumnId>, c: ColumnId) {
    c in order && schema.IsActiveFormula(c)
  }

  /** A visited formula's cell is written, or made unless there is nothing to
      hold; its version counts the write.  No other cell changes. */
  ghost predicate IsWritten(before: RowCells, after: RowCells, visited: bool, c: ColumnId, value: CellValue) {
    if !visited then (c in after <==> c in before) && (c in before ==> after[c] == before[c])
    else
      (c in after <==> c in before || value != Empty) &&
      (c in before ==> after[c].version == before[c].version + 1) &&
      (c in after && c !in before ==> after[c].version == 1) &&
      (c in after ==> after[c].status == Succeeded)
  }

  lemma {:induction false} EvaluateAllWrites(p: Platform, schema: Schema, cells: RowCells, order: seq<ColumnId>)
    requires Distinct(order) && EvaluateAll(p, schema, cells, order).Pass?
    ensures var after := EvaluateAll(p, schema, cells, order);
            (forall c :: IsWritten(cells, after.cells, IsVisited(schema, order, c), c, Read(after.values, c))) &&
            (forall c :: c in after.changed <==> IsVisited(schema, order, c) && c in after.cells) &&
            Distinct(after.changed)
  {
    if order != [] {
      var n := |order| - 1;
      var before := EvaluateAll(p, schema, cells, order[..n]);
      EvaluateAllWrites(p, schema, cells, order[..n]);
      assert order == order[..n] + [order[n]] && order[n] !in order[..n];
      EvaluateOneWrites(p, schema, cells, order[..n], order[n], before);
    }
  }

  lemma EvaluateOneWrites(p: Platform, schema: Schema, cells: RowCells, order: seq<ColumnId>, id: ColumnId,
                          before: Pass)
    requires id !in order && before.Pass? && EvaluateOne(p, schema, before, id).Pass?
    requires forall c :: IsWritten(cells, before.cells, IsVisited(schema, order, c), c, Read(before.values, c))
    requires forall c :: c in before.changed <==> IsVisited(schema, order, c) && c in before.cells
    requires Distinct(before.changed)
    ensures var after, all := EvaluateOne(p, schema, before, id), order + [id];
            (forall c :: IsWritten(cells, after.cells, IsVisited(schema, all, c), c, Read(after.values, c))) &&
            (forall c :: c in after.changed <==> IsVisited(schema, all, c) && c in after.cells) &&
            Distinct(after.changed)
  {
    var after := EvaluateOne(p, schema, before, id);
    forall c ensures IsWritten(cells, after.cells, IsVisited(schema, order + [id], c), c, Read(after.values, c)) {
      assert IsWritten(cells, before.cells, IsVisited(schema, order, c), c, Read(before.values, c));
      assert IsVisited(schema, order + [id], c) <==>
               IsVisited(schema, order, c) || (c == id && schema.IsActiveFormula(c));
    }
  }

  /** One call writes the cells of the reached active formulas and of nothing
      else, raises each version by one, leaves a formula without a cell when it
      yields nothing, and reports exactly the formulas it wrote. */
  lemma RecomputeWritesReached(p: Platform, schema: Schema, cells: RowCells, changed: seq<ColumnId>)
    requires RecomputeRow(p, schema, cells, changed).Pass?
    ensures var after := RecomputeRow(p, schema, cells, changed);
            var reached := Reachable(schema.dependencies, Elements(changed));
            (forall c ::
               IsWritten(cells, after.cells, c in reached && schema.IsActiveFormula(c), c, Read(after.values, c))) &&
            (forall c :: c in after.changed <==> c in reached && schema.IsActiveFormula(c) && c in after.cells) &&
            Distinct(after.changed)
  {
    var reached := Reachable(schema.dependencies, Elements(changed));
    if changed == [] { NothingReachedFromNothing(schema.dependencies); }
    assert forall c :: schema.IsActiveFormula(c) ==> c in schema.ActiveFormulas();
    if changed != [] && schema.ActiveFormulas() != {} && reached != {} {
      var order := VisitOrder(schema.dependencies, reached);
      CompleteIffAcyclic(schema.dependencies, reached);
      EvaluateAllWrites(p, schema, cells, order);
      forall c ensures IsVisited(schema, order, c) <==> c in reached && schema.IsActiveFormula(c) {
        assert c in Elements(order) <==> c in order;
      }
    }
  }

  /** The cyclic error is thrown exactly when there is work to do and the
      reached columns contain a cycle. */
  lemma CyclicErrorIffCycle(p: Platform, schema: Schema, cells: RowCells, changed: seq<ColumnId>)
    ensures RecomputeRow(p, schema, cells, changed) == Aborted(CyclicGraph) <==>
      changed != [] && schema.ActiveFormulas() != {} &&
      exists walk :: IsCycle(schema.dependencies, Reachable(schema.dependencies, Elements(changed)), walk)
  {
    var reached := Reachable(schema.dependencies, Elements(changed));
    CompleteIffAcyclic(schema.dependencies, reached);
    if reached == {} {
      forall walk: seq<ColumnId> ensures !IsCycle(schema.dependencies, reached, walk) {
        if walk != [] { assert walk[0] in Elements(walk); }
      }
    } else if |VisitOrder(schema.dependencies, reached)| == |reached| {
      EvaluationIsNotCyclic(p, schema, cells, VisitOrder(schema.dependencies, reached));
    }
  }

  lemma {:induction false} EvaluationIsNotCyclic(p: Platform, schema: Schema, cells: RowCells, order: seq<ColumnId>)
    ensures EvaluateAll(p, schema, cells, order) != Aborted(CyclicGraph)
  {
    if order != [] { EvaluationIsNotCyclic(p, schema, cells, order[..|order| - 1]); }
  }

  /** The result depends on the dependency rows as a set: the order in which
      the database returns them is invisible, down to the cell versions and
      the list of changed formulas. */
  lemma QueryOrderIsInvisible(p: Platform, schema: Schema, shuffled: seq<Dependency>, cells: RowCells,
                              changed: seq<ColumnId>)
    requires Elements(schema.dependencies) == Elements(shuffled)
    ensures RecomputeRow(p, schema.(dependencies := shuffled), cells, changed) ==
            RecomputeRow(p, schema, cells, changed)
  {
    var deps := schema.dependencies;
    var reached := Reachable(deps, Elements(changed));
    ReachableIgnoresOrder(deps, shuffled, Elements(changed));
    ReachableIgnoresOrder(shuffled, deps, Elements(changed));
    assert Reachable(shuffled, Elements(changed)) == reached;
    VisitOrderIgnoresOrder(deps, shuffled, reached);
    var other := schema.(dependencies := shuffled);
    assert other.ActiveFormulas() == schema.ActiveFormulas();
    EvaluationIgnoresDependencies(p, schema, other, cells, VisitOrder(deps, reached));
  }

  lemma ReachableIgnoresOrder(deps: seq<Dependency>, same: seq<Dependency>, sources: set<ColumnId>)
    requires Elements(deps) == Elements(same)
    ensures Reachable(deps, sources) <= Reachable(same, sources)
  {
    forall e | e in deps ensures e in same { assert e in Elements(deps); }
    forall e | e in deps && exists walk :: Reaches(deps, sources, walk, e.columnId)
      ensures e.columnId in Reachable(same, sources)
    {
      var walk :| Reaches(deps, sources, walk, e.columnId);
      assert Reaches(same, sources, walk, e.columnId);
    }
  }

  lemma {:induction false} EvaluationIgnoresDependencies(p: Platform, schema: Schema, other: Schema, cells: RowCells,
                                                         order: seq<ColumnId>)
    requires schema.columns == other.columns
    ensures EvaluateAll(p, schema, cells, order) == EvaluateAll(p, other, cells, order)
  {
    if order != [] { EvaluationIgnoresDependencies(p, schema, other, cells, order[..|order| - 1]); }
  }
}
