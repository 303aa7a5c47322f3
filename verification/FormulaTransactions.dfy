/** The transactions that recompute formulas: the recomputation loop itself,
    a cell edit (packages/db/src/grid.ts:288-402) and the creation of a
    formula column (packages/db/src/formulas.ts:34-200).  A thrown error rolls
    the transaction back. */
module FormulaTransactions {
  import opened Collections
  import opened FormulaGraph
  import opened FormulaTraversal
  import opened FormulaValues
  import opened FormulaRecompute
  import opened FormulaTypes

  type RowId = nat

  datatype GridRow = GridRow(cells: RowCells, version: nat, archived: bool)

  datatype Recomputation = Recomputed(changed: seq<ColumnId>) | RecomputeFailed(error: FormulaError)

  datatype WriteResult =
    | Written(cell: Cell, changed: seq<ColumnId>)
    | AccessDenied
    | NotEditable
    | WrongValueType
    | VersionConflict
    | FormulaFailed(error: FormulaError)

  datatype CreateResult =
    | Created(id: ColumnId)
    | NoSources
    | SourceNotAccessible
    | InvalidDefinition
    | CreateFailed(error: FormulaError)

  class GridTable {
    const platform: Platform
    var schema: Schema
    var rows: map<RowId, GridRow>

    constructor (platform: Platform)
      ensures this.platform == platform
      ensures schema == Schema(map[], []) && rows == map[]
    {
      this.platform := platform;
      schema, rows := Schema(map[], []), map[];
    }

    ghost predicate Consistent()
      reads this
    {
      IsConsistent(platform, schema, rows)
    }

    ghost predicate Sound()
      reads this
    {
      IsSound(schema, rows)
    }

    /** recomputeDependentFormulasForRow.  On an error the caller's
        transaction aborts, so nothing is promised about the row's cells. */
    method RecomputeDependentFormulas(rowId: RowId, changedColumnIds: seq<ColumnId>) returns (result: Recomputation)
      requires rowId in rows
      modifies this`rows
      ensures rows.Keys == old(rows.Keys)
      ensures forall r :: r in rows && r != rowId ==> rows[r] == old(rows[r])
      ensures match RecomputeRow(platform, schema, old(rows[rowId].cells), changedColumnIds)
              case Pass(_, cells, changed) =>
                result == Recomputed(changed) && rows[rowId] == old(rows[rowId]).(cells := cells)
              case Aborted(error) => result == RecomputeFailed(error)
    {
      if changedColumnIds == [] { return Recomputed([]); }
      if schema.ActiveFormulas() == {} { return Recomputed([]); }
      var dependents := CollectDependents(schema.dependencies);
      var reachable := CollectReachable(changedColumnIds, schema.dependencies, dependents);
      if reachable == {} { return Recomputed([]); }
      var ordered := OrderReachable(schema.dependencies, dependents, reachable);
      if |ordered| != |reachable| { return RecomputeFailed(CyclicGraph); }

      ghost var before := rows[rowId].cells;
      var values := Values(rows[rowId].cells);
      var changed: seq<ColumnId> := [];
      for n := 0 to |ordered|
        invariant rows.Keys == old(rows.Keys)
        invariant forall r :: r in rows && r != rowId ==> rows[r] == old(rows[r])
        invariant rows[rowId] == old(rows[rowId]).(cells := rows[rowId].cells)
        invariant EvaluateAll(platform, schema, before, ordered[..n]) == Pass(values, rows[rowId].cells, changed)
      {
        var id := ordered[n];
        assert ordered[..n + 1][..n] == ordered[..n];
        ghost var stepped := EvaluateAll(platform, schema, before, ordered[..n + 1]);
        assert stepped == EvaluateOne(platform, schema, Pass(values, rows[rowId].cells, changed), id);
        if stepped.Aborted? { ErrorsPersist(platform, schema, before, ordered, n + 1); }
        if schema.IsActiveFormula(id) {
          var formula := schema.columns[id];
          if formula.kind.expression.None? { return RecomputeFailed(InvalidConfiguration(id)); }
          var value := platform.Evaluate(formula.kind.expression.value, values);
          if !value.Empty? && TypeOf(value) != formula.valueType { return RecomputeFailed(WrongType(id)); }
          values := values[id := value];
          var cells := rows[rowId].cells;
          if id in cells {
            cells := cells[id := Cell(platform.Stored(value), Succeeded, cells[id].version + 1)];
            changed := changed + [id];
          } else if !value.Empty? {
            cells := cells[id := Cell(platform.Stored(value), Succeeded, 1)];
            changed := changed + [id];
          }
          rows := rows[rowId := rows[rowId].(cells := cells)];
        }
      }
      assert ordered[..|ordered|] == ordered;
      return Recomputed(changed);
    }

    /** writeGridCell: an optimistic edit of one input cell, the formulas that
        depend on it, and the row version, all or nothing. */
    method WriteGridCell(rowId: RowId, columnId: ColumnId, expectedVersion: nat,
                         value: CellValue) returns (result: WriteResult)
      modifies this`rows
      ensures !result.Written? ==> rows == old(rows)
      ensures result == AccessDenied <==> !IsAccessible(old(rows), schema, rowId, columnId)
      ensures result == NotEditable <==>
        IsAccessible(old(rows), schema, rowId, columnId) && !schema.columns[columnId].kind.InputColumn?
      ensures result == WrongValueType <==>
        IsAccessible(old(rows), schema, rowId, columnId) && schema.columns[columnId].kind.InputColumn? &&
        value != Empty && TypeOf(value) != schema.columns[columnId].valueType
      ensures result == VersionConflict <==>
        IsAccessible(old(rows), schema, rowId, columnId) && schema.columns[columnId].kind.InputColumn? &&
        (value == Empty || TypeOf(value) == schema.columns[columnId].valueType) &&
        expectedVersion != CellVersion(old(rows)[rowId].cells, columnId)
      ensures result.Written? ==>
        schema.columns[columnId].kind.InputColumn? &&
        (value.Empty? || TypeOf(value) == schema.columns[columnId].valueType) &&
        expectedVersion == CellVersion(old(rows)[rowId].cells, columnId) &&
        result.cell == Cell(platform.Stored(value), Idle, expectedVersion + 1)
      ensures result.Written? ==>
        var edited := old(rows)[rowId].cells[columnId := result.cell];
        var after := RecomputeRow(platform, schema, edited, [columnId]);
        after.Pass? && after.changed == result.changed &&
        rows == old(rows)[rowId := GridRow(after.cells, old(rows)[rowId].version + 1, false)]
      ensures result.FormulaFailed? ==>
        RecomputeRow(platform, schema,
                     old(rows)[rowId].cells[columnId := Cell(platform.Stored(value), Idle, expectedVersion + 1)],
                     [columnId]) == Aborted(result.error)
      ensures old(Consistent()) ==> Consistent()
      ensures old(Sound()) ==> Sound() && !result.FormulaFailed?
    {
      hide IsSound, IsConsistent, RecomputeRow;
      if rowId !in rows || rows[rowId].archived || columnId !in schema.columns || schema.columns[columnId].archived {
        return AccessDenied;
      }
      if !schema.columns[columnId].kind.InputColumn? { return NotEditable; }
      if !value.Empty? && TypeOf(value) != schema.columns[columnId].valueType { return WrongValueType; }

      var before, row := rows, rows[rowId];
      if columnId !in row.cells {
        if expectedVersion != 0 { return VersionConflict; }
      } else {
        if row.cells[columnId].version != expectedVersion { return VersionConflict; }
      }
      var written := Cell(platform.Stored(value), Idle, expectedVersion + 1);
      var edited := row.cells[columnId := written];
      EditKeepsTable(platform, schema, rows, rowId, columnId, value, written);
      rows := rows[rowId := row.(cells := edited)];
      var recomputation := RecomputeDependentFormulas(rowId, [columnId]);
      if recomputation.RecomputeFailed? {
        rows := before;
        return FormulaFailed(recomputation.error);
      }
      rows := rows[rowId := rows[rowId].(version := row.version + 1)];
      result := Written(written, recomputation.changed);
    }

    /** createFormulaColumn, from the parsed expression on: check it, insert the
        column and its dependency rows, then recompute every active row from the
        referenced columns. */
    method CreateFormulaColumn(id: ColumnId, expression: Expression) returns (result: CreateResult)
      requires id !in schema.columns
      modifies this
      ensures !result.Created? ==> schema == old(schema) && rows == old(rows)
      ensures result == NoSources <==> IsConfiguration(expression) && References(expression) == {}
      ensures result == SourceNotAccessible <==>
        IsConfiguration(expression) && References(expression) != {} && !SourcesAreActive(old(schema), expression)
      ensures result == InvalidDefinition <==>
        !IsConfiguration(expression) ||
        (References(expression) != {} && SourcesAreActive(old(schema), expression) &&
         Validate(expression, TypesOf(old(schema))).None?)
      ensures result.Created? ==>
        Validate(expression, TypesOf(old(schema))).Some? &&
        AddsFormula(old(schema), schema, id, expression, Validate(expression, TypesOf(old(schema))).value)
      ensures result.Created? ==> EachRowRecomputed(platform, schema, old(rows), rows, References(expression))
      ensures result.CreateFailed? ==>
        SomeRowFails(platform, old(schema), old(rows), id, expression, result.error)
      ensures result.Created? && old(Consistent()) && platform.CanonicalLiterals(expression) ==> Consistent()
      ensures old(Sound()) ==> Sound() && !result.CreateFailed?
    {
      hide IsSound, IsConsistent, RecomputeRow, Infer, IsConfiguration, AddsFormula, IsRecomputed, SomeRowFails,
        EachRowRecomputed;
      if !IsConfiguration(expression) { return InvalidDefinition; }
      var sources := SeqOfSet(References(expression));
      if sources == [] { assert Elements(sources) == {}; return NoSources; }
      assert sources[0] in Elements(sources);
      if !SourcesAreActive(schema, expression) { return SourceNotAccessible; }
      var types := map c | c in References(expression) :: schema.columns[c].valueType;
      InferFrame(expression, types, TypesOf(schema));
      var valueType := Validate(expression, types);
      if valueType.None? { return InvalidDefinition; }
      var schemaBefore, rowsBefore := schema, rows;
      var inserted := seq(|sources|, i requires 0 <= i < |sources| => Dependency(id, sources[i]));
      schema := Schema(schema.columns[id := ColumnInfo(FormulaColumn(Some(expression)), valueType.value, false)],
                       schema.dependencies + inserted);
      InsertedEdges(schemaBefore.dependencies, inserted, id, sources, References(expression));
      FormulaIsAdded(schemaBefore, schema, id, expression, valueType.value);
      var failure := RecomputeExistingRows(sources);
      CreationKeepsTable(platform, schemaBefore, schema, rowsBefore, rows, id, expression, valueType.value, sources,
                         failure);
      if failure.Some? {
        schema, rows := schemaBefore, rowsBefore;
        return CreateFailed(failure.value);
      }
      return Created(id);
    }

    /** The loop over the existing rows of createFormulaColumn. */
    method RecomputeExistingRows(sources: seq<ColumnId>) returns (failure: Option<FormulaError>)
      modifies this`rows
      ensures rows.Keys == old(rows).Keys
      ensures failure.None? ==>
        forall r :: r in rows ==>
          if old(rows)[r].archived then rows[r] == old(rows)[r]
          else IsRecomputed(platform, schema, old(rows)[r], rows[r], sources)
      ensures failure.Some? ==>
        exists r :: r in old(rows) && RecomputeRow(platform, schema, old(rows)[r].cells, sources) ==
          Aborted(failure.value)
    {
      hide RecomputeRow;
      var rowsBefore := rows;
      var existing := SeqOfSet(set r | r in rows && !rows[r].archived);
      for n := 0 to |existing|
        invariant rows.Keys == rowsBefore.Keys
        invariant forall r :: r in rows && r !in existing[..n] ==> rows[r] == rowsBefore[r]
        invariant forall r :: r in existing[..n] ==>
          r in rows && IsRecomputed(platform, schema, rowsBefore[r], rows[r], sources)
      {
        var rowId := existing[n];
        assert rowId in Elements(existing);
        assert existing[..n + 1] == existing[..n] + [rowId];
        assert rowId !in existing[..n];
        var recomputation := RecomputeDependentFormulas(rowId, sources);
        if recomputation.RecomputeFailed? { return Some(recomputation.error); }
        rows := rows[rowId := rows[rowId].(version := rows[rowId].version + 1)];
      }
      assert existing[..|existing|] == existing;
      forall r | r in rows && !rowsBefore[r].archived ensures r in existing { assert r in Elements(existing); }
      forall r | r in existing ensures r in rows && !rowsBefore[r].archived { assert r in Elements(existing); }
      return None;
    }
  }

  predicate IsAccessible(rows: map<RowId, GridRow>, schema: Schema, rowId: RowId, columnId: ColumnId) {
    rowId in rows && !rows[rowId].archived && columnId in schema.columns && !schema.columns[columnId].archived
  }

  /** The version an edit must name: zero for a cell that does not exist. */
  function CellVersion(cells: RowCells, columnId: ColumnId): nat {
    if columnId in cells then cells[columnId].version else 0
  }

  /** With the new formula some existing row does not recompute. */
  ghost predicate SomeRowFails(p: Platform, before: Schema, rows: map<RowId, GridRow>, id: ColumnId,
                               expression: Expression, error: FormulaError)
  {
    exists after: Schema, valueType: ValueType, r: RowId, sources: seq<ColumnId> ::
      AddsFormula(before, after, id, expression, valueType) && r in rows &&
      Elements(sources) == References(expression) &&
      RecomputeRow(p, after, rows[r].cells, sources) == Aborted(error)
  }

  /** Every active row was recomputed from the given columns and got the next
      version; archived rows are as before. */
  ghost predicate EachRowRecomputed(p: Platform, schema: Schema, before: map<RowId, GridRow>, rows: map<RowId, GridRow>,
                                    changed: set<ColumnId>)
  {
    rows.Keys == before.Keys &&
    exists sources: seq<ColumnId> :: Elements(sources) == changed && RowsFollow(p, schema, before, rows, sources)
  }

  ghost predicate RowsFollow(p: Platform, schema: Schema, before: map<RowId, GridRow>, rows: map<RowId, GridRow>,
                             sources: seq<ColumnId>)
    requires rows.Keys == before.Keys
  {
    forall r :: r in rows ==>
      if before[r].archived then rows[r] == before[r] else IsRecomputed(p, schema, before[r], rows[r], sources)
  }

  /** What a consistent table keeps: formulas of active rows agree with the
      stored row. */
  ghost predicate IsConsistent(p: Platform, schema: Schema, rows: map<RowId, GridRow>) {
    p.Valid() && schema.Declared() && schema.CanonicalFormulas(p) &&
    (forall r :: r in rows ==> p.CanonicalValues(Values(rows[r].cells))) &&
    (forall r :: r in rows && !rows[r].archived ==> AllAgree(p, schema, rows[r].cells))
  }

  /** Rows hold values of their columns' types and formulas are typed over
      columns created before them. */
  ghost predicate IsSound(schema: Schema, rows: map<RowId, GridRow>) {
    SchemaIsSound(schema) && forall r :: r in rows ==> RowIsTyped(schema, rows[r].cells)
  }

  /** An edit of an input cell, as far as it goes through. */
  lemma EditKeepsTable(p: Platform, schema: Schema, rows: map<RowId, GridRow>, rowId: RowId, columnId: ColumnId,
                       value: CellValue, written: Cell)
    requires IsAccessible(rows, schema, rowId, columnId) && schema.columns[columnId].kind.InputColumn?
    requires written.value == p.Stored(value) && HasType(value, schema.columns[columnId].valueType)
    ensures var edited := RecomputeRow(p, schema, rows[rowId].cells[columnId := written], [columnId]);
            (IsSound(schema, rows) ==> edited.Pass?) &&
            (edited.Pass? ==>
               var after := rows[rowId := GridRow(edited.cells, rows[rowId].version + 1, false)];
               (IsSound(schema, rows) ==> IsSound(schema, after)) &&
               (IsConsistent(p, schema, rows) ==> IsConsistent(p, schema, after)))
  {
    hide RecomputeRow, SchemaIsSound, RowIsTyped, AllAgree, Values;
    if IsSound(schema, rows) { EditKeepsRowTyped(p, schema, rows[rowId].cells, columnId, written); }
    if IsConsistent(p, schema, rows) &&
       RecomputeRow(p, schema, rows[rowId].cells[columnId := written], [columnId]).Pass? {
      EditKeepsRowConsistent(p, schema, rows[rowId].cells, columnId, written);
    }
  }

  lemma FormulaIsAdded(before: Schema, after: Schema, id: ColumnId, expression: Expression, valueType: ValueType)
    requires id !in before.columns
    requires after.columns == before.columns[id := ColumnInfo(FormulaColumn(Some(expression)), valueType, false)]
    requires Elements(after.dependencies) ==
             Elements(before.dependencies) + (set c | c in References(expression) :: Dependency(id, c))
    ensures AddsFormula(before, after, id, expression, valueType)
  {
  }

  /** What the loop over the existing rows means for the creation. */
  lemma CreationKeepsTable(p: Platform, before: Schema, after: Schema, rowsBefore: map<RowId, GridRow>,
                           rows: map<RowId, GridRow>, id: ColumnId, expression: Expression, valueType: ValueType,
                           sources: seq<ColumnId>, failure: Option<FormulaError>)
    requires AddsFormula(before, after, id, expression, valueType) && SourcesAreActive(before, expression)
    requires Infer(expression, TypesOf(before)) == Some(valueType)
    requires Elements(sources) == References(expression) && sources != [] && rows.Keys == rowsBefore.Keys
    requires failure.Some? ==>
      exists r :: r in rowsBefore && RecomputeRow(p, after, rowsBefore[r].cells, sources) == Aborted(failure.value)
    requires failure.None? ==> RowsFollow(p, after, rowsBefore, rows, sources)
    ensures failure.Some? ==> SomeRowFails(p, before, rowsBefore, id, expression, failure.value)
    ensures failure.None? ==> EachRowRecomputed(p, after, rowsBefore, rows, References(expression))
    ensures IsSound(before, rowsBefore) ==> failure.None? && IsSound(after, rows)
    ensures failure.None? && IsConsistent(p, before, rowsBefore) && p.CanonicalLiterals(expression) ==>
      IsConsistent(p, after, rows)
  {
    hide RecomputeRow, SchemaIsSound, RowIsTyped, AllAgree, Values, AddsFormula, Infer;
    if IsSound(before, rowsBefore) {
      NewFormulaIsSound(before, after, id, expression, valueType);
      RecomputedRowsAreTyped(p, after, rowsBefore, rows, sources, failure);
    }
    if failure.None? && IsConsistent(p, before, rowsBefore) && p.CanonicalLiterals(expression) {
      NewFormulaDeclared(p, before, after, id, expression, valueType);
      NewFormulaRowsConsistent(p, before, after, id, expression, valueType, rowsBefore, rows, sources);
      ArchivedRowsStay(p, after, rowsBefore, rows, sources);
    }
  }

  lemma ArchivedRowsStay(p: Platform, schema: Schema, before: map<RowId, GridRow>, rows: map<RowId, GridRow>,
                         sources: seq<ColumnId>)
    requires rows.Keys == before.Keys && RowsFollow(p, schema, before, rows, sources)
    ensures forall r :: r in rows && rows[r].archived ==> rows[r] == before[r]
  {
    hide RecomputeRow;
  }

  predicate SourcesAreActive(schema: Schema, expression: Expression) {
    forall c :: c in References(expression) ==> c in schema.columns && !schema.columns[c].archived
  }

  ghost predicate IsRecomputed(p: Platform, schema: Schema, before: GridRow, after: GridRow, changed: seq<ColumnId>) {
    RecomputeRow(p, schema, before.cells, changed).Pass? &&
    after == GridRow(RecomputeRow(p, schema, before.cells, changed).cells, before.version + 1, false)
  }

  /** What the loop over existing rows answered, over a sound schema. */
  lemma RecomputedRowsAreTyped(p: Platform, schema: Schema, before: map<RowId, GridRow>, rows: map<RowId, GridRow>,
                               sources: seq<ColumnId>, failure: Option<FormulaError>)
    requires SchemaIsSound(schema) && forall r :: r in before ==> RowIsTyped(schema, before[r].cells)
    requires failure.Some? ==>
               exists r :: r in before && RecomputeRow(p, schema, before[r].cells, sources) == Aborted(failure.value)
    requires rows.Keys == before.Keys
    requires failure.None? ==>
      forall r :: r in rows ==>
        if before[r].archived then rows[r] == before[r] else IsRecomputed(p, schema, before[r], rows[r], sources)
    ensures failure.None? && forall r :: r in rows ==> RowIsTyped(schema, rows[r].cells)
  {
    hide SchemaIsSound, RowIsTyped, RecomputeRow;
    forall r | r in before
      ensures RecomputeRow(p, schema, before[r].cells, sources).Pass?
      ensures RowIsTyped(schema, RecomputeRow(p, schema, before[r].cells, sources).cells)
    {
      SoundSchemasRecompute(p, schema, before[r].cells, sources);
    }
  }

  lemma {:induction false} ErrorsPersist(p: Platform, schema: Schema, cells: RowCells, order: seq<ColumnId>, n: nat)
    requires n <= |order| && EvaluateAll(p, schema, cells, order[..n]).Aborted?
    ensures EvaluateAll(p, schema, cells, order) == EvaluateAll(p, schema, cells, order[..n])
  {
    if n == |order| {
      assert order[..n] == order;
    } else {
      assert order[..|order| - 1][..n] == order[..n];
      ErrorsPersist(p, schema, cells, order[..|order| - 1], n);
    }
  }

  /** An edit of an input column leaves every active formula of the row equal
      to its expression. */
  lemma EditKeepsRowConsistent(p: Platform, schema: Schema, cells: RowCells, columnId: ColumnId, written: Cell)
    requires p.Valid() && schema.Declared() && schema.CanonicalFormulas(p)
    requires p.CanonicalValues(Values(cells)) && AllAgree(p, schema, cells)
    requires columnId in schema.columns && schema.columns[columnId].kind.InputColumn?
    requires p.Canonical(p.Stored(written.value)) && written.value == p.Stored(written.value)
    requires RecomputeRow(p, schema, cells[columnId := written], [columnId]).Pass?
    ensures var after := RecomputeRow(p, schema, cells[columnId := written], [columnId]);
      AllAgree(p, schema, after.cells) && p.CanonicalValues(Values(after.cells))
  {
    var edited := cells[columnId := written];
    forall id | schema.IsActiveFormula(id) && id !in Reachable(schema.dependencies, Elements([columnId]))
      ensures Agrees(p, schema, edited, id)
    {
      UnreachedKeepsAgreeing(p, schema, cells, edited, [columnId], id);
    }
    assert Values(edited) == Values(cells)[columnId := written.value];
    IncrementalEqualsFull(p, schema, edited, [columnId]);
  }

  lemma EditKeepsRowTyped(p: Platform, schema: Schema, cells: RowCells, columnId: ColumnId, written: Cell)
    requires SchemaIsSound(schema) && RowIsTyped(schema, cells)
    requires columnId in schema.columns && HasType(written.value, schema.columns[columnId].valueType)
    ensures var after := RecomputeRow(p, schema, cells[columnId := written], [columnId]);
            after.Pass? && RowIsTyped(schema, after.cells)
  {
    hide SchemaIsSound;
    SoundSchemasRecompute(p, schema, cells[columnId := written], [columnId]);
  }

  lemma UnreachedKeepsAgreeing(p: Platform, schema: Schema, before: RowCells, after: RowCells, changed: seq<ColumnId>,
                               id: ColumnId)
    requires schema.Declared() && schema.IsActiveFormula(id) && Agrees(p, schema, before, id)
    requires id !in changed && id !in Reachable(schema.dependencies, Elements(changed))
    requires forall c :: c !in changed ==> Read(Values(after), c) == Read(Values(before), c)
    ensures Agrees(p, schema, after, id)
  {
    if schema.columns[id].kind.expression.Some? {
      var expression := schema.columns[id].kind.expression.value;
      forall c | c in References(expression) ensures c !in changed {
        assert schema.DeclaredFormula(id);
        if c in changed { ReachStep(schema.dependencies, Elements(changed), c, id); }
      }
      p.EvaluateFrame(expression, Values(before), Values(after));
    }
  }

  lemma InsertedEdges(deps: seq<Dependency>, inserted: seq<Dependency>, id: ColumnId, sources: seq<ColumnId>,
                      references: set<ColumnId>)
    requires Elements(sources) == references && |inserted| == |sources|
    requires forall i :: 0 <= i < |sources| ==> inserted[i] == Dependency(id, sources[i])
    ensures Elements(deps + inserted) == Elements(deps) + (set c | c in references :: Dependency(id, c))
  {
    forall c | c in references ensures Dependency(id, c) in inserted {
      assert c in Elements(sources);
      var i :| 0 <= i < |sources| && sources[i] == c;
      assert inserted[i] == Dependency(id, c);
    }
    forall e | e in inserted ensures e in (set c | c in references :: Dependency(id, c)) {
      var i :| 0 <= i < |inserted| && inserted[i] == e;
      assert sources[i] in Elements(sources);
    }
  }

  lemma NewFormulaDeclared(p: Platform, before: Schema, after: Schema, id: ColumnId, expression: Expression,
                           valueType: ValueType)
    requires AddsFormula(before, after, id, expression, valueType)
    requires before.Declared() && before.CanonicalFormulas(p) && p.CanonicalLiterals(expression)
    ensures after.Declared() && after.CanonicalFormulas(p)
  {
    forall f | after.IsActiveFormula(f) && after.columns[f].kind.expression.Some? ensures after.DeclaredFormula(f) {
      forall c | c in References(after.columns[f].kind.expression.value)
        ensures Dependency(f, c) in after.dependencies
      {
        if f != id { assert before.DeclaredFormula(f); assert Dependency(f, c) in Elements(before.dependencies); }
        assert Dependency(f, c) in Elements(after.dependencies);
      }
    }
    forall f | after.IsActiveFormula(f) && after.columns[f].kind.expression.Some?
      ensures p.CanonicalLiterals(after.columns[f].kind.expression.value)
    {
      if f != id { assert before.IsActiveFormula(f); }
    }
  }

  lemma NewFormulaRowsConsistent(p: Platform, before: Schema, after: Schema, id: ColumnId, expression: Expression,
                                 valueType: ValueType,
                                 rowsBefore: map<RowId, GridRow>, rows: map<RowId, GridRow>, sources: seq<ColumnId>)
    requires AddsFormula(before, after, id, expression, valueType)
    requires p.Valid() && after.Declared() && after.CanonicalFormulas(p)
    requires Elements(sources) == References(expression) && sources != [] && rows.Keys == rowsBefore.Keys
    requires forall r :: r in rows && !rows[r].archived ==>
               p.CanonicalValues(Values(rowsBefore[r].cells)) && AllAgree(p, before, rowsBefore[r].cells) &&
               IsRecomputed(p, after, rowsBefore[r], rows[r], sources)
    ensures forall r :: r in rows && !rows[r].archived ==>
              AllAgree(p, after, rows[r].cells) && p.CanonicalValues(Values(rows[r].cells))
  {
    hide AllAgree, RecomputeRow, Values, AddsFormula;
    forall r | r in rows && !rows[r].archived
      ensures AllAgree(p, after, rows[r].cells) && p.CanonicalValues(Values(rows[r].cells))
    {
      NewFormulaRowConsistent(p, before, after, id, expression, valueType, rowsBefore[r].cells, sources);
    }
  }

  lemma NewFormulaRowConsistent(p: Platform, before: Schema, after: Schema, id: ColumnId, expression: Expression,
                                valueType: ValueType,
                                cells: RowCells, sources: seq<ColumnId>)
    requires AddsFormula(before, after, id, expression, valueType)
    requires p.Valid() && after.Declared() && after.CanonicalFormulas(p)
    requires p.CanonicalValues(Values(cells)) && AllAgree(p, before, cells)
    requires Elements(sources) == References(expression) && sources != []
    requires RecomputeRow(p, after, cells, sources).Pass?
    ensures AllAgree(p, after, RecomputeRow(p, after, cells, sources).cells)
    ensures p.CanonicalValues(Values(RecomputeRow(p, after, cells, sources).cells))
  {
    assert sources[0] in Elements(sources);
    assert after.DeclaredFormula(id);
    ReachStep(after.dependencies, Elements(sources), sources[0], id);
    forall f | after.IsActiveFormula(f) && f !in Reachable(after.dependencies, Elements(sources))
      ensures Agrees(p, after, cells, f)
    {
      assert before.IsActiveFormula(f) && Agrees(p, before, cells, f);
    }
    IncrementalEqualsFull(p, after, cells, sources);
  }
}
