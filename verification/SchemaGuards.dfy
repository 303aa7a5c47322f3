/** When a schema change is refused, measured by what it would break
    (packages/db/src/schema-lifecycle.ts:203-534, 540-745, 897-1139;
    packages/db/src/formulas.ts:90-250; packages/db/src/grid-views.ts). */
module SchemaGuards {
  import opened Collections
  import opened FormulaValues
  import opened SchemaLifecycle
  import Fanout
  import FormulaTypes

  // ---- columns ----------------------------------------------------------------

  function Archived(s: Schema, id: ColumnId): Schema
    requires id < |s.columns|
  {
    s.(columns := s.columns[id := s.columns[id].(archived := true)])
  }

  /** An active column of an active table. */
  ghost predicate IsReachable(s: Schema, id: ColumnId) {
    id < |s.columns| && !s.columns[id].archived && s.columns[id].tableId < |s.tables| &&
    !s.tables[s.columns[id].tableId]
  }

  /** Without the column no active column misses an input, no view a column and no
      active source a target. */
  ghost predicate IsUnused(s: Schema, id: ColumnId)
    requires id < |s.columns|
  {
    InputsStayActive(Archived(s, id)) && ViewsFit(Archived(s, id)) && SourcesFit(Archived(s, id))
  }

  lemma InputsMissIt(s: Schema, id: ColumnId)
    requires EdgesLeadBack(s) && InputsStayActive(s) && IsReachable(s, id)
    ensures InputsStayActive(Archived(s, id)) <==> !HasActiveDependent(s, id)
  {
    var after := Archived(s, id);
    if d :| 0 <= d < |s.columns| && IsActive(s, d) && DependsOn(s, d, id) {
      assert ColumnIsRooted(s, id) && ColumnIsRooted(s, d);
      assert d != id;
      assert IsActive(after, d) && DependsOn(after, d, id) && !IsActive(after, id);
    } else {
      forall d, c | 0 <= d < |after.columns| && IsActive(after, d) && DependsOn(after, d, c)
        ensures IsActive(after, c)
      {
        assert IsActive(s, d) && DependsOn(s, d, c);
      }
    }
  }

  lemma ViewsMissIt(s: Schema, id: ColumnId)
    requires ViewsFit(s) && IsReachable(s, id)
    ensures ViewsFit(Archived(s, id)) <==> !SomeViewNames(s, id)
  {
    var after := Archived(s, id);
    if v :| v in s.views && ViewNames(s.views[v], id) {
      assert !IsActive(after, id);
      assert !ViewFits(after, s.views[v]);
    } else {
      forall v | v in s.views ensures ViewFits(after, s.views[v]) {
        assert ViewFits(s, s.views[v]) && !ViewNames(s.views[v], id);
      }
    }
  }

  lemma SourcesMissIt(s: Schema, id: ColumnId)
    requires SourcesFit(s) && IsReachable(s, id)
    ensures SourcesFit(Archived(s, id)) <==> !SomeActiveSourceFeeds(s, id)
  {
    var after := Archived(s, id);
    if f :| f in s.sources && s.sources[f].active && id in s.sources[f].mapping {
      var i :| 0 <= i < |s.sources[f].mapping| && s.sources[f].mapping[i] == id;
      assert !IsActiveIn(after, s.sources[f].mapping[i], s.sources[f].tableId);
    } else {
      forall f | f in s.sources && s.sources[f].active ensures MapsOnlyActive(after, s.sources[f]) {
        assert MapsOnlyActive(s, s.sources[f]) && id !in s.sources[f].mapping;
      }
    }
  }

  lemma UnusedMeans(s: Schema, id: ColumnId)
    requires WellFormed(s) && IsReachable(s, id)
    ensures IsUnused(s, id) <==> !HasActiveDependent(s, id) && !SomeViewNames(s, id) && !SomeActiveSourceFeeds(s, id)
  {
    InputsMissIt(s, id);
    ViewsMissIt(s, id);
    SourcesMissIt(s, id);
  }

  lemma LastColumn(s: Schema, id: ColumnId)
    requires TablesKeepAColumn(s) && IsReachable(s, id)
    ensures TablesKeepAColumn(Archived(s, id)) <==> |ActiveColumns(s, s.columns[id].tableId)| > 1
  {
    var after, table := Archived(s, id), s.columns[id].tableId;
    forall t ensures ActiveColumns(after, t) == if t == table then ActiveColumns(s, t) - {id} else ActiveColumns(s, t) {
      forall c ensures c in ActiveColumns(after, t) <==> c in ActiveColumns(s, t) && c != id {}
    }
    assert id in ActiveColumns(s, table);
    assert |ActiveColumns(s, table)| == |ActiveColumns(s, table) - {id}| + 1;
  }

  /** A column of an accessible table with no work in progress is archived exactly
      when the schema stays well formed without it. */
  lemma ArchivalIsRefusedIff(s: Schema, id: ColumnId)
    requires WellFormed(s)
    ensures ArchiveColumn(s, id, false) ==
            if IsReachable(s, id) && WellFormed(Archived(s, id)) then Some(Archived(s, id)) else None
    ensures ArchiveColumn(s, id, true) == None
  {
    hide ViewsFit, SourcesFit, InputsStayActive, TablesKeepAColumn, SomeViewNames, HasActiveDependent,
      SomeActiveSourceFeeds, ActiveColumns, ColumnIsRooted;
    if IsReachable(s, id) {
      UnusedMeans(s, id);
      LastColumn(s, id);
      ColumnChangeKeepsEdges(s, id, s.columns[id].(archived := true));
      assert ActiveTables(Archived(s, id)) == ActiveTables(s);
    }
  }

  /** An input column is converted exactly when nothing would notice its archival,
      whether or not it is the last one of its table; nothing else changes. */
  lemma ConversionIsRefusedIff(s: Schema, id: ColumnId, target: ColumnType)
    requires WellFormed(s)
    ensures ConvertColumn(s, id, target, true) == None
    ensures var after := ConvertColumn(s, id, target, false);
            (after.Some? <==>
             IsReachable(s, id) && s.columns[id].kind.InputColumn? && s.columns[id].valueType != target &&
             IsUnused(s, id)) &&
            (after.Some? ==>
               after.value == s.(columns := after.value.columns) && |after.value.columns| == |s.columns| &&
               forall c :: 0 <= c < |s.columns| ==>
                 after.value.columns[c] == if c == id then s.columns[c].(valueType := target) else s.columns[c])
  {
    hide IsUnused, SomeViewNames, HasActiveDependent, SomeActiveSourceFeeds, WellFormed;
    if IsReachable(s, id) { UnusedMeans(s, id); }
  }

  /** An archived column of an active table comes back exactly when the schema
      stays well formed with it. */
  lemma RestorationIsRefusedIff(s: Schema, id: ColumnId)
    requires WellFormed(s)
    ensures RestoreColumn(s, id).Some? <==>
            id < |s.columns| && s.columns[id].archived && IsActiveTable(s, s.columns[id].tableId) &&
            WellFormed(s.(columns := s.columns[id := s.columns[id].(archived := false)]))
    ensures RestoreColumn(s, id).Some? ==>
              RestoreColumn(s, id).value == s.(columns := s.columns[id := s.columns[id].(archived := false)])
  {
    hide ViewsFit, SourcesFit, TablesKeepAColumn, EdgesLeadBack, ActiveTables;
    if RestoreColumn(s, id).Some? { RestoreColumnKeeps(s, id); }
    if id < |s.columns| && s.columns[id].archived {
      var after := s.(columns := s.columns[id := s.columns[id].(archived := false)]);
      if i :| 0 <= i < |s.columns[id].inputs| && !IsActive(s, s.columns[id].inputs[i]) {
        NotItsOwnInput(s, id, i);
        assert IsActive(after, id) && DependsOn(after, id, s.columns[id].inputs[i]);
      }
    }
  }

  lemma NotItsOwnInput(s: Schema, id: ColumnId, i: nat)
    requires EdgesLeadBack(s) && id < |s.columns| && i < |s.columns[id].inputs|
    ensures s.columns[id].inputs[i] < id
  {
    assert ColumnIsRooted(s, id);
  }

  // ---- tables -----------------------------------------------------------------

  /** A table with no work in progress is archived exactly when the workspace
      stays well formed without it; an archived table always comes back. */
  lemma TableArchivalIsRefusedIff(s: Schema, table: TableId)
    requires WellFormed(s) && table < |s.tables|
    ensures ArchiveTable(s, table, true) == None
    ensures var without := s.(tables := s.tables[table := true]);
            ArchiveTable(s, table, false) == if !s.tables[table] && WellFormed(without) then Some(without) else None
    ensures RestoreTable(s, table) ==
            if s.tables[table] then Some(s.(tables := s.tables[table := false])) else None
  {
    hide InputsStayActive, EdgesLeadBack, TablesKeepAColumn, ViewsFit;
    var without := s.(tables := s.tables[table := true]);
    if ArchiveTable(s, table, false).Some? { ArchiveTableKeeps(s, table, false); }
    if !s.tables[table] {
      assert ActiveTables(without) == ActiveTables(s) - {table} && table in ActiveTables(s);
      assert |ActiveTables(s)| == |ActiveTables(without)| + 1;
      if f :| f in s.sources && s.sources[f].active && s.sources[f].tableId == table {
        assert !IsActiveTable(without, without.sources[f].tableId);
      }
    }
  }

  // ---- views ------------------------------------------------------------------

  /** A view can be shown when all columns it names are active columns of its
      table, each filter accepts its column's type and the sort column is not
      JSON. */
  ghost predicate CanBeShown(s: Schema, view: View) {
    (forall id :: ViewNames(view, id) ==> id in ActiveColumns(s, view.tableId)) &&
    (forall filter :: filter in view.filters && filter.columnId < |s.columns| ==>
       s.columns[filter.columnId].valueType in filter.accepts) &&
    (forall id :: view.sort == Some(id) && id < |s.columns| ==> s.columns[id].valueType != JsonType)
  }

  lemma ShownMeans(s: Schema, view: View)
    ensures ViewFits(s, view) <==> CanBeShown(s, view)
  {
    if ViewFits(s, view) {
      forall id | ViewNames(view, id) ensures id in ActiveColumns(s, view.tableId) {
        assert IsActiveIn(s, id, view.tableId);
      }
    }
    if CanBeShown(s, view) {
      forall i | 0 <= i < |view.filters|
        ensures IsActiveIn(s, view.filters[i].columnId, view.tableId) &&
                s.columns[view.filters[i].columnId].valueType in view.filters[i].accepts
      {
        assert ViewNames(view, view.filters[i].columnId) && view.filters[i] in view.filters;
      }
      if view.sort.Some? { assert ViewNames(view, view.sort.value); }
    }
  }

  /** A view of an active table is saved exactly when it can be shown, and a saved
      one stays with its table. */
  lemma SavingIsRefusedIff(s: Schema, id: ViewId, view: View)
    requires WellFormed(s)
    ensures SaveView(s, id, view) ==
            if IsActiveTable(s, view.tableId) && (id in s.views ==> s.views[id].tableId == view.tableId) &&
               CanBeShown(s, view)
            then Some(s.(views := s.views[id := view])) else None
  {
    hide ViewFits, CanBeShown, WellFormed;
    ShownMeans(s, view);
  }

  // ---- sources ----------------------------------------------------------------

  /** A source of an active table can always be paused, and resumed exactly when
      the schema stays well formed with it. */
  lemma ResumptionIsRefusedIff(s: Schema, id: SourceId, active: bool)
    requires WellFormed(s)
    ensures SetSourceStatus(s, id, active).Some? <==>
            id in s.sources && IsActiveTable(s, s.sources[id].tableId) &&
            (active ==> WellFormed(s.(sources := s.sources[id := s.sources[id].(active := true)])))
    ensures SetSourceStatus(s, id, active).Some? ==>
              SetSourceStatus(s, id, active).value ==
              s.(sources := s.sources[id := s.sources[id].(active := active)])
  {
    hide InputsStayActive, EdgesLeadBack, TablesKeepAColumn, ViewsFit, ActiveTables, MapsOnlyActive;
    if id in s.sources && active {
      var resumed := s.(sources := s.sources[id := s.sources[id].(active := true)]);
      if SetSourceStatus(s, id, active).Some? { StepKeepsWellFormed(s, SourceStatus(id, active)); }
      assert MapsOnlyActive(resumed, resumed.sources[id]) <==> MapsOnlyActive(s, s.sources[id]) by {
        SameMapping(s, resumed, id);
      }
    }
  }

  lemma SameMapping(s: Schema, after: Schema, id: SourceId)
    requires id in s.sources && id in after.sources && after.columns == s.columns &&
             after.sources[id] == s.sources[id].(active := true)
    ensures MapsOnlyActive(after, after.sources[id]) <==> MapsOnlyActive(s, s.sources[id])
  {
    assert forall c, t :: IsActiveIn(after, c, t) <==> IsActiveIn(s, c, t);
  }

  /** An applied page keeps exactly the mapped columns that are active inputs. */
  lemma {:induction false} KeptColumns(s: Schema, left: seq<ColumnId>, right: seq<ColumnId>)
    ensures forall c :: c in KeptMapping(s, left) <==>
              c in left && c < |s.columns| && !s.columns[c].archived && s.columns[c].kind == InputColumn
    ensures KeptMapping(s, left + right) == KeptMapping(s, left) + KeptMapping(s, right)
    decreases |left| + |right|
  {
    if right != [] {
      var n := |right| - 1;
      KeptColumns(s, left, right[..n]);
      assert (left + right)[..|left + right| - 1] == left + right[..n];
    } else {
      assert left + right == left;
      if left != [] {
        KeptColumns(s, left[..|left| - 1], []);
        assert left == left[..|left| - 1] + [left[|left| - 1]];
      }
    }
  }

  /** It adds exactly active text inputs of the source's table, or is refused. */
  lemma RemappingIsRefusedIff(s: Schema, id: SourceId, added: seq<ColumnId>)
    requires id in s.sources
    ensures var after := RemapSource(s, id, added);
            (after.Some? <==>
             forall c :: c in added ==>
               c in ActiveColumns(s, s.sources[id].tableId) && s.columns[c].kind == InputColumn &&
               s.columns[c].valueType == TextType) &&
            (after.Some? ==>
               after.value == s.(sources := after.value.sources) && after.value.sources.Keys == s.sources.Keys &&
               after.value.sources - {id} == s.sources - {id} &&
               after.value.sources[id] == s.sources[id].(mapping := KeptMapping(s, s.sources[id].mapping) + added))
  {
    hide KeptMapping;
    var table := s.sources[id].tableId;
    if RemapSource(s, id, added).Some? {
      forall c | c in added ensures c in ActiveColumns(s, table) {
        var i :| 0 <= i < |added| && added[i] == c;
        assert IsActiveIn(s, added[i], table);
      }
    }
    if forall c :: c in added ==> c in ActiveColumns(s, table) && s.columns[c].kind == InputColumn &&
                                  s.columns[c].valueType == TextType {
      forall i | 0 <= i < |added| ensures IsActiveIn(s, added[i], table) { assert added[i] in added; }
    }
  }

  // ---- new columns ------------------------------------------------------------

  /** The table is active, every call has between one and sixteen arguments, the
      expression is within the size limits and references columns, all of them
      active in the table, and the typing rules give it the type over them. */
  ghost predicate IsTypable(s: Schema, table: TableId, e: Expression, t: ColumnType) {
    IsActiveTable(s, table) && (forall node :: node in FormulaTypes.Walk(e) && node.Call? ==> 1 <= |node.args| <= 16) &&
    FormulaTypes.IsWithin(e, 12) && |FormulaTypes.Walk(e)| <= 128 &&
    References(e) != {} && References(e) <= ActiveColumns(s, table) && FormulaTypes.Types(e, TypesIn(s), t)
  }

  /** One active column more: the formula, of the type, with one dependency on
      each column it references. */
  ghost predicate AddsFormula(s: Schema, after: Schema, table: TableId, e: Expression, t: ColumnType) {
    var n := |s.columns|;
    after == s.(columns := after.columns) && |after.columns| == n + 1 && after.columns[..n] == s.columns &&
    after.columns[n].tableId == table && after.columns[n].kind == FormulaColumn(e) && !after.columns[n].archived &&
    after.columns[n].valueType == t &&
    Elements(after.columns[n].inputs) == References(e) && Distinct(after.columns[n].inputs)
  }

  lemma InputsMean(s: Schema, table: TableId, inputs: seq<ColumnId>)
    ensures InputsAreActive(s, table, inputs) <==> Elements(inputs) <= ActiveColumns(s, table)
    ensures inputs == [] <==> Elements(inputs) == {}
  {
    if inputs != [] { assert inputs[0] in Elements(inputs); }
    if Elements(inputs) <= ActiveColumns(s, table) {
      forall i | 0 <= i < |inputs| ensures IsActiveIn(s, inputs[i], table) { assert inputs[i] in Elements(inputs); }
    }
  }

  lemma SourceTypesSuffice(s: Schema, table: TableId, e: Expression, inputs: seq<ColumnId>)
    requires Elements(inputs) == References(e) && InputsAreActive(s, table, inputs)
    ensures FormulaTypes.Infer(e, SourceTypes(s, inputs)) == FormulaTypes.Infer(e, TypesIn(s))
  {
    forall c | c in References(e)
      ensures c in SourceTypes(s, inputs) && c in TypesIn(s) && SourceTypes(s, inputs)[c] == TypesIn(s)[c]
    {
      var i :| 0 <= i < |inputs| && inputs[i] == c;
      assert IsActiveIn(s, inputs[i], table);
    }
    FormulaTypes.InferFrame(e, SourceTypes(s, inputs), TypesIn(s));
  }

  /** A formula is accepted, with a type, exactly when it is typable with it. */
  lemma FormulaIsAcceptedIff(s: Schema, table: TableId, e: Expression, t: ColumnType)
    ensures var after := CreateFormula(s, table, e);
            (after.Some? && AddsFormula(s, after.value, table, e, t) <==> IsTypable(s, table, e, t)) &&
            (after.Some? ==> exists u :: AddsFormula(s, after.value, table, e, u))
  {
    hide FormulaTypes.Types, FormulaTypes.Infer, FormulaTypes.Validate, FormulaTypes.IsWithin, FormulaTypes.Walk,
      FormulaTypes.IsConfiguration, Mentions, References, ActiveColumns, InputsAreActive, IsActiveTable, SourceTypes,
      Elements, Distinct, TypesIn;
    var inputs := Fanout.Deduplicate(Mentions(e));
    MentionsAreReferences(e);
    InputsMean(s, table, inputs);
    FormulaTypes.ConfigurationMeans(e);
    var valid := FormulaTypes.Validate(e, SourceTypes(s, inputs));
    if InputsAreActive(s, table, inputs) { ValidMeans(s, table, e, inputs, t); }
    var after := CreateFormula(s, table, e);
    if after.Some? { assert AddsFormula(s, after.value, table, e, valid.value); }
  }

  lemma ValidMeans(s: Schema, table: TableId, e: Expression, inputs: seq<ColumnId>, t: ColumnType)
    requires Elements(inputs) == References(e) && InputsAreActive(s, table, inputs)
    ensures FormulaTypes.Validate(e, SourceTypes(s, inputs)) == Some(t) <==>
            FormulaTypes.IsWithin(e, 12) && |FormulaTypes.Walk(e)| <= 128 && FormulaTypes.Types(e, TypesIn(s), t)
    ensures FormulaTypes.Validate(e, SourceTypes(s, inputs)) != Some(EmptyType)
  {
    hide FormulaTypes.Types, FormulaTypes.Infer, FormulaTypes.IsWithin, FormulaTypes.Walk, References,
      InputsAreActive, SourceTypes, Elements, TypesIn;
    SourceTypesSuffice(s, table, e, inputs);
    FormulaTypes.ValidationMeans(e, SourceTypes(s, inputs), t);
    FormulaTypes.InferenceMeans(e, SourceTypes(s, inputs), t);
    FormulaTypes.InferenceMeans(e, TypesIn(s), t);
  }

  /** Other columns are added to active tables; a connector column without inputs
      to any table.  All inputs are active columns of the table. */
  lemma ColumnIsAcceptedIff(s: Schema, table: TableId, inputs: seq<ColumnId>, t: ColumnType)
    ensures CreateInput(s, table, t).Some? <==> table < |s.tables| && !s.tables[table]
    ensures CreateConnector(s, table, inputs, t).Some? <==>
            table < |s.tables| && (s.tables[table] ==> inputs == []) && Elements(inputs) <= ActiveColumns(s, table)
    ensures CreateInput(s, table, t).Some? ==>
              CreateInput(s, table, t).value.columns == s.columns + [ColumnRow(table, InputColumn, t, false, [])]
    ensures CreateConnector(s, table, inputs, t).Some? ==>
              CreateConnector(s, table, inputs, t).value.columns ==
              s.columns + [ColumnRow(table, ConnectorColumn, t, false, inputs)]
  {
    InputsMean(s, table, inputs);
  }
}
