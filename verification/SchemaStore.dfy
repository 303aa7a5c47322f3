/** The schema transactions as queries and updates of fields (packages/db/src/
    schema-lifecycle.ts:203-534, 897-1139; packages/db/src/grid-views.ts:84-198,
    233-280; packages/db/src/sources.ts:298-365). */
module SchemaStore {
  import opened Collections
  import opened FormulaValues
  import opened SchemaLifecycle

  class SchemaStore {
    var columns: seq<ColumnRow>
    var tables: seq<bool>
    var views: map<ViewId, View>
    var sources: map<SourceId, Source>

    /** createWorkspace. */
    constructor ()
      ensures State() == NEW_WORKSPACE && WellFormed(State())
    {
      columns := [ColumnRow(0, InputColumn, TextType, false, []), ColumnRow(0, InputColumn, TextType, false, [])];
      tables, views, sources := [false], map[], map[];
      new;
      NewWorkspaceIsWellFormed();
    }

    function State(): Schema
      reads this
    {
      Schema(columns, tables, views, sources)
    }

    // ---- the blocker queries --------------------------------------------------

    method CountActiveColumns(table: TableId) returns (count: nat)
      ensures count == |ActiveColumns(State(), table)|
    {
      count := 0;
      ghost var seen: set<ColumnId> := {};
      var c := 0;
      while c < |columns|
        invariant 0 <= c <= |columns| && count == |seen|
        invariant seen == set x | 0 <= x < c && IsActiveIn(State(), x, table)
      {
        if !columns[c].archived && columns[c].tableId == table {
          count := count + 1;
          seen := seen + {c};
        }
        c := c + 1;
      }
      assert seen == ActiveColumns(State(), table);
    }

    method CountActiveTables() returns (count: nat)
      ensures count == |ActiveTables(State())|
    {
      count := 0;
      ghost var seen: set<TableId> := {};
      var t := 0;
      while t < |tables|
        invariant 0 <= t <= |tables| && count == |seen|
        invariant seen == set x | 0 <= x < t && !tables[x]
      {
        if !tables[t] {
          count := count + 1;
          seen := seen + {t};
        }
        t := t + 1;
      }
      assert seen == ActiveTables(State());
    }

    method FindActiveDependent(id: ColumnId) returns (found: bool)
      ensures found <==> HasActiveDependent(State(), id)
    {
      var d := 0;
      while d < |columns|
        invariant 0 <= d <= |columns|
        invariant forall x :: 0 <= x < d ==> !(IsActive(State(), x) && DependsOn(State(), x, id))
      {
        if !columns[d].archived && id in columns[d].inputs {
          assert IsActive(State(), d) && DependsOn(State(), d, id);
          return true;
        }
        d := d + 1;
      }
      return false;
    }

    method FindArchivedInput(id: ColumnId) returns (found: bool)
      requires id < |columns|
      ensures found <==> exists i :: 0 <= i < |columns[id].inputs| && !IsActive(State(), columns[id].inputs[i])
    {
      var inputs := columns[id].inputs;
      var i := 0;
      while i < |inputs|
        invariant 0 <= i <= |inputs|
        invariant forall k :: 0 <= k < i ==> IsActive(State(), inputs[k])
      {
        if !IsActive(State(), inputs[i]) { return true; }
        i := i + 1;
      }
      return false;
    }

    // ---- columns --------------------------------------------------------------

    method ArchiveWorkspaceColumn(id: ColumnId, busy: bool) returns (archived: bool)
      requires WellFormed(State())
      modifies this`columns
      ensures archived <==> ArchiveColumn(old(State()), id, busy).Some?
      ensures State() == Step(old(State()), ColumnArchive(id, busy)) && WellFormed(State())
    {
      StepKeepsWellFormed(State(), ColumnArchive(id, busy));
      hide WellFormed, HasActiveDependent, SomeActiveSourceFeeds, SomeViewNames, ActiveColumns;
      if !IsActive(State(), id) || !IsActiveTable(State(), columns[id].tableId) { return false; }
      var activeColumns := CountActiveColumns(columns[id].tableId);
      if activeColumns <= 1 || busy { return false; }
      var dependent := FindActiveDependent(id);
      if dependent || SomeActiveSourceFeeds(State(), id) || SomeViewNames(State(), id) { return false; }
      columns := columns[id := columns[id].(archived := true)];
      return true;
    }

    method RestoreWorkspaceColumn(id: ColumnId) returns (restored: bool)
      requires WellFormed(State())
      modifies this`columns
      ensures restored <==> RestoreColumn(old(State()), id).Some?
      ensures State() == Step(old(State()), ColumnRestore(id)) && WellFormed(State())
    {
      StepKeepsWellFormed(State(), ColumnRestore(id));
      hide WellFormed;
      if id >= |columns| || !columns[id].archived || !IsActiveTable(State(), columns[id].tableId) { return false; }
      var missing := FindArchivedInput(id);
      if missing { return false; }
      columns := columns[id := columns[id].(archived := false)];
      return true;
    }

    method ConvertWorkspaceColumnType(id: ColumnId, target: ColumnType, busy: bool) returns (converted: bool)
      requires WellFormed(State())
      modifies this`columns
      ensures converted <==> ConvertColumn(old(State()), id, target, busy).Some?
      ensures State() == Step(old(State()), ColumnConvert(id, target, busy)) && WellFormed(State())
    {
      StepKeepsWellFormed(State(), ColumnConvert(id, target, busy));
      hide WellFormed, HasActiveDependent, SomeActiveSourceFeeds, SomeViewNames;
      if !IsActive(State(), id) || !IsActiveTable(State(), columns[id].tableId) { return false; }
      if !columns[id].kind.InputColumn? || columns[id].valueType == target { return false; }
      var dependent := FindActiveDependent(id);
      if busy || dependent || SomeActiveSourceFeeds(State(), id) || SomeViewNames(State(), id) { return false; }
      columns := columns[id := columns[id].(valueType := target)];
      return true;
    }

    // ---- tables ---------------------------------------------------------------

    method ArchiveWorkspaceTable(table: TableId, busy: bool) returns (archived: bool)
      requires WellFormed(State())
      modifies this`tables
      ensures archived <==> ArchiveTable(old(State()), table, busy).Some?
      ensures State() == Step(old(State()), TableArchive(table, busy)) && WellFormed(State())
    {
      StepKeepsWellFormed(State(), TableArchive(table, busy));
      hide WellFormed, ActiveTables;
      if !IsActiveTable(State(), table) { return false; }
      var activeTables := CountActiveTables();
      if activeTables <= 1 || busy { return false; }
      if exists f :: f in sources && sources[f].active && sources[f].tableId == table { return false; }
      tables := tables[table := true];
      return true;
    }

    method RestoreWorkspaceTable(table: TableId) returns (restored: bool)
      requires WellFormed(State())
      modifies this`tables
      ensures restored <==> RestoreTable(old(State()), table).Some?
      ensures State() == Step(old(State()), TableRestore(table)) && WellFormed(State())
    {
      StepKeepsWellFormed(State(), TableRestore(table));
      hide WellFormed;
      if table >= |tables| || !tables[table] { return false; }
      tables := tables[table := false];
      return true;
    }

    // ---- views and sources ----------------------------------------------------

    /** validateViewColumns. */
    method ValidateViewColumns(view: View) returns (valid: bool)
      ensures valid <==> ViewFits(State(), view)
    {
      var i := 0;
      while i < |view.filters|
        invariant 0 <= i <= |view.filters|
        invariant forall k :: 0 <= k < i ==>
                    IsActiveIn(State(), view.filters[k].columnId, view.tableId) &&
                    columns[view.filters[k].columnId].valueType in view.filters[k].accepts
      {
        var filter := view.filters[i];
        if !IsActiveIn(State(), filter.columnId, view.tableId) { return false; }
        if columns[filter.columnId].valueType !in filter.accepts { return false; }
        i := i + 1;
      }
      if view.sort.None? { return true; }
      return IsActiveIn(State(), view.sort.value, view.tableId) && !columns[view.sort.value].valueType.JsonType?;
    }

    method SaveGridView(id: ViewId, view: View) returns (saved: bool)
      requires WellFormed(State())
      modifies this`views
      ensures saved <==> SaveView(old(State()), id, view).Some?
      ensures State() == Step(old(State()), ViewSave(id, view)) && WellFormed(State())
    {
      StepKeepsWellFormed(State(), ViewSave(id, view));
      hide WellFormed, ViewFits;
      if !IsActiveTable(State(), view.tableId) { return false; }
      var valid := ValidateViewColumns(view);
      if !valid || (id in views && views[id].tableId != view.tableId) { return false; }
      views := views[id := view];
      return true;
    }

    method DeleteGridView(id: ViewId) returns (deleted: bool)
      requires WellFormed(State())
      modifies this`views
      ensures State() == Step(old(State()), ViewDelete(id)) && WellFormed(State())
    {
      StepKeepsWellFormed(State(), ViewDelete(id));
      hide WellFormed;
      if id !in views || !IsActiveTable(State(), views[id].tableId) { return false; }
      views := views - {id};
      return true;
    }

    method SetStatus(id: SourceId, active: bool) returns (updated: bool)
      requires WellFormed(State())
      modifies this`sources
      ensures updated <==> SetSourceStatus(old(State()), id, active).Some?
      ensures State() == Step(old(State()), SourceStatus(id, active)) && WellFormed(State())
    {
      StepKeepsWellFormed(State(), SourceStatus(id, active));
      hide WellFormed;
      if id !in sources || !IsActiveTable(State(), sources[id].tableId) { return false; }
      if active {
        var mapping := sources[id].mapping;
        var i := 0;
        while i < |mapping|
          invariant 0 <= i <= |mapping|
          invariant forall k :: 0 <= k < i ==> IsActiveIn(State(), mapping[k], sources[id].tableId)
        {
          if !IsActiveIn(State(), mapping[i], sources[id].tableId) { return false; }
          i := i + 1;
        }
      }
      sources := sources[id := sources[id].(active := active)];
      return true;
    }
  }
}
