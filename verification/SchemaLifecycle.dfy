/** The life of tables, columns, saved views and sources
    (packages/db/src/schema-lifecycle.ts:203-534, 540-745, 897-1139 with the
    create functions of tables.ts, formulas.ts, enrichments.ts, grid-views.ts and
    sources.ts): what every sequence of schema changes keeps. */
module SchemaLifecycle {
  import opened Collections
  import opened FormulaValues
  import EnrichmentCascade
  import Fanout
  import FormulaGraph
  import FormulaRecompute
  import FormulaTypes
  import RowSettlements

  type TableId = nat
  type ColumnId = nat
  type ViewId = nat
  type SourceId = nat

  type ColumnType = t: ValueType | t != EmptyType witness TextType

  datatype Kind = InputColumn | FormulaColumn(expression: Expression) | ConnectorColumn

  /** A column; `inputs` are its column_dependencies. */
  datatype ColumnRow = ColumnRow(tableId: TableId, kind: Kind, valueType: ColumnType, archived: bool,
                                 inputs: seq<ColumnId>)

  /** A filter leaf and the column types its operator accepts. */
  datatype Filter = Filter(columnId: ColumnId, accepts: set<ColumnType>)
  datatype View = View(tableId: TableId, filters: seq<Filter>, sort: Option<ColumnId>)
  datatype Source = Source(tableId: TableId, mapping: seq<ColumnId>, active: bool)

  /** Columns and tables in creation order: an identifier is an index.  A table is
      represented by whether it is archived. */
  datatype Schema = Schema(columns: seq<ColumnRow>, tables: seq<bool>, views: map<ViewId, View>,
                           sources: map<SourceId, Source>)

  // ---- reading ----------------------------------------------------------------

  predicate IsActive(s: Schema, id: ColumnId) {
    id < |s.columns| && !s.columns[id].archived
  }

  predicate IsActiveIn(s: Schema, id: ColumnId, table: TableId) {
    IsActive(s, id) && s.columns[id].tableId == table
  }

  predicate IsActiveTable(s: Schema, table: TableId) {
    table < |s.tables| && !s.tables[table]
  }

  function ActiveTables(s: Schema): set<TableId> {
    set t | 0 <= t < |s.tables| && !s.tables[t]
  }

  function ActiveColumns(s: Schema, table: TableId): set<ColumnId> {
    set c | 0 <= c < |s.columns| && IsActiveIn(s, c, table)
  }

  predicate DependsOn(s: Schema, dependent: ColumnId, id: ColumnId) {
    dependent < |s.columns| && id in s.columns[dependent].inputs
  }

  predicate HasActiveDependent(s: Schema, id: ColumnId) {
    exists d :: 0 <= d < |s.columns| && IsActive(s, d) && DependsOn(s, d, id)
  }

  predicate ViewNames(view: View, id: ColumnId) {
    view.sort == Some(id) || exists i :: 0 <= i < |view.filters| && view.filters[i].columnId == id
  }

  predicate SomeViewNames(s: Schema, id: ColumnId) {
    exists v :: v in s.views && ViewNames(s.views[v], id)
  }

  predicate SomeActiveSourceFeeds(s: Schema, id: ColumnId) {
    exists f :: f in s.sources && s.sources[f].active && id in s.sources[f].mapping
  }

  // ---- transactions; None is a refusal ----------------------------------------

  function AddColumn(s: Schema, column: ColumnRow): Schema {
    s.(columns := s.columns + [column])
  }

  function CreateTable(s: Schema, firstType: ColumnType): Schema {
    s.(tables := s.tables + [false], columns := s.columns + [ColumnRow(|s.tables|, InputColumn, firstType, false, [])])
  }

  function CreateInput(s: Schema, table: TableId, valueType: ColumnType): Option<Schema> {
    if !IsActiveTable(s, table) then None else Some(AddColumn(s, ColumnRow(table, InputColumn, valueType, false, [])))
  }

  predicate InputsAreActive(s: Schema, table: TableId, inputs: seq<ColumnId>) {
    forall i :: 0 <= i < |inputs| ==> IsActiveIn(s, inputs[i], table)
  }

  /** The columns a formula mentions, as its tree is walked. */
  function Mentions(e: Expression): seq<ColumnId>
    decreases e, 1
  {
    match e
    case Column(id) => [id]
    case Literal(_) => []
    case Call(_, args) => MentionsOf(args)
  }

  function MentionsOf(args: seq<Expression>): seq<ColumnId>
    decreases args, 0
  {
    if args == [] then [] else Mentions(args[0]) + MentionsOf(args[1..])
  }

  lemma {:induction false} MentionsAreReferences(e: Expression)
    ensures Elements(Mentions(e)) == References(e)
    decreases e, 1
  {
    if e.Call? { AllMentionsAreReferences(e.args); }
  }

  lemma {:induction false} AllMentionsAreReferences(args: seq<Expression>)
    ensures Elements(MentionsOf(args)) == ReferencesOf(args)
    decreases args, 0
  {
    if args != [] {
      MentionsAreReferences(args[0]);
      AllMentionsAreReferences(args[1..]);
      assert Elements(MentionsOf(args)) == Elements(Mentions(args[0])) + Elements(MentionsOf(args[1..]));
    }
  }

  function TypesIn(s: Schema): FormulaTypes.ColumnTypes {
    map c: ColumnId | 0 <= c < |s.columns| :: s.columns[c].valueType
  }

  /** The types of the source columns a new formula is validated against. */
  function SourceTypes(s: Schema, inputs: seq<ColumnId>): FormulaTypes.ColumnTypes {
    map c | c in inputs && c < |s.columns| :: s.columns[c].valueType
  }

  /** createFormulaColumn, from the parsed expression on. */
  function CreateFormula(s: Schema, table: TableId, expression: Expression): Option<Schema> {
    var inputs := Fanout.Deduplicate(Mentions(expression));
    if !IsActiveTable(s, table) || !FormulaTypes.IsConfiguration(expression) || inputs == [] ||
       !InputsAreActive(s, table, inputs) then None
    else
      match FormulaTypes.Validate(expression, SourceTypes(s, inputs))
      case None => None
      case Some(valueType) => Some(AddColumn(s, ColumnRow(table, FormulaColumn(expression), valueType, false, inputs)))
  }

  /** createConnectorColumn and the two waterfall columns. */
  function CreateConnector(s: Schema, table: TableId, inputs: seq<ColumnId>, valueType: ColumnType): Option<Schema> {
    if table >= |s.tables| || (inputs != [] && !IsActiveTable(s, table)) || !InputsAreActive(s, table, inputs) then None
    else Some(AddColumn(s, ColumnRow(table, ConnectorColumn, valueType, false, inputs)))
  }

  /** `busy` stands for the blockers outside this state: work in progress, active
      webhooks and writebacks. */
  function ArchiveTable(s: Schema, table: TableId, busy: bool): Option<Schema> {
    if !IsActiveTable(s, table) || |ActiveTables(s)| <= 1 || busy ||
       (exists f :: f in s.sources && s.sources[f].active && s.sources[f].tableId == table)
    then None
    else Some(s.(tables := s.tables[table := true]))
  }

  function RestoreTable(s: Schema, table: TableId): Option<Schema> {
    if table < |s.tables| && s.tables[table] then Some(s.(tables := s.tables[table := false])) else None
  }

  function WithColumn(s: Schema, id: ColumnId, column: ColumnRow): Schema
    requires id < |s.columns|
  {
    s.(columns := s.columns[id := column])
  }

  function ArchiveColumn(s: Schema, id: ColumnId, busy: bool): Option<Schema> {
    if !IsActive(s, id) || !IsActiveTable(s, s.columns[id].tableId) then None
    else if |ActiveColumns(s, s.columns[id].tableId)| <= 1 || busy || HasActiveDependent(s, id) ||
            SomeActiveSourceFeeds(s, id) || SomeViewNames(s, id) then None
    else Some(WithColumn(s, id, s.columns[id].(archived := true)))
  }

  function RestoreColumn(s: Schema, id: ColumnId): Option<Schema> {
    if id >= |s.columns| || !s.columns[id].archived || !IsActiveTable(s, s.columns[id].tableId) then None
    else if exists i :: 0 <= i < |s.columns[id].inputs| && !IsActive(s, s.columns[id].inputs[i]) then None
    else Some(WithColumn(s, id, s.columns[id].(archived := false)))
  }

  /** convertWorkspaceColumnType; `busy` also stands for cells that fail to
      convert, endpoints and writebacks. */
  function ConvertColumn(s: Schema, id: ColumnId, target: ColumnType, busy: bool): Option<Schema> {
    if !IsActive(s, id) || !IsActiveTable(s, s.columns[id].tableId) || !s.columns[id].kind.InputColumn? ||
       s.columns[id].valueType == target
    then None
    else if busy || HasActiveDependent(s, id) || SomeActiveSourceFeeds(s, id) || SomeViewNames(s, id) then None
    else Some(WithColumn(s, id, s.columns[id].(valueType := target)))
  }

  /** validateViewColumns. */
  predicate ViewFits(s: Schema, view: View) {
    (forall i :: 0 <= i < |view.filters| ==>
       IsActiveIn(s, view.filters[i].columnId, view.tableId) &&
       s.columns[view.filters[i].columnId].valueType in view.filters[i].accepts) &&
    (view.sort.Some? ==>
     IsActiveIn(s, view.sort.value, view.tableId) && !s.columns[view.sort.value].valueType.JsonType?)
  }

  /** createSavedGridView and updateSavedGridView. */
  function SaveView(s: Schema, id: ViewId, view: View): Option<Schema> {
    if !IsActiveTable(s, view.tableId) || !ViewFits(s, view) ||
       (id in s.views && s.views[id].tableId != view.tableId) then None
    else Some(s.(views := s.views[id := view]))
  }

  function DeleteView(s: Schema, id: ViewId): Option<Schema> {
    if id in s.views && IsActiveTable(s, s.views[id].tableId) then Some(s.(views := s.views - {id})) else None
  }

  function CreateSource(s: Schema, id: SourceId, table: TableId): Option<Schema> {
    if id in s.sources || !IsActiveTable(s, table) then None
       else Some(s.(sources := s.sources[id := Source(table, [], true)]))
  }

  predicate MapsOnlyActive(s: Schema, source: Source) {
    forall i :: 0 <= i < |source.mapping| ==> IsActiveIn(s, source.mapping[i], source.tableId)
  }

  function SetSourceStatus(s: Schema, id: SourceId, active: bool): Option<Schema> {
    if id !in s.sources || !IsActiveTable(s, s.sources[id].tableId) then None
    else if active && !MapsOnlyActive(s, s.sources[id]) then None
    else Some(s.(sources := s.sources[id := s.sources[id].(active := active)]))
  }

  function KeptMapping(s: Schema, mapping: seq<ColumnId>): seq<ColumnId> {
    if mapping == [] then []
    else
      var last := mapping[|mapping| - 1];
      KeptMapping(s, mapping[..|mapping| - 1]) + if IsActive(s, last) && s.columns[last].kind.InputColumn? then [last]
                                                 else []
  }

  /** What an applied page does to the mapping: active input columns stay, and
      each new field gets an active text input column of the table (columns it
      inserts are separate CreateInput steps before it). */
  function RemapSource(s: Schema, id: SourceId, added: seq<ColumnId>): Option<Schema> {
    if id !in s.sources then None
    else if exists i :: 0 <= i < |added| && !(IsActiveIn(s, added[i], s.sources[id].tableId) &&
                                              s.columns[added[i]].kind.InputColumn? &&
                                              s.columns[added[i]].valueType.TextType?) then None
    else Some(s.(sources := s.sources[id := s.sources[id].(mapping := KeptMapping(s, s.sources[id].mapping) + added)]))
  }

  datatype Event =
    | NewTable(firstType: ColumnType)
    | NewInput(table: TableId, valueType: ColumnType)
    | NewFormula(table: TableId, expression: Expression)
    | NewConnector(table: TableId, inputs: seq<ColumnId>, valueType: ColumnType)
    | TableArchive(table: TableId, busy: bool)
    | TableRestore(table: TableId)
    | ColumnArchive(column: ColumnId, busy: bool)
    | ColumnRestore(column: ColumnId)
    | ColumnConvert(column: ColumnId, target: ColumnType, busy: bool)
    | ViewSave(viewId: ViewId, view: View)
    | ViewDelete(viewId: ViewId)
    | SourceCreate(sourceId: SourceId, table: TableId)
    | SourceStatus(sourceId: SourceId, active: bool)
    | SourceRemap(sourceId: SourceId, added: seq<ColumnId>)

  function Attempt(s: Schema, event: Event): Option<Schema> {
    match event
    case NewTable(firstType) => Some(CreateTable(s, firstType))
    case NewInput(table, valueType) => CreateInput(s, table, valueType)
    case NewFormula(table, expression) => CreateFormula(s, table, expression)
    case NewConnector(table, inputs, valueType) => CreateConnector(s, table, inputs, valueType)
    case TableArchive(table, busy) => ArchiveTable(s, table, busy)
    case TableRestore(table) => RestoreTable(s, table)
    case ColumnArchive(id, busy) => ArchiveColumn(s, id, busy)
    case ColumnRestore(id) => RestoreColumn(s, id)
    case ColumnConvert(id, target, busy) => ConvertColumn(s, id, target, busy)
    case ViewSave(id, view) => SaveView(s, id, view)
    case ViewDelete(id) => DeleteView(s, id)
    case SourceCreate(id, table) => CreateSource(s, id, table)
    case SourceStatus(id, active) => SetSourceStatus(s, id, active)
    case SourceRemap(id, added) => RemapSource(s, id, added)
  }

  function Step(s: Schema, event: Event): Schema {
    Attempt(s, event).GetOr(s)
  }

  // ---- what every step keeps --------------------------------------------------

  /** Dependencies lead to earlier columns of the same table, and those of a
      formula are the columns it references. */
  ghost predicate ColumnIsRooted(s: Schema, id: ColumnId)
    requires id < |s.columns|
  {
    s.columns[id].tableId < |s.tables| &&
    (s.columns[id].kind.FormulaColumn? ==>
     Elements(s.columns[id].inputs) == References(s.columns[id].kind.expression)) &&
    forall i :: 0 <= i < |s.columns[id].inputs| ==>
      s.columns[id].inputs[i] < id && s.columns[s.columns[id].inputs[i]].tableId == s.columns[id].tableId
  }

  ghost predicate EdgesLeadBack(s: Schema) {
    forall id :: 0 <= id < |s.columns| ==> ColumnIsRooted(s, id)
  }

  ghost predicate InputsStayActive(s: Schema) {
    forall d, id :: 0 <= d < |s.columns| && IsActive(s, d) && DependsOn(s, d, id) ==> IsActive(s, id)
  }

  ghost predicate TablesKeepAColumn(s: Schema) {
    forall t :: 0 <= t < |s.tables| ==> ActiveColumns(s, t) != {}
  }

  ghost predicate ViewsFit(s: Schema) {
    forall v :: v in s.views ==> ViewFits(s, s.views[v])
  }

  ghost predicate SourcesFit(s: Schema) {
    forall f :: f in s.sources && s.sources[f].active ==>
      IsActiveTable(s, s.sources[f].tableId) && MapsOnlyActive(s, s.sources[f])
  }

  ghost predicate WellFormed(s: Schema) {
    EdgesLeadBack(s) && InputsStayActive(s) && TablesKeepAColumn(s) && ActiveTables(s) != {} && ViewsFit(s) &&
    SourcesFit(s)
  }

  lemma AddedInputsAreActive(s: Schema, after: Schema, column: ColumnRow)
    requires InputsStayActive(s) && after.columns == s.columns + [column] &&
             InputsAreActive(s, column.tableId, column.inputs)
    ensures InputsStayActive(after)
  {
    forall d, id | 0 <= d < |after.columns| && IsActive(after, d) && DependsOn(after, d, id)
      ensures IsActive(after, id)
    {
      if d < |s.columns| {
        assert IsActive(s, d) && DependsOn(s, d, id);
      } else {
        var i :| 0 <= i < |column.inputs| && column.inputs[i] == id;
        assert IsActiveIn(s, column.inputs[i], column.tableId);
      }
    }
  }

  lemma AddColumnKeeps(s: Schema, column: ColumnRow)
    requires WellFormed(s) && column.tableId < |s.tables| && InputsAreActive(s, column.tableId, column.inputs)
    requires column.kind.FormulaColumn? ==> Elements(column.inputs) == References(column.kind.expression)
    ensures WellFormed(AddColumn(s, column))
  {
    var after := AddColumn(s, column);
    assert forall c :: 0 <= c < |s.columns| ==> after.columns[c] == s.columns[c];
    assert after.columns[|s.columns|] == column;
    forall t | 0 <= t < |s.tables| ensures ActiveColumns(after, t) != {} {
      var c :| c in ActiveColumns(s, t);
      assert c in ActiveColumns(after, t);
    }
    assert ActiveTables(after) == ActiveTables(s);
    forall id | 0 <= id < |after.columns| ensures ColumnIsRooted(after, id) {
      if id < |s.columns| { assert ColumnIsRooted(s, id); }
    }
    ColumnsOnlyGrow(s, after);
    AddedInputsAreActive(s, after, column);
  }

  /** Adding columns or tables keeps views and sources fitting. */
  lemma ColumnsOnlyGrow(s: Schema, after: Schema)
    requires ViewsFit(s) && SourcesFit(s) && after.views == s.views && after.sources == s.sources
    requires s.columns <= after.columns && s.tables <= after.tables
    ensures ViewsFit(after) && SourcesFit(after)
  {
  }

  lemma CreateTableKeeps(s: Schema, firstType: ColumnType)
    requires WellFormed(s)
    ensures WellFormed(CreateTable(s, firstType))
  {
    var after := CreateTable(s, firstType);
    AddedInputsAreActive(s, after, after.columns[|s.columns|]);
    assert forall c :: 0 <= c < |s.columns| ==> after.columns[c] == s.columns[c];
    forall t | 0 <= t < |after.tables| ensures ActiveColumns(after, t) != {} {
      if t < |s.tables| {
        var c :| c in ActiveColumns(s, t);
        assert c in ActiveColumns(after, t);
      } else {
        assert |s.columns| in ActiveColumns(after, t);
      }
    }
    assert |s.tables| in ActiveTables(after);
    forall id | 0 <= id < |after.columns| ensures ColumnIsRooted(after, id) {
      if id < |s.columns| { assert ColumnIsRooted(s, id); }
    }
    ColumnsOnlyGrow(s, after);
  }

  lemma OneLeft<T>(all: set<T>, gone: T)
    requires |all| > 1
    ensures all - {gone} != {}
  {
    if all - {gone} == {} {
      assert all <= {gone};
      SubsetCount(all, {gone});
    }
  }

  lemma SameInputs(s: Schema, after: Schema)
    requires InputsStayActive(s) && after.columns == s.columns
    ensures InputsStayActive(after)
  {
    forall d, id | 0 <= d < |after.columns| && IsActive(after, d) && DependsOn(after, d, id)
      ensures IsActive(after, id)
    {
      assert IsActive(s, d) && DependsOn(s, d, id);
    }
  }

  lemma ArchiveTableKeeps(s: Schema, table: TableId, busy: bool)
    requires WellFormed(s) && ArchiveTable(s, table, busy).Some?
    ensures WellFormed(ArchiveTable(s, table, busy).value)
  {
    var after := ArchiveTable(s, table, busy).value;
    SameInputs(s, after);
    OneLeft(ActiveTables(s), table);
    assert ActiveTables(after) == ActiveTables(s) - {table};
    forall t ensures ActiveColumns(after, t) == ActiveColumns(s, t) {}
    forall id | 0 <= id < |s.columns| ensures ColumnIsRooted(after, id) { assert ColumnIsRooted(s, id); }
  }

  lemma RestoreTableKeeps(s: Schema, table: TableId)
    requires WellFormed(s) && RestoreTable(s, table).Some?
    ensures WellFormed(RestoreTable(s, table).value)
  {
    var after := RestoreTable(s, table).value;
    SameInputs(s, after);
    assert table in ActiveTables(after);
    forall t ensures ActiveColumns(after, t) == ActiveColumns(s, t) {}
    forall id | 0 <= id < |s.columns| ensures ColumnIsRooted(after, id) { assert ColumnIsRooted(s, id); }
  }

  /** A column changes; who it depends on and its table do not. */
  ghost predicate SameEdges(a: ColumnRow, b: ColumnRow) {
    a.tableId == b.tableId && a.inputs == b.inputs && a.kind == b.kind
  }

  lemma ColumnChangeKeepsEdges(s: Schema, id: ColumnId, column: ColumnRow)
    requires EdgesLeadBack(s) && id < |s.columns| && SameEdges(column, s.columns[id])
    ensures EdgesLeadBack(WithColumn(s, id, column))
  {
    var after := WithColumn(s, id, column);
    forall c | 0 <= c < |s.columns| ensures ColumnIsRooted(after, c) { assert ColumnIsRooted(s, c); }
  }

  /** Views and active sources that do not name the column do not notice. */
  lemma UnnamedColumnIsFree(s: Schema, id: ColumnId, column: ColumnRow)
    requires ViewsFit(s) && SourcesFit(s) && id < |s.columns| && column.tableId == s.columns[id].tableId
    requires !SomeViewNames(s, id) && !SomeActiveSourceFeeds(s, id)
    ensures ViewsFit(WithColumn(s, id, column)) && SourcesFit(WithColumn(s, id, column))
  {
    var after := WithColumn(s, id, column);
    forall v | v in s.views ensures ViewFits(after, s.views[v]) {
      assert !ViewNames(s.views[v], id);
    }
    forall f | f in s.sources && s.sources[f].active ensures MapsOnlyActive(after, s.sources[f]) {
      assert id !in s.sources[f].mapping;
    }
  }

  lemma ArchiveColumnKeeps(s: Schema, id: ColumnId, busy: bool)
    requires WellFormed(s) && ArchiveColumn(s, id, busy).Some?
    ensures WellFormed(ArchiveColumn(s, id, busy).value)
  {
    hide ViewFits, MapsOnlyActive, SomeViewNames, SomeActiveSourceFeeds, ColumnIsRooted;
    var column := s.columns[id].(archived := true);
    var after := WithColumn(s, id, column);
    ColumnChangeKeepsEdges(s, id, column);
    UnnamedColumnIsFree(s, id, column);
    assert ActiveTables(after) == ActiveTables(s);
    OneLeft(ActiveColumns(s, column.tableId), id);
    forall t | 0 <= t < |s.tables| ensures ActiveColumns(after, t) != {} {
      assert ActiveColumns(after, t) == ActiveColumns(s, t) - {id};
      assert t != column.tableId ==> id !in ActiveColumns(s, t);
    }
    assert forall d, c :: 0 <= d < |s.columns| && IsActive(after, d) && DependsOn(after, d, c) ==>
             IsActive(s, d) && DependsOn(s, d, c);
  }

  lemma RestoreColumnKeeps(s: Schema, id: ColumnId)
    requires WellFormed(s) && RestoreColumn(s, id).Some?
    ensures WellFormed(RestoreColumn(s, id).value)
  {
    hide ViewFits, MapsOnlyActive, ColumnIsRooted;
    var column := s.columns[id].(archived := false);
    var after := WithColumn(s, id, column);
    ColumnChangeKeepsEdges(s, id, column);
    RestoringFreesNothing(s, id);
    assert ActiveTables(after) == ActiveTables(s);
    forall t | 0 <= t < |s.tables| ensures ActiveColumns(after, t) != {} {
      var c :| c in ActiveColumns(s, t);
      assert c in ActiveColumns(after, t);
    }
    assert forall c :: IsActive(s, c) ==> IsActive(after, c);
    forall d, c | 0 <= d < |s.columns| && IsActive(after, d) && DependsOn(after, d, c) ensures IsActive(after, c) {
      if d != id { assert IsActive(s, d) && DependsOn(s, d, c); }
    }
  }

  lemma RestoringFreesNothing(s: Schema, id: ColumnId)
    requires ViewsFit(s) && SourcesFit(s) && id < |s.columns| && s.columns[id].archived
    ensures ViewsFit(WithColumn(s, id, s.columns[id].(archived := false))) &&
            SourcesFit(WithColumn(s, id, s.columns[id].(archived := false)))
  {
    var after := WithColumn(s, id, s.columns[id].(archived := false));
    forall v | v in s.views ensures ViewFits(after, s.views[v]) {
      assert ViewFits(s, s.views[v]);
    }
  }

  lemma ConvertColumnKeeps(s: Schema, id: ColumnId, target: ColumnType, busy: bool)
    requires WellFormed(s) && ConvertColumn(s, id, target, busy).Some?
    ensures WellFormed(ConvertColumn(s, id, target, busy).value)
  {
    hide ViewFits, MapsOnlyActive, SomeViewNames, SomeActiveSourceFeeds, ColumnIsRooted;
    var column := s.columns[id].(valueType := target);
    var after := WithColumn(s, id, column);
    ColumnChangeKeepsEdges(s, id, column);
    UnnamedColumnIsFree(s, id, column);
    assert ActiveTables(after) == ActiveTables(s);
    forall t | 0 <= t < |s.tables| ensures ActiveColumns(after, t) != {} {
      assert ActiveColumns(after, t) == ActiveColumns(s, t);
    }
    assert forall d, c :: DependsOn(after, d, c) <==> DependsOn(s, d, c);
    assert forall c :: IsActive(after, c) <==> IsActive(s, c);
  }

  lemma SameColumns(s: Schema, after: Schema)
    requires WellFormed(s) && after.columns == s.columns && after.tables == s.tables && ViewsFit(after) &&
             SourcesFit(after)
    ensures WellFormed(after)
  {
    SameInputs(s, after);
    assert ActiveTables(after) == ActiveTables(s);
    forall t ensures ActiveColumns(after, t) == ActiveColumns(s, t) {}
    forall id | 0 <= id < |s.columns| ensures ColumnIsRooted(after, id) { assert ColumnIsRooted(s, id); }
  }

  lemma {:induction false} KeptAreActive(s: Schema, mapping: seq<ColumnId>, i: nat)
    requires i < |KeptMapping(s, mapping)|
    ensures IsActive(s, KeptMapping(s, mapping)[i]) && KeptMapping(s, mapping)[i] in mapping
  {
    var n := |mapping| - 1;
    if i < |KeptMapping(s, mapping[..n])| { KeptAreActive(s, mapping[..n], i); }
  }

  lemma ViewOrSourceKeeps(s: Schema, event: Event)
    requires WellFormed(s) && (event.ViewSave? || event.ViewDelete? || event.SourceCreate? || event.SourceStatus? ||
                               event.SourceRemap?)
    ensures WellFormed(Step(s, event))
  {
    hide EdgesLeadBack, InputsStayActive, TablesKeepAColumn, ActiveTables, KeptMapping;
    var after := Step(s, event);
    if after != s {
      forall v | v in after.views ensures ViewFits(after, after.views[v]) {
        if v in s.views && after.views[v] == s.views[v] { assert ViewFits(s, s.views[v]); }
      }
      if event.SourceRemap? { RemapFits(s, event.sourceId, event.added); }
      SameColumns(s, after);
    }
  }

  lemma RemapFits(s: Schema, id: SourceId, added: seq<ColumnId>)
    requires SourcesFit(s) && RemapSource(s, id, added).Some?
    ensures SourcesFit(RemapSource(s, id, added).value)
  {
    hide KeptMapping;
    var after := RemapSource(s, id, added).value;
    var source := s.sources[id];
    if source.active {
      forall i | 0 <= i < |after.sources[id].mapping|
        ensures IsActiveIn(after, after.sources[id].mapping[i], source.tableId)
      {
        if i < |KeptMapping(s, source.mapping)| { KeptAreActive(s, source.mapping, i); }
      }
    }
  }

  lemma StepKeepsWellFormed(s: Schema, event: Event)
    requires WellFormed(s)
    ensures WellFormed(Step(s, event))
  {
    hide WellFormed, SaveView, DeleteView, CreateSource, SetSourceStatus, RemapSource, ArchiveTable, RestoreTable,
      ArchiveColumn, RestoreColumn, ConvertColumn, CreateTable;
    if Attempt(s, event).Some? {
      match event
      case NewTable(firstType) => CreateTableKeeps(s, firstType);
      case NewInput(table, valueType) => AddColumnKeeps(s, ColumnRow(table, InputColumn, valueType, false, []));
      case NewFormula(table, expression) =>
        MentionsAreReferences(expression);
        AddColumnKeeps(s, CreateFormula(s, table, expression).value.columns[|s.columns|]);
      case NewConnector(table, inputs, valueType) =>
        AddColumnKeeps(s, ColumnRow(table, ConnectorColumn, valueType, false, inputs));
      case TableArchive(table, busy) => ArchiveTableKeeps(s, table, busy);
      case TableRestore(table) => RestoreTableKeeps(s, table);
      case ColumnArchive(id, busy) => ArchiveColumnKeeps(s, id, busy);
      case ColumnRestore(id) => RestoreColumnKeeps(s, id);
      case ColumnConvert(id, target, busy) => ConvertColumnKeeps(s, id, target, busy);
      case _ => ViewOrSourceKeeps(s, event);
    }
  }

  /** createWorkspace: a starter table with two text columns. */
  const NEW_WORKSPACE: Schema :=
    Schema([ColumnRow(0, InputColumn, TextType, false, []), ColumnRow(0, InputColumn, TextType, false, [])], [false],
           map[], map[])

  function RunAll(events: seq<Event>): Schema {
    if events == [] then NEW_WORKSPACE else Step(RunAll(events[..|events| - 1]), events[|events| - 1])
  }

  /** After any sequence of schema changes: edges lead back, every dependency of
      an active column is active, every table keeps an active column and the
      workspace an active table, saved views name active columns of types their
      filters accept, and active sources feed active columns of active tables. */
  lemma {:induction false} EveryHistoryIsWellFormed(events: seq<Event>)
    ensures WellFormed(RunAll(events))
  {
    hide WellFormed, Step;
    if events == [] {
      NewWorkspaceIsWellFormed();
    } else {
      EveryHistoryIsWellFormed(events[..|events| - 1]);
      StepKeepsWellFormed(RunAll(events[..|events| - 1]), events[|events| - 1]);
    }
  }

  lemma NewWorkspaceIsWellFormed()
    ensures WellFormed(NEW_WORKSPACE)
  {
    assert 0 in ActiveTables(NEW_WORKSPACE);
    assert 0 in ActiveColumns(NEW_WORKSPACE, 0);
  }

  // ---- the graph stays acyclic ------------------------------------------------

  /** A listing of column_dependencies. */
  ghost predicate Lists(s: Schema, deps: seq<FormulaGraph.Dependency>) {
    forall e :: e in deps ==> e.columnId < |s.columns| && e.dependsOnColumnId in s.columns[e.columnId].inputs
  }

  lemma {:induction false} WalksClimb(s: Schema, deps: seq<FormulaGraph.Dependency>, walk: seq<ColumnId>, n: nat)
    requires EdgesLeadBack(s) && Lists(s, deps) && FormulaGraph.IsWalk(deps, walk) && 0 < n < |walk|
    ensures walk[0] < walk[n]
  {
    var e := FormulaGraph.Dependency(walk[n], walk[n - 1]);
    assert e in deps && ColumnIsRooted(s, e.columnId);
    if n > 1 { WalksClimb(s, deps, walk, n - 1); }
  }

  /** Whatever happened to the schema, recomputing a row never fails with the
      cyclic error. */
  lemma CyclicErrorIsUnreachable(events: seq<Event>, p: FormulaValues.Platform, schema: FormulaRecompute.Schema,
                                 cells: FormulaRecompute.RowCells, changed: seq<ColumnId>)
    requires Lists(RunAll(events), schema.dependencies)
    ensures FormulaRecompute.RecomputeRow(p, schema, cells,
                                          changed) != FormulaRecompute.Aborted(FormulaRecompute.CyclicGraph)
  {
    hide RunAll;
    EveryHistoryIsWellFormed(events);
    FormulaRecompute.CyclicErrorIffCycle(p, schema, cells, changed);
    GraphIsAcyclic(RunAll(events), schema.dependencies);
  }

  /** Automatic enrichment always ends: whatever happened to the schema, a
      cascade over its dependencies is no longer than its potential. */
  lemma AutomaticCascadesEnd(events: seq<Event>, a: RowSettlements.Automation, s: EnrichmentCascade.Cascade,
                             ticks: seq<EnrichmentCascade.Tick>)
    requires Lists(RunAll(events), a.dependencies)
    requires EnrichmentCascade.WellFormed(s) && EnrichmentCascade.IsCascade(a, s, ticks)
    ensures |ticks| <= EnrichmentCascade.Potential(a.dependencies, s)
  {
    hide RunAll, EnrichmentCascade.WellFormed, EnrichmentCascade.IsCascade, EnrichmentCascade.Potential;
    EveryHistoryIsWellFormed(events);
    GraphIsAcyclic(RunAll(events), a.dependencies);
    EnrichmentCascade.EveryCascadeIsFinite(a, s, ticks);
  }

  lemma GraphIsAcyclic(s: Schema, deps: seq<FormulaGraph.Dependency>)
    requires WellFormed(s) && Lists(s, deps)
    ensures FormulaGraph.Acyclic(deps)
    ensures forall walk: seq<ColumnId>, within: set<ColumnId> :: !FormulaGraph.IsCycle(deps, within, walk)
  {
    forall walk: seq<ColumnId>, within: set<ColumnId> ensures !FormulaGraph.IsCycle(deps, within, walk) {
      if FormulaGraph.IsWalk(deps, walk) { WalksClimb(s, deps, walk, |walk| - 1); }
    }
  }
}
