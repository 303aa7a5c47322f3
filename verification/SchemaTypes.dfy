/** Column types over the life of a schema (packages/db/src/schema-lifecycle.ts:
    315-534, 600-745; packages/db/src/sources.ts:298-349): when formulas keep the
    types they were validated for and sources keep feeding text. */
module SchemaTypes {
  import opened Collections
  import opened FormulaValues
  import opened SchemaLifecycle
  import FormulaGraph
  import FormulaRecompute
  import FormulaTraversal
  import FormulaTypes

  // ---- conversions in a history -----------------------------------------------

  predicate Converts(s: Schema, event: Event, id: ColumnId) {
    event.ColumnConvert? && event.column == id && Attempt(s, event).Some?
  }

  /** The target of the last conversion of a column that succeeded from step
      `from` on. */
  function LastTarget(events: seq<Event>, from: nat, id: ColumnId): Option<ColumnType> {
    if |events| <= from then None
    else
      var n := |events| - 1;
      if Converts(RunAll(events[..n]), events[n], id) then Some(events[n].target) else LastTarget(events[..n], from, id)
  }

  /** The types at step `from` with the conversions since. */
  function ConvertedTypes(events: seq<Event>, from: nat): FormulaTypes.ColumnTypes
    requires from <= |events|
  {
    var start := RunAll(events[..from]);
    map c: ColumnId | 0 <= c < |start.columns| :: LastTarget(events, from, c).GetOr(start.columns[c].valueType)
  }

  lemma StepOnColumn(s: Schema, event: Event, id: ColumnId)
    requires id < |s.columns|
    ensures var after := Step(s, event);
            id < |after.columns| && SameEdges(after.columns[id], s.columns[id]) &&
            after.columns[id].valueType == (if Converts(s, event, id) then event.target else s.columns[id].valueType) &&
            (Converts(s, event, id) ==> s.columns[id].kind.InputColumn?)
  {
    hide HasActiveDependent, SomeActiveSourceFeeds, SomeViewNames, ActiveColumns, ActiveTables, ViewFits,
      MapsOnlyActive, KeptMapping,
      Mentions, SourceTypes, FormulaTypes.Validate;
  }

  /** A column's type is the one it had, or the last it was converted to. */
  lemma {:induction false} TypesFollowConversions(events: seq<Event>, from: nat, id: ColumnId)
    requires from <= |events| && id < |RunAll(events[..from]).columns|
    ensures var before, after := RunAll(events[..from]), RunAll(events);
            id < |after.columns| && SameEdges(after.columns[id], before.columns[id]) &&
            after.columns[id].valueType == LastTarget(events, from, id).GetOr(before.columns[id].valueType) &&
            (!before.columns[id].kind.InputColumn? ==> LastTarget(events, from, id) == None)
  {
    hide Step, Converts;
    if |events| == from {
      assert events[..from] == events;
    } else {
      var n := |events| - 1;
      assert events[..n][..from] == events[..from];
      TypesFollowConversions(events[..n], from, id);
      StepOnColumn(RunAll(events[..n]), events[n], id);
    }
  }

  // ---- formulas ---------------------------------------------------------------

  /** The checker would still give the formula its column's type. */
  ghost predicate FormulaIsTyped(s: Schema, id: ColumnId)
    requires id < |s.columns|
  {
    s.columns[id].kind.FormulaColumn? ==>
      FormulaTypes.Infer(s.columns[id].kind.expression, TypesIn(s)) == Some(s.columns[id].valueType)
  }

  ghost predicate FormulasAreTyped(s: Schema) {
    forall id :: 0 <= id < |s.columns| && IsActive(s, id) ==> FormulaIsTyped(s, id)
  }

  ghost predicate AllFormulasAreTyped(s: Schema) {
    forall id :: 0 <= id < |s.columns| ==> FormulaIsTyped(s, id)
  }

  lemma ReferencesAreInputs(s: Schema, id: ColumnId, c: ColumnId)
    requires EdgesLeadBack(s) && id < |s.columns| && s.columns[id].kind.FormulaColumn? &&
             c in References(s.columns[id].kind.expression)
    ensures c < id && DependsOn(s, id, c) && s.columns[c].tableId == s.columns[id].tableId
  {
    assert ColumnIsRooted(s, id);
    assert c in Elements(s.columns[id].inputs);
    var i :| 0 <= i < |s.columns[id].inputs| && s.columns[id].inputs[i] == c;
  }

  /** A step that converts none of a formula's inputs keeps it typed. */
  lemma StepKeepsFormula(s: Schema, event: Event, id: ColumnId)
    requires WellFormed(s) && id < |s.columns| && FormulaIsTyped(s, id)
    requires forall c :: DependsOn(s, id, c) ==> !Converts(s, event, c)
    ensures id < |Step(s, event).columns| && FormulaIsTyped(Step(s, event), id)
  {
    hide Step, Converts, FormulaTypes.Infer, ColumnIsRooted, ViewsFit, SourcesFit, InputsStayActive, TablesKeepAColumn;
    StepOnColumn(s, event, id);
    if s.columns[id].kind.FormulaColumn? {
      var expression, after := s.columns[id].kind.expression, Step(s, event);
      forall c | c in References(expression)
        ensures c in TypesIn(s) && c in TypesIn(after) && TypesIn(s)[c] == TypesIn(after)[c]
      {
        ReferencesAreInputs(s, id, c);
        StepOnColumn(s, event, c);
      }
      FormulaTypes.InferFrame(expression, TypesIn(s), TypesIn(after));
    }
  }

  lemma NewFormulaIsTyped(s: Schema, table: TableId, expression: Expression)
    requires CreateFormula(s, table, expression).Some?
    ensures var after := CreateFormula(s, table, expression).value;
            |after.columns| == |s.columns| + 1 && FormulaIsTyped(after, |s.columns|) &&
            Some(after.columns[|s.columns|].valueType) == FormulaTypes.Validate(expression, TypesIn(s))
  {
    hide FormulaTypes.IsConfiguration, FormulaTypes.Infer, Mentions;
    var after := CreateFormula(s, table, expression).value;
    var inputs := after.columns[|s.columns|].inputs;
    MentionsAreReferences(expression);
    forall c | c in References(expression)
      ensures c in SourceTypes(s, inputs) && c in TypesIn(s) && c in TypesIn(after)
      ensures SourceTypes(s, inputs)[c] == TypesIn(s)[c] == TypesIn(after)[c]
    {
      assert c in Elements(inputs);
      var i :| 0 <= i < |inputs| && inputs[i] == c;
      assert IsActiveIn(s, inputs[i], table);
    }
    FormulaTypes.InferFrame(expression, SourceTypes(s, inputs), TypesIn(s));
    FormulaTypes.InferFrame(expression, SourceTypes(s, inputs), TypesIn(after));
  }

  /** Any other new column is no formula. */
  lemma NewColumnIsTyped(s: Schema, event: Event, id: ColumnId)
    requires |s.columns| <= id < |Step(s, event).columns|
    ensures FormulaIsTyped(Step(s, event), id)
  {
    hide HasActiveDependent, SomeActiveSourceFeeds, SomeViewNames, ActiveColumns, ActiveTables, ViewFits,
      MapsOnlyActive, KeptMapping,
      FormulaTypes.Infer, FormulaTypes.Validate, TypesIn;
    if event.NewFormula? { NewFormulaIsTyped(s, event.table, event.expression); }
  }

  lemma OnlyRestoreActivates(s: Schema, event: Event, id: ColumnId)
    requires id < |s.columns| && IsActive(Step(s, event), id) && !event.ColumnRestore?
    ensures IsActive(s, id)
  {
    hide HasActiveDependent, SomeActiveSourceFeeds, SomeViewNames, ActiveColumns, ActiveTables, ViewFits,
      MapsOnlyActive, KeptMapping,
      Mentions, SourceTypes, FormulaTypes.Validate;
  }

  lemma OtherStepsKeepFormulaTypes(s: Schema, event: Event)
    requires WellFormed(s) && FormulasAreTyped(s) && !event.ColumnRestore?
    ensures FormulasAreTyped(Step(s, event))
  {
    hide Step, FormulaIsTyped, ColumnIsRooted, ViewsFit, SourcesFit, InputsStayActive, TablesKeepAColumn;
    var after := Step(s, event);
    forall id | 0 <= id < |after.columns| && IsActive(after, id) ensures FormulaIsTyped(after, id) {
      if id < |s.columns| {
        OnlyRestoreActivates(s, event, id);
        forall c | DependsOn(s, id, c) ensures !Converts(s, event, c) { assert HasActiveDependent(s, c); }
        StepKeepsFormula(s, event, id);
      } else {
        NewColumnIsTyped(s, event, id);
      }
    }
  }

  lemma RestoringOneFormula(s: Schema, id: ColumnId)
    requires FormulasAreTyped(s) && RestoreColumn(s, id).Some?
    ensures FormulasAreTyped(RestoreColumn(s, id).value) <==> FormulaIsTyped(s, id)
  {
    hide FormulaTypes.Infer;
    var after := RestoreColumn(s, id).value;
    assert TypesIn(after) == TypesIn(s);
    forall c | 0 <= c < |s.columns| ensures FormulaIsTyped(after, c) <==> FormulaIsTyped(s, c) {}
    assert IsActive(after, id);
    forall c | c != id ensures IsActive(after, c) <==> IsActive(s, c) {}
  }

  /** Restoring a formula keeps active formulas typed if and only if the checker
      gives its definition the same type as at its creation once the input types
      of that time are replaced by the last targets they were converted to since. */
  lemma RestoreKeepsTypesIff(events: seq<Event>, made: nat, id: ColumnId)
    requires made < |events| && events[made].NewFormula? && id == |RunAll(events[..made]).columns|
    requires Attempt(RunAll(events[..made]), events[made]).Some?
    requires FormulasAreTyped(RunAll(events)) && RestoreColumn(RunAll(events), id).Some?
    ensures var expression := events[made].expression;
            FormulasAreTyped(RestoreColumn(RunAll(events), id).value) <==>
            FormulaTypes.Validate(expression, ConvertedTypes(events, made)) ==
            FormulaTypes.Validate(expression, TypesIn(RunAll(events[..made])))
  {
    hide RunAll, FormulasAreTyped, RestoreColumn, LastTarget, FormulaTypes.Infer, CreateFormula;
    var before, now, expression := RunAll(events[..made]), RunAll(events), events[made].expression;
    RestoringOneFormula(now, id);
    FormulaSinceCreation(events, made, id);
    forall c | c in References(expression)
      ensures c in ConvertedTypes(events, made) && c in TypesIn(now) &&
              ConvertedTypes(events, made)[c] == TypesIn(now)[c]
    {
      assert c < |before.columns|;
      TypesFollowConversions(events, made, c);
    }
    FormulaTypes.InferFrame(expression, ConvertedTypes(events, made), TypesIn(now));
  }

  /** A formula keeps its definition and its type; what it references existed
      before it. */
  lemma FormulaSinceCreation(events: seq<Event>, made: nat, id: ColumnId)
    requires made < |events| && events[made].NewFormula? && id == |RunAll(events[..made]).columns|
    requires Attempt(RunAll(events[..made]), events[made]).Some?
    ensures var before, now := RunAll(events[..made]), RunAll(events);
            id < |now.columns| && now.columns[id].kind == FormulaColumn(events[made].expression) &&
            Some(now.columns[id].valueType) == FormulaTypes.Validate(events[made].expression, TypesIn(before)) &&
            forall c :: c in References(events[made].expression) ==> c < |before.columns|
  {
    hide FormulaTypes.Infer, FormulaTypes.IsConfiguration, FormulaTypes.Validate, Mentions;
    var before := RunAll(events[..made]);
    assert events[..made + 1][..made] == events[..made];
    assert RunAll(events[..made + 1]) == Step(before, events[made]);
    NewFormulaIsTyped(before, events[made].table, events[made].expression);
    TypesFollowConversions(events, made + 1, id);
    EveryHistoryIsWellFormed(events);
    forall c | c in References(events[made].expression)
      ensures c < |before.columns|
    {
      ReferencesAreInputs(RunAll(events), id, c);
    }
  }

  // ---- histories that keep every formula typed --------------------------------

  /** A conversion that succeeds while an archived formula has the column as an
      input. */
  ghost predicate ConvertsUnderFormula(s: Schema, event: Event) {
    exists d, c :: 0 <= d < |s.columns| && s.columns[d].kind.FormulaColumn? && DependsOn(s, d, c) &&
      Converts(s, event, c)
  }

  ghost predicate SparesFormulas(events: seq<Event>) {
    forall n :: 0 <= n < |events| ==> !ConvertsUnderFormula(RunAll(events[..n]), events[n])
  }

  lemma {:induction false} SparedFormulasStayTyped(events: seq<Event>)
    requires SparesFormulas(events)
    ensures AllFormulasAreTyped(RunAll(events))
  {
    hide Step, FormulaIsTyped, Converts, WellFormed;
    if events == [] {
      NewWorkspaceIsTyped();
    } else {
      var n := |events| - 1;
      var before := RunAll(events[..n]);
      forall k | 0 <= k < n ensures !ConvertsUnderFormula(RunAll(events[..n][..k]), events[..n][k]) {
        assert events[..n][..k] == events[..k];
      }
      SparedFormulasStayTyped(events[..n]);
      EveryHistoryIsWellFormed(events[..n]);
      forall id | 0 <= id < |Step(before, events[n]).columns| ensures FormulaIsTyped(Step(before, events[n]), id) {
        if id >= |before.columns| {
          NewColumnIsTyped(before, events[n], id);
        } else if before.columns[id].kind.FormulaColumn? {
          StepKeepsFormula(before, events[n], id);
        } else {
          OtherColumnStaysOther(before, events[n], id);
        }
      }
    }
  }

  lemma OtherColumnStaysOther(s: Schema, event: Event, id: ColumnId)
    requires id < |s.columns| && !s.columns[id].kind.FormulaColumn?
    ensures id < |Step(s, event).columns| && FormulaIsTyped(Step(s, event), id)
  {
    hide Step;
    StepOnColumn(s, event, id);
  }

  lemma NewWorkspaceIsTyped()
    ensures AllFormulasAreTyped(NEW_WORKSPACE)
  {
  }

  function GridKind(kind: Kind): FormulaRecompute.ColumnKind {
    match kind
    case InputColumn => FormulaRecompute.InputColumn
    case FormulaColumn(expression) => FormulaRecompute.FormulaColumn(Some(expression))
    case ConnectorColumn => FormulaRecompute.ConnectorColumn
  }

  /** A table as recomputation sees it. */
  function GridSchema(s: Schema, table: TableId, deps: seq<FormulaGraph.Dependency>): FormulaRecompute.Schema {
    FormulaRecompute.Schema(
      map c: ColumnId | 0 <= c < |s.columns| && s.columns[c].tableId == table ::
        FormulaRecompute.ColumnInfo(GridKind(s.columns[c].kind), s.columns[c].valueType, s.columns[c].archived),
      deps)
  }

  lemma TypedFormulasMakeTypedGrids(s: Schema, table: TableId, deps: seq<FormulaGraph.Dependency>)
    requires EdgesLeadBack(s) && FormulasAreTyped(s)
    ensures FormulaTypes.SchemaIsTyped(GridSchema(s, table, deps))
  {
    hide FormulaTypes.Infer, ColumnIsRooted;
    var grid := GridSchema(s, table, deps);
    forall id: nat | grid.IsActiveFormula(id) ensures FormulaTypes.FormulaIsTyped(grid, id) {
      assert IsActive(s, id) && FormulaIsTyped(s, id);
      var expression := s.columns[id].kind.expression;
      forall c | c in References(expression)
        ensures c in TypesIn(s) && c in FormulaTypes.TypesOf(grid) && TypesIn(s)[c] == FormulaTypes.TypesOf(grid)[c]
      {
        ReferencesAreInputs(s, id, c);
      }
      FormulaTypes.InferFrame(expression, TypesIn(s), FormulaTypes.TypesOf(grid));
    }
  }

  /** Unless some input was converted under an archived formula, whatever else
      happened to the schema, recomputing a row of typed cells always succeeds
      and leaves it typed: no edit is ever refused for its formulas. */
  lemma EditsAlwaysRecompute(events: seq<Event>, table: TableId, deps: seq<FormulaGraph.Dependency>,
                             p: Platform, cells: FormulaRecompute.RowCells, changed: seq<ColumnId>)
    requires SparesFormulas(events) && Lists(RunAll(events), deps)
    requires FormulaTypes.RowIsTyped(GridSchema(RunAll(events), table, deps), cells)
    ensures var grid := GridSchema(RunAll(events), table, deps);
            var after := FormulaRecompute.RecomputeRow(p, grid, cells, changed);
            after.Pass? && FormulaTypes.RowIsTyped(grid, after.cells)
  {
    hide RunAll, GridSchema, FormulaIsTyped, FormulaTypes.SchemaIsTyped, FormulaTypes.RowIsTyped,
      FormulaRecompute.RecomputeRow;
    EveryHistoryIsWellFormed(events);
    SparedFormulasStayTyped(events);
    TypedFormulasMakeTypedGrids(RunAll(events), table, deps);
    FormulaTypes.TypedRowsRecompute(p, GridSchema(RunAll(events), table, deps), cells, changed);
    CyclicErrorIsUnreachable(events, p, GridSchema(RunAll(events), table, deps), cells,
                             changed) by { DependenciesAreListed(RunAll(events), table, deps); }
  }

  lemma DependenciesAreListed(s: Schema, table: TableId, deps: seq<FormulaGraph.Dependency>)
    ensures GridSchema(s, table, deps).dependencies == deps
  {
  }

  // ---- a history that does not ------------------------------------------------

  /** The states of the run below; column 2 is the formula [0]. */
  function Drifted(first: ColumnType, archived: bool): Schema {
    Schema([ColumnRow(0, InputColumn, first, false, []), ColumnRow(0, InputColumn, TextType, false, []),
            ColumnRow(0, FormulaColumn(Column(0)), TextType, archived, [0])], [false], map[], map[])
  }

  /** Make the formula, archive it, convert its input to numbers, restore it. */
  const DRIFT: seq<Event> :=
    [NewFormula(0, Column(0)), ColumnArchive(2, false), ColumnConvert(0, NumberType, false), ColumnRestore(2)]

  lemma OneInput()
    ensures Fanout.Deduplicate(Mentions(Column(0))) == [0]
    ensures SourceTypes(NEW_WORKSPACE, [0]) == map[0 := TextType]
  {
    assert [0][..0] == [];
  }

  lemma FormulaIsMade()
    ensures Step(NEW_WORKSPACE, DRIFT[0]) == Drifted(TextType, false)
  {
    hide Fanout.Deduplicate;
    OneInput();
    assert NEW_WORKSPACE.columns + [Drifted(TextType, false).columns[2]] == Drifted(TextType, false).columns;
  }

  lemma FormulaIsArchived()
    ensures Step(Drifted(TextType, false), DRIFT[1]) == Drifted(TextType, true)
  {
    var s := Drifted(TextType, false);
    assert ActiveColumns(s, 0) == {0, 1, 2};
    assert s.columns[2 := s.columns[2].(archived := true)] == Drifted(TextType, true).columns;
  }

  lemma InputIsConverted()
    ensures Step(Drifted(TextType, true), DRIFT[2]) == Drifted(NumberType, true)
  {
    var s := Drifted(TextType, true);
    assert s.columns[0 := s.columns[0].(valueType := NumberType)] == Drifted(NumberType, true).columns;
  }

  lemma FormulaIsRestored()
    ensures Step(Drifted(NumberType, true), DRIFT[3]) == Drifted(NumberType, false)
  {
    var s := Drifted(NumberType, true);
    assert s.columns[2 := s.columns[2].(archived := false)] == Drifted(NumberType, false).columns;
  }

  lemma DriftRuns()
    ensures RunAll(DRIFT) == Drifted(NumberType, false)
  {
    hide Step, Drifted;
    FormulaIsMade();
    FormulaIsArchived();
    InputIsConverted();
    FormulaIsRestored();
    assert DRIFT[..0] == [] && DRIFT[..1][..0] == DRIFT[..0] && DRIFT[..2][..1] == DRIFT[..1] &&
           DRIFT[..3][..2] == DRIFT[..2];
    assert RunAll(DRIFT[..1]) == Drifted(TextType, false);
    assert RunAll(DRIFT[..2]) == Drifted(TextType, true);
    assert RunAll(DRIFT[..3]) == Drifted(NumberType, true);
  }

  const DRIFTED: FormulaRecompute.Schema := GridSchema(Drifted(NumberType, false), 0, [FormulaGraph.Dependency(2, 0)])

  function Edited(number: real, version: nat): FormulaRecompute.RowCells {
    map[0 := FormulaRecompute.Cell(Number(number), FormulaRecompute.Idle, version)]
  }

  lemma FormulaYieldsANumber(p: Platform, number: real, version: nat)
    ensures FormulaRecompute.EvaluateAll(p, DRIFTED, Edited(number, version), [2]) ==
            FormulaRecompute.Aborted(FormulaRecompute.WrongType(2))
    ensures 2 in DRIFTED.ActiveFormulas()
  {
    var values := FormulaRecompute.Values(Edited(number, version));
    assert values[0] == Number(number) && p.Evaluate(Column(0), values) == Number(number);
    assert DRIFTED.IsActiveFormula(2);
    assert [2][..0] == [];
    var start := FormulaRecompute.EvaluateAll(p, DRIFTED, Edited(number, version), []);
    assert FormulaRecompute.EvaluateOne(p, DRIFTED, start, 2) ==
           FormulaRecompute.Aborted(FormulaRecompute.WrongType(2));
  }

  /** Archive a formula, convert its input, restore the formula: afterwards every
      edit of that input to a number fails while the formula is recomputed. */
  lemma RestoredFormulaRefusesEdits(p: Platform, number: real, version: nat)
    ensures var deps := [FormulaGraph.Dependency(2, 0)];
            var grid := GridSchema(RunAll(DRIFT), 0, deps);
            !FormulasAreTyped(RunAll(DRIFT)) && Lists(RunAll(DRIFT), deps) &&
            FormulaTypes.RowIsTyped(grid, Edited(number, version)) &&
            FormulaRecompute.RecomputeRow(p, grid, Edited(number, version), [0]) ==
              FormulaRecompute.Aborted(FormulaRecompute.WrongType(2))
  {
    hide RunAll, FormulaRecompute.EvaluateAll, FormulaGraph.VisitOrder, FormulaGraph.Reachable;
    DriftRuns();
    OneStepOrder();
    FormulaYieldsANumber(p, number, version);
    assert IsActive(Drifted(NumberType, false), 2) && !FormulaIsTyped(Drifted(NumberType, false), 2);
    assert |[2]| == |{2}|;
  }

  lemma OneStepOrder()
    ensures var deps := [FormulaGraph.Dependency(2, 0)];
            FormulaGraph.Reachable(deps, Elements([0])) == {2} && FormulaGraph.VisitOrder(deps, {2}) == [2]
  {
    var deps := [FormulaGraph.Dependency(2, 0)];
    assert deps[0] == FormulaGraph.Dependency(2, 0);
    assert [0][0] in Elements([0]);
    FormulaTraversal.ReachStep(deps, Elements([0]), 0, 2);
    assert Elements([2]) == {2} && Elements<ColumnId>([]) == {} && [2][..0] == [];
    assert FormulaGraph.Available(deps, {2}, {}, 2);
    assert FormulaGraph.AllAvailable(deps, {2}, {}) == {2};
    assert FormulaGraph.AllAvailable(deps, {2}, {2}) == {};
    assert FormulaGraph.PicksLeast(deps, {2}, [2], 0);
    FormulaGraph.LeastFirstIsUnique(deps, deps, {2}, [2], 0);
  }

  // ---- sources ----------------------------------------------------------------

  ghost predicate FeedsText(s: Schema, source: Source) {
    forall c :: c in source.mapping ==> c < |s.columns| && s.columns[c].valueType == TextType
  }

  /** Every active source feeds text columns, as its pages write text cells. */
  ghost predicate SourcesFeedText(s: Schema) {
    forall f :: f in s.sources && s.sources[f].active ==> FeedsText(s, s.sources[f])
  }

  lemma OtherStepsKeepSourcesText(s: Schema, event: Event)
    requires SourcesFeedText(s) && !(event.SourceStatus? && event.active)
    ensures SourcesFeedText(Step(s, event))
  {
    hide Step, FeedsText;
    var after := Step(s, event);
    forall f | f in after.sources && after.sources[f].active ensures FeedsText(after, after.sources[f]) {
      SourceBefore(s, event, f);
      if f in s.sources { StepKeepsFeeding(s, event, f); }
         else { assert FeedsText(after, Source(after.sources[f].tableId, [], true)) by { NothingFeedsText(after); } }
    }
  }

  lemma NothingFeedsText(s: Schema)
    ensures forall table :: FeedsText(s, Source(table, [], true))
  {
  }

  /** Sources start without mapping, and only resuming activates one. */
  lemma SourceBefore(s: Schema, event: Event, f: SourceId)
    requires f in Step(s, event).sources
    ensures f !in s.sources ==> Step(s, event).sources[f].mapping == [] && Step(s, event).sources[f].active
    ensures f in s.sources && Step(s, event).sources[f].active && !(event.SourceStatus? && event.active) ==>
              s.sources[f].active
  {
    hide HasActiveDependent, SomeActiveSourceFeeds, SomeViewNames, ActiveColumns, ActiveTables, ViewFits,
      MapsOnlyActive, KeptMapping,
      Mentions, SourceTypes, FormulaTypes.Validate;
  }

  /** A step that converts no column of a mapping to another type keeps it text. */
  lemma StepKeepsFeeding(s: Schema, event: Event, f: SourceId)
    requires f in s.sources && FeedsText(s, s.sources[f])
    requires s.sources[f].active || forall c :: c in s.sources[f].mapping ==> !Converts(s, event, c)
    ensures f in Step(s, event).sources && FeedsText(Step(s, event), Step(s, event).sources[f])
  {
    hide Step;
    var after := Step(s, event);
    MappingAfter(s, event, f);
    forall c | c in after.sources[f].mapping ensures c < |after.columns| && after.columns[c].valueType == TextType {
      if c in s.sources[f].mapping {
        if s.sources[f].active { ConversionSparesActive(s, event, f, c); }
        StepOnColumn(s, event, c);
      } else {
        assert event.SourceRemap? && after.columns == s.columns;
      }
    }
  }

  lemma ConversionSparesActive(s: Schema, event: Event, f: SourceId, c: ColumnId)
    requires f in s.sources && s.sources[f].active && c in s.sources[f].mapping
    ensures !Converts(s, event, c)
  {
    assert SomeActiveSourceFeeds(s, c);
  }

  lemma MappingAfter(s: Schema, event: Event, f: SourceId)
    requires f in s.sources
    ensures var after := Step(s, event);
            f in after.sources &&
            forall c :: c in after.sources[f].mapping ==>
              c in s.sources[f].mapping ||
              (event.SourceRemap? && after.columns == s.columns && c < |s.columns| &&
               s.columns[c].valueType == TextType)
  {
    hide HasActiveDependent, SomeActiveSourceFeeds, SomeViewNames, ActiveColumns, ActiveTables, ViewFits,
      MapsOnlyActive, KeptMapping,
      Mentions, SourceTypes, FormulaTypes.Validate;
    var after := Step(s, event);
    if event.SourceRemap? && event.sourceId == f && after != s {
      var kept := KeptMapping(s, s.sources[f].mapping);
      forall c | c in after.sources[f].mapping
        ensures c in s.sources[f].mapping || (c < |s.columns| && s.columns[c].valueType == TextType)
      {
        var i :| 0 <= i < |after.sources[f].mapping| && after.sources[f].mapping[i] == c;
        if i < |kept| { KeptAreActive(s, s.sources[f].mapping, i); }
           else { assert after.sources[f].mapping[i] == event.added[i - |kept|]; }
      }
    }
  }

  lemma {:induction false} LastTargetIsType(events: seq<Event>, id: ColumnId)
    requires LastTarget(events, 0, id).Some?
    ensures id < |RunAll(events).columns| && RunAll(events).columns[id].valueType == LastTarget(events, 0, id).value
  {
    hide Step;
    var n := |events| - 1;
    var before := RunAll(events[..n]);
    if Converts(before, events[n], id) { ConvertedColumnExists(before, events[n], id); }
       else { LastTargetIsType(events[..n], id); }
    StepOnColumn(before, events[n], id);
  }

  lemma ConvertedColumnExists(s: Schema, event: Event, id: ColumnId)
    requires Converts(s, event, id)
    ensures id < |s.columns|
  {
  }

  /** Columns are text when they are mapped; afterwards conversions decide. */
  lemma {:induction false} MappedFollowsConversions(events: seq<Event>, f: SourceId, c: ColumnId)
    requires f in RunAll(events).sources && c in RunAll(events).sources[f].mapping
    ensures c < |RunAll(events).columns| && RunAll(events).columns[c].valueType ==
            LastTarget(events, 0, c).GetOr(TextType)
  {
    hide Step;
    if events != [] {
      var n := |events| - 1;
      var before := RunAll(events[..n]);
      SourceBefore(before, events[n], f);
      if f in before.sources {
        MappingAfter(before, events[n], f);
        if c in before.sources[f].mapping {
          MappedFollowsConversions(events[..n], f, c);
          StepOnColumn(before, events[n], c);
        } else if LastTarget(events[..n], 0, c).Some? {
          LastTargetIsType(events[..n], c);
        }
      }
    }
  }

  /** Resuming a source keeps active sources on text columns if and only if no
      column mapped by it was last converted to something else, whenever that
      happened. */
  lemma ResumeKeepsTextIff(events: seq<Event>, id: SourceId)
    requires SourcesFeedText(RunAll(events)) && SetSourceStatus(RunAll(events), id, true).Some?
    ensures SourcesFeedText(SetSourceStatus(RunAll(events), id, true).value) <==>
            forall c :: c in RunAll(events).sources[id].mapping ==> LastTarget(events, 0, c).GetOr(TextType) == TextType
  {
    hide RunAll, LastTarget;
    var s := RunAll(events);
    var after := SetSourceStatus(s, id, true).value;
    assert after.sources[id].mapping == s.sources[id].mapping && after.sources[id].active;
    forall c | c in s.sources[id].mapping
      ensures c < |s.columns| && s.columns[c].valueType == LastTarget(events, 0, c).GetOr(TextType)
    {
      MappedFollowsConversions(events, id, c);
    }
    forall f | f in s.sources ensures FeedsText(after, after.sources[f]) <==> FeedsText(s, s.sources[f]) {
      assert after.columns == s.columns && after.sources[f].mapping == s.sources[f].mapping;
    }
  }

  /** A conversion that succeeds while a source, then a paused one, maps the
      column. */
  ghost predicate ConvertsUnderSource(s: Schema, event: Event) {
    exists f, c :: f in s.sources && c in s.sources[f].mapping && Converts(s, event, c)
  }

  /** Unless that happens, every source feeds text columns in every state. */
  lemma {:induction false} SparedSourcesFeedText(events: seq<Event>, f: SourceId)
    requires forall n :: 0 <= n < |events| ==> !ConvertsUnderSource(RunAll(events[..n]), events[n])
    requires f in RunAll(events).sources
    ensures FeedsText(RunAll(events), RunAll(events).sources[f])
  {
    hide Step, FeedsText;
    if events != [] {
      var n := |events| - 1;
      var before := RunAll(events[..n]);
      forall k | 0 <= k < n ensures !ConvertsUnderSource(RunAll(events[..n][..k]), events[..n][k]) {
        assert events[..n][..k] == events[..k];
      }
      SourceBefore(before, events[n], f);
      if f in before.sources {
        SparedSourcesFeedText(events[..n], f);
        StepKeepsFeeding(before, events[n], f);
      } else {
        NoMappingFeedsText(RunAll(events), RunAll(events).sources[f]);
      }
    }
  }

  lemma NoMappingFeedsText(s: Schema, source: Source)
    requires source.mapping == []
    ensures FeedsText(s, source)
  {
  }

  /** The states of the run below. */
  function Feeding(first: ColumnType, mapping: seq<ColumnId>, active: bool): Schema {
    Schema([ColumnRow(0, InputColumn, first, false, []), ColumnRow(0, InputColumn, TextType, false, [])], [false],
           map[],
           map[0 := Source(0, mapping, active)])
  }

  const PAUSED_CONVERSION: seq<Event> :=
    [SourceCreate(0, 0), SourceRemap(0, [0]), SourceStatus(0, false), ColumnConvert(0, NumberType, false),
     SourceStatus(0, true)]

  lemma MappingIsMade()
    ensures Step(NEW_WORKSPACE, PAUSED_CONVERSION[0]) == Feeding(TextType, [], true)
    ensures Step(Feeding(TextType, [], true), PAUSED_CONVERSION[1]) == Feeding(TextType, [0], true)
  {
    assert KeptMapping(Feeding(TextType, [], true), []) + [0] == [0];
  }

  lemma MappedColumnIsConverted()
    ensures Step(Feeding(TextType, [0], true), PAUSED_CONVERSION[2]) == Feeding(TextType, [0], false)
    ensures Step(Feeding(TextType, [0], false), PAUSED_CONVERSION[3]) == Feeding(NumberType, [0], false)
    ensures Step(Feeding(NumberType, [0], false), PAUSED_CONVERSION[4]) == Feeding(NumberType, [0], true)
  {
    hide KeptMapping, Mentions, FormulaTypes.Validate, ViewFits;
    var s := Feeding(TextType, [0], false);
    assert s.columns[0 := s.columns[0].(valueType := NumberType)] == Feeding(NumberType, [0], false).columns;
  }

  /** Map a column, pause the source, convert the column, resume the source: it
      is active over a number column, into which its pages write text. */
  lemma ResumedSourceMayFeedNumbers()
    ensures RunAll(PAUSED_CONVERSION) == Feeding(NumberType, [0], true) && !SourcesFeedText(RunAll(PAUSED_CONVERSION))
  {
    hide Step;
    var e := PAUSED_CONVERSION;
    MappingIsMade();
    MappedColumnIsConverted();
    assert e[..0] == [] && e[..1][..0] == e[..0] && e[..2][..1] == e[..1] && e[..3][..2] == e[..2] &&
           e[..4][..3] == e[..3];
    assert RunAll(e[..1]) == Feeding(TextType, [], true);
    assert RunAll(e[..2]) == Feeding(TextType, [0], true);
    assert RunAll(e[..3]) == Feeding(TextType, [0], false);
    assert RunAll(e[..4]) == Feeding(NumberType, [0], false);
    var s := Feeding(NumberType, [0], true);
    assert 0 in s.sources[0].mapping && !FeedsText(s, s.sources[0]);
  }
}
