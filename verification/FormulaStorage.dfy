/** When stored formula cells agree with their expressions: values that storage
    rewrites (packages/db/src/cell-values.ts:4-35) and the literals through which
    they enter (packages/domain/src/formula-language.ts:95-252). */
module FormulaStorage {
  import opened Collections
  import opened FormulaGraph
  import opened FormulaTraversal
  import opened FormulaValues
  import opened FormulaRecompute

  // ---- the exact condition ----------------------------------------------------

  /** Storage keeps what the call computed for a formula. */
  ghost predicate IsKept(p: Platform, schema: Schema, after: Pass, id: ColumnId)
    requires after.Pass?
  {
    schema.IsActiveFormula(id) ==> p.Canonical(Read(after.values, id))
  }

  /** Formulas outside the reached columns agree, so one call of a successful
      recomputation leaves every active formula of the row equal to its
      expression over the stored row if and only if storage rewrites none of the
      values it computed. */
  lemma AgreeIffKept(p: Platform, schema: Schema, cells: RowCells, changed: seq<ColumnId>)
    requires schema.Declared() && RecomputeRow(p, schema, cells, changed).Pass?
    requires forall id :: schema.IsActiveFormula(id) && id !in Reachable(schema.dependencies, Elements(changed)) ==>
      Agrees(p, schema, cells, id)
    ensures var after := RecomputeRow(p, schema, cells, changed);
            AllAgree(p, schema, after.cells) <==>
            forall id :: id in Reachable(schema.dependencies, Elements(changed)) ==> IsKept(p, schema, after, id)
  {
    var reached := Reachable(schema.dependencies, Elements(changed));
    if changed == [] {
      NothingReachedFromNothing(schema.dependencies);
    } else if schema.ActiveFormulas() == {} {
      assert forall id :: schema.IsActiveFormula(id) ==> id in schema.ActiveFormulas();
    } else if reached != {} {
      var order, after := VisitOrder(schema.dependencies, reached), RecomputeRow(p, schema, cells, changed);
      CompleteIffAcyclic(schema.dependencies, reached);
      EvaluateAllIsSound(p, schema, cells, reached, order);
      assert forall id :: id in reached <==> id in order;
      if forall id :: id in order ==> IsKept(p, schema, after, id) {
        KeptAgrees(p, schema, cells, changed, order, after);
      } else {
        var i: nat :| i < |order| && !IsKept(p, schema, after, order[i]);
        var k := FirstRewritten(p, schema, order, after, i);
        FirstRewrittenDisagrees(p, schema, cells, reached, order, after, k);
      }
    }
  }

  lemma KeptAgrees(p: Platform, schema: Schema, cells: RowCells, changed: seq<ColumnId>, order: seq<ColumnId>,
                   after: Pass)
    requires schema.Declared() && Elements(order) == Reachable(schema.dependencies, Elements(changed))
    requires after.Pass? && PassIsSound(p, schema, cells, order, after)
    requires forall id :: id in order ==> IsKept(p, schema, after, id)
    requires forall id :: schema.IsActiveFormula(id) && id !in order ==> Agrees(p, schema, cells, id)
    ensures AllAgree(p, schema, after.cells)
  {
    forall c ensures Read(after.values, c) == Read(Values(after.cells), c) {
      if c in order && schema.IsActiveFormula(c) { assert IsKept(p, schema, after, c); }
    }
    forall id | schema.IsActiveFormula(id) ensures Agrees(p, schema, after.cells, id) {
      FormulaAgreesAfter(p, schema, cells, changed, order, after, id);
    }
  }

  lemma {:induction false} FirstRewritten(p: Platform, schema: Schema, order: seq<ColumnId>, after: Pass,
                                          i: nat) returns (k: nat)
    requires after.Pass? && i < |order| && !IsKept(p, schema, after, order[i])
    ensures k < |order| && !IsKept(p, schema, after, order[k]) && forall j :: 0 <= j < k ==>
              IsKept(p, schema, after, order[j])
  {
    k := i;
    if j: nat :| j < i && !IsKept(p, schema, after, order[j]) { k := FirstRewritten(p, schema, order, after, j); }
  }

  /** The first formula whose value storage rewrites reads only kept values, so
      its stored cell differs from its expression over the stored row. */
  lemma FirstRewrittenDisagrees(p: Platform, schema: Schema, cells: RowCells, reached: set<ColumnId>,
                                order: seq<ColumnId>, after: Pass, k: nat)
    requires schema.Declared() && Elements(order) == reached && RespectsEdges(schema.dependencies, reached, order)
    requires after.Pass? && PassIsSound(p, schema, cells, order, after)
    requires k < |order| && !IsKept(p, schema, after, order[k])
    requires forall j :: 0 <= j < k ==> IsKept(p, schema, after, order[j])
    ensures schema.IsActiveFormula(order[k]) && !Agrees(p, schema, after.cells, order[k])
  {
    var id := order[k];
    var expression := schema.columns[id].kind.expression.value;
    assert schema.DeclaredFormula(id) && EarlierDependencies(schema.dependencies, reached, order, k);
    forall c | c in References(expression) ensures Read(after.values, c) == Read(Values(after.cells), c) {
      if c in order && schema.IsActiveFormula(c) {
        assert c in Elements(order) && Dependency(id, c) in schema.dependencies;
        var j :| 0 <= j < k && order[..k][j] == c;
        assert IsKept(p, schema, after, order[j]);
      }
    }
    p.EvaluateFrame(expression, after.values, Values(after.cells));
  }

  // ---- formulas made from text ------------------------------------------------

  /** What the parser builds a formula from. */
  datatype Source =
    | ColumnName(columnId: ColumnId)
    | Plain(value: CellValue)
    | TimestampText(text: string)
    | JsonText(text: string)
    | Application(fn: FormulaFunction, args: seq<Source>)

  /** Numbers, strings, booleans and EMPTY are written directly. */
  predicate IsSource(source: Source)
    decreases source, 1
  {
    match source
    case Plain(value) => !value.Timestamp? && !value.Json?
    case Application(_, args) => AreSources(args)
    case _ => true
  }

  predicate AreSources(args: seq<Source>)
    decreases args, 0
  {
    args == [] || (IsSource(args[0]) && AreSources(args[1..]))
  }

  /** parseFormulaSource past its grammar: TIMESTAMP("...") is read as a Date and
      written back as storage would, JSON("...") is parsed and printed. */
  function Parse(p: Platform, printJson: string -> string, source: Source): Expression
    decreases source, 1
  {
    match source
    case ColumnName(id) => Column(id)
    case Plain(value) => Literal(value)
    case TimestampText(text) => Literal(Timestamp(p.storedTimestamp(text)))
    case JsonText(text) => Literal(Json(printJson(text)))
    case Application(fn, args) => Call(fn, ParseAll(p, printJson, args))
  }

  function ParseAll(p: Platform, printJson: string -> string, args: seq<Source>): (r: seq<Expression>)
    ensures |r| == |args|
    decreases args, 0
  {
    if args == [] then [] else [Parse(p, printJson, args[0])] + ParseAll(p, printJson, args[1..])
  }

  function JsonTexts(source: Source): set<string>
    decreases source, 1
  {
    match source
    case JsonText(text) => {text}
    case Application(_, args) => JsonTextsOf(args)
    case _ => {}
  }

  function JsonTextsOf(args: seq<Source>): set<string>
    decreases args, 0
  {
    if args == [] then {} else JsonTexts(args[0]) + JsonTextsOf(args[1..])
  }

  /** A formula typed as text brings in no literal that storage rewrites, unless
      storage reorders or reprints one of its JSON literals. */
  lemma {:induction false} TextIsCanonicalIff(p: Platform, printJson: string -> string, source: Source)
    requires p.Valid() && IsSource(source)
    ensures p.CanonicalLiterals(Parse(p, printJson, source)) <==>
            forall text :: text in JsonTexts(source) ==> p.storedJson(printJson(text)) == printJson(text)
    decreases source, 1
  {
    if source.Application? { TextsAreCanonicalIff(p, printJson, source.args); }
  }

  lemma {:induction false} TextsAreCanonicalIff(p: Platform, printJson: string -> string, args: seq<Source>)
    requires p.Valid() && AreSources(args)
    ensures p.CanonicalLiteralsOf(ParseAll(p, printJson, args)) <==>
            forall text :: text in JsonTextsOf(args) ==> p.storedJson(printJson(text)) == printJson(text)
    decreases args, 0
  {
    if args != [] {
      TextIsCanonicalIff(p, printJson, args[0]);
      TextsAreCanonicalIff(p, printJson, args[1..]);
      assert ParseAll(p, printJson, args)[1..] == ParseAll(p, printJson, args[1..]);
    }
  }

  // ---- an input that fails ----------------------------------------------------

  /** Column 2 is COALESCE([1], literal) and column 3 is CONCAT([2]). */
  function FallbackSchema(literal: CellValue): Schema {
    Schema(map[1 := ColumnInfo(InputColumn, TypeOf(literal), false),
               2 := ColumnInfo(FormulaColumn(Some(Call(Coalesce, [Column(1), Literal(literal)]))), TypeOf(literal),
                               false),
               3 := ColumnInfo(FormulaColumn(Some(Call(Concat, [Column(2)]))), TextType, false)],
           [Dependency(2, 1), Dependency(3, 2)])
  }

  /** For any literal that storage rewrites, a JSON literal whose members it
      reorders or a timestamp sent without milliseconds, the row disagrees. */
  lemma RewrittenLiteralDisagrees(p: Platform, literal: CellValue)
    requires p.Valid() && !literal.Empty?
    ensures var schema := FallbackSchema(literal);
      schema.Declared() && RecomputeRow(p, schema, map[], [1]).Pass? &&
      (AllAgree(p, schema, RecomputeRow(p, schema, map[], [1]).cells) <==> p.Canonical(literal)) &&
      (p.Canonical(literal) <==> (literal.Timestamp? ==> p.storedTimestamp(literal.instant) == literal.instant) &&
                                 (literal.Json? ==> p.storedJson(literal.json) == literal.json))
  {
    var schema := FallbackSchema(literal);
    FallbackRecompute(p, literal);
    FallbackDeclared(literal);
    AgreeIffKept(p, schema, map[], [1]);
    var after := RecomputeRow(p, schema, map[], [1]);
    assert IsKept(p, schema, after, 2) <==> p.Canonical(literal);
    assert IsKept(p, schema, after, 3);
  }

  lemma FallbackRecompute(p: Platform, literal: CellValue)
    requires !literal.Empty?
    ensures RecomputeRow(p, FallbackSchema(literal), map[], [1]).Pass?
    ensures RecomputeRow(p, FallbackSchema(literal), map[], [1]).values ==
            map[2 := literal, 3 := Text(p.CellText(literal))]
    ensures Reachable(FallbackSchema(literal).dependencies, Elements([1])) == {2, 3}
  {
    FallbackOrder(literal);
    FallbackPass(p, literal);
    assert FallbackSchema(literal).IsActiveFormula(2);
    assert 2 in FallbackSchema(literal).ActiveFormulas();
  }

  lemma FallbackDeclared(literal: CellValue)
    ensures FallbackSchema(literal).Declared()
    ensures forall id :: FallbackSchema(literal).IsActiveFormula(id) ==> id in {2, 3}
  {
    var deps := FallbackSchema(literal).dependencies;
    assert deps[0] == Dependency(2, 1) && deps[1] == Dependency(3, 2);
    assert ReferencesOf([Literal(literal)]) == {};
    assert ReferencesOf([Column(1), Literal(literal)]) == {1};
    assert ReferencesOf([Column(2)]) == {2};
  }

  lemma FallbackStarts(p: Platform, literal: CellValue)
    requires !literal.Empty?
    ensures EvaluateAll(p, FallbackSchema(literal), map[], [2]) ==
            Pass(map[2 := literal], map[2 := Cell(p.Stored(literal), Succeeded, 1)], [2])
  {
    assert [2][..0] == [];
    assert p.EvaluateArguments([Literal(literal)], map[]) == [literal];
    assert p.EvaluateArguments([Column(1), Literal(literal)], map[]) == [Empty, literal];
    assert FirstNonEmpty([Empty, literal]) == FirstNonEmpty([literal]) == literal;
  }

  lemma FallbackPass(p: Platform, literal: CellValue)
    requires !literal.Empty?
    ensures EvaluateAll(p, FallbackSchema(literal), map[], [2, 3]) ==
      Pass(map[2 := literal, 3 := Text(p.CellText(literal))],
           map[2 := Cell(p.Stored(literal), Succeeded, 1), 3 := Cell(Text(p.CellText(literal)), Succeeded, 1)], [2, 3])
  {
    hide Platform.EvaluateCall;
    FallbackStarts(p, literal);
    assert [2, 3][..1] == [2];
    OneValueJoins(p, map[2 := literal], literal);
  }

  lemma OneValueJoins(p: Platform, values: map<ColumnId, CellValue>, value: CellValue)
    requires Read(values, 2) == value
    ensures p.Evaluate(Call(Concat, [Column(2)]), values) == Text(p.CellText(value))
  {
    assert p.EvaluateArguments([Column(2)], values) == [value] + p.EvaluateArguments([], values);
    assert p.Join([value]) == p.CellText(value) + p.Join([]);
  }

  lemma FallbackOrder(literal: CellValue)
    ensures Reachable(FallbackSchema(literal).dependencies, Elements([1])) == {2, 3}
    ensures VisitOrder(FallbackSchema(literal).dependencies, {2, 3}) == [2, 3]
  {
    var deps := FallbackSchema(literal).dependencies;
    assert deps[0] == Dependency(2, 1) && deps[1] == Dependency(3, 2);
    assert [1][0] in Elements([1]);
    ReachStep(deps, Elements([1]), 1, 2);
    ReachStep(deps, Elements([1]), 2, 3);
    assert Elements([2, 3]) == {2, 3} && Elements([2]) == {2} && Elements<ColumnId>([]) == {};
    assert [2, 3][..0] == [] && [2, 3][..1] == [2];
    assert Available(deps, {2, 3}, {}, 2) && !Available(deps, {2, 3}, {}, 3);
    assert AllAvailable(deps, {2, 3}, {}) == {2};
    assert AllAvailable(deps, {2, 3}, {2}) == {3};
    assert AllAvailable(deps, {2, 3}, {2, 3}) == {};
    assert PicksLeast(deps, {2, 3}, [2, 3], 0) && PicksLeast(deps, {2, 3}, [2, 3], 1);
    LeastFirstIsUnique(deps, deps, {2, 3}, [2, 3], 0);
  }
}
