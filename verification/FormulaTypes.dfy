/** The type checker of formulas (packages/domain/src/formulas.ts:30-96, 192-313)
    and what it guarantees of evaluation and recomputation. */
module FormulaTypes {
  import opened Collections
  import opened FormulaGraph
  import opened FormulaTraversal
  import opened FormulaValues
  import opened FormulaRecompute

  type ColumnTypes = map<ColumnId, ValueType>

  // ---- the checker; None is a FormulaDefinitionError --------------------------

  const MAXIMUM_DEPTH: nat := 12
  const MAXIMUM_NODES: nat := 128
  const MAXIMUM_ARGUMENTS: nat := 16

  function Depth(e: Expression): nat
    decreases e, 1
  {
    if e.Call? then 1 + DepthOf(e.args) else 1
  }

  function DepthOf(args: seq<Expression>): nat
    decreases args, 0
  {
    if args == [] then 0
    else
      var first, rest := Depth(args[0]), DepthOf(args[1..]);
      if first > rest then first else rest
  }

  function Nodes(e: Expression): nat
    decreases e, 1
  {
    if e.Call? then 1 + NodesOf(e.args) else 1
  }

  function NodesOf(args: seq<Expression>): nat
    decreases args, 0
  {
    if args == [] then 0 else Nodes(args[0]) + NodesOf(args[1..])
  }

  /** What formulaExpressionSchema asks of calls. */
  predicate IsConfiguration(e: Expression)
    decreases e, 1
  {
    e.Call? ==> 1 <= |e.args| <= MAXIMUM_ARGUMENTS && AreConfigurations(e.args)
  }

  predicate AreConfigurations(args: seq<Expression>)
    decreases args, 0
  {
    args == [] || (IsConfiguration(args[0]) && AreConfigurations(args[1..]))
  }

  predicate HasArity(fn: FormulaFunction, count: nat) {
    match fn
    case Divide => count == 2
    case Equals => count == 2
    case If => count == 3
    case Lower => count == 1
    case Multiply => count == 2
    case Subtract => count == 2
    case Trim => count == 1
    case Upper => count == 1
    case _ => count >= 1
  }

  predicate AllWithin(types: seq<ValueType>, allowed: set<ValueType>) {
    forall i :: 0 <= i < |types| ==> types[i] in allowed
  }

  /** The one type among them that is not empty; None when there are two. */
  function CommonType(types: seq<ValueType>): Option<ValueType> {
    if types == [] then Some(EmptyType)
    else
      match CommonType(types[1..])
      case None => None
      case Some(rest) =>
        if types[0] == EmptyType then Some(rest)
        else if rest == EmptyType || rest == types[0] then Some(types[0])
        else None
  }

  function CallType(fn: FormulaFunction, types: seq<ValueType>): Option<ValueType> {
    if !HasArity(fn, |types|) then None
    else
      match fn
      case Concat => Some(TextType)
      case Lower => if AllWithin(types, {TextType, EmptyType}) then Some(TextType) else None
      case Upper => if AllWithin(types, {TextType, EmptyType}) then Some(TextType) else None
      case Trim => if AllWithin(types, {TextType, EmptyType}) then Some(TextType) else None
      case Equals => Some(BooleanType)
      case Coalesce => CommonType(types)
      case If => if types[0] == BooleanType then CommonType(types[1..]) else None
      case _ => if AllWithin(types, {NumberType, EmptyType}) then Some(NumberType) else None
  }

  /** inferType. */
  function Infer(e: Expression, types: ColumnTypes): Option<ValueType>
    decreases e, 1
  {
    match e
    case Column(id) => if id in types then Some(types[id]) else None
    case Literal(v) => Some(TypeOf(v))
    case Call(fn, args) =>
      match InferAll(args, types)
      case None => None
      case Some(found) => CallType(fn, found)
  }

  function InferAll(args: seq<Expression>, types: ColumnTypes): (r: Option<seq<ValueType>>)
    ensures r.Some? ==> |r.value| == |args|
    decreases args, 0
  {
    if args == [] then Some([])
    else
      match (Infer(args[0], types), InferAll(args[1..], types))
      case (Some(first), Some(rest)) => Some([first] + rest)
      case _ => None
  }

  /** validateFormulaDefinition. */
  function Validate(e: Expression, types: ColumnTypes): Option<ValueType> {
    if Depth(e) > MAXIMUM_DEPTH || Nodes(e) > MAXIMUM_NODES then None
    else
      match Infer(e, types)
      case None => None
      case Some(found) => if found == EmptyType then None else Some(found)
  }

  // ---- the typing rules -------------------------------------------------------

  /** Arguments that are not empty share one type, or all are empty. */
  ghost predicate IsCommon(types: seq<ValueType>, t: ValueType) {
    (forall i :: 0 <= i < |types| ==> types[i] == EmptyType || types[i] == t) &&
    (t != EmptyType ==> t in types)
  }

  ghost predicate AreText(types: seq<ValueType>) {
    forall i :: 0 <= i < |types| ==> types[i] == TextType || types[i] == EmptyType
  }

  ghost predicate AreNumeric(types: seq<ValueType>) {
    forall i :: 0 <= i < |types| ==> types[i] == NumberType || types[i] == EmptyType
  }

  ghost predicate Accepts(fn: FormulaFunction, types: seq<ValueType>, t: ValueType) {
    match fn
    case Concat => types != [] && t == TextType
    case Lower => |types| == 1 && AreText(types) && t == TextType
    case Upper => |types| == 1 && AreText(types) && t == TextType
    case Trim => |types| == 1 && AreText(types) && t == TextType
    case Equals => |types| == 2 && t == BooleanType
    case Coalesce => types != [] && IsCommon(types, t)
    case If => |types| == 3 && types[0] == BooleanType && IsCommon(types[1..], t)
    case Add => types != [] && AreNumeric(types) && t == NumberType
    case _ => |types| == 2 && AreNumeric(types) && t == NumberType
  }

  /** The typing relation. */
  ghost predicate Types(e: Expression, types: ColumnTypes, t: ValueType)
    decreases e
  {
    match e
    case Column(id) => id in types && types[id] == t
    case Literal(v) => TypeOf(v) == t
    case Call(fn, args) =>
      exists found: seq<ValueType> :: |found| == |args| && Accepts(fn, found, t) &&
        forall i :: 0 <= i < |args| ==> Types(args[i], types, found[i])
  }

  lemma {:induction false} CommonTypeMeans(types: seq<ValueType>, t: ValueType)
    ensures CommonType(types) == Some(t) <==> IsCommon(types, t)
  {
    if types != [] {
      var first, rest := types[0], types[1..];
      assert types == [first] + rest;
      forall u ensures CommonType(rest) == Some(u) <==> IsCommon(rest, u) { CommonTypeMeans(rest, u); }
      assert forall i :: 0 <= i < |rest| ==> rest[i] == types[i + 1];
      if first != EmptyType && IsCommon(types, t) {
        assert t == first;
        assert if first in rest then IsCommon(rest, first) else IsCommon(rest, EmptyType);
      }
    }
  }

  lemma CallTypeMeans(fn: FormulaFunction, types: seq<ValueType>, t: ValueType)
    ensures CallType(fn, types) == Some(t) <==> Accepts(fn, types, t)
  {
    hide CommonType, IsCommon;
    if fn == Coalesce { CommonTypeMeans(types, t); }
    if fn == If && |types| == 3 { CommonTypeMeans(types[1..], t); }
  }

  lemma {:induction false} ArgumentTypes(args: seq<Expression>, types: ColumnTypes)
    ensures InferAll(args, types).Some? <==> forall i :: 0 <= i < |args| ==> Infer(args[i], types).Some?
    ensures InferAll(args, types).Some? ==>
      forall i :: 0 <= i < |args| ==> Infer(args[i], types) == Some(InferAll(args, types).value[i])
  {
    if args != [] {
      ArgumentTypes(args[1..], types);
      assert forall i :: 0 < i < |args| ==> args[i] == args[1..][i - 1];
      assert forall i :: 0 <= i < |args| - 1 ==> args[1..][i] == args[i + 1];
    }
  }

  /** Inference decides the typing relation. */
  lemma {:induction false} InferenceMeans(e: Expression, types: ColumnTypes, t: ValueType)
    ensures Types(e, types, t) <==> Infer(e, types) == Some(t)
    decreases e
  {
    hide Accepts, CallType;
    if e.Call? {
      ArgumentTypes(e.args, types);
      forall i, u | 0 <= i < |e.args| ensures Types(e.args[i], types, u) <==> Infer(e.args[i], types) == Some(u) {
        InferenceMeans(e.args[i], types, u);
      }
      forall other: seq<ValueType> | |other| == |e.args| && forall i :: 0 <= i < |e.args| ==>
               Types(e.args[i], types, other[i])
        ensures InferAll(e.args, types) == Some(other)
      {
        forall i | 0 <= i < |e.args| ensures Infer(e.args[i], types) == Some(other[i]) {
          assert Types(e.args[i], types, other[i]);
        }
        assert InferAll(e.args, types).value == other;
      }
      if InferAll(e.args, types).Some? { CallTypeMeans(e.fn, InferAll(e.args, types).value, t); }
    }
  }

  ghost predicate IsWithin(e: Expression, depth: nat)
    decreases e
  {
    depth > 0 && (e.Call? ==> forall i :: 0 <= i < |e.args| ==> IsWithin(e.args[i], depth - 1))
  }

  lemma {:induction false} DepthMeans(e: Expression, depth: nat)
    ensures IsWithin(e, depth) <==> Depth(e) <= depth
    decreases e, 1
  {
    if e.Call? && depth > 0 { DepthsMean(e.args, depth - 1); }
  }

  lemma {:induction false} DepthsMean(args: seq<Expression>, depth: nat)
    ensures (forall i :: 0 <= i < |args| ==> IsWithin(args[i], depth)) <==> DepthOf(args) <= depth
    decreases args, 0
  {
    if args != [] {
      DepthMeans(args[0], depth);
      DepthsMean(args[1..], depth);
      assert forall i :: 0 < i < |args| ==> args[i] == args[1..][i - 1];
      assert forall i :: 0 <= i < |args| - 1 ==> args[1..][i] == args[i + 1];
    }
  }

  /** Every node of the tree once. */
  function Walk(e: Expression): seq<Expression>
    decreases e, 1
  {
    [e] + if e.Call? then WalkAll(e.args) else []
  }

  function WalkAll(args: seq<Expression>): seq<Expression>
    decreases args, 0
  {
    if args == [] then [] else Walk(args[0]) + WalkAll(args[1..])
  }

  lemma {:induction false} NodesMean(e: Expression)
    ensures Nodes(e) == |Walk(e)|
    decreases e, 1
  {
    if e.Call? { AllNodesMean(e.args); }
  }

  lemma {:induction false} AllNodesMean(args: seq<Expression>)
    ensures NodesOf(args) == |WalkAll(args)|
    decreases args, 0
  {
    if args != [] {
      NodesMean(args[0]);
      AllNodesMean(args[1..]);
    }
  }

  /** Every call of the tree has between one and sixteen arguments. */
  lemma {:induction false} ConfigurationMeans(e: Expression)
    ensures IsConfiguration(e) <==> forall node :: node in Walk(e) && node.Call? ==> 1 <= |node.args| <= 16
    decreases e, 1
  {
    assert Walk(e)[0] == e;
    if e.Call? {
      ConfigurationsMean(e.args);
      assert forall node :: node in Walk(e) <==> node == e || node in WalkAll(e.args);
    }
  }

  lemma {:induction false} ConfigurationsMean(args: seq<Expression>)
    ensures AreConfigurations(args) <==> forall node :: node in WalkAll(args) && node.Call? ==> 1 <= |node.args| <= 16
    decreases args, 0
  {
    if args != [] {
      ConfigurationMeans(args[0]);
      ConfigurationsMean(args[1..]);
      assert forall node :: node in WalkAll(args) <==> node in Walk(args[0]) || node in WalkAll(args[1..]);
    }
  }

  /** A formula references exactly the columns that occur in its tree. */
  lemma {:induction false} ReferencesMean(e: Expression, c: ColumnId)
    ensures c in References(e) <==> Column(c) in Walk(e)
    decreases e, 1
  {
    if e.Call? { AllReferencesMean(e.args, c); }
  }

  lemma {:induction false} AllReferencesMean(args: seq<Expression>, c: ColumnId)
    ensures c in ReferencesOf(args) <==> Column(c) in WalkAll(args)
    decreases args, 0
  {
    if args != [] {
      ReferencesMean(args[0], c);
      AllReferencesMean(args[1..], c);
    }
  }

  /** A definition is accepted exactly when it is at most twelve levels deep and
      128 nodes large and the rules give it a type that is not empty. */
  lemma ValidationMeans(e: Expression, types: ColumnTypes, t: ValueType)
    ensures Validate(e, types) == Some(t) <==>
              IsWithin(e, 12) && |Walk(e)| <= 128 && t != EmptyType && Types(e, types, t)
  {
    hide Types, Infer, IsWithin, Walk, Depth, Nodes;
    DepthMeans(e, 12);
    NodesMean(e);
    InferenceMeans(e, types, t);
  }

  // ---- evaluation keeps types -------------------------------------------------

  predicate HasType(v: CellValue, t: ValueType) {
    v.Empty? || TypeOf(v) == t
  }

  ghost predicate ValuesFit(values: map<ColumnId, CellValue>, types: ColumnTypes) {
    forall c :: c in types ==> HasType(Read(values, c), types[c])
  }

  ghost predicate AllFit(values: seq<CellValue>, types: seq<ValueType>) {
    |values| == |types| && forall i :: 0 <= i < |values| ==> HasType(values[i], types[i])
  }

  lemma {:induction false} CommonTypeFits(types: seq<ValueType>, i: nat)
    requires CommonType(types).Some? && i < |types|
    ensures types[i] == EmptyType || types[i] == CommonType(types).value
  {
    if i > 0 { CommonTypeFits(types[1..], i - 1); }
  }

  lemma FirstNonEmptyFits(values: seq<CellValue>, types: seq<ValueType>)
    requires AllFit(values, types) && CommonType(types).Some?
    ensures HasType(FirstNonEmpty(values), CommonType(types).value)
  {
    FirstNonEmptyIsArgument(values);
    if FirstNonEmpty(values) != Empty {
      var i :| 0 <= i < |values| && values[i] == FirstNonEmpty(values);
      CommonTypeFits(types, i);
    }
  }

  lemma CallFits(p: Platform, fn: FormulaFunction, values: seq<CellValue>, types: seq<ValueType>)
    requires AllFit(values, types) && CallType(fn, types).Some?
    ensures HasType(p.EvaluateCall(fn, values), CallType(fn, types).value)
  {
    if fn == Coalesce {
      FirstNonEmptyFits(values, types);
    } else if fn == If {
      CommonTypeFits(types[1..], 0);
      CommonTypeFits(types[1..], 1);
      assert types[1..][0] == types[1] && types[1..][1] == types[2];
    }
  }

  /** Over cells that are empty or of their column's type a formula yields
      nothing or a value of its inferred type. */
  lemma {:induction false} EvaluationFits(p: Platform, e: Expression, values: map<ColumnId, CellValue>,
                                          types: ColumnTypes)
    requires ValuesFit(values, types) && Infer(e, types).Some?
    ensures HasType(p.Evaluate(e, values), Infer(e, types).value)
    decreases e, 1
  {
    if e.Call? {
      ArgumentsFit(p, e.args, values, types);
      CallFits(p, e.fn, p.EvaluateArguments(e.args, values), InferAll(e.args, types).value);
    }
  }

  lemma {:induction false} ArgumentsFit(p: Platform, args: seq<Expression>, values: map<ColumnId, CellValue>,
                                        types: ColumnTypes)
    requires ValuesFit(values, types) && InferAll(args, types).Some?
    ensures AllFit(p.EvaluateArguments(args, values), InferAll(args, types).value)
    decreases args, 0
  {
    if args != [] {
      EvaluationFits(p, args[0], values, types);
      ArgumentsFit(p, args[1..], values, types);
    }
  }

  /** Inference reads only the referenced columns. */
  lemma {:induction false} InferFrame(e: Expression, a: ColumnTypes, b: ColumnTypes)
    requires forall c :: c in References(e) ==> (c in a <==> c in b) && (c in a ==> a[c] == b[c])
    ensures Infer(e, a) == Infer(e, b)
    decreases e, 1
  {
    if e.Call? { InferAllFrame(e.args, a, b); }
  }

  lemma {:induction false} InferAllFrame(args: seq<Expression>, a: ColumnTypes, b: ColumnTypes)
    requires forall c :: c in ReferencesOf(args) ==> (c in a <==> c in b) && (c in a ==> a[c] == b[c])
    ensures InferAll(args, a) == InferAll(args, b)
    decreases args, 0
  {
    if args != [] {
      InferFrame(args[0], a, b);
      InferAllFrame(args[1..], a, b);
    }
  }

  // ---- recomputation over a typed schema --------------------------------------

  function TypesOf(schema: Schema): ColumnTypes {
    map c | c in schema.columns :: schema.columns[c].valueType
  }

  ghost predicate FormulaIsTyped(schema: Schema, id: ColumnId)
    requires schema.IsActiveFormula(id)
  {
    schema.columns[id].kind.expression.Some? &&
    Infer(schema.columns[id].kind.expression.value, TypesOf(schema)) == Some(schema.columns[id].valueType)
  }

  /** Every active formula has a configuration of its column's type. */
  ghost predicate SchemaIsTyped(schema: Schema) {
    forall id :: schema.IsActiveFormula(id) ==> FormulaIsTyped(schema, id)
  }

  ghost predicate RowIsTyped(schema: Schema, cells: RowCells) {
    forall c :: c in cells ==> c in schema.columns && HasType(cells[c].value, schema.columns[c].valueType)
  }

  ghost predicate PassIsTyped(schema: Schema, pass: Pass) {
    pass.Pass? && ValuesFit(pass.values, TypesOf(schema)) && RowIsTyped(schema, pass.cells)
  }

  lemma EvaluateOneIsTyped(p: Platform, schema: Schema, pass: Pass, id: ColumnId)
    requires SchemaIsTyped(schema) && PassIsTyped(schema, pass)
    ensures PassIsTyped(schema, EvaluateOne(p, schema, pass, id))
  {
    if schema.IsActiveFormula(id) {
      assert FormulaIsTyped(schema, id);
      EvaluationFits(p, schema.columns[id].kind.expression.value, pass.values, TypesOf(schema));
    }
  }

  lemma {:induction false} EvaluateAllIsTyped(p: Platform, schema: Schema, cells: RowCells, order: seq<ColumnId>)
    requires SchemaIsTyped(schema) && RowIsTyped(schema, cells)
    ensures PassIsTyped(schema, EvaluateAll(p, schema, cells, order))
  {
    hide SchemaIsTyped, PassIsTyped, EvaluateOne;
    if order == [] {
      assert PassIsTyped(schema, Pass(Values(cells), cells, [])) by { StartIsTyped(schema, cells); }
    } else {
      EvaluateAllIsTyped(p, schema, cells, order[..|order| - 1]);
      EvaluateOneIsTyped(p, schema, EvaluateAll(p, schema, cells, order[..|order| - 1]), order[|order| - 1]);
    }
  }

  lemma StartIsTyped(schema: Schema, cells: RowCells)
    requires RowIsTyped(schema, cells)
    ensures PassIsTyped(schema, Pass(Values(cells), cells, []))
  {
  }

  /** Over a typed schema and row a recomputation leaves the row typed, and it
      fails only for a cycle: never for a value of the wrong type or for a
      missing configuration. */
  lemma TypedRowsRecompute(p: Platform, schema: Schema, cells: RowCells, changed: seq<ColumnId>)
    requires SchemaIsTyped(schema) && RowIsTyped(schema, cells)
    ensures var after := RecomputeRow(p, schema, cells, changed);
            if after.Pass? then RowIsTyped(schema, after.cells)
            else after.error == CyclicGraph &&
                 exists walk :: IsCycle(schema.dependencies, Reachable(schema.dependencies, Elements(changed)), walk)
  {
    hide SchemaIsTyped, RowIsTyped, EvaluateAll;
    var reached := Reachable(schema.dependencies, Elements(changed));
    EvaluateAllIsTyped(p, schema, cells, VisitOrder(schema.dependencies, reached));
    CyclicErrorIffCycle(p, schema, cells, changed);
  }

  // ---- creating a formula -----------------------------------------------------

  ghost predicate EdgesLeadToColumns(schema: Schema) {
    forall e :: e in schema.dependencies ==> e.columnId in schema.columns && e.dependsOnColumnId in schema.columns
  }

  /** A schema over which typed rows always recompute. */
  ghost predicate SchemaIsSound(schema: Schema) {
    SchemaIsTyped(schema) && EdgesLeadToColumns(schema) && Acyclic(schema.dependencies)
  }

  lemma SoundSchemasRecompute(p: Platform, schema: Schema, cells: RowCells, changed: seq<ColumnId>)
    requires SchemaIsSound(schema) && RowIsTyped(schema, cells)
    ensures RecomputeRow(p, schema, cells, changed).Pass?
    ensures RowIsTyped(schema, RecomputeRow(p, schema, cells, changed).cells)
  {
    hide SchemaIsTyped, RowIsTyped, RecomputeRow;
    TypedRowsRecompute(p, schema, cells, changed);
  }

  ghost predicate AddsFormula(before: Schema, after: Schema, id: ColumnId, expression: Expression,
                              valueType: ValueType) {
    id !in before.columns &&
    after.columns == before.columns[id := ColumnInfo(FormulaColumn(Some(expression)), valueType, false)] &&
    Elements(after.dependencies) == Elements(before.dependencies) +
      (set c | c in References(expression) :: Dependency(id, c))
  }

  /** Nothing depends on a new column, so no cycle passes through it. */
  lemma NewFormulaIsOnNoCycle(before: Schema, after: Schema, id: ColumnId, expression: Expression, valueType: ValueType)
    requires AddsFormula(before, after, id, expression, valueType) && References(expression) <= before.columns.Keys
    requires EdgesLeadToColumns(before) && Acyclic(before.dependencies)
    ensures EdgesLeadToColumns(after) && Acyclic(after.dependencies)
  {
    forall e | e in after.dependencies ensures e.dependsOnColumnId in before.columns && e.columnId in after.columns {
      assert e in Elements(after.dependencies);
      if e !in Elements(before.dependencies) {
        assert e.columnId == id && e.dependsOnColumnId in References(expression);
      }
    }
    forall within, walk ensures !IsCycle(after.dependencies, within, walk) {
      if IsCycle(after.dependencies, within, walk) {
        forall i | 0 <= i < |walk| - 1 ensures Dependency(walk[i + 1], walk[i]) in before.dependencies {
          assert Dependency(walk[i + 1], walk[i]) in Elements(after.dependencies);
          var next := if i + 2 < |walk| then walk[i + 2] else walk[1];
          assert Dependency(next, walk[i + 1]) in after.dependencies;
          assert walk[i + 1] != id;
          assert Dependency(walk[i + 1], walk[i]) in Elements(before.dependencies);
        }
        assert IsCycle(before.dependencies, within, walk);
      }
    }
  }

  lemma NewFormulaIsSound(before: Schema, after: Schema, id: ColumnId, expression: Expression, valueType: ValueType)
    requires AddsFormula(before, after, id, expression, valueType) && References(expression) <= before.columns.Keys
    requires SchemaIsSound(before) && Infer(expression, TypesOf(before)) == Some(valueType)
    ensures SchemaIsSound(after)
    ensures forall cells :: RowIsTyped(before, cells) ==> RowIsTyped(after, cells)
  {
    NewFormulaIsOnNoCycle(before, after, id, expression, valueType);
    InferFrame(expression, TypesOf(before), TypesOf(after));
    forall f | after.IsActiveFormula(f) ensures FormulaIsTyped(after, f) {
      if f != id {
        assert before.IsActiveFormula(f) && FormulaIsTyped(before, f);
        TypedFormulaKnowsItsColumns(before.columns[f].kind.expression.value, TypesOf(before));
        InferFrame(before.columns[f].kind.expression.value, TypesOf(before), TypesOf(after));
      }
    }
  }

  lemma {:induction false} TypedFormulaKnowsItsColumns(e: Expression, types: ColumnTypes)
    requires Infer(e, types).Some?
    ensures References(e) <= types.Keys
    decreases e, 1
  {
    if e.Call? { TypedArgumentsKnowTheirColumns(e.args, types); }
  }

  lemma {:induction false} TypedArgumentsKnowTheirColumns(args: seq<Expression>, types: ColumnTypes)
    requires InferAll(args, types).Some?
    ensures ReferencesOf(args) <= types.Keys
    decreases args, 0
  {
    if args != [] {
      TypedFormulaKnowsItsColumns(args[0], types);
      TypedArgumentsKnowTheirColumns(args[1..], types);
    }
  }
}
