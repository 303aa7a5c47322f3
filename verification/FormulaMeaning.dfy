/** What formulas compute (packages/domain/src/formulas.ts:98-191): the rules of
    each function as a relation, and its agreement with evaluation. */
module FormulaMeaning {
  import opened Collections
  import opened FormulaGraph
  import opened FormulaTraversal
  import opened FormulaValues
  import opened FormulaRecompute

  // ---- the rules --------------------------------------------------------------

  /** The text of a value inside a formula. */
  ghost predicate Prints(p: Platform, v: CellValue, text: string) {
    (v.Empty? ==> text == "") &&
    (v.Text? ==> text == v.text) &&
    (v.Number? ==> text == p.numberText(v.number)) &&
    (v == Boolean(true) ==> text == "true") &&
    (v == Boolean(false) ==> text == "false") &&
    (v.Timestamp? ==> text == v.instant) &&
    (v.Json? ==> text == v.json)
  }

  function Flatten(pieces: seq<string>): string {
    if pieces == [] then "" else Flatten(pieces[..|pieces| - 1]) + pieces[|pieces| - 1]
  }

  /** The texts of all arguments, in order. */
  ghost predicate Concatenates(p: Platform, args: seq<CellValue>, text: string) {
    exists pieces: seq<string> :: |pieces| == |args| && text == Flatten(pieces) &&
      forall i :: 0 <= i < |args| ==> Prints(p, args[i], pieces[i])
  }

  /** One text function over the first argument. */
  ghost predicate Rewrites(p: Platform, change: string -> string, args: seq<CellValue>, v: CellValue) {
    if args == [] || args[0] == Empty then v == Empty
    else exists text :: Prints(p, args[0], text) && v == Text(change(text))
  }

  /** The first argument that is not empty. */
  ghost predicate Chooses(args: seq<CellValue>, v: CellValue) {
    if forall i :: 0 <= i < |args| ==> args[i] == Empty then v == Empty
    else v != Empty && exists i :: 0 <= i < |args| && args[i] == v && forall j :: 0 <= j < i ==> args[j] == Empty
  }

  /** One arithmetic operation with a finite result. */
  ghost predicate Computes(p: Platform, fn: FormulaFunction, a: real, b: real, result: real) {
    match fn
    case Add => p.rounded(a + b) == Some(result)
    case Subtract => p.rounded(a - b) == Some(result)
    case Multiply => p.rounded(a * b) == Some(result)
    case Divide => b != 0.0 && p.rounded(a / b) == Some(result)
    case _ => false
  }

  /** The results of folding numbers from the left. */
  ghost predicate Folds(p: Platform, fn: FormulaFunction, numbers: seq<real>, results: seq<real>) {
    |results| == |numbers| > 0 && results[0] == numbers[0] &&
    forall i :: 0 < i < |numbers| ==> Computes(p, fn, results[i - 1], numbers[i], results[i])
  }

  ghost predicate AreNumbers(args: seq<CellValue>, numbers: seq<real>) {
    |args| == |numbers| && forall i :: 0 <= i < |args| ==> args[i] == Number(numbers[i])
  }

  /** Nothing without a fold: for an empty or foreign argument, a division by
      zero or a result that is not finite. */
  ghost predicate Calculates(p: Platform, fn: FormulaFunction, args: seq<CellValue>, v: CellValue) {
    if args == [] then v == Number(0.0)
    else if exists numbers, results :: AreNumbers(args, numbers) && Folds(p, fn, numbers, results)
    then exists numbers, results :: AreNumbers(args, numbers) && Folds(p, fn, numbers, results) &&
           v == Number(results[|args| - 1])
    else v == Empty
  }

  /** The rule of each function. */
  ghost predicate Yields(p: Platform, fn: FormulaFunction, args: seq<CellValue>, v: CellValue) {
    match fn
    case Concat => v.Text? && Concatenates(p, args, v.text)
    case Lower => Rewrites(p, p.lower, args, v)
    case Upper => Rewrites(p, p.upper, args, v)
    case Trim => Rewrites(p, p.trim, args, v)
    case Coalesce => Chooses(args, v)
    case Equals => v == Boolean(|args| >= 2 && args[0] == args[1])
    case If =>
      (|args| > 0 && args[0] == Boolean(true) ==> v == if |args| > 1 then args[1] else Empty) &&
      (|args| > 0 && args[0] == Boolean(false) ==> v == if |args| > 2 then args[2] else Empty) &&
      (|args| == 0 || !args[0].Boolean? ==> v == Empty)
    case _ => Calculates(p, fn, args, v)
  }

  /** A column yields its cell's value or nothing, a literal itself, and a call
      what its function's rule makes of what its arguments yield. */
  ghost predicate Means(p: Platform, e: Expression, values: map<ColumnId, CellValue>, v: CellValue)
    decreases e
  {
    match e
    case Column(id) => if id in values then v == values[id] else v == Empty
    case Literal(literal) => v == literal
    case Call(fn, args) =>
      exists found: seq<CellValue> :: |found| == |args| && Yields(p, fn, found, v) &&
        forall i :: 0 <= i < |args| ==> Means(p, args[i], values, found[i])
  }

  // ---- each function follows its rule -----------------------------------------

  lemma PrintsOne(p: Platform, v: CellValue, text: string)
    ensures Prints(p, v, text) <==> text == p.CellText(v)
  {
  }

  function Pieces(p: Platform, args: seq<CellValue>): seq<string> {
    seq(|args|, i requires 0 <= i < |args| => p.CellText(args[i]))
  }

  lemma {:induction false} FlattenFromFront(pieces: seq<string>)
    requires pieces != []
    ensures Flatten(pieces) == pieces[0] + Flatten(pieces[1..])
  {
    var n := |pieces| - 1;
    if n > 0 {
      FlattenFromFront(pieces[..n]);
      assert pieces[1..][..n - 1] == pieces[..n][1..];
    }
  }

  lemma {:induction false} JoinFlattens(p: Platform, args: seq<CellValue>)
    ensures p.Join(args) == Flatten(Pieces(p, args))
  {
    if args != [] {
      JoinFlattens(p, args[1..]);
      FlattenFromFront(Pieces(p, args));
      assert Pieces(p, args)[1..] == Pieces(p, args[1..]);
    }
  }

  lemma ConcatFollows(p: Platform, args: seq<CellValue>, text: string)
    ensures Concatenates(p, args, text) <==> text == p.Join(args)
  {
    JoinFlattens(p, args);
    if Concatenates(p, args, text) {
      var pieces: seq<string> :| |pieces| == |args| && text == Flatten(pieces) &&
        forall i :: 0 <= i < |args| ==> Prints(p, args[i], pieces[i]);
      forall i | 0 <= i < |args| ensures pieces[i] == Pieces(p, args)[i] { PrintsOne(p, args[i], pieces[i]); }
      assert pieces == Pieces(p, args);
    } else {
      forall i | 0 <= i < |args| ensures Prints(p, args[i], Pieces(p, args)[i]) {}
    }
  }

  lemma {:induction false} CoalesceFollows(args: seq<CellValue>, v: CellValue)
    ensures Chooses(args, v) <==> v == FirstNonEmpty(args)
  {
    if args != [] && args[0].Empty? {
      CoalesceFollows(args[1..], v);
      var rest := args[1..];
      assert forall i :: 0 <= i < |rest| ==> rest[i] == args[i + 1];
      if i :| 0 <= i < |rest| && rest[i] == v && forall j :: 0 <= j < i ==> rest[j] == Empty {
        assert args[i + 1] == v && forall j :: 0 <= j < i + 1 ==> args[j] == Empty;
      }
      if i :| 0 <= i < |args| && args[i] == v && v != Empty && forall j :: 0 <= j < i ==> args[j] == Empty {
        assert rest[i - 1] == v && forall j :: 0 <= j < i - 1 ==> rest[j] == Empty;
      }
    }
  }

  lemma OperateComputes(p: Platform, fn: FormulaFunction, a: real, b: real, result: real)
    requires fn.Add? || fn.Subtract? || fn.Multiply? || fn.Divide?
    ensures Computes(p, fn, a, b, result) <==> p.Operate(fn, a, b) == Some(result)
  {
  }

  predicate IsArithmetic(fn: FormulaFunction) {
    fn.Add? || fn.Subtract? || fn.Multiply? || fn.Divide?
  }

  /** A fold is what reducing finds. */
  lemma {:induction false} FoldIsFound(p: Platform, fn: FormulaFunction, args: seq<CellValue>, numbers: seq<real>,
                                       results: seq<real>)
    requires IsArithmetic(fn) && AreNumbers(args, numbers) && Folds(p, fn, numbers, results)
    ensures p.Reduce(fn, args[0].number, args[1..]) == Some(results[|args| - 1])
    decreases |args|
  {
    if |args| > 1 {
      OperateComputes(p, fn, results[0], numbers[1], results[1]);
      var rest := [Number(results[1])] + args[2..];
      var shorter := [results[1]] + numbers[2..];
      assert args[1..][1..] == args[2..] == rest[1..] && rest[0].number == results[1];
      forall i | 0 < i < |shorter| ensures Computes(p, fn, results[1..][i - 1], shorter[i], results[1..][i]) {
        assert Computes(p, fn, results[i], numbers[i + 1], results[i + 1]);
      }
      FoldIsFound(p, fn, rest, shorter, results[1..]);
    }
  }

  lemma {:induction false} FoundIsFold(p: Platform, fn: FormulaFunction, numbers: seq<real>, args: seq<CellValue>)
    returns (results: seq<real>)
    requires IsArithmetic(fn) && args != [] && AreNumbers(args, numbers)
    requires p.Reduce(fn, args[0].number, args[1..]).Some?
    ensures Folds(p, fn, numbers, results)
    decreases |args|
  {
    if |args| == 1 {
      results := [numbers[0]];
    } else {
      var next := p.Operate(fn, numbers[0], numbers[1]);
      var rest := [Number(next.value)] + args[2..];
      assert args[1..][1..] == args[2..] == rest[1..];
      var later := FoundIsFold(p, fn, [next.value] + numbers[2..], rest);
      results := [numbers[0]] + later;
      forall i | 0 < i < |numbers| ensures Computes(p, fn, results[i - 1], numbers[i], results[i]) {
        if i == 1 {
          OperateComputes(p, fn, numbers[0], numbers[1], next.value);
        } else {
          assert Computes(p, fn, later[i - 2], ([next.value] + numbers[2..])[i - 1], later[i - 1]);
        }
      }
    }
  }

  function NumbersOf(args: seq<CellValue>): seq<real>
    requires forall i :: 0 <= i < |args| ==> args[i].Number?
  {
    seq(|args|, i requires 0 <= i < |args| => args[i].number)
  }

  lemma ArithmeticFollows(p: Platform, fn: FormulaFunction, args: seq<CellValue>, v: CellValue)
    requires IsArithmetic(fn)
    ensures Calculates(p, fn, args, v) <==> v == p.EvaluateCall(fn, args)
  {
    hide Computes;
    if args != [] && forall i :: 0 <= i < |args| ==> args[i].Number? {
      var numbers := NumbersOf(args);
      assert AreNumbers(args, numbers);
      if p.Reduce(fn, args[0].number, args[1..]).Some? {
        var results := FoundIsFold(p, fn, numbers, args);
        assert Folds(p, fn, numbers, results);
      }
      forall other, results | AreNumbers(args, other) && Folds(p, fn, other, results)
        ensures p.Reduce(fn, args[0].number, args[1..]) == Some(results[|args| - 1])
      {
        FoldIsFound(p, fn, args, other, results);
      }
    }
  }

  /** Every function follows its rule, and the rule determines its result. */
  lemma FunctionsFollow(p: Platform, fn: FormulaFunction, args: seq<CellValue>, v: CellValue)
    ensures Yields(p, fn, args, v) <==> v == p.EvaluateCall(fn, args)
  {
    hide Concatenates, Chooses, Calculates, Prints;
    match fn
    case Concat => if v.Text? { ConcatFollows(p, args, v.text); }
    case Coalesce => CoalesceFollows(args, v);
    case Equals =>
    case If =>
    case Lower => if args != [] { OnePrint(p, args[0]); }
    case Upper => if args != [] { OnePrint(p, args[0]); }
    case Trim => if args != [] { OnePrint(p, args[0]); }
    case _ => ArithmeticFollows(p, fn, args, v);
  }

  lemma OnePrint(p: Platform, v: CellValue)
    ensures Prints(p, v, p.CellText(v))
    ensures forall text :: Prints(p, v, text) ==> text == p.CellText(v)
  {
  }

  lemma {:induction false} ArgumentsFollow(p: Platform, args: seq<Expression>, values: map<ColumnId, CellValue>)
    ensures |p.EvaluateArguments(args, values)| == |args|
    ensures forall i :: 0 <= i < |args| ==> p.EvaluateArguments(args, values)[i] == p.Evaluate(args[i], values)
  {
    if args != [] { ArgumentsFollow(p, args[1..], values); }
  }

  /** For every formula and row, evaluation yields exactly what the rules say. */
  lemma {:induction false} EvaluationMeans(p: Platform, e: Expression, values: map<ColumnId, CellValue>, v: CellValue)
    ensures Means(p, e, values, v) <==> v == p.Evaluate(e, values)
    decreases e
  {
    hide Yields;
    if e.Call? {
      var found := p.EvaluateArguments(e.args, values);
      ArgumentsFollow(p, e.args, values);
      forall i, w | 0 <= i < |e.args| ensures Means(p, e.args[i], values, w) <==> w == found[i] {
        EvaluationMeans(p, e.args[i], values, w);
      }
      forall other: seq<CellValue> | |other| == |e.args| && forall i :: 0 <= i < |e.args| ==>
               Means(p, e.args[i], values, other[i])
        ensures other == found
      {
      }
      FunctionsFollow(p, e.fn, found, v);
    }
  }

  /** IF evaluates to what its chosen branch evaluates to. */
  lemma IfPicksItsBranch(p: Platform, condition: Expression, whenTrue: Expression, whenFalse: Expression,
                         values: map<ColumnId, CellValue>)
    ensures var chosen := p.Evaluate(Call(If, [condition, whenTrue, whenFalse]), values);
            (p.Evaluate(condition, values) == Boolean(true) ==> chosen == p.Evaluate(whenTrue, values)) &&
            (p.Evaluate(condition, values) == Boolean(false) ==> chosen == p.Evaluate(whenFalse, values)) &&
            (!p.Evaluate(condition, values).Boolean? ==> chosen == Empty)
  {
    var args := [condition, whenTrue, whenFalse];
    ArgumentsFollow(p, args, values);
    assert args[0] == condition && args[1] == whenTrue && args[2] == whenFalse;
    FunctionsFollow(p, If, p.EvaluateArguments(args, values), p.Evaluate(Call(If, args), values));
  }

  /** What a recompute holds in memory for a reached formula is what the formula
      means over the values in memory, and storage gets that value. */
  lemma RecomputedFormulasMean(p: Platform, schema: Schema, cells: RowCells, changed: seq<ColumnId>, id: ColumnId)
    requires schema.Declared() && RecomputeRow(p, schema, cells, changed).Pass?
    requires schema.IsActiveFormula(id) && id in Reachable(schema.dependencies, Elements(changed))
    ensures schema.columns[id].kind.expression.Some?
    ensures var after := RecomputeRow(p, schema, cells, changed);
            Means(p, schema.columns[id].kind.expression.value, after.values, Read(after.values, id)) &&
            Read(Values(after.cells), id) == p.Stored(Read(after.values, id))
  {
    IncrementalEqualsFullBeforeStorage(p, schema, cells, changed, id);
    var after := RecomputeRow(p, schema, cells, changed);
    EvaluationMeans(p, schema.columns[id].kind.expression.value, after.values, Read(after.values, id));
  }
}
