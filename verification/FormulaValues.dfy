/** Cell values and formula expressions: packages/domain/src/formulas.ts and
    the storage mapping of packages/db/src/cell-values.ts. */
module FormulaValues {
  import opened Collections
  import opened FormulaGraph

  datatype CellValue =
    | Empty
    | Text(text: string)
    | Number(number: real)
    | Boolean(flag: bool)
    | Timestamp(instant: string)
    | Json(json: string)

  datatype ValueType = EmptyType | TextType | NumberType | BooleanType | TimestampType | JsonType

  function TypeOf(v: CellValue): ValueType {
    match v
    case Empty => EmptyType
    case Text(_) => TextType
    case Number(_) => NumberType
    case Boolean(_) => BooleanType
    case Timestamp(_) => TimestampType
    case Json(_) => JsonType
  }

  datatype FormulaFunction =
    Add | Coalesce | Concat | Divide | Equals | If | Lower | Multiply | Subtract | Trim | Upper

  datatype Expression =
    | Column(columnId: ColumnId)
    | Literal(value: CellValue)
    | Call(fn: FormulaFunction, args: seq<Expression>)

  /** What the JavaScript runtime and PostgreSQL supply: text case, number
      printing, rounding to a double (None for a result that is not finite), and
      the text a timestamp or JSON value has after it was stored and read. */
  datatype Platform = Platform(
    lower: string -> string,
    upper: string -> string,
    trim: string -> string,
    numberText: real -> string,
    rounded: real -> Option<real>,
    storedTimestamp: string -> string,
    storedJson: string -> string)
  {
    /** Storing a stored value changes nothing. */
    ghost predicate Valid() {
      (forall t :: storedTimestamp(storedTimestamp(t)) == storedTimestamp(t)) &&
      (forall j :: storedJson(storedJson(j)) == storedJson(j))
    }

    /** deserializeCellValue after serializeCellValue. */
    function Stored(v: CellValue): (r: CellValue)
      ensures TypeOf(r) == TypeOf(v)
    {
      match v
      case Timestamp(t) => Timestamp(storedTimestamp(t))
      case Json(j) => Json(storedJson(j))
      case _ => v
    }

    predicate Canonical(v: CellValue) {
      Stored(v) == v
    }

    lemma StoredIsCanonical(v: CellValue)
      requires Valid()
      ensures Canonical(Stored(v))
    {
    }

    function CellText(v: CellValue): string {
      match v
      case Empty => ""
      case Text(t) => t
      case Number(n) => numberText(n)
      case Boolean(b) => if b then "true" else "false"
      case Timestamp(t) => t
      case Json(j) => j
    }

    function Join(args: seq<CellValue>): string {
      if args == [] then "" else CellText(args[0]) + Join(args[1..])
    }

    function Operate(fn: FormulaFunction, current: real, value: real): Option<real> {
      match fn
      case Add => rounded(current + value)
      case Subtract => rounded(current - value)
      case Multiply => rounded(current * value)
      case Divide => if value == 0.0 then None else rounded(current / value)
      case _ => Some(current)
    }

    function Reduce(fn: FormulaFunction, current: real, rest: seq<CellValue>): Option<real>
      requires forall v :: v in rest ==> v.Number?
      decreases |rest|
    {
      if rest == [] then Some(current)
      else
        match Operate(fn, current, rest[0].number)
        case None => None
        case Some(next) => Reduce(fn, next, rest[1..])
    }

    function EvaluateCall(fn: FormulaFunction, args: seq<CellValue>): CellValue {
      match fn
      case Concat => Text(Join(args))
      case Lower => if args == [] || args[0].Empty? then Empty else Text(lower(CellText(args[0])))
      case Upper => if args == [] || args[0].Empty? then Empty else Text(upper(CellText(args[0])))
      case Trim => if args == [] || args[0].Empty? then Empty else Text(trim(CellText(args[0])))
      case Coalesce => FirstNonEmpty(args)
      case Equals => Boolean(|args| >= 2 && args[0] == args[1])
      case If =>
        if args == [] || !args[0].Boolean? then Empty
        else if args[0].flag then (if |args| > 1 then args[1] else Empty)
        else (if |args| > 2 then args[2] else Empty)
      case _ =>
        if exists v :: v in args && !v.Number? then Empty
        else if args == [] then Number(0.0)
        else
          match Reduce(fn, args[0].number, args[1..])
          case None => Empty
          case Some(result) => Number(result)
    }

    function Evaluate(e: Expression, values: map<ColumnId, CellValue>): CellValue
      decreases e, 1
    {
      match e
      case Column(id) => Read(values, id)
      case Literal(v) => v
      case Call(fn, args) => EvaluateCall(fn, EvaluateArguments(args, values))
    }

    function EvaluateArguments(args: seq<Expression>, values: map<ColumnId, CellValue>): seq<CellValue>
      decreases args, 0
    {
      if args == [] then [] else [Evaluate(args[0], values)] + EvaluateArguments(args[1..], values)
    }

    /** A formula reads nothing but the columns it references. */
    lemma {:induction false} EvaluateFrame(e: Expression, a: map<ColumnId, CellValue>, b: map<ColumnId, CellValue>)
      requires forall c :: c in References(e) ==> Read(a, c) == Read(b, c)
      ensures Evaluate(e, a) == Evaluate(e, b)
      decreases e, 1
    {
      if e.Call? { ArgumentsFrame(e.args, a, b); }
    }

    lemma {:induction false} ArgumentsFrame(args: seq<Expression>, a: map<ColumnId, CellValue>,
                                            b: map<ColumnId, CellValue>)
      requires forall c :: c in ReferencesOf(args) ==> Read(a, c) == Read(b, c)
      ensures EvaluateArguments(args, a) == EvaluateArguments(args, b)
      decreases args, 0
    {
      if args != [] {
        EvaluateFrame(args[0], a, b);
        ArgumentsFrame(args[1..], a, b);
      }
    }

    ghost predicate CanonicalValues(values: map<ColumnId, CellValue>) {
      forall c :: c in values ==> Canonical(values[c])
    }

    ghost predicate CanonicalLiterals(e: Expression)
      decreases e, 1
    {
      match e
      case Column(_) => true
      case Literal(v) => Canonical(v)
      case Call(_, args) => CanonicalLiteralsOf(args)
    }

    ghost predicate CanonicalLiteralsOf(args: seq<Expression>)
      decreases args, 0
    {
      args == [] || (CanonicalLiterals(args[0]) && CanonicalLiteralsOf(args[1..]))
    }

    /** No function makes a value that storage would rewrite: only a literal
        can introduce one. */
    lemma {:induction false} EvaluateIsCanonical(e: Expression, values: map<ColumnId, CellValue>)
      requires CanonicalLiterals(e) && CanonicalValues(values)
      ensures Canonical(Evaluate(e, values))
      decreases e, 1
    {
      if e.Call? {
        ArgumentsAreCanonical(e.args, values);
        CallIsCanonical(e.fn, EvaluateArguments(e.args, values));
      }
    }

    lemma {:induction false} ArgumentsAreCanonical(args: seq<Expression>, values: map<ColumnId, CellValue>)
      requires CanonicalLiteralsOf(args) && CanonicalValues(values)
      ensures forall v :: v in EvaluateArguments(args, values) ==> Canonical(v)
      decreases args, 0
    {
      if args != [] {
        EvaluateIsCanonical(args[0], values);
        ArgumentsAreCanonical(args[1..], values);
      }
    }

    lemma CallIsCanonical(fn: FormulaFunction, args: seq<CellValue>)
      requires forall v :: v in args ==> Canonical(v)
      ensures Canonical(EvaluateCall(fn, args))
    {
      if fn == Coalesce { FirstNonEmptyIsArgument(args); }
    }
  }

  function Read(values: map<ColumnId, CellValue>, id: ColumnId): CellValue {
    if id in values then values[id] else Empty
  }

  function FirstNonEmpty(args: seq<CellValue>): CellValue {
    if args == [] then Empty
    else if !args[0].Empty? then args[0]
    else FirstNonEmpty(args[1..])
  }

  lemma {:induction false} FirstNonEmptyIsArgument(args: seq<CellValue>)
    ensures FirstNonEmpty(args) == Empty || FirstNonEmpty(args) in args
  {
    if args != [] && args[0].Empty? { FirstNonEmptyIsArgument(args[1..]); }
  }

  /** collectFormulaColumnIds. */
  function References(e: Expression): set<ColumnId>
    decreases e, 1
  {
    match e
    case Column(id) => {id}
    case Literal(_) => {}
    case Call(_, args) => ReferencesOf(args)
  }

  function ReferencesOf(args: seq<Expression>): set<ColumnId>
    decreases args, 0
  {
    if args == [] then {} else References(args[0]) + ReferencesOf(args[1..])
  }
}
