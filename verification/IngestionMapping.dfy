/** How a pushed batch's fields become columns: the mapping kept on the endpoint
    (packages/db/src/ingestion.ts:482-545) and planCsvColumns
    (packages/domain/src/import-policy.ts:24-71). */
module IngestionMapping {
  import opened Collections

  /** Text handling that is not modelled: normalizeField, validateHeader and the
      suffix loop that looks for a name outside the reserved ones. */
  datatype Naming = Naming(normalize: string -> string, valid: string -> bool,
                           suffixed: (string, set<string>) -> string)

  type ColumnId = nat

  /** The columns of a table in position order; the identifier is the index. */
  datatype Column = Column(name: string, input: bool, text: bool, archived: bool)
  datatype Mapped = Mapped(columnId: ColumnId, field: string)
  datatype Schema = Schema(columns: seq<Column>, mapping: seq<Mapped>)
  datatype Plan = Plan(columnName: string, existing: Option<ColumnId>, header: string)

  const MAXIMUM_FIELDS: nat := 100

  predicate IsActiveInput(columns: seq<Column>, id: ColumnId) {
    id < |columns| && columns[id].input && !columns[id].archived
  }

  function Usable(columns: seq<Column>, mapping: seq<Mapped>): seq<Mapped> {
    if mapping == [] then []
    else
      var last := mapping[|mapping| - 1];
      Usable(columns, mapping[..|mapping| - 1]) + if IsActiveInput(columns, last.columnId) then [last] else []
  }

  function FieldNames(naming: Naming, fields: seq<string>): set<string> {
    set i | 0 <= i < |fields| :: naming.normalize(fields[i])
  }

  function MappedFields(mapping: seq<Mapped>): (r: seq<string>)
    ensures |r| == |mapping| && forall i :: 0 <= i < |r| ==> r[i] == mapping[i].field
  {
    if mapping == [] then [] else MappedFields(mapping[..|mapping| - 1]) + [mapping[|mapping| - 1].field]
  }

  function NewFields(naming: Naming, mapped: set<string>, fields: seq<string>): seq<string> {
    if fields == [] then []
    else
      var last := fields[|fields| - 1];
      NewFields(naming, mapped, fields[..|fields| - 1]) + if naming.normalize(last) in mapped then [] else [last]
  }

  /** The first active column with the given normalized name. */
  function FirstNamed(naming: Naming, columns: seq<Column>, name: string): (r: Option<ColumnId>)
    ensures r.Some? ==>
              r.value < |columns| && !columns[r.value].archived && naming.normalize(columns[r.value].name) == name
  {
    if columns == [] then None
    else
      var n := |columns| - 1;
      match FirstNamed(naming, columns[..n], name)
      case Some(id) => Some(id)
      case None => if !columns[n].archived && naming.normalize(columns[n].name) == name then Some(n) else None
  }

  function Reserved(naming: Naming, columns: seq<Column>, plans: seq<Plan>): set<string> {
    (set i | 0 <= i < |columns| && !columns[i].archived :: naming.normalize(columns[i].name)) +
    (set i | 0 <= i < |plans| :: naming.normalize(plans[i].columnName))
  }

  function PlanOne(naming: Naming, columns: seq<Column>, plans: seq<Plan>, header: string): Plan {
    match FirstNamed(naming, columns, naming.normalize(header))
    case None => Plan(header, None, header)
    case Some(id) =>
      if columns[id].input && columns[id].text then Plan(columns[id].name, Some(id), header)
      else Plan(naming.suffixed(header, Reserved(naming, columns, plans)), None, header)
  }

  /** planCsvColumns; None is its CsvImportDefinitionError. */
  function PlanColumns(naming: Naming, columns: seq<Column>, headers: seq<string>): (r: Option<seq<Plan>>)
    ensures r.Some? ==> |r.value| == |headers|
  {
    if headers == [] then Some([])
    else
      var n := |headers| - 1;
      match PlanColumns(naming, columns, headers[..n])
      case None => None
      case Some(plans) =>
        if !naming.valid(headers[n]) || naming.normalize(headers[n]) in FieldNames(naming, headers[..n]) then None
        else Some(plans + [PlanOne(naming, columns, plans, headers[n])])
  }

  predicate NameIsTaken(columns: seq<Column>, name: string) {
    exists i :: 0 <= i < |columns| && columns[i].name == name
  }

  /** One plan carried out; None is the unique index on column names, which
      archived columns keep occupied. */
  function CarryOut(schema: Schema, plan: Plan): Option<Schema> {
    match plan.existing
    case Some(id) => Some(Schema(schema.columns, schema.mapping + [Mapped(id, plan.header)]))
    case None =>
      if NameIsTaken(schema.columns, plan.columnName) then None
      else Some(Schema(schema.columns + [Column(plan.columnName, true, true, false)],
                       schema.mapping + [Mapped(|schema.columns|, plan.header)]))
  }

  function CarryOutAll(schema: Schema, plans: seq<Plan>): Option<Schema> {
    if plans == [] then Some(schema)
    else
      match CarryOutAll(schema, plans[..|plans| - 1])
      case None => None
      case Some(next) => CarryOut(next, plans[|plans| - 1])
  }

  /** The schema a batch with these fields works with; None aborts the chunk. */
  function ExtendMapping(naming: Naming, schema: Schema, fields: seq<string>): Option<Schema> {
    var usable := Usable(schema.columns, schema.mapping);
    var newFields := NewFields(naming, FieldNames(naming, MappedFields(usable)), fields);
    if |usable| + |newFields| > MAXIMUM_FIELDS then None
    else
      match PlanColumns(naming, schema.columns, newFields)
      case None => None
      case Some(plans) => CarryOutAll(Schema(schema.columns, usable), plans)
  }

  // ---- which entries and fields survive ---------------------------------------

  ghost predicate AllUsable(columns: seq<Column>, mapping: seq<Mapped>) {
    forall i :: 0 <= i < |mapping| ==> IsActiveInput(columns, mapping[i].columnId)
  }

  lemma {:induction false} UsableIsUsable(columns: seq<Column>, mapping: seq<Mapped>)
    ensures AllUsable(columns, Usable(columns, mapping))
    ensures |Usable(columns, mapping)| <= |mapping|
    ensures AllUsable(columns, mapping) ==> Usable(columns, mapping) == mapping
  {
    if mapping != [] {
      var n := |mapping| - 1;
      UsableIsUsable(columns, mapping[..n]);
      UsableLast(columns, mapping);
      assert mapping == mapping[..n] + [mapping[n]];
    }
  }

  lemma UsableLast(columns: seq<Column>, mapping: seq<Mapped>)
    requires mapping != []
    ensures AllUsable(columns, mapping) <==>
              AllUsable(columns, mapping[..|mapping| - 1]) && IsActiveInput(columns, mapping[|mapping| - 1].columnId)
  {
    hide IsActiveInput;
    var n := |mapping| - 1;
    assert forall i :: 0 <= i < n ==> mapping[..n][i] == mapping[i];
  }

  lemma {:induction false} NoNewFields(naming: Naming, mapped: set<string>, fields: seq<string>)
    requires FieldNames(naming, fields) <= mapped
    ensures NewFields(naming, mapped, fields) == []
  {
    if fields != [] {
      assert naming.normalize(fields[|fields| - 1]) in FieldNames(naming, fields);
      NoNewFields(naming, mapped, fields[..|fields| - 1]);
    }
  }

  lemma {:induction false} FieldsAreOldOrNew(naming: Naming, mapped: set<string>, fields: seq<string>)
    ensures FieldNames(naming, fields) <= mapped + FieldNames(naming, NewFields(naming, mapped, fields))
    ensures FieldNames(naming, NewFields(naming, mapped, fields)) * mapped == {}
  {
    if fields != [] {
      var n := |fields| - 1;
      var fresh0 := NewFields(naming, mapped, fields[..n]);
      var fresh1 := NewFields(naming, mapped, fields);
      FieldsAreOldOrNew(naming, mapped, fields[..n]);
      assert FieldNames(naming, fields) == FieldNames(naming, fields[..n]) + {naming.normalize(fields[n])} by {
        NamesOfAppended(naming, fields[..n], fields[n]);
        assert fields == fields[..n] + [fields[n]];
      }
      if naming.normalize(fields[n]) !in mapped { NamesOfAppended(naming, fresh0, fields[n]); }
      else { assert fresh1 == fresh0; }
    }
  }

  lemma NamesOfAppended(naming: Naming, fields: seq<string>, field: string)
    ensures FieldNames(naming, fields + [field]) == FieldNames(naming, fields) + {naming.normalize(field)}
  {
    var all := fields + [field];
    forall name
      ensures name in FieldNames(naming, all) <==> name in FieldNames(naming, fields) + {naming.normalize(field)}
    {
      if name in FieldNames(naming, fields) {
        var i :| 0 <= i < |fields| && name == naming.normalize(fields[i]);
        assert all[i] == fields[i];
      }
      if name == naming.normalize(field) { assert all[|fields|] == field; }
    }
  }

  // ---- what carrying out plans leaves behind ----------------------------------

  /** A new entry's column is either new to the table or named like its field. */
  ghost predicate EntryIsPlanned(naming: Naming, columns: seq<Column>, entry: Mapped) {
    entry.columnId >= |columns| ||
    FirstNamed(naming, columns, naming.normalize(entry.field)) == Some(entry.columnId)
  }

  ghost predicate EntriesArePlanned(naming: Naming, columns: seq<Column>, mapping: seq<Mapped>, start: nat) {
    forall i :: start <= i < |mapping| ==> EntryIsPlanned(naming, columns, mapping[i])
  }

  ghost predicate PlanIsSound(naming: Naming, columns: seq<Column>, plan: Plan, header: string) {
    plan.header == header &&
    (plan.existing.Some? ==> IsActiveInput(columns, plan.existing.value)) &&
    (var found := FirstNamed(naming, columns, naming.normalize(header));
     plan.existing == if found.Some? && columns[found.value].input && columns[found.value].text then found else None)
  }

  ghost predicate Extends(naming: Naming, schema: Schema, headers: seq<string>, after: Schema) {
    schema.columns <= after.columns && schema.mapping <= after.mapping &&
    AllUsable(after.columns, after.mapping) &&
    MappedFields(after.mapping) == MappedFields(schema.mapping) + headers &&
    EntriesArePlanned(naming, schema.columns, after.mapping, |schema.mapping|)
  }

  lemma CarryingOutOneExtends(naming: Naming, schema: Schema, headers: seq<string>, before: Schema, plan: Plan,
                              header: string)
    requires Extends(naming, schema, headers, before)
    requires PlanIsSound(naming, schema.columns, plan, header)
    requires CarryOut(before, plan).Some?
    ensures Extends(naming, schema, headers + [header], CarryOut(before, plan).value)
    ensures var after := CarryOut(before, plan).value;
            |after.mapping| == |before.mapping| + 1 && before.mapping <= after.mapping &&
            after.mapping[|before.mapping|].columnId == plan.existing.GetOr(|before.columns|)
  {
    hide FirstNamed, Usable, NameIsTaken;
    var after := CarryOut(before, plan).value;
    var entry := after.mapping[|before.mapping|];
    assert after.mapping == before.mapping + [entry];
    assert after.mapping[..|before.mapping|] == before.mapping;
    assert MappedFields(after.mapping) == MappedFields(before.mapping) + [header];
  }

  lemma {:induction false} PlansAreSound(naming: Naming, columns: seq<Column>, headers: seq<string>)
    requires PlanColumns(naming, columns, headers).Some?
    requires headers != []
    ensures var n := |headers| - 1;
            var plans := PlanColumns(naming, columns, headers).value;
            PlanColumns(naming, columns, headers[..n]) == Some(plans[..n]) &&
            PlanIsSound(naming, columns, plans[n], headers[n]) &&
            naming.normalize(headers[n]) !in FieldNames(naming, headers[..n])
  {
    hide Reserved, FieldNames;
    var n := |headers| - 1;
    var plans := PlanColumns(naming, columns, headers).value;
    var earlier := PlanColumns(naming, columns, headers[..n]).value;
    assert plans[..n] == earlier;
  }

  lemma NothingToCarryOut(naming: Naming, schema: Schema)
    requires AllUsable(schema.columns, schema.mapping)
    ensures PlanColumns(naming, schema.columns, []) == Some([])
    ensures CarryOutAll(schema, []) == Some(schema)
    ensures Extends(naming, schema, [], schema)
  {
  }

  lemma {:induction false} CarriedOut(naming: Naming, schema: Schema, headers: seq<string>)
    requires AllUsable(schema.columns, schema.mapping)
    requires PlanColumns(naming, schema.columns, headers).Some?
    requires CarryOutAll(schema, PlanColumns(naming, schema.columns, headers).value).Some?
    ensures Extends(naming, schema, headers, CarryOutAll(schema,
                                                         PlanColumns(naming, schema.columns, headers).value).value)
  {
    hide CarryOut, FirstNamed, Extends, PlanIsSound, FieldNames, PlanColumns;
    if headers == [] {
      NothingToCarryOut(naming, schema);
    } else {
      var n := |headers| - 1;
      var plans := PlanColumns(naming, schema.columns, headers).value;
      PlansAreSound(naming, schema.columns, headers);
      CarriedOut(naming, schema, headers[..n]);
      CarryingOutOneExtends(naming, schema, headers[..n], CarryOutAll(schema, plans[..n]).value, plans[n], headers[n]);
      assert headers == headers[..n] + [headers[n]];
    }
  }

  // ---- extending twice is extending once --------------------------------------

  lemma NamesOfBoth(naming: Naming, left: seq<string>, right: seq<string>)
    ensures FieldNames(naming, left + right) == FieldNames(naming, left) + FieldNames(naming, right)
  {
    var all := left + right;
    assert forall i :: 0 <= i < |left| ==> all[i] == left[i];
    assert forall i :: 0 <= i < |right| ==> all[|left| + i] == right[i];
    assert FieldNames(naming, all) <= FieldNames(naming, left) + FieldNames(naming, right);
  }

  lemma NothingLeftToMap(naming: Naming, after: Schema, fields: seq<string>)
    requires AllUsable(after.columns, after.mapping) && |after.mapping| <= MAXIMUM_FIELDS
    requires FieldNames(naming, fields) <= FieldNames(naming, MappedFields(after.mapping))
    ensures ExtendMapping(naming, after, fields) == Some(after)
  {
    hide AllUsable, FieldNames;
    UsableIsUsable(after.columns, after.mapping);
    NoNewFields(naming, FieldNames(naming, MappedFields(after.mapping)), fields);
    assert PlanColumns(naming, after.columns, []) == Some([]);
    assert CarryOutAll(after, []) == Some(after);
    assert Schema(after.columns, after.mapping) == after;
  }

  /** A later chunk of the same batch finds the mapping its first chunk left:
      extending it again changes nothing. */
  lemma ExtendingTwiceIsOnce(naming: Naming, schema: Schema, fields: seq<string>)
    requires ExtendMapping(naming, schema, fields).Some?
    ensures var after := ExtendMapping(naming, schema, fields).value;
            ExtendMapping(naming, after, fields) == Some(after)
    ensures var after := ExtendMapping(naming, schema, fields).value;
            FieldNames(naming, fields) <= FieldNames(naming, MappedFields(after.mapping))
  {
    hide FieldNames, Usable, NewFields, PlanColumns, CarryOutAll, EntriesArePlanned;
    var usable := Usable(schema.columns, schema.mapping);
    var mapped := FieldNames(naming, MappedFields(usable));
    var newFields := NewFields(naming, mapped, fields);
    var after := ExtendMapping(naming, schema, fields).value;
    UsableIsUsable(schema.columns, schema.mapping);
    CarriedOut(naming, Schema(schema.columns, usable), newFields);
    FieldsAreOldOrNew(naming, mapped, fields);
    NamesOfBoth(naming, MappedFields(usable), newFields);
    assert |MappedFields(after.mapping)| == |usable| + |newFields|;
    NothingLeftToMap(naming, after, fields);
  }

  // ---- two fields, one column -------------------------------------------------

  ghost predicate ColumnsAreDistinct(mapping: seq<Mapped>) {
    forall i, j :: 0 <= i < j < |mapping| ==> mapping[i].columnId != mapping[j].columnId
  }

  ghost predicate Feeds(mapping: seq<Mapped>, id: ColumnId) {
    exists i :: 0 <= i < |mapping| && mapping[i].columnId == id
  }

  /** The field would be planned onto a column another field already feeds. */
  ghost predicate NamesMappedColumn(naming: Naming, columns: seq<Column>, mapping: seq<Mapped>, field: string) {
    var found := FirstNamed(naming, columns, naming.normalize(field));
    found.Some? && columns[found.value].input && columns[found.value].text && Feeds(mapping, found.value)
  }

  ghost predicate NamesNoMappedColumn(naming: Naming, columns: seq<Column>, mapping: seq<Mapped>, fields: seq<string>) {
    forall i :: 0 <= i < |fields| ==> !NamesMappedColumn(naming, columns, mapping, fields[i])
  }

  lemma AppendKeepsDistinct(before: seq<Mapped>, after: seq<Mapped>)
    requires |after| == |before| + 1 && before <= after
    ensures ColumnsAreDistinct(after) <==> ColumnsAreDistinct(before) && !Feeds(before, after[|before|].columnId)
  {
    assert forall i :: 0 <= i < |before| ==> after[i] == before[i];
  }

  lemma AppendedField(naming: Naming, columns: seq<Column>, mapping: seq<Mapped>, fields: seq<string>)
    requires fields != []
    ensures var n := |fields| - 1;
            NamesNoMappedColumn(naming, columns, mapping, fields) <==>
            NamesNoMappedColumn(naming, columns, mapping, fields[..n]) &&
            !NamesMappedColumn(naming, columns, mapping, fields[n])
  {
    hide NamesMappedColumn;
    var n := |fields| - 1;
    assert forall i :: 0 <= i < n ==> fields[..n][i] == fields[i];
  }

  lemma {:induction false} CarryingOutKeepsDistinct(naming: Naming, schema: Schema, headers: seq<string>)
    requires AllUsable(schema.columns, schema.mapping) && ColumnsAreDistinct(schema.mapping)
    requires PlanColumns(naming, schema.columns, headers).Some?
    requires CarryOutAll(schema, PlanColumns(naming, schema.columns, headers).value).Some?
    ensures var after := CarryOutAll(schema, PlanColumns(naming, schema.columns, headers).value).value;
            ColumnsAreDistinct(after.mapping) <==> NamesNoMappedColumn(naming, schema.columns, schema.mapping, headers)
  {
    hide FirstNamed, CarryOut, PlanIsSound, Extends, FieldNames, PlanColumns, NamesNoMappedColumn, NamesMappedColumn,
      ColumnsAreDistinct, Feeds;
    if headers == [] {
      NothingToCarryOut(naming, schema);
      NoFieldsNameNothing(naming, schema);
    } else {
      var n := |headers| - 1;
      var plans := PlanColumns(naming, schema.columns, headers).value;
      PlansAreSound(naming, schema.columns, headers);
      CarriedOut(naming, schema, headers[..n]);
      CarryingOutKeepsDistinct(naming, schema, headers[..n]);
      var before := CarryOutAll(schema, plans[..n]).value;
      CarryingOutOneExtends(naming, schema, headers[..n], before, plans[n], headers[n]);
      AppendKeepsDistinct(before.mapping, CarryOut(before, plans[n]).value.mapping);
      EntryClashes(naming, schema, headers[..n], before, plans[n], headers[n]);
      AppendedField(naming, schema.columns, schema.mapping, headers);
    }
  }

  lemma NoFieldsNameNothing(naming: Naming, schema: Schema)
    ensures NamesNoMappedColumn(naming, schema.columns, schema.mapping, [])
  {
  }

  /** A planned column is fed already exactly when it was fed before the batch. */
  lemma EntryClashes(naming: Naming, schema: Schema, earlier: seq<string>, before: Schema, plan: Plan, header: string)
    requires AllUsable(schema.columns, schema.mapping)
    requires Extends(naming, schema, earlier, before)
    requires PlanIsSound(naming, schema.columns, plan, header)
    requires naming.normalize(header) !in FieldNames(naming, earlier)
    ensures Feeds(before.mapping, plan.existing.GetOr(|before.columns|)) <==>
            NamesMappedColumn(naming, schema.columns, schema.mapping, header)
  {
    hide FirstNamed;
    var m := |schema.mapping|;
    var column := plan.existing.GetOr(|before.columns|);
    assert forall i :: 0 <= i < m ==> before.mapping[i] == schema.mapping[i];
    if plan.existing.Some? {
      forall i | m <= i < |before.mapping| ensures before.mapping[i].columnId != column {
        assert EntryIsPlanned(naming, schema.columns, before.mapping[i]);
        assert MappedFields(before.mapping)[i] == earlier[i - m];
      }
      assert Feeds(before.mapping, column) <==> Feeds(schema.mapping, column);
    } else {
      assert !Feeds(before.mapping, column);
    }
  }

  /** Fields keep separate columns exactly when no new field of the batch is the
      name of a column that another field already feeds. */
  lemma MappingStaysInjective(naming: Naming, schema: Schema, fields: seq<string>)
    requires ColumnsAreDistinct(Usable(schema.columns, schema.mapping))
    requires ExtendMapping(naming, schema, fields).Some?
    ensures var usable := Usable(schema.columns, schema.mapping);
            ColumnsAreDistinct(ExtendMapping(naming, schema, fields).value.mapping) <==>
            NamesNoMappedColumn(naming, schema.columns, usable,
                                NewFields(naming, FieldNames(naming, MappedFields(usable)), fields))
  {
    var usable := Usable(schema.columns, schema.mapping);
    UsableIsUsable(schema.columns, schema.mapping);
    CarryingOutKeepsDistinct(naming, Schema(schema.columns, usable),
                             NewFields(naming, FieldNames(naming, MappedFields(usable)), fields));
  }

  /** What one new field does, for the counterexample below. */
  lemma ExtendByOne(naming: Naming, schema: Schema, field: string)
    requires AllUsable(schema.columns, schema.mapping) && |schema.mapping| < MAXIMUM_FIELDS
    requires naming.valid(field) && naming.normalize(field) !in FieldNames(naming, MappedFields(schema.mapping))
    ensures ExtendMapping(naming, schema, [field]) == CarryOut(schema, PlanOne(naming, schema.columns, [], field))
  {
    hide FirstNamed, FieldNames, Reserved;
    UsableIsUsable(schema.columns, schema.mapping);
    var headers := [field];
    assert headers[..0] == [];
    NamesOfNothing(naming);
    var mapped := FieldNames(naming, MappedFields(schema.mapping));
    assert NewFields(naming, mapped, []) == [];
    assert NewFields(naming, mapped, headers) == [] + headers;
    assert PlanColumns(naming, schema.columns, []) == Some([]);
    var plans := [PlanOne(naming, schema.columns, [], field)];
    assert PlanColumns(naming, schema.columns, headers) == Some([] + plans);
    assert plans[..0] == [];
    assert CarryOutAll(schema, []) == Some(schema);
    assert Schema(schema.columns, schema.mapping) == schema;
  }

  lemma NamesOfNothing(naming: Naming)
    ensures FieldNames(naming, []) == {}
  {
  }

  function AsWritten(): Naming {
    Naming(s => s, s => true, (s, reserved) => s + " (import 2)")
  }

  const SUFFIXED := "plan (import 2)"
  const COMPUTED := Column("plan", false, true, false)
  const IMPORTED := Column(SUFFIXED, true, true, false)

  lemma PlanForPlan()
    ensures PlanOne(AsWritten(), [COMPUTED], [], "plan") == Plan(SUFFIXED, None, "plan")
  {
    hide Reserved;
    assert [COMPUTED][..0] == [] && FirstNamed(AsWritten(), [], "plan") == None;
    assert FirstNamed(AsWritten(), [COMPUTED], "plan") == Some(0);
    assert "plan" + " (import 2)" == SUFFIXED;
  }

  lemma FirstBatchMakesAColumn()
    ensures ExtendMapping(AsWritten(), Schema([COMPUTED], []), ["plan"]) ==
            Some(Schema([COMPUTED, IMPORTED], [Mapped(1, "plan")]))
  {
    hide PlanOne, ExtendMapping, FieldNames;
    var first := Schema([COMPUTED], []);
    NamesOfNothing(AsWritten());
    assert MappedFields([]) == [];
    ExtendByOne(AsWritten(), first, "plan");
    PlanForPlan();
    assert |COMPUTED.name| == 4 && |SUFFIXED| == 15;
    assert [COMPUTED] + [IMPORTED] == [COMPUTED, IMPORTED] && [] + [Mapped(1, "plan")] == [Mapped(1, "plan")];
  }

  lemma SecondBatchSharesIt()
    ensures ExtendMapping(AsWritten(), Schema([COMPUTED, IMPORTED], [Mapped(1, "plan")]), [SUFFIXED]) ==
            Some(Schema([COMPUTED, IMPORTED], [Mapped(1, "plan"), Mapped(1, SUFFIXED)]))
  {
    hide FieldNames, Reserved;
    var between := Schema([COMPUTED, IMPORTED], [Mapped(1, "plan")]);
    assert |"plan"| == 4 && |SUFFIXED| == 15;
    PlanIsTheOnlyField();
    ExtendByOne(AsWritten(), between, SUFFIXED);
    assert [COMPUTED][..0] == [] && FirstNamed(AsWritten(), [], SUFFIXED) == None;
    assert [COMPUTED, IMPORTED][..1] == [COMPUTED];
    assert FirstNamed(AsWritten(), [COMPUTED], SUFFIXED) == None;
    assert FirstNamed(AsWritten(), [COMPUTED, IMPORTED], SUFFIXED) == Some(1);
    assert [Mapped(1, "plan")] + [Mapped(1, SUFFIXED)] == [Mapped(1, "plan"), Mapped(1, SUFFIXED)];
  }

  lemma PlanIsTheOnlyField()
    ensures FieldNames(AsWritten(), MappedFields([Mapped(1, "plan")])) == {"plan"}
  {
    assert MappedFields([Mapped(1, "plan")]) == ["plan"];
    assert FieldNames(AsWritten(), ["plan"]) == {"plan"};
  }

  /** A table with a computed column "plan": the field "plan" gets the column
      "plan (import 2)", and a later batch with a field of that very name is
      mapped onto the same column. */
  lemma TwoFieldsMayShareAColumn()
    ensures var between := ExtendMapping(AsWritten(), Schema([COMPUTED], []), ["plan"]);
            between.Some? &&
            var after := ExtendMapping(AsWritten(), between.value, [SUFFIXED]);
            after.Some? && !ColumnsAreDistinct(after.value.mapping)
  {
    FirstBatchMakesAColumn();
    SecondBatchSharesIt();
    var mapping := [Mapped(1, "plan"), Mapped(1, SUFFIXED)];
    assert mapping[0].columnId == mapping[1].columnId;
  }
}
