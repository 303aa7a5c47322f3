/** Which columns a batch's fields get, read from the table and the endpoint's
    mapping alone (packages/db/src/ingestion.ts:482-545;
    packages/domain/src/import-policy.ts:24-71). */
module MappingOutcomes {
  import opened Collections
  import opened IngestionMapping

  // ---- the mapping that is kept -----------------------------------------------

  ghost predicate FeedsActiveInput(columns: seq<Column>, entry: Mapped) {
    entry.columnId < |columns| && columns[entry.columnId].input && !columns[entry.columnId].archived
  }

  /** Exactly the entries of active input columns are kept, in order. */
  lemma {:induction false} KeptEntries(columns: seq<Column>, left: seq<Mapped>, right: seq<Mapped>)
    ensures forall entry :: entry in Usable(columns, left) <==> entry in left && FeedsActiveInput(columns, entry)
    ensures Usable(columns, left + right) == Usable(columns, left) + Usable(columns, right)
    decreases |left| + |right|
  {
    if right != [] {
      var n := |right| - 1;
      KeptEntries(columns, left, right[..n]);
      assert (left + right)[..|left + right| - 1] == left + right[..n];
    } else {
      assert left + right == left;
      if left != [] {
        KeptEntries(columns, left[..|left| - 1], []);
        assert left == left[..|left| - 1] + [left[|left| - 1]];
      }
    }
  }

  // ---- the column of a field --------------------------------------------------

  ghost predicate IsNamedAt(naming: Naming, columns: seq<Column>, field: string, id: ColumnId) {
    id < |columns| && !columns[id].archived && naming.normalize(columns[id].name) == naming.normalize(field)
  }

  /** The first active column with the field's name. */
  ghost predicate IsFirstNamed(naming: Naming, columns: seq<Column>, field: string, id: ColumnId) {
    IsNamedAt(naming, columns, field, id) && forall j :: 0 <= j < id ==> !IsNamedAt(naming, columns, field, j)
  }

  ghost predicate IsTextInput(columns: seq<Column>, id: ColumnId) {
    id < |columns| && columns[id].input && columns[id].text
  }

  /** That column takes text from outside. */
  ghost predicate HasTextInput(naming: Naming, columns: seq<Column>, field: string) {
    exists id :: IsFirstNamed(naming, columns, field, id) && IsTextInput(columns, id)
  }

  /** The name of a new column: the field's own, or one with a suffix that avoids
      all active columns' names when an active column has it. */
  ghost predicate IsNameFor(naming: Naming, columns: seq<Column>, field: string, name: string) {
    if forall id :: 0 <= id < |columns| ==> !IsNamedAt(naming, columns, field, id) then name == field
    else exists reserved :: Avoids(naming, columns, reserved) && name == naming.suffixed(field, reserved)
  }

  ghost predicate Avoids(naming: Naming, columns: seq<Column>, reserved: set<string>) {
    forall id :: 0 <= id < |columns| && !columns[id].archived ==> naming.normalize(columns[id].name) in reserved
  }

  /** An entry's column, given the table before and after: the text input of that
      name, if it is one, or else a new active text input. */
  ghost predicate GetsItsColumn(naming: Naming, before: seq<Column>, after: seq<Column>, entry: Mapped) {
    if HasTextInput(naming, before, entry.field) then IsFirstNamed(naming, before, entry.field, entry.columnId)
    else
      |before| <= entry.columnId < |after| && IsTextInput(after, entry.columnId) && !after[entry.columnId].archived &&
      IsNameFor(naming, before, entry.field, after[entry.columnId].name)
  }

  lemma {:induction false} FirstNamedMeans(naming: Naming, columns: seq<Column>, field: string)
    ensures var found := FirstNamed(naming, columns, naming.normalize(field));
            if found.Some? then IsFirstNamed(naming, columns, field, found.value)
            else forall id :: 0 <= id < |columns| ==> !IsNamedAt(naming, columns, field, id)
  {
    if columns != [] {
      var n := |columns| - 1;
      FirstNamedMeans(naming, columns[..n], field);
      forall id | 0 <= id < n
        ensures IsNamedAt(naming, columns[..n], field, id) <==> IsNamedAt(naming, columns, field, id)
      {
        assert columns[..n][id] == columns[id];
      }
    }
  }

  lemma OnlyOneIsFirst(naming: Naming, columns: seq<Column>, field: string, a: ColumnId, b: ColumnId)
    requires IsFirstNamed(naming, columns, field, a) && IsFirstNamed(naming, columns, field, b)
    ensures a == b
  {
  }

  lemma PlannedName(naming: Naming, columns: seq<Column>, plans: seq<Plan>, field: string)
    ensures var plan := PlanOne(naming, columns, plans, field);
            plan.header == field &&
            if HasTextInput(naming, columns, field)
            then plan.existing.Some? && IsFirstNamed(naming, columns, field, plan.existing.value)
            else plan.existing.None? && IsNameFor(naming, columns, field, plan.columnName)
  {
    hide FirstNamed, IsNamedAt;
    FirstNamedMeans(naming, columns, field);
    var found := FirstNamed(naming, columns, naming.normalize(field));
    if found.Some? {
      forall id | IsFirstNamed(naming, columns, field, id) ensures id == found.value {
        OnlyOneIsFirst(naming, columns, field, id, found.value);
      }
      assert IsNamedAt(naming, columns, field, found.value);
      assert Avoids(naming, columns, Reserved(naming, columns, plans));
    }
  }

  lemma LastPlan(naming: Naming, columns: seq<Column>, headers: seq<string>)
    requires PlanColumns(naming, columns, headers).Some? && headers != []
    ensures var n, plans := |headers| - 1, PlanColumns(naming, columns, headers).value;
            PlanColumns(naming, columns, headers[..n]) == Some(plans[..n]) && naming.valid(headers[n]) &&
            naming.normalize(headers[n]) !in FieldNames(naming, headers[..n]) &&
            plans[n] == PlanOne(naming, columns, plans[..n], headers[n])
  {
    hide PlanOne, FieldNames;
    var n, plans := |headers| - 1, PlanColumns(naming, columns, headers).value;
    assert plans[..n] == PlanColumns(naming, columns, headers[..n]).value;
  }

  ghost predicate AllGetTheirColumns(naming: Naming, before: seq<Column>, after: Schema, start: nat) {
    forall i :: start <= i < |after.mapping| ==> GetsItsColumn(naming, before, after.columns, after.mapping[i])
  }

  /** What was there stays; each field has an entry, in order. */
  ghost predicate Appends(before: Schema, fields: seq<string>, after: Schema) {
    before.columns <= after.columns && before.mapping <= after.mapping &&
    |after.mapping| == |before.mapping| + |fields| &&
    forall i :: 0 <= i < |fields| ==> after.mapping[|before.mapping| + i].field == fields[i]
  }

  lemma StillGetsItsColumn(naming: Naming, before: seq<Column>, after: seq<Column>, later: seq<Column>, entry: Mapped)
    requires GetsItsColumn(naming, before, after, entry) && after <= later
    ensures GetsItsColumn(naming, before, later, entry)
  {
    hide HasTextInput, IsFirstNamed, IsNameFor;
  }

  lemma CarriedOutPlan(naming: Naming, schema: Schema, earlier: seq<string>, before: Schema, plan: Plan, field: string,
                       plans: seq<Plan>)
    requires Appends(schema, earlier, before)
    requires AllGetTheirColumns(naming, schema.columns, before, |schema.mapping|)
    requires plan == PlanOne(naming, schema.columns, plans, field) && CarryOut(before, plan).Some?
    ensures var after := CarryOut(before, plan).value;
            Appends(schema, earlier + [field], after) &&
            AllGetTheirColumns(naming, schema.columns, after, |schema.mapping|)
  {
    hide HasTextInput, IsFirstNamed, IsNameFor, PlanOne, NameIsTaken, GetsItsColumn;
    var after := CarryOut(before, plan).value;
    var m := |before.mapping|;
    PlannedName(naming, schema.columns, plans, field);
    assert before.columns <= after.columns && before.mapping <= after.mapping && |after.mapping| == m + 1;
    forall i | |schema.mapping| <= i < m
      ensures GetsItsColumn(naming, schema.columns, after.columns, after.mapping[i])
    {
      assert after.mapping[i] == before.mapping[i];
      StillGetsItsColumn(naming, schema.columns, before.columns, after.columns, before.mapping[i]);
    }
    assert GetsItsColumn(naming, schema.columns, after.columns, after.mapping[m]) by {
      NewEntry(naming, schema, before, plan);
    }
    forall i | 0 <= i <= |earlier| ensures after.mapping[|schema.mapping| + i].field == (earlier + [field])[i] {
      if i < |earlier| { assert after.mapping[|schema.mapping| + i] == before.mapping[|schema.mapping| + i]; }
    }
  }

  lemma NewEntry(naming: Naming, schema: Schema, before: Schema, plan: Plan)
    requires schema.columns <= before.columns && CarryOut(before, plan).Some?
    requires if HasTextInput(naming, schema.columns, plan.header)
             then plan.existing.Some? && IsFirstNamed(naming, schema.columns, plan.header, plan.existing.value)
             else plan.existing.None? && IsNameFor(naming, schema.columns, plan.header, plan.columnName)
    ensures var after := CarryOut(before, plan).value;
            GetsItsColumn(naming, schema.columns, after.columns, after.mapping[|before.mapping|])
  {
    hide HasTextInput, IsFirstNamed, IsNameFor, NameIsTaken;
  }

  lemma {:induction false} CarriedOutFields(naming: Naming, schema: Schema, fields: seq<string>)
    requires PlanColumns(naming, schema.columns, fields).Some?
    requires CarryOutAll(schema, PlanColumns(naming, schema.columns, fields).value).Some?
    ensures var after := CarryOutAll(schema, PlanColumns(naming, schema.columns, fields).value).value;
            Appends(schema, fields, after) && AllGetTheirColumns(naming, schema.columns, after, |schema.mapping|)
  {
    hide CarryOut, PlanOne, FieldNames, GetsItsColumn;
    if fields != [] {
      var n := |fields| - 1;
      var plans := PlanColumns(naming, schema.columns, fields).value;
      LastPlan(naming, schema.columns, fields);
      CarriedOutFields(naming, schema, fields[..n]);
      CarriedOutPlan(naming, schema, fields[..n], CarryOutAll(schema, plans[..n]).value, plans[n], fields[n],
                     plans[..n]);
      assert fields == fields[..n] + [fields[n]];
    }
  }

  // ---- a batch's fields -------------------------------------------------------

  /** Some kept entry has the field's name. */
  ghost predicate IsMapped(naming: Naming, schema: Schema, field: string) {
    exists i :: 0 <= i < |schema.mapping| && FeedsActiveInput(schema.columns, schema.mapping[i]) &&
      naming.normalize(schema.mapping[i].field) == naming.normalize(field)
  }

  /** The batch's fields without a kept entry, in order. */
  ghost function Unmapped(naming: Naming, schema: Schema, fields: seq<string>): seq<string> {
    if fields == [] then []
    else
      Unmapped(naming, schema, fields[..|fields| - 1]) +
      if IsMapped(naming, schema, fields[|fields| - 1]) then [] else [fields[|fields| - 1]]
  }

  lemma MappedMeans(naming: Naming, schema: Schema, field: string)
    ensures naming.normalize(field) in FieldNames(naming, MappedFields(Usable(schema.columns, schema.mapping))) <==>
            IsMapped(naming, schema, field)
  {
    hide Usable, FeedsActiveInput;
    var usable := Usable(schema.columns, schema.mapping);
    KeptEntries(schema.columns, schema.mapping, []);
    var names := MappedFields(usable);
    if naming.normalize(field) in FieldNames(naming, names) {
      var i :| 0 <= i < |names| && naming.normalize(names[i]) == naming.normalize(field);
      assert usable[i] in schema.mapping;
      var j :| 0 <= j < |schema.mapping| && schema.mapping[j] == usable[i];
    }
    if IsMapped(naming, schema, field) {
      var i :| 0 <= i < |schema.mapping| && FeedsActiveInput(schema.columns, schema.mapping[i]) &&
        naming.normalize(schema.mapping[i].field) == naming.normalize(field);
      assert schema.mapping[i] in usable;
      var j :| 0 <= j < |usable| && usable[j] == schema.mapping[i];
      assert names[j] == schema.mapping[i].field;
    }
  }

  lemma {:induction false} UnmappedAreNew(naming: Naming, schema: Schema, fields: seq<string>)
    ensures NewFields(naming, FieldNames(naming, MappedFields(Usable(schema.columns, schema.mapping))), fields) ==
            Unmapped(naming, schema, fields)
  {
    hide IsMapped, FieldNames, Usable, MappedFields;
    if fields != [] {
      UnmappedAreNew(naming, schema, fields[..|fields| - 1]);
      MappedMeans(naming, schema, fields[|fields| - 1]);
    }
  }

  /** A batch keeps the entries of active input columns and adds one for each of
      its fields without an entry, in order: to the text input that has the field's
      name or to a new one.  At most a hundred fields are mapped. */
  lemma FieldsGetTheirColumns(naming: Naming, schema: Schema, fields: seq<string>)
    requires ExtendMapping(naming, schema, fields).Some?
    ensures var kept, after := Usable(schema.columns, schema.mapping), ExtendMapping(naming, schema, fields).value;
            Appends(Schema(schema.columns, kept), Unmapped(naming, schema, fields), after) &&
            AllGetTheirColumns(naming, schema.columns, after, |kept|) && |after.mapping| <= 100
  {
    hide CarryOutAll, PlanColumns, FieldNames, Usable, NewFields, GetsItsColumn, Unmapped;
    UnmappedAreNew(naming, schema, fields);
    CarriedOutFields(naming, Schema(schema.columns, Usable(schema.columns, schema.mapping)),
                     Unmapped(naming, schema, fields));
  }

  // ---- when the mapping can be extended ---------------------------------------

  /** A field that needs neither a suffix nor a name that is taken. */
  ghost predicate IsPlaceable(naming: Naming, columns: seq<Column>, field: string) {
    HasTextInput(naming, columns, field) ||
    forall id :: 0 <= id < |columns| ==> !IsNamedAt(naming, columns, field, id) && columns[id].name != field
  }

  ghost predicate AreHeaders(naming: Naming, fields: seq<string>) {
    (forall i :: 0 <= i < |fields| ==> naming.valid(fields[i])) &&
    forall i, j :: 0 <= i < j < |fields| ==> naming.normalize(fields[i]) != naming.normalize(fields[j])
  }

  lemma {:induction false} HeadersArePlanned(naming: Naming, columns: seq<Column>, fields: seq<string>)
    ensures PlanColumns(naming, columns, fields).Some? <==> AreHeaders(naming, fields)
  {
    hide PlanOne;
    if fields != [] {
      var n := |fields| - 1;
      HeadersArePlanned(naming, columns, fields[..n]);
      assert AreHeaders(naming, fields) <==>
             AreHeaders(naming, fields[..n]) && naming.valid(fields[n]) &&
             naming.normalize(fields[n]) !in FieldNames(naming, fields[..n]) by {
        LastHeader(naming, fields);
      }
    }
  }

  lemma LastHeader(naming: Naming, fields: seq<string>)
    requires fields != []
    ensures var n := |fields| - 1;
            AreHeaders(naming, fields) <==>
            AreHeaders(naming, fields[..n]) && naming.valid(fields[n]) &&
            naming.normalize(fields[n]) !in FieldNames(naming, fields[..n])
  {
    var n := |fields| - 1;
    assert forall i :: 0 <= i < n ==> fields[..n][i] == fields[i];
    if naming.normalize(fields[n]) !in FieldNames(naming, fields[..n]) {
      forall i | 0 <= i < n ensures naming.normalize(fields[i]) != naming.normalize(fields[n]) {
        assert naming.normalize(fields[..n][i]) in FieldNames(naming, fields[..n]);
      }
    }
  }

  /** New columns carry the names of fields. */
  ghost predicate NamesComeFrom(before: seq<Column>, fields: seq<string>, after: seq<Column>) {
    before <= after &&
    forall id :: |before| <= id < |after| ==> exists i :: 0 <= i < |fields| && fields[i] == after[id].name
  }

  lemma OneMoreIsPlaced(naming: Naming, schema: Schema, fields: seq<string>, before: Schema, plans: seq<Plan>)
    requires fields != [] && AreHeaders(naming, fields) &&
             IsPlaceable(naming, schema.columns, fields[|fields| - 1]) &&
             NamesComeFrom(schema.columns, fields[..|fields| - 1], before.columns)
    ensures var after := CarryOut(before, PlanOne(naming, schema.columns, plans, fields[|fields| - 1]));
            after.Some? && NamesComeFrom(schema.columns, fields, after.value.columns)
  {
    hide HasTextInput, IsFirstNamed, PlanOne, IsNamedAt;
    var n := |fields| - 1;
    PlannedName(naming, schema.columns, plans, fields[n]);
    var plan := PlanOne(naming, schema.columns, plans, fields[n]);
    assert forall i :: 0 <= i < n ==> fields[..n][i] == fields[i] && fields[i] != fields[n];
    if plan.existing.None? {
      forall id | 0 <= id < |before.columns| ensures before.columns[id].name != fields[n] {
        if id < |schema.columns| { assert before.columns[id] == schema.columns[id]; }
      }
      var after := CarryOut(before, plan).value;
      forall id | |schema.columns| <= id < |after.columns|
        ensures exists i :: 0 <= i < |fields| && fields[i] == after.columns[id].name
      {
        if id < |before.columns| {
          var i :| 0 <= i < n && fields[..n][i] == before.columns[id].name;
          assert fields[i] == after.columns[id].name;
        } else {
          assert fields[n] == after.columns[id].name;
        }
      }
    } else {
      forall id | |schema.columns| <= id < |before.columns|
        ensures exists i :: 0 <= i < |fields| && fields[i] == before.columns[id].name
      {
        var i :| 0 <= i < n && fields[..n][i] == before.columns[id].name;
        assert fields[i] == before.columns[id].name;
      }
    }
  }

  lemma {:induction false} PlaceableAreCarriedOut(naming: Naming, schema: Schema, fields: seq<string>)
    requires AreHeaders(naming, fields)
    requires forall i :: 0 <= i < |fields| ==> IsPlaceable(naming, schema.columns, fields[i])
    requires PlanColumns(naming, schema.columns, fields).Some?
    ensures var after := CarryOutAll(schema, PlanColumns(naming, schema.columns, fields).value);
            after.Some? && NamesComeFrom(schema.columns, fields, after.value.columns)
  {
    hide CarryOut, PlanOne, FieldNames, IsPlaceable;
    if fields != [] {
      var n := |fields| - 1;
      var plans := PlanColumns(naming, schema.columns, fields).value;
      LastPlan(naming, schema.columns, fields);
      PlaceableAreCarriedOut(naming, schema, fields[..n]);
      OneMoreIsPlaced(naming, schema, fields, CarryOutAll(schema, plans[..n]).value, plans[..n]);
    }
  }

  /** A mapping is refused when it would exceed a hundred fields, or when a field
      without an entry is no valid header or has another one's name.  Otherwise it
      is extended, provided no field needs a name that is taken. */
  lemma ExtensionIsDecided(naming: Naming, schema: Schema, fields: seq<string>)
    ensures var kept, added := Usable(schema.columns, schema.mapping), Unmapped(naming, schema, fields);
            var allowed := |kept| + |added| <= 100 && AreHeaders(naming, added);
            (ExtendMapping(naming, schema, fields).Some? ==> allowed) &&
            (allowed && (forall i :: 0 <= i < |added| ==> IsPlaceable(naming, schema.columns, added[i])) ==>
               ExtendMapping(naming, schema, fields).Some?)
  {
    hide CarryOutAll, PlanColumns, FieldNames, Usable, NewFields, Unmapped, IsPlaceable, AreHeaders;
    var kept, added := Usable(schema.columns, schema.mapping), Unmapped(naming, schema, fields);
    UnmappedAreNew(naming, schema, fields);
    HeadersArePlanned(naming, schema.columns, added);
    if AreHeaders(naming, added) && forall i :: 0 <= i < |added| ==> IsPlaceable(naming, schema.columns, added[i]) {
      PlaceableAreCarriedOut(naming, Schema(schema.columns, kept), added);
    }
  }
}
