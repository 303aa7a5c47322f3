/** The statements that write a batch of records into a table, shared by push
    ingestion (packages/db/src/ingestion.ts:479-700) and source pages
    (packages/db/src/sources.ts:560-768). */
module TableWriter {
  import opened Collections
  import opened IngestionMapping
  import opened Upsert
  import opened ChunkUpsert

  class TableWriter {
    const naming: Naming
    var columns: seq<Column>
    var mapping: seq<Mapped>
    var cells: map<Address, string>
    var identities: map<Key, RowId>
    var nextRow: RowId
    var mutations: seq<Mutation>

    constructor (naming: Naming, columns: seq<Column>)
      ensures this.naming == naming
      ensures SchemaState() == Schema(columns, []) && TableState() == Grid(map[], map[], 0, [])
    {
      this.naming, this.columns := naming, columns;
      mapping, cells, identities, nextRow, mutations := [], map[], map[], 0, [];
    }

    function SchemaState(): Schema
      reads this
    {
      Schema(columns, mapping)
    }

    function TableState(): Grid
      reads this
    {
      Grid(cells, identities, nextRow, mutations)
    }

    /** Writes a batch and answers how many rows it created; None is an abort,
        which rolls everything back. */
    method WriteRecords(fields: seq<string>, pushes: seq<Push>) returns (created: Option<nat>)
      requires GridIsSound(TableState()) && KeysAreDistinct(pushes)
      modifies this
      ensures created.None? <==> WriteChunk(naming, old(SchemaState()), old(TableState()), fields, pushes).None?
      ensures created.None? ==> SchemaState() == old(SchemaState()) && TableState() == old(TableState())
      ensures created.Some? ==>
                (SchemaState(), TableState()) == WriteChunk(naming, old(SchemaState()), old(TableState()), fields,
                                                            pushes).value &&
                created.value == NewCount(old(identities), pushes)
    {
      hide WriteChunk, ExtendMapping, UpsertChunk, GridIsSound;
      var columns0, mapping0, cells0, identities0, nextRow0, mutations0 := columns, mapping, cells, identities, nextRow,
        mutations;
      created := WriteStatements(fields, pushes);
      if created.None? {
        columns, mapping, cells, identities, nextRow, mutations := columns0, mapping0, cells0, identities0, nextRow0,
          mutations0;
      }
    }

    method WriteStatements(fields: seq<string>, pushes: seq<Push>) returns (created: Option<nat>)
      requires GridIsSound(TableState()) && KeysAreDistinct(pushes)
      modifies this
      ensures created.None? <==> WriteChunk(naming, old(SchemaState()), old(TableState()), fields, pushes).None?
      ensures created.Some? ==>
                (SchemaState(), TableState()) == WriteChunk(naming, old(SchemaState()), old(TableState()), fields,
                                                            pushes).value &&
                created.value == NewCount(old(identities), pushes)
    {
      hide ExtendMapping, GridIsSound, Deletions, AllInserts, Notes, InsertCells, IdentifyAll, NewCount;
      var mapped := MapFields(fields);
      if !mapped { return None; }
      ghost var grid := TableState();
      Identified(grid, pushes);
      var newRows := CreateRows(pushes);
      DeleteCells(pushes, grid);
      var inserted := InsertValues(pushes, grid);
      if !inserted { return None; }
      RecordMutations(pushes);
      return Some(newRows);
    }

    // ---- the mapping ----------------------------------------------------------

    method MapFields(fields: seq<string>) returns (mapped: bool)
      modifies this`columns, this`mapping
      ensures mapped <==> ExtendMapping(naming, old(SchemaState()), fields).Some?
      ensures mapped ==> Schema(columns, mapping) == ExtendMapping(naming, old(SchemaState()), fields).value
    {
      hide PlanOne, NameIsTaken, FieldNames, FirstNamed;
      var usable := Usable(columns, mapping);
      var newFields := NewFields(naming, FieldNames(naming, MappedFields(usable)), fields);
      if |usable| + |newFields| > MAXIMUM_FIELDS { return false; }
      var plans := PlanCsvColumns(newFields);
      if plans.None? { return false; }
      mapping := usable;
      mapped := CreateColumns(plans.value);
    }

    method PlanCsvColumns(headers: seq<string>) returns (plans: Option<seq<Plan>>)
      ensures plans == PlanColumns(naming, columns, headers)
    {
      hide PlanOne, FieldNames;
      var done := [];
      var k := 0;
      while k < |headers|
        invariant 0 <= k <= |headers|
        invariant PlanColumns(naming, columns, headers[..k]) == Some(done)
      {
        assert headers[..k + 1][..k] == headers[..k];
        if !naming.valid(headers[k]) || naming.normalize(headers[k]) in FieldNames(naming, headers[..k]) {
          NoPlansForLonger(headers, k + 1);
          return None;
        }
        done := done + [PlanOne(naming, columns, done, headers[k])];
        k := k + 1;
      }
      assert headers[..k] == headers;
      return Some(done);
    }

    lemma {:induction false} NoPlansForLonger(headers: seq<string>, k: nat)
      requires k <= |headers| && PlanColumns(naming, columns, headers[..k]).None?
      ensures PlanColumns(naming, columns, headers).None?
    {
      hide PlanOne, FieldNames;
      if k == |headers| {
        assert headers[..k] == headers;
      } else {
        assert headers[..|headers| - 1][..k] == headers[..k];
        NoPlansForLonger(headers[..|headers| - 1], k);
      }
    }

    method CreateColumns(plans: seq<Plan>) returns (created: bool)
      modifies this`columns, this`mapping
      ensures created <==> CarryOutAll(old(SchemaState()), plans).Some?
      ensures created ==> Schema(columns, mapping) == CarryOutAll(old(SchemaState()), plans).value
    {
      ghost var schema := Schema(columns, mapping);
      var k := 0;
      while k < |plans|
        invariant 0 <= k <= |plans|
        invariant CarryOutAll(schema, plans[..k]) == Some(Schema(columns, mapping))
      {
        assert plans[..k + 1][..k] == plans[..k];
        var id := CreateColumn(plans[k]);
        if id.None? {
          NoColumnsForLonger(schema, plans, k + 1);
          return false;
        }
        mapping := mapping + [Mapped(id.value, plans[k].header)];
        k := k + 1;
      }
      assert plans[..k] == plans;
      return true;
    }

    lemma {:induction false} NoColumnsForLonger(schema: Schema, plans: seq<Plan>, k: nat)
      requires k <= |plans| && CarryOutAll(schema, plans[..k]).None?
      ensures CarryOutAll(schema, plans).None?
    {
      hide CarryOut;
      if k == |plans| {
        assert plans[..k] == plans;
      } else {
        assert plans[..|plans| - 1][..k] == plans[..k];
        NoColumnsForLonger(schema, plans[..|plans| - 1], k);
      }
    }

    /** The column a plan uses, inserted when it does not exist. */
    method CreateColumn(plan: Plan) returns (id: Option<ColumnId>)
      modifies this`columns
      ensures id.None? <==> CarryOut(old(SchemaState()), plan).None?
      ensures id.None? ==> columns == old(columns)
      ensures id.Some? ==>
                CarryOut(old(SchemaState()), plan) == Some(Schema(columns, mapping + [Mapped(id.value, plan.header)]))
    {
      if plan.existing.Some? { return plan.existing; }
      if NameIsTaken(columns, plan.columnName) { return None; }
      id := Some(|columns|);
      columns := columns + [Column(plan.columnName, true, true, false)];
    }

    // ---- the rows and cells ---------------------------------------------------

    method CreateRows(pushes: seq<Push>) returns (created: nat)
      requires GridIsSound(TableState()) && KeysAreDistinct(pushes)
      modifies this`identities, this`nextRow
      ensures TableState() == IdentifyAll(old(TableState()), pushes)
      ensures created == NewCount(old(identities), pushes)
    {
      ghost var grid := TableState();
      created := 0;
      var k := 0;
      while k < |pushes|
        invariant 0 <= k <= |pushes|
        invariant TableState() == IdentifyAll(grid, pushes[..k])
        invariant created == NewCount(grid.identities, pushes[..k])
      {
        assert pushes[..k + 1][..k] == pushes[..k];
        Identified(grid, pushes[..k]);
        assert pushes[k].record.key !in Keys(pushes[..k]);
        if pushes[k].record.key !in identities {
          identities := identities[pushes[k].record.key := nextRow];
          nextRow := nextRow + 1;
          created := created + 1;
        }
        k := k + 1;
      }
      assert pushes[..k] == pushes;
    }

    /** preservesAnyField. */
    method SomeFieldIsPreserved(pushes: seq<Push>) returns (any: bool)
      ensures any <==> PreservesAny(naming, mapping, pushes)
    {
      hide Decide;
      var i := 0;
      while i < |pushes|
        invariant 0 <= i <= |pushes|
        invariant forall k, j :: 0 <= k < i && 0 <= j < |mapping| ==>
                    Decide(naming, pushes[k], mapping[j].field) != Preserve
      {
        var j := 0;
        while j < |mapping|
          invariant 0 <= j <= |mapping|
          invariant forall l :: 0 <= l < j ==> Decide(naming, pushes[i], mapping[l].field) != Preserve
        {
          if Decide(naming, pushes[i], mapping[j].field) == Preserve { return true; }
          j := j + 1;
        }
        i := i + 1;
      }
      return false;
    }

    method DeleteCells(pushes: seq<Push>, ghost grid: Grid)
      requires cells == grid.cells && identities == IdentifyAll(grid, pushes).identities
      modifies this`cells
      ensures cells == grid.cells - Deletions(naming, mapping, identities, pushes)
    {
      hide IdentifyAll, ChangedColumns, Decide;
      var preserves := SomeFieldIsPreserved(pushes);
      if !preserves {
        var rowIds := set i | 0 <= i < |pushes| :: RowOf(identities, pushes[i]);
        var columnIds := set j | 0 <= j < |mapping| :: mapping[j].columnId;
        forall a
          ensures a in Deletions(naming, mapping, identities, pushes) <==> a.rowId in rowIds && a.columnId in columnIds
        {
          FastPathDeletesTheSame(naming, mapping, identities, pushes, a);
        }
        cells := map a | a in cells && !(a.rowId in rowIds && a.columnId in columnIds) :: cells[a];
      } else {
        DeleteOneByOne(pushes);
      }
    }

    method DeleteOneByOne(pushes: seq<Push>)
      modifies this`cells
      ensures cells == old(cells) - Deletions(naming, mapping, identities, pushes)
    {
      hide ChangedColumns, Addresses;
      var k := 0;
      while k < |pushes|
        invariant 0 <= k <= |pushes|
        invariant cells == old(cells) - Deletions(naming, mapping, identities, pushes[..k])
      {
        assert pushes[..k + 1][..k] == pushes[..k];
        var changed := ChangedColumns(naming, mapping, pushes[k]);
        if changed != [] {
          cells := cells - Addresses(RowOf(identities, pushes[k]), changed);
        } else {
          NothingAddressed(RowOf(identities, pushes[k]));
        }
        k := k + 1;
      }
      assert pushes[..k] == pushes;
    }

    lemma NothingAddressed(rowId: RowId)
      ensures Addresses(rowId, []) == {}
    {
    }

    method InsertValues(pushes: seq<Push>, ghost grid: Grid) returns (inserted: bool)
      requires cells == grid.cells - Deletions(naming, mapping, identities, pushes)
      modifies this`cells
      ensures var all := InsertCells(grid.cells - Deletions(naming, mapping, identities, pushes),
                                     AllInserts(naming, mapping, identities, pushes));
              (inserted <==> all.Some?) && (inserted ==> cells == all.value)
    {
      hide Inserts, Deletions;
      var values := AllInserts(naming, mapping, identities, pushes);
      ghost var kept := cells;
      var k := 0;
      while k < |values|
        invariant 0 <= k <= |values|
        invariant InsertCells(kept, values[..k]) == Some(cells)
      {
        assert values[..k + 1][..k] == values[..k];
        if values[k].0 in cells {
          assert values == values[..k + 1] + values[k + 1..];
          InsertAppended(kept, values[..k + 1], values[k + 1..]);
          return false;
        }
        cells := cells[values[k].0 := values[k].1];
        k := k + 1;
      }
      assert values[..k] == values;
      return true;
    }

    /** recomputeDependentFormulasForRow and recordRowMutationAndMaybeQueueSettlement
        for every record that changed something. */
    method RecordMutations(pushes: seq<Push>)
      modifies this`mutations
      ensures mutations == old(mutations) + Notes(naming, mapping, identities, cells, pushes)
    {
      hide ChangedColumns, RowCells;
      var k := 0;
      while k < |pushes|
        invariant 0 <= k <= |pushes|
        invariant mutations == old(mutations) + Notes(naming, mapping, identities, cells, pushes[..k])
      {
        assert pushes[..k + 1][..k] == pushes[..k];
        var changed := ChangedColumns(naming, mapping, pushes[k]);
        var rowId := RowOf(identities, pushes[k]);
        if changed != [] { mutations := mutations + [Mutation(rowId, changed, RowCells(cells, rowId))]; }
        k := k + 1;
      }
      assert pushes[..k] == pushes;
    }
  }
}
