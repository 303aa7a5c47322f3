/** Upserting pushed records (packages/db/src/ingestion.ts:546-700): the
    sequential reference, one record at a time, and the algebra that lets a
    whole chunk delete first and insert afterwards. */
module Upsert {
  import opened Collections
  import opened IngestionMapping

  type RowId = nat
  type Key = string
  datatype Address = Address(rowId: RowId, columnId: ColumnId)

  /** A staged record; a value of None is the JSON null. */
  datatype Record = Record(key: Key, values: map<string, Option<string>>)

  datatype Decision = Preserve | Clear | Write(value: string)

  /** One recompute-and-record call: the row, its changed columns, and the input
      cells of the row as that call sees them. */
  datatype Mutation = Mutation(rowId: RowId, changed: seq<ColumnId>, seen: map<ColumnId, string>)

  /** Row identifiers are taken in order from `nextRow`. */
  datatype Grid = Grid(cells: map<Address, string>, identities: map<Key, RowId>, nextRow: RowId,
                       mutations: seq<Mutation>)

  // ---- deciding ---------------------------------------------------------------

  /** decideIngestionFieldUpdate; an absent value is `undefined`. */
  function DecideFieldUpdate(incoming: Option<Option<string>>): Decision {
    match incoming
    case None => Preserve
    case Some(None) => Clear
    case Some(Some(text)) => if text == "" then Clear else Write(text)
  }

  /** currentFieldByNormalized: the last of the batch's fields with that name. */
  function CurrentField(naming: Naming, fields: seq<string>, field: string): Option<string> {
    if fields == [] then None
    else
      var last := fields[|fields| - 1];
      if naming.normalize(last) == naming.normalize(field) then Some(last)
      else CurrentField(naming, fields[..|fields| - 1], field)
  }

  /** A record with its batch's fields.  A pushed record patches its row; a
      record of a source page is a snapshot, where a missing field is cleared
      (packages/db/src/sources.ts:719-745). */
  datatype Push = Push(fields: seq<string>, record: Record, snapshot: bool)

  function Incoming(naming: Naming, push: Push, field: string): Option<Option<string>> {
    match CurrentField(naming, push.fields, field)
    case None => None
    case Some(current) => if current in push.record.values then Some(push.record.values[current]) else None
  }

  function Decide(naming: Naming, push: Push, field: string): Decision {
    var decision := DecideFieldUpdate(Incoming(naming, push, field));
    if push.snapshot && decision == Preserve then Clear else decision
  }

  function ChangedColumns(naming: Naming, mapping: seq<Mapped>, push: Push): seq<ColumnId> {
    if mapping == [] then []
    else
      var last := mapping[|mapping| - 1];
      ChangedColumns(naming, mapping[..|mapping| - 1], push) +
      if Decide(naming, push, last.field) == Preserve then [] else [last.columnId]
  }

  function Inserts(naming: Naming, mapping: seq<Mapped>, push: Push, rowId: RowId): seq<(Address, string)> {
    if mapping == [] then []
    else
      var last := mapping[|mapping| - 1];
      var decision := Decide(naming, push, last.field);
      Inserts(naming, mapping[..|mapping| - 1], push, rowId) +
      if decision.Write? then [(Address(rowId, last.columnId), decision.value)] else []
  }

  function Addresses(rowId: RowId, columnIds: seq<ColumnId>): set<Address> {
    set i | 0 <= i < |columnIds| :: Address(rowId, columnIds[i])
  }

  /** Inserting cells; None is the unique index on (row, column). */
  function InsertCells(cells: map<Address, string>, inserts: seq<(Address, string)>): Option<map<Address, string>> {
    if inserts == [] then Some(cells)
    else
      var last := inserts[|inserts| - 1];
      match InsertCells(cells, inserts[..|inserts| - 1])
      case None => None
      case Some(next) => if last.0 in next then None else Some(next[last.0 := last.1])
  }

  function RowCells(cells: map<Address, string>, rowId: RowId): map<ColumnId, string> {
    map a | a in cells && a.rowId == rowId :: a.columnId := cells[a]
  }

  // ---- the reference: one record at a time ------------------------------------

  function Identify(grid: Grid, key: Key): Grid {
    if key in grid.identities then grid
    else grid.(identities := grid.identities[key := grid.nextRow], nextRow := grid.nextRow + 1)
  }

  function Noted(grid: Grid, rowId: RowId, changed: seq<ColumnId>): Grid {
    if changed == [] then grid
    else grid.(mutations := grid.mutations + [Mutation(rowId, changed, RowCells(grid.cells, rowId))])
  }

  function UpsertRecord(naming: Naming, mapping: seq<Mapped>, grid: Grid, push: Push): Option<Grid> {
    var identified := Identify(grid, push.record.key);
    var rowId := identified.identities[push.record.key];
    var changed := ChangedColumns(naming, mapping, push);
    match InsertCells(grid.cells - Addresses(rowId, changed), Inserts(naming, mapping, push, rowId))
    case None => None
    case Some(cells) => Some(Noted(identified.(cells := cells), rowId, changed))
  }

  function UpsertAll(naming: Naming, mapping: seq<Mapped>, grid: Grid, pushes: seq<Push>): Option<Grid> {
    if pushes == [] then Some(grid)
    else
      match UpsertAll(naming, mapping, grid, pushes[..|pushes| - 1])
      case None => None
      case Some(next) => UpsertRecord(naming, mapping, next, pushes[|pushes| - 1])
  }

  /** Every known key has its own, already allocated row. */
  ghost predicate GridIsSound(grid: Grid) {
    (forall k :: k in grid.identities ==> grid.identities[k] < grid.nextRow) &&
    (forall j, k :: j in grid.identities && k in grid.identities && grid.identities[j] == grid.identities[k] ==> j == k)
  }

  // ---- what an upsert means ---------------------------------------------------

  lemma {:induction false} InsertsAreChanged(naming: Naming, mapping: seq<Mapped>, push: Push, rowId: RowId)
    ensures forall i :: 0 <= i < |Inserts(naming, mapping, push, rowId)| ==>
              Inserts(naming, mapping, push, rowId)[i].0 in Addresses(rowId, ChangedColumns(naming, mapping, push))
  {
    if mapping != [] {
      var n := |mapping| - 1;
      InsertsAreChanged(naming, mapping[..n], push, rowId);
      var before, after := ChangedColumns(naming, mapping[..n], push), ChangedColumns(naming, mapping, push);
      assert forall i :: 0 <= i < |before| ==> after[i] == before[i];
      assert Addresses(rowId, before) <= Addresses(rowId, after);
      if Decide(naming, push, mapping[n].field) != Preserve {
        assert after[|before|] == mapping[n].columnId;
      }
    }
  }

  function InsertedAddresses(inserts: seq<(Address, string)>): set<Address> {
    set i | 0 <= i < |inserts| :: inserts[i].0
  }

  lemma {:induction false} InsertedDomain(cells: map<Address, string>, inserts: seq<(Address, string)>)
    requires InsertCells(cells, inserts).Some?
    ensures InsertCells(cells, inserts).value.Keys == cells.Keys + InsertedAddresses(inserts)
  {
    if inserts != [] {
      var n := |inserts| - 1;
      InsertedDomain(cells, inserts[..n]);
      assert InsertedAddresses(inserts) == InsertedAddresses(inserts[..n]) + {inserts[n].0};
    }
  }

  lemma {:induction false} InsertedValues(cells: map<Address, string>, inserts: seq<(Address, string)>)
    requires InsertCells(cells, inserts).Some?
    ensures var after := InsertCells(cells, inserts).value;
            (forall a :: a in cells ==> a in after && after[a] == cells[a]) &&
            (forall i :: 0 <= i < |inserts| ==>
             inserts[i].0 !in cells && inserts[i].0 in after && after[inserts[i].0] == inserts[i].1)
  {
    if inserts != [] {
      var n := |inserts| - 1;
      InsertedValues(cells, inserts[..n]);
      assert forall i :: 0 <= i < n ==> inserts[..n][i] == inserts[i];
    }
  }

  lemma InsertedCells(cells: map<Address, string>, inserts: seq<(Address, string)>)
    requires InsertCells(cells, inserts).Some?
    ensures var after := InsertCells(cells, inserts).value;
            (forall a :: a in after <==> a in cells || exists i :: 0 <= i < |inserts| && inserts[i].0 == a) &&
            (forall a :: a in cells ==> after[a] == cells[a]) &&
            (forall i :: 0 <= i < |inserts| ==> inserts[i].0 !in cells && after[inserts[i].0] == inserts[i].1)
  {
    hide InsertCells;
    InsertedDomain(cells, inserts);
    InsertedValues(cells, inserts);
  }

  ghost predicate IsChanged(naming: Naming, mapping: seq<Mapped>, push: Push, columnId: ColumnId) {
    exists i :: 0 <= i < |mapping| && mapping[i].columnId == columnId &&
      Decide(naming, push, mapping[i].field) != Preserve
  }

  lemma {:induction false} ChangedMeans(naming: Naming, mapping: seq<Mapped>, push: Push, columnId: ColumnId)
    ensures columnId in ChangedColumns(naming, mapping, push) <==> IsChanged(naming, mapping, push, columnId)
  {
    if mapping != [] {
      var n := |mapping| - 1;
      ChangedMeans(naming, mapping[..n], push, columnId);
      assert forall i :: 0 <= i < n ==> mapping[..n][i] == mapping[i];
      assert IsChanged(naming, mapping, push, columnId) <==>
             IsChanged(naming, mapping[..n], push, columnId) ||
             (mapping[n].columnId == columnId && Decide(naming, push, mapping[n].field) != Preserve);
    }
  }

  lemma {:induction false} InsertsMean(naming: Naming, mapping: seq<Mapped>, push: Push, rowId: RowId, k: nat)
    requires k < |mapping|
    ensures Decide(naming, push, mapping[k].field).Write? ==>
              (Address(rowId, mapping[k].columnId), Decide(naming, push, mapping[k].field).value) in Inserts(naming,
                  mapping, push, rowId)
  {
    var n := |mapping| - 1;
    if k < n { InsertsMean(naming, mapping[..n], push, rowId, k); }
  }

  lemma {:induction false} InsertsCome(naming: Naming, mapping: seq<Mapped>, push: Push, rowId: RowId,
                                       item: (Address, string))
    requires item in Inserts(naming, mapping, push, rowId)
    ensures item.0.rowId == rowId
    ensures exists k :: 0 <= k < |mapping| && mapping[k].columnId == item.0.columnId &&
              Decide(naming, push, mapping[k].field) == Write(item.1)
  {
    var n := |mapping| - 1;
    if item in Inserts(naming, mapping[..n], push, rowId) {
      InsertsCome(naming, mapping[..n], push, rowId, item);
      var k :| 0 <= k < n && mapping[..n][k].columnId == item.0.columnId &&
               Decide(naming, push, mapping[..n][k].field) == Write(item.1);
      assert mapping[k] == mapping[..n][k];
    } else {
      assert mapping[n].columnId == item.0.columnId;
    }
  }

  /** What a mapped cell holds afterwards. */
  ghost predicate Obeys(decision: Decision, a: Address, before: map<Address, string>, after: map<Address, string>) {
    match decision
    case Preserve => (a in after <==> a in before) && (a in after ==> after[a] == before[a])
    case Clear => a !in after
    case Write(value) => a in after && after[a] == value
  }

  /** When fields keep separate columns, the record always fits: every mapped
      field of its row is preserved, cleared or written as decided, and no other
      cell, key or row changes. */
  lemma UpsertFollowsDecisions(naming: Naming, mapping: seq<Mapped>, grid: Grid, push: Push)
    requires ColumnsAreDistinct(mapping)
    ensures UpsertRecord(naming, mapping, grid, push).Some?
    ensures var after := UpsertRecord(naming, mapping, grid, push).value;
            push.record.key in after.identities &&
            var rowId := after.identities[push.record.key];
            (forall k :: 0 <= k < |mapping| ==>
               Obeys(Decide(naming, push, mapping[k].field), Address(rowId, mapping[k].columnId), grid.cells,
                     after.cells)) &&
            (forall a: Address :: a.rowId != rowId || !Feeds(mapping, a.columnId) ==>
             Obeys(Preserve, a, grid.cells, after.cells)) &&
            (forall key :: key != push.record.key ==> (key in after.identities <==> key in grid.identities)) &&
            (forall key :: key in grid.identities ==> after.identities[key] == grid.identities[key])
  {
    var rowId := Identify(grid, push.record.key).identities[push.record.key];
    var changed := ChangedColumns(naming, mapping, push);
    var inserts := Inserts(naming, mapping, push, rowId);
    var kept := grid.cells - Addresses(rowId, changed);
    DistinctInsertsFit(naming, mapping, push, rowId, kept);
    InsertedCells(kept, inserts);
    forall k | 0 <= k < |mapping|
      ensures Obeys(Decide(naming, push, mapping[k].field), Address(rowId, mapping[k].columnId), grid.cells,
                    InsertCells(kept, inserts).value)
    {
      CellObeys(naming, mapping, grid.cells, push, rowId, k);
    }
    forall a: Address | a.rowId != rowId || !Feeds(mapping, a.columnId)
      ensures Obeys(Preserve, a, grid.cells, InsertCells(kept, inserts).value)
    {
      OtherCellsStay(naming, mapping, grid.cells, push, rowId, a);
    }
  }

  lemma {:induction false} DistinctInsertsFit(naming: Naming, mapping: seq<Mapped>, push: Push, rowId: RowId,
                                              kept: map<Address, string>)
    requires ColumnsAreDistinct(mapping)
    requires forall a :: a in kept ==> a !in Addresses(rowId, ChangedColumns(naming, mapping, push))
    ensures InsertCells(kept, Inserts(naming, mapping, push, rowId)).Some?
  {
    if mapping != [] {
      var n := |mapping| - 1;
      var inserts := Inserts(naming, mapping[..n], push, rowId);
      var before, after := ChangedColumns(naming, mapping[..n], push), ChangedColumns(naming, mapping, push);
      assert forall i :: 0 <= i < |before| ==> after[i] == before[i];
      assert Addresses(rowId, before) <= Addresses(rowId, after);
      DistinctInsertsFit(naming, mapping[..n], push, rowId, kept);
      var decision := Decide(naming, push, mapping[n].field);
      if decision.Write? {
        var last := (Address(rowId, mapping[n].columnId), decision.value);
        InsertedCells(kept, inserts);
        assert after[|before|] == mapping[n].columnId && last.0 in Addresses(rowId, after);
        forall i | 0 <= i < |inserts| ensures inserts[i].0 != last.0 {
          InsertsCome(naming, mapping[..n], push, rowId, inserts[i]);
        }
        assert (inserts + [last])[..|inserts|] == inserts;
        assert Inserts(naming, mapping, push, rowId) == inserts + [last];
      } else {
        assert Inserts(naming, mapping, push, rowId) == inserts;
      }
    }
  }

  lemma CellObeys(naming: Naming, mapping: seq<Mapped>, cells: map<Address, string>, push: Push, rowId: RowId, k: nat)
    requires ColumnsAreDistinct(mapping) && k < |mapping|
    requires var kept := cells - Addresses(rowId, ChangedColumns(naming, mapping, push));
             InsertCells(kept, Inserts(naming, mapping, push, rowId)).Some?
    ensures var kept := cells - Addresses(rowId, ChangedColumns(naming, mapping, push));
            var after := InsertCells(kept, Inserts(naming, mapping, push, rowId)).value;
            Obeys(Decide(naming, push, mapping[k].field), Address(rowId, mapping[k].columnId), cells, after)
  {
    hide InsertCells, Inserts, ChangedColumns, Decide;
    var a := Address(rowId, mapping[k].columnId);
    var changed := ChangedColumns(naming, mapping, push);
    var kept := cells - Addresses(rowId, changed);
    var inserts := Inserts(naming, mapping, push, rowId);
    var decision := Decide(naming, push, mapping[k].field);
    InsertedCells(kept, inserts);
    ChangedMeans(naming, mapping, push, mapping[k].columnId);
    InsertsMean(naming, mapping, push, rowId, k);
    assert IsChanged(naming, mapping, push, mapping[k].columnId) <==> decision != Preserve;
    assert a in Addresses(rowId, changed) <==> mapping[k].columnId in changed;
    if !decision.Write? {
      forall i | 0 <= i < |inserts| ensures inserts[i].0 != a {
        InsertsCome(naming, mapping, push, rowId, inserts[i]);
      }
    }
  }

  lemma OtherCellsStay(naming: Naming, mapping: seq<Mapped>, cells: map<Address, string>, push: Push, rowId: RowId,
                       a: Address)
    requires a.rowId != rowId || !Feeds(mapping, a.columnId)
    requires var kept := cells - Addresses(rowId, ChangedColumns(naming, mapping, push));
             InsertCells(kept, Inserts(naming, mapping, push, rowId)).Some?
    ensures var kept := cells - Addresses(rowId, ChangedColumns(naming, mapping, push));
            Obeys(Preserve, a, cells, InsertCells(kept, Inserts(naming, mapping, push, rowId)).value)
  {
    hide InsertCells, Inserts, ChangedColumns, Decide;
    var changed := ChangedColumns(naming, mapping, push);
    var kept := cells - Addresses(rowId, changed);
    var inserts := Inserts(naming, mapping, push, rowId);
    InsertedCells(kept, inserts);
    ChangedMeans(naming, mapping, push, a.columnId);
    forall i | 0 <= i < |inserts| ensures inserts[i].0 != a {
      InsertsCome(naming, mapping, push, rowId, inserts[i]);
    }
  }

  // ---- rows and keys ----------------------------------------------------------

  ghost predicate KeepsRows(before: Grid, after: Grid) {
    before.identities.Keys <= after.identities.Keys && before.nextRow <= after.nextRow &&
    (forall k :: k in before.identities ==> after.identities[k] == before.identities[k]) &&
    (forall k :: k in after.identities && k !in before.identities ==> after.identities[k] >= before.nextRow)
  }

  lemma KeepsOwnRows(grid: Grid)
    ensures KeepsRows(grid, grid)
  {
  }

  lemma KeepsRowsTransitively(a: Grid, b: Grid, c: Grid)
    requires KeepsRows(a, b) && KeepsRows(b, c)
    ensures KeepsRows(a, c)
  {
  }

  lemma RecordKeepsRows(naming: Naming, mapping: seq<Mapped>, grid: Grid, push: Push)
    requires GridIsSound(grid) && UpsertRecord(naming, mapping, grid, push).Some?
    ensures var after := UpsertRecord(naming, mapping, grid, push).value;
            GridIsSound(after) && KeepsRows(grid, after) &&
            after.identities.Keys == grid.identities.Keys + {push.record.key} &&
            after.nextRow == grid.nextRow + if push.record.key in grid.identities then 0 else 1
  {
    hide InsertCells, Inserts, ChangedColumns;
  }

  function Keys(pushes: seq<Push>): set<Key> {
    set i | 0 <= i < |pushes| :: pushes[i].record.key
  }

  /** A key keeps its row for ever, whatever is pushed afterwards. */
  lemma {:induction false} KeysKeepRows(naming: Naming, mapping: seq<Mapped>, grid: Grid, pushes: seq<Push>)
    requires GridIsSound(grid) && UpsertAll(naming, mapping, grid, pushes).Some?
    ensures var after := UpsertAll(naming, mapping, grid, pushes).value;
            GridIsSound(after) && KeepsRows(grid, after) && after.identities.Keys == grid.identities.Keys + Keys(pushes)
  {
    hide UpsertRecord, GridIsSound, KeepsRows;
    if pushes == [] {
      KeepsOwnRows(grid);
    } else {
      var n := |pushes| - 1;
      KeysKeepRows(naming, mapping, grid, pushes[..n]);
      var before := UpsertAll(naming, mapping, grid, pushes[..n]).value;
      RecordKeepsRows(naming, mapping, before, pushes[n]);
      KeepsRowsTransitively(grid, before, UpsertAll(naming, mapping, grid, pushes).value);
      assert Keys(pushes) == Keys(pushes[..n]) + {pushes[n].record.key};
    }
  }
}
