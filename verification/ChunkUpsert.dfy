/** Upserting a whole chunk (packages/db/src/ingestion.ts:546-700): all rows
    first, then all deletions, then all insertions, then the row mutations.
    It equals upserting the records one by one. */
module ChunkUpsert {
  import opened Collections
  import opened IngestionMapping
  import opened Upsert

  // ---- the chunk --------------------------------------------------------------

  function IdentifyAll(grid: Grid, pushes: seq<Push>): Grid {
    if pushes == [] then grid else Identify(IdentifyAll(grid, pushes[..|pushes| - 1]), pushes[|pushes| - 1].record.key)
  }

  function RowOf(identities: map<Key, RowId>, push: Push): RowId {
    if push.record.key in identities then identities[push.record.key] else 0
  }

  function Touched(naming: Naming, mapping: seq<Mapped>, identities: map<Key, RowId>, push: Push): set<Address> {
    Addresses(RowOf(identities, push), ChangedColumns(naming, mapping, push))
  }

  /** Everything the per-record deletions remove. */
  function Deletions(naming: Naming, mapping: seq<Mapped>, identities: map<Key, RowId>,
                     pushes: seq<Push>): set<Address> {
    if pushes == [] then {}
    else
      Deletions(naming, mapping, identities, pushes[..|pushes| - 1]) +
      Touched(naming, mapping, identities, pushes[|pushes| - 1])
  }

  function AllInserts(naming: Naming, mapping: seq<Mapped>, identities: map<Key, RowId>,
                      pushes: seq<Push>): seq<(Address, string)> {
    if pushes == [] then []
    else
      var last := pushes[|pushes| - 1];
      AllInserts(naming, mapping, identities, pushes[..|pushes| - 1]) +
        Inserts(naming, mapping, last, RowOf(identities, last))
  }

  function Note(naming: Naming, mapping: seq<Mapped>, identities: map<Key, RowId>, cells: map<Address, string>,
                push: Push): seq<Mutation> {
    var changed := ChangedColumns(naming, mapping, push);
    var rowId := RowOf(identities, push);
    if changed == [] then [] else [Mutation(rowId, changed, RowCells(cells, rowId))]
  }

  function Notes(naming: Naming, mapping: seq<Mapped>, identities: map<Key, RowId>, cells: map<Address, string>,
                 pushes: seq<Push>): seq<Mutation> {
    if pushes == [] then []
    else
      Notes(naming, mapping, identities, cells, pushes[..|pushes| - 1]) +
      Note(naming, mapping, identities, cells, pushes[|pushes| - 1])
  }

  function UpsertChunk(naming: Naming, mapping: seq<Mapped>, grid: Grid, pushes: seq<Push>): Option<Grid> {
    var identified := IdentifyAll(grid, pushes);
    var ids := identified.identities;
    match InsertCells(grid.cells - Deletions(naming, mapping, ids, pushes), AllInserts(naming, mapping, ids, pushes))
    case None => None
    case Some(cells) =>
      Some(identified.(cells := cells, mutations := grid.mutations + Notes(naming, mapping, ids, cells, pushes)))
  }

  /** The whole write of a batch: its mapping, then its records. */
  function WriteChunk(naming: Naming, schema: Schema, grid: Grid, fields: seq<string>,
                      pushes: seq<Push>): Option<(Schema, Grid)> {
    match ExtendMapping(naming, schema, fields)
    case None => None
    case Some(next) =>
      match UpsertChunk(naming, next.mapping, grid, pushes)
      case None => None
      case Some(after) => Some((next, after))
  }

  function NewCount(identities: map<Key, RowId>, pushes: seq<Push>): (r: nat)
    ensures r <= |pushes|
  {
    if pushes == [] then 0
    else NewCount(identities, pushes[..|pushes| - 1]) + if pushes[|pushes| - 1].record.key in identities then 0 else 1
  }

  // ---- rows -------------------------------------------------------------------

  ghost predicate KeysAreDistinct(pushes: seq<Push>) {
    forall i, j :: 0 <= i < j < |pushes| ==> pushes[i].record.key != pushes[j].record.key
  }

  lemma IdentifyOne(grid: Grid, key: Key)
    requires GridIsSound(grid)
    ensures var after := Identify(grid, key);
            GridIsSound(after) && KeepsRows(grid, after) && after.identities.Keys == grid.identities.Keys + {key} &&
            after.cells == grid.cells && after.mutations == grid.mutations
  {
  }

  lemma {:induction false} Identified(grid: Grid, pushes: seq<Push>)
    requires GridIsSound(grid)
    ensures var after := IdentifyAll(grid, pushes);
            GridIsSound(after) && KeepsRows(grid, after) &&
            after.identities.Keys == grid.identities.Keys + Keys(pushes) &&
            after.cells == grid.cells && after.mutations == grid.mutations
  {
    hide GridIsSound, KeepsRows, Identify;
    if pushes == [] {
      KeepsOwnRows(grid);
    } else {
      var n := |pushes| - 1;
      Identified(grid, pushes[..n]);
      IdentifyOne(IdentifyAll(grid, pushes[..n]), pushes[n].record.key);
      KeepsRowsTransitively(grid, IdentifyAll(grid, pushes[..n]), IdentifyAll(grid, pushes));
      assert Keys(pushes) == Keys(pushes[..n]) + {pushes[n].record.key};
    }
  }

  ghost predicate SameRows(a: map<Key, RowId>, b: map<Key, RowId>, pushes: seq<Push>) {
    forall i :: 0 <= i < |pushes| ==> RowOf(a, pushes[i]) == RowOf(b, pushes[i])
  }

  lemma {:induction false} SameRowsSameWork(naming: Naming, mapping: seq<Mapped>, a: map<Key, RowId>,
                                            b: map<Key, RowId>,
                                            cells: map<Address, string>, pushes: seq<Push>)
    requires SameRows(a, b, pushes)
    ensures Deletions(naming, mapping, a, pushes) == Deletions(naming, mapping, b, pushes)
    ensures AllInserts(naming, mapping, a, pushes) == AllInserts(naming, mapping, b, pushes)
    ensures Notes(naming, mapping, a, cells, pushes) == Notes(naming, mapping, b, cells, pushes)
  {
    hide RowOf, Inserts, ChangedColumns, RowCells, Addresses;
    if pushes != [] {
      var n := |pushes| - 1;
      assert forall i :: 0 <= i < n ==> pushes[..n][i] == pushes[i];
      SameRowsSameWork(naming, mapping, a, b, cells, pushes[..n]);
      assert RowOf(a, pushes[n]) == RowOf(b, pushes[n]);
    }
  }

  lemma {:induction false} NewRowsAreCounted(grid: Grid, pushes: seq<Push>)
    requires GridIsSound(grid) && KeysAreDistinct(pushes)
    ensures IdentifyAll(grid, pushes).nextRow == grid.nextRow + NewCount(grid.identities, pushes)
  {
    if pushes != [] {
      var n := |pushes| - 1;
      NewRowsAreCounted(grid, pushes[..n]);
      Identified(grid, pushes[..n]);
      assert pushes[n].record.key !in Keys(pushes[..n]);
    }
  }

  lemma OneMoreKey(keys: set<Key>, key: Key, known: set<Key>)
    requires key !in keys
    ensures |(keys + {key}) * known| == |keys * known| + if key in known then 1 else 0
  {
    if key in known {
      assert (keys + {key}) * known == keys * known + {key};
    } else {
      assert (keys + {key}) * known == keys * known;
    }
  }

  /** Known keys among distinct ones. */
  lemma {:induction false} KnownKeysAreCounted(identities: map<Key, RowId>, pushes: seq<Push>)
    requires KeysAreDistinct(pushes)
    ensures |Keys(pushes) * identities.Keys| == |pushes| - NewCount(identities, pushes)
  {
    hide Keys, KeysAreDistinct;
    if pushes == [] {
      NoKeys();
      assert {} * identities.Keys == {};
    } else {
      var n := |pushes| - 1;
      KeysSplit(pushes);
      KnownKeysAreCounted(identities, pushes[..n]);
      OneMoreKey(Keys(pushes[..n]), pushes[n].record.key, identities.Keys);
    }
  }

  lemma NoKeys()
    ensures Keys([]) == {}
  {
  }

  lemma KeysSplit(pushes: seq<Push>)
    requires KeysAreDistinct(pushes) && pushes != []
    ensures var n := |pushes| - 1;
            Keys(pushes) == Keys(pushes[..n]) + {pushes[n].record.key} && pushes[n].record.key !in Keys(pushes[..n]) &&
            KeysAreDistinct(pushes[..n])
  {
  }

  // ---- moving deletions past insertions ---------------------------------------

  lemma {:induction false} InsertAppended(cells: map<Address, string>, first: seq<(Address, string)>,
                                          second: seq<(Address, string)>)
    ensures InsertCells(cells, first + second) ==
            match InsertCells(cells, first) case None => None case Some(next) => InsertCells(next, second)
  {
    if second == [] {
      assert first + second == first;
    } else {
      var n := |second| - 1;
      InsertAppended(cells, first, second[..n]);
      assert (first + second)[..|first + second| - 1] == first + second[..n];
    }
  }

  lemma {:induction false} DeleteAfterInserting(cells: map<Address, string>, inserts: seq<(Address, string)>,
                                                gone: set<Address>)
    requires forall i :: 0 <= i < |inserts| ==> inserts[i].0 !in gone
    ensures InsertCells(cells - gone, inserts) ==
            match InsertCells(cells, inserts) case None => None case Some(after) => Some(after - gone)
  {
    if inserts != [] {
      var n := |inserts| - 1;
      DeleteAfterInserting(cells, inserts[..n], gone);
      var before := InsertCells(cells, inserts[..n]);
      if before.Some? && inserts[n].0 !in before.value {
        assert before.value[inserts[n].0 := inserts[n].1] - gone == (before.value - gone)[inserts[n].0 := inserts[n].1];
      }
    }
  }

  // ---- separate rows ----------------------------------------------------------

  ghost predicate RowIsUnused(identities: map<Key, RowId>, pushes: seq<Push>, rowId: RowId) {
    forall i :: 0 <= i < |pushes| ==> RowOf(identities, pushes[i]) != rowId
  }

  lemma {:induction false} InsertsStayInTheirRows(naming: Naming, mapping: seq<Mapped>, ids: map<Key, RowId>,
                                                  pushes: seq<Push>, rowId: RowId)
    requires RowIsUnused(ids, pushes, rowId)
    ensures forall i :: 0 <= i < |AllInserts(naming, mapping, ids, pushes)| ==>
              AllInserts(naming, mapping, ids, pushes)[i].0.rowId != rowId
  {
    hide Inserts;
    if pushes != [] {
      var n := |pushes| - 1;
      assert forall i :: 0 <= i < n ==> pushes[..n][i] == pushes[i];
      InsertsStayInTheirRows(naming, mapping, ids, pushes[..n], rowId);
      var last := Inserts(naming, mapping, pushes[n], RowOf(ids, pushes[n]));
      forall i | 0 <= i < |last| ensures last[i].0.rowId != rowId {
        InsertsCome(naming, mapping, pushes[n], RowOf(ids, pushes[n]), last[i]);
      }
    }
  }

  ghost predicate AgreeOutside(a: map<Address, string>, b: map<Address, string>, rowId: RowId) {
    forall x: Address :: x.rowId != rowId ==> (x in a <==> x in b) && (x in a ==> a[x] == b[x])
  }

  lemma RecordStaysInItsRow(naming: Naming, mapping: seq<Mapped>, cells: map<Address, string>, push: Push, rowId: RowId)
    requires InsertCells(cells - Addresses(rowId, ChangedColumns(naming, mapping, push)),
                         Inserts(naming, mapping, push, rowId)).Some?
    ensures AgreeOutside(cells, InsertCells(cells - Addresses(rowId, ChangedColumns(naming, mapping, push)),
                                            Inserts(naming, mapping, push, rowId)).value, rowId)
  {
    hide InsertCells, Inserts, ChangedColumns;
    var after := InsertCells(cells - Addresses(rowId, ChangedColumns(naming, mapping, push)),
                             Inserts(naming, mapping, push, rowId)).value;
    forall x: Address | x.rowId != rowId ensures (x in cells <==> x in after) && (x in cells ==> cells[x] == after[x]) {
      OtherCellsStay(naming, mapping, cells, push, rowId, x);
    }
  }

  lemma RowCellsAgree(a: map<Address, string>, b: map<Address, string>, rowId: RowId, other: RowId)
    requires AgreeOutside(a, b, rowId) && other != rowId
    ensures RowCells(a, other) == RowCells(b, other)
  {
    var left, right := RowCells(a, other), RowCells(b, other);
    forall c ensures (c in left <==> c in right) && (c in left ==> left[c] == right[c]) {
      var x := Address(other, c);
      assert x in a <==> x in b;
      assert (c in left <==> x in a) && (c in right <==> x in b);
    }
  }

  lemma {:induction false} NotesSeeTheirRows(naming: Naming, mapping: seq<Mapped>, ids: map<Key, RowId>,
                                             a: map<Address, string>, b: map<Address, string>, pushes: seq<Push>,
                                               rowId: RowId)
    requires RowIsUnused(ids, pushes, rowId) && AgreeOutside(a, b, rowId)
    ensures Notes(naming, mapping, ids, a, pushes) == Notes(naming, mapping, ids, b, pushes)
  {
    hide ChangedColumns, RowCells, AgreeOutside, RowOf;
    if pushes != [] {
      var n := |pushes| - 1;
      assert forall i :: 0 <= i < n ==> pushes[..n][i] == pushes[i];
      NotesSeeTheirRows(naming, mapping, ids, a, b, pushes[..n], rowId);
      RowCellsAgree(a, b, rowId, RowOf(ids, pushes[n]));
    }
  }

  // ---- a chunk is its records one by one --------------------------------------

  lemma RowsArePrivate(grid: Grid, pushes: seq<Push>)
    requires GridIsSound(grid) && KeysAreDistinct(pushes) && pushes != []
    ensures var n := |pushes| - 1;
            var ids := IdentifyAll(grid, pushes).identities;
            pushes[n].record.key in ids && RowIsUnused(ids, pushes[..n], ids[pushes[n].record.key]) &&
            SameRows(ids, IdentifyAll(grid, pushes[..n]).identities, pushes[..n])
  {
    hide IdentifyAll;
    var n := |pushes| - 1;
    Identified(grid, pushes);
    Identified(grid, pushes[..n]);
    var ids := IdentifyAll(grid, pushes).identities;
    var earlier := IdentifyAll(grid, pushes[..n]);
    IdentifiedLast(grid, pushes);
    assert pushes[n].record.key in Keys(pushes);
    forall i | 0 <= i < n
      ensures RowOf(ids, pushes[..n][i]) != ids[pushes[n].record.key] &&
              RowOf(ids, pushes[..n][i]) == RowOf(earlier.identities, pushes[..n][i])
    {
      assert pushes[..n][i].record.key in Keys(pushes[..n]);
      assert pushes[..n][i].record.key in earlier.identities;
    }
  }

  lemma IdentifiedLast(grid: Grid, pushes: seq<Push>)
    requires pushes != []
    ensures var n := |pushes| - 1;
            IdentifyAll(grid, pushes) == Identify(IdentifyAll(grid, pushes[..n]), pushes[n].record.key)
  {
  }

  /** The cells of one more record. */
  lemma CellsOfOneMore(naming: Naming, mapping: seq<Mapped>, grid: Grid, pushes: seq<Push>)
    requires GridIsSound(grid) && KeysAreDistinct(pushes) && pushes != []
    ensures var n := |pushes| - 1;
            var ids := IdentifyAll(grid, pushes).identities;
            var earlier := IdentifyAll(grid, pushes[..n]).identities;
            InsertCells(grid.cells - Deletions(naming, mapping, ids, pushes),
                        AllInserts(naming, mapping, ids, pushes)) ==
            match InsertCells(grid.cells - Deletions(naming, mapping, earlier, pushes[..n]),
                              AllInserts(naming, mapping, earlier, pushes[..n]))
            case None => None
            case Some(cells) =>
              InsertCells(cells - Touched(naming, mapping, ids, pushes[n]),
                          Inserts(naming, mapping, pushes[n], RowOf(ids, pushes[n])))
  {
    hide IdentifyAll, ChangedColumns, Inserts, InsertCells;
    var n := |pushes| - 1;
    var ids := IdentifyAll(grid, pushes).identities;
    var earlier := IdentifyAll(grid, pushes[..n]).identities;
    RowsArePrivate(grid, pushes);
    SameRowsSameWork(naming, mapping, ids, earlier, grid.cells, pushes[..n]);
    var deletions := Deletions(naming, mapping, ids, pushes[..n]);
    var touched := Touched(naming, mapping, ids, pushes[n]);
    var inserts := AllInserts(naming, mapping, ids, pushes[..n]);
    InsertsStayInTheirRows(naming, mapping, ids, pushes[..n], RowOf(ids, pushes[n]));
    DeleteAfterInserting(grid.cells - deletions, inserts, touched);
    assert grid.cells - deletions - touched == grid.cells - Deletions(naming, mapping, ids, pushes);
    InsertAppended(grid.cells - deletions - touched, inserts,
                   Inserts(naming, mapping, pushes[n], RowOf(ids, pushes[n])));
  }

  lemma NotesOfOneMore(naming: Naming, mapping: seq<Mapped>, grid: Grid, pushes: seq<Push>,
                       before: map<Address, string>, after: map<Address, string>)
    requires GridIsSound(grid) && KeysAreDistinct(pushes) && pushes != []
    requires var ids := IdentifyAll(grid, pushes).identities;
             Some(after) == InsertCells(before - Touched(naming, mapping, ids, pushes[|pushes| - 1]),
                                        Inserts(naming, mapping, pushes[|pushes| - 1],
                                                RowOf(ids, pushes[|pushes| - 1])))
    ensures var n := |pushes| - 1;
            var ids := IdentifyAll(grid, pushes).identities;
            Notes(naming, mapping, ids, after, pushes) ==
            Notes(naming, mapping, IdentifyAll(grid, pushes[..n]).identities, before, pushes[..n]) +
              Note(naming, mapping, ids, after, pushes[n])
  {
    hide IdentifyAll, ChangedColumns, Inserts, InsertCells, RowCells;
    var n := |pushes| - 1;
    var ids := IdentifyAll(grid, pushes).identities;
    var rowId := RowOf(ids, pushes[n]);
    RowsArePrivate(grid, pushes);
    RecordStaysInItsRow(naming, mapping, before, pushes[n], rowId);
    NotesSeeTheirRows(naming, mapping, ids, before, after, pushes[..n], rowId);
    SameRowsSameWork(naming, mapping, ids, IdentifyAll(grid, pushes[..n]).identities, before, pushes[..n]);
  }

  /** The chunk's one deletion, one insertion and trailing mutations equal the
      sequential upsert of its records, and abort exactly when that would. */
  lemma {:induction false} ChunkIsSequential(naming: Naming, mapping: seq<Mapped>, grid: Grid, pushes: seq<Push>)
    requires GridIsSound(grid) && KeysAreDistinct(pushes)
    ensures UpsertChunk(naming, mapping, grid, pushes) == UpsertAll(naming, mapping, grid, pushes)
  {
    hide ChangedColumns, Inserts, InsertCells, RowCells, Deletions, AllInserts, Notes, Touched;
    if pushes == [] {
      EmptyChunk(naming, mapping, grid);
    } else {
      var n := |pushes| - 1;
      ChunkIsSequential(naming, mapping, grid, pushes[..n]);
      CellsOfOneMore(naming, mapping, grid, pushes);
      var before := UpsertChunk(naming, mapping, grid, pushes[..n]);
      if before.Some? { OneMoreRecord(naming, mapping, grid, pushes, before.value); }
    }
  }

  lemma EmptyChunk(naming: Naming, mapping: seq<Mapped>, grid: Grid)
    ensures UpsertChunk(naming, mapping, grid, []) == Some(grid)
  {
    assert grid.cells - {} == grid.cells;
    assert grid.mutations + [] == grid.mutations;
  }

  lemma OneMoreRecord(naming: Naming, mapping: seq<Mapped>, grid: Grid, pushes: seq<Push>, before: Grid)
    requires GridIsSound(grid) && KeysAreDistinct(pushes) && pushes != []
    requires UpsertChunk(naming, mapping, grid, pushes[..|pushes| - 1]) == Some(before)
    ensures UpsertChunk(naming, mapping, grid, pushes) == UpsertRecord(naming, mapping, before, pushes[|pushes| - 1])
  {
    hide ChangedColumns, Inserts, InsertCells, RowCells, Deletions, AllInserts, Notes;
    var n := |pushes| - 1;
    var ids := IdentifyAll(grid, pushes).identities;
    CellsOfOneMore(naming, mapping, grid, pushes);
    Identified(grid, pushes[..n]);
    RowsArePrivate(grid, pushes);
    assert before.identities == IdentifyAll(grid, pushes[..n]).identities;
    assert Identify(before, pushes[n].record.key).identities == ids;
    var after := InsertCells(before.cells - Touched(naming, mapping, ids, pushes[n]),
                             Inserts(naming, mapping, pushes[n], RowOf(ids, pushes[n])));
    if after.Some? {
      NotesOfOneMore(naming, mapping, grid, pushes, before.cells, after.value);
      var noted := Note(naming, mapping, ids, after.value, pushes[n]);
      assert before.mutations + noted == grid.mutations + Notes(naming, mapping, ids, after.value, pushes);
      assert before.mutations + [] == before.mutations;
    }
  }

  /** What a written chunk leaves: sound keys, exactly the new rows, and the
      sequential upsert of its records. */
  lemma WrittenChunk(naming: Naming, schema: Schema, grid: Grid, fields: seq<string>, pushes: seq<Push>)
    requires GridIsSound(grid) && KeysAreDistinct(pushes)
    requires WriteChunk(naming, schema, grid, fields, pushes).Some?
    ensures var after := WriteChunk(naming, schema, grid, fields, pushes).value;
            GridIsSound(after.1) && KeepsRows(grid, after.1) &&
            after.1.identities.Keys == grid.identities.Keys + Keys(pushes) &&
            after.1.nextRow == grid.nextRow + NewCount(grid.identities, pushes) &&
            ExtendMapping(naming, schema, fields) == Some(after.0) &&
            UpsertAll(naming, after.0.mapping, grid, pushes) == Some(after.1)
  {
    hide ExtendMapping, UpsertAll, GridIsSound, KeepsRows, InsertCells, Deletions, AllInserts, Notes;
    var mapping := ExtendMapping(naming, schema, fields).value.mapping;
    ChunkIsSequential(naming, mapping, grid, pushes);
    Identified(grid, pushes);
    KeysKeepRows(naming, mapping, grid, pushes);
    NewRowsAreCounted(grid, pushes);
  }

  // ---- the bulk-delete fast path ----------------------------------------------

  ghost predicate PreservesAny(naming: Naming, mapping: seq<Mapped>, pushes: seq<Push>) {
    exists i, j :: 0 <= i < |pushes| && 0 <= j < |mapping| && Decide(naming, pushes[i], mapping[j].field) == Preserve
  }

  ghost function ColumnsOf(mapping: seq<Mapped>): set<ColumnId> {
    set j | 0 <= j < |mapping| :: mapping[j].columnId
  }

  ghost function RowsOf(ids: map<Key, RowId>, pushes: seq<Push>): set<RowId> {
    set i | 0 <= i < |pushes| :: RowOf(ids, pushes[i])
  }

  ghost predicate Swept(ids: map<Key, RowId>, mapping: seq<Mapped>, pushes: seq<Push>, a: Address) {
    a.rowId in RowsOf(ids, pushes) && a.columnId in ColumnsOf(mapping)
  }

  /** When no record preserves a mapped field, deleting every mapped cell of
      every affected row deletes what the records would delete one by one. */
  lemma {:induction false} FastPathDeletesTheSame(naming: Naming, mapping: seq<Mapped>, ids: map<Key, RowId>,
                                                  pushes: seq<Push>, a: Address)
    requires !PreservesAny(naming, mapping, pushes)
    ensures a in Deletions(naming, mapping, ids, pushes) <==> Swept(ids, mapping, pushes, a)
  {
    hide ChangedColumns, Decide;
    if pushes != [] {
      var n := |pushes| - 1;
      assert forall i :: 0 <= i < n ==> pushes[..n][i] == pushes[i];
      FastPathDeletesTheSame(naming, mapping, ids, pushes[..n], a);
      ChangedMeans(naming, mapping, pushes[n], a.columnId);
      assert RowsOf(ids, pushes) == RowsOf(ids, pushes[..n]) + {RowOf(ids, pushes[n])};
      assert IsChanged(naming, mapping, pushes[n], a.columnId) <==> a.columnId in ColumnsOf(mapping);
      TouchedMeans(naming, mapping, ids, pushes[n], a);
    }
  }

  lemma TouchedMeans(naming: Naming, mapping: seq<Mapped>, ids: map<Key, RowId>, push: Push, a: Address)
    ensures a in Touched(naming, mapping, ids, push) <==>
              a.rowId == RowOf(ids, push) && a.columnId in ChangedColumns(naming, mapping, push)
  {
    hide ChangedColumns, RowOf;
    var changed := ChangedColumns(naming, mapping, push);
    if a.rowId == RowOf(ids, push) && a.columnId in changed {
      var i :| 0 <= i < |changed| && changed[i] == a.columnId;
      assert Address(RowOf(ids, push), changed[i]) == a;
    }
  }
}
