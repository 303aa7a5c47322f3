/** What pushed records leave in the table, in terms of their own values
    (packages/domain/src/ingestion-policy.ts:58-71; packages/db/src/ingestion.ts:
    592-700; packages/db/src/sources.ts:704-768). */
module PushedValues {
  import opened Collections
  import opened IngestionMapping
  import opened Upsert

  // ---- what a record says about a field ---------------------------------------

  /** The batch's last field whose name agrees after normalization. */
  ghost predicate IsLastNamed(naming: Naming, fields: seq<string>, field: string, j: nat) {
    j < |fields| && naming.normalize(fields[j]) == naming.normalize(field) &&
    forall k :: j < k < |fields| ==> naming.normalize(fields[k]) != naming.normalize(field)
  }

  /** The record holds this value, None being null, for a mapped field. */
  ghost predicate Gives(naming: Naming, push: Push, field: string, value: Option<string>) {
    exists j: nat :: IsLastNamed(naming, push.fields, field, j) && push.fields[j] in push.record.values &&
      push.record.values[push.fields[j]] == value
  }

  /** The batch or the record does not have the field. */
  ghost predicate Lacks(naming: Naming, push: Push, field: string) {
    forall j: nat :: IsLastNamed(naming, push.fields, field, j) ==> push.fields[j] !in push.record.values
  }

  lemma {:induction false} CurrentFieldIsLast(naming: Naming, fields: seq<string>, field: string)
    ensures match CurrentField(naming, fields, field)
            case None => forall j: nat :: !IsLastNamed(naming, fields, field, j)
            case Some(name) => exists j: nat :: IsLastNamed(naming, fields, field, j) && fields[j] == name
  {
    if fields != [] {
      var n := |fields| - 1;
      if naming.normalize(fields[n]) == naming.normalize(field) {
        assert IsLastNamed(naming, fields, field, n);
      } else {
        CurrentFieldIsLast(naming, fields[..n], field);
        forall j: nat ensures IsLastNamed(naming, fields, field, j) <==> IsLastNamed(naming, fields[..n], field, j) {
          assert forall k :: 0 <= k < n ==> fields[..n][k] == fields[k];
        }
      }
    }
  }

  lemma LastIsOne(naming: Naming, fields: seq<string>, field: string, i: nat, j: nat)
    requires IsLastNamed(naming, fields, field, i) && IsLastNamed(naming, fields, field, j)
    ensures i == j
  {
  }

  /** What a record says is what the write decides upon. */
  lemma SayingDecides(naming: Naming, push: Push, field: string)
    ensures Lacks(naming, push, field) ==> Decide(naming, push, field) == if push.snapshot then Clear else Preserve
    ensures Gives(naming, push, field, None) || Gives(naming, push, field, Some("")) ==>
              Decide(naming, push, field) == Clear
    ensures forall text :: text != "" && Gives(naming, push, field, Some(text)) ==>
              Decide(naming, push, field) == Write(text)
    ensures !Lacks(naming, push, field) <==> exists value :: Gives(naming, push, field, value)
  {
    hide IsLastNamed;
    CurrentFieldIsLast(naming, push.fields, field);
    forall i: nat, j: nat | IsLastNamed(naming, push.fields, field, i) && IsLastNamed(naming, push.fields, field, j)
      ensures i == j
    {
      LastIsOne(naming, push.fields, field, i, j);
    }
    GivenOrLacked(naming, push, field);
  }

  lemma GivenOrLacked(naming: Naming, push: Push, field: string)
    ensures !Lacks(naming, push, field) <==> exists value :: Gives(naming, push, field, value)
  {
    if !Lacks(naming, push, field) {
      var j: nat :| IsLastNamed(naming, push.fields, field, j) && push.fields[j] in push.record.values;
      assert Gives(naming, push, field, push.record.values[push.fields[j]]);
    }
  }

  // ---- one record -------------------------------------------------------------

  ghost predicate IsSame(a: Address, before: map<Address, string>, after: map<Address, string>) {
    (a in after <==> a in before) && (a in after ==> after[a] == before[a])
  }

  /** The cell a record leaves for a mapped field: nothing for null and for the
      empty text, the text otherwise; a field it lacks is left alone by a push and
      emptied by a snapshot. */
  ghost predicate Follows(naming: Naming, push: Push, field: string, a: Address, before: map<Address, string>,
                          after: map<Address, string>)
  {
    (Gives(naming, push, field, None) || Gives(naming, push, field, Some("")) ==> a !in after) &&
    (forall text :: text != "" && Gives(naming, push, field, Some(text)) ==> a in after && after[a] == text) &&
    (Lacks(naming, push, field) && push.snapshot ==> a !in after) &&
    (Lacks(naming, push, field) && !push.snapshot ==> IsSame(a, before, after))
  }

  /** A record over separate columns is always written: its row's cell of every
      mapped field follows the record's value, and no other cell changes. */
  lemma CellsFollowValues(naming: Naming, mapping: seq<Mapped>, grid: Grid, push: Push)
    requires ColumnsAreDistinct(mapping)
    ensures UpsertRecord(naming, mapping, grid, push).Some?
    ensures var after := UpsertRecord(naming, mapping, grid, push).value;
            push.record.key in after.identities &&
            var rowId := after.identities[push.record.key];
            (push.record.key in grid.identities ==> rowId == grid.identities[push.record.key]) &&
            (forall k :: 0 <= k < |mapping| ==>
               Follows(naming, push, mapping[k].field, Address(rowId, mapping[k].columnId), grid.cells, after.cells)) &&
            (forall a: Address ::
               a.rowId != rowId || (forall k :: 0 <= k < |mapping| ==> mapping[k].columnId != a.columnId) ==>
               IsSame(a, grid.cells, after.cells))
  {
    hide Decide, UpsertRecord, ColumnsAreDistinct;
    UpsertFollowsDecisions(naming, mapping, grid, push);
    var after := UpsertRecord(naming, mapping, grid, push).value;
    var rowId := after.identities[push.record.key];
    forall k | 0 <= k < |mapping|
      ensures Follows(naming, push, mapping[k].field, Address(rowId, mapping[k].columnId), grid.cells, after.cells)
    {
      SayingDecides(naming, push, mapping[k].field);
    }
  }

  /** The mutation noted for a record names the columns of the fields it gives,
      or all of them for a snapshot, and sees the row as it is afterwards; a record
      that touches nothing notes none. */
  lemma MutationsFollowValues(naming: Naming, mapping: seq<Mapped>, grid: Grid, push: Push)
    requires UpsertRecord(naming, mapping, grid, push).Some?
    ensures var after := UpsertRecord(naming, mapping, grid, push).value;
            push.record.key in after.identities &&
            if exists k :: 0 <= k < |mapping| && Touches(naming, push, mapping[k].field) then
              |after.mutations| == |grid.mutations| + 1 && after.mutations[..|grid.mutations|] == grid.mutations &&
              var noted := after.mutations[|grid.mutations|];
              noted.rowId == after.identities[push.record.key] &&
              (forall c :: c in noted.changed <==>
                 exists k :: 0 <= k < |mapping| && mapping[k].columnId == c &&
                   Touches(naming, push, mapping[k].field)) &&
              (forall c :: c in noted.seen <==> Address(noted.rowId, c) in after.cells) &&
              (forall c :: c in noted.seen ==> noted.seen[c] == after.cells[Address(noted.rowId, c)])
            else after.mutations == grid.mutations
  {
    hide InsertCells, Inserts, Decide, Lacks;
    var changed := ChangedColumns(naming, mapping, push);
    forall c ensures c in changed <==>
      exists k :: 0 <= k < |mapping| && mapping[k].columnId == c && Touches(naming, push, mapping[k].field)
    {
      ChangedMeans(naming, mapping, push, c);
      forall k | 0 <= k < |mapping|
        ensures Touches(naming, push, mapping[k].field) <==> Decide(naming, push, mapping[k].field) != Preserve
      {
        TouchingDecides(naming, push, mapping[k].field);
      }
    }
    assert changed != [] ==> changed[0] in changed;
    if k :| 0 <= k < |mapping| && Touches(naming, push, mapping[k].field) {
      assert mapping[k].columnId in changed;
    }
  }

  ghost predicate Touches(naming: Naming, push: Push, field: string) {
    push.snapshot || !Lacks(naming, push, field)
  }

  lemma TouchingDecides(naming: Naming, push: Push, field: string)
    ensures Touches(naming, push, field) <==> Decide(naming, push, field) != Preserve
  {
    hide Lacks, Gives, Decide;
    SayingDecides(naming, push, field);
    if !Lacks(naming, push, field) {
      var value :| Gives(naming, push, field, value);
      if value.Some? && value.value != "" { assert Gives(naming, push, field, Some(value.value)); }
    }
  }

  // ---- many records -----------------------------------------------------------

  ghost predicate Speaks(naming: Naming, push: Push, key: Key, field: string) {
    push.record.key == key && Touches(naming, push, field)
  }

  /** What the last record that speaks of a key's field says is what the table
      holds at the end, whatever else was pushed before and afterwards. */
  lemma {:induction false} LastWordStands(naming: Naming, mapping: seq<Mapped>, grid: Grid, pushes: seq<Push>, i: nat,
                                          k: nat)
    requires GridIsSound(grid) && ColumnsAreDistinct(mapping) && k < |mapping| && i < |pushes|
    requires Speaks(naming, pushes[i], pushes[i].record.key, mapping[k].field)
    requires forall j :: i < j < |pushes| ==> !Speaks(naming, pushes[j], pushes[i].record.key, mapping[k].field)
    ensures UpsertAll(naming, mapping, grid, pushes).Some?
    ensures var after := UpsertAll(naming, mapping, grid, pushes).value;
            pushes[i].record.key in after.identities &&
            Follows(naming, pushes[i], mapping[k].field,
                    Address(after.identities[pushes[i].record.key], mapping[k].columnId), grid.cells, after.cells)
    decreases |pushes|
  {
    hide Gives, Lacks, UpsertRecord, GridIsSound, Follows;
    var n := |pushes| - 1;
    RecordsAreWritten(naming, mapping, grid, pushes[..n]);
    var before := UpsertAll(naming, mapping, grid, pushes[..n]).value;
    KeysKeepRows(naming, mapping, grid, pushes[..n]);
    CellsFollowValues(naming, mapping, before, pushes[n]);
    var after := UpsertRecord(naming, mapping, before, pushes[n]).value;
    if i == n {
      LastWordCounts(naming, pushes[n], mapping[k].field, Address(after.identities[pushes[n].record.key],
                     mapping[k].columnId), before.cells, grid.cells, after.cells);
    } else {
      LastWordStands(naming, mapping, grid, pushes[..n], i, k);
      var key := pushes[i].record.key;
      RecordKeepsRows(naming, mapping, before, pushes[n]);
      var a := Address(before.identities[key], mapping[k].columnId);
      assert IsSame(a, before.cells, after.cells) by { SilentCellStays(naming, mapping, before, pushes[n], key, k); }
      SameCellFollows(naming, pushes[i], mapping[k].field, a, grid.cells, before.cells, after.cells);
    }
  }

  lemma {:induction false} RecordsAreWritten(naming: Naming, mapping: seq<Mapped>, grid: Grid, pushes: seq<Push>)
    requires ColumnsAreDistinct(mapping)
    ensures UpsertAll(naming, mapping, grid, pushes).Some?
  {
    hide UpsertRecord, ColumnsAreDistinct;
    if pushes != [] {
      var n := |pushes| - 1;
      RecordsAreWritten(naming, mapping, grid, pushes[..n]);
      UpsertFollowsDecisions(naming, mapping, UpsertAll(naming, mapping, grid, pushes[..n]).value, pushes[n]);
    }
  }

  /** A record that speaks does not look at what was there before. */
  lemma LastWordCounts(naming: Naming, push: Push, field: string, a: Address, before: map<Address, string>,
                       other: map<Address, string>, after: map<Address, string>)
    requires Follows(naming, push, field, a, before, after) && Touches(naming, push, field)
    ensures Follows(naming, push, field, a, other, after)
  {
    hide Gives, Lacks, IsSame;
  }

  lemma SameCellFollows(naming: Naming, push: Push, field: string, a: Address, start: map<Address, string>,
                        before: map<Address, string>, after: map<Address, string>)
    requires Follows(naming, push, field, a, start, before) && Touches(naming, push, field) && IsSame(a, before, after)
    ensures Follows(naming, push, field, a, start, after)
  {
    hide Gives, Lacks;
  }

  /** A record of another key, or one that does not speak of the field, leaves
      the cell alone. */
  lemma SilentCellStays(naming: Naming, mapping: seq<Mapped>, grid: Grid, push: Push, key: Key, k: nat)
    requires GridIsSound(grid) && ColumnsAreDistinct(mapping) && k < |mapping| && key in grid.identities
    requires !Speaks(naming, push, key, mapping[k].field)
    ensures UpsertRecord(naming, mapping, grid, push).Some?
    ensures IsSame(Address(grid.identities[key], mapping[k].columnId), grid.cells,
                   UpsertRecord(naming, mapping, grid, push).value.cells)
  {
    hide Gives, Lacks, UpsertRecord;
    CellsFollowValues(naming, mapping, grid, push);
    RecordKeepsRows(naming, mapping, grid, push);
    var after := UpsertRecord(naming, mapping, grid, push).value;
    if push.record.key == key {
      assert Follows(naming, push, mapping[k].field, Address(after.identities[key], mapping[k].columnId), grid.cells,
                     after.cells);
    } else {
      assert after.identities[key] != after.identities[push.record.key];
    }
  }
}
