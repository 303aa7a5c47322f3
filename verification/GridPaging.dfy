/** Keyset paging (packages/db/src/grid.ts:100-208, 440-653;
    packages/db/src/grid-view-query.ts:127-154). */
module GridPaging {
  import opened Collections
  import opened FormulaValues

  type RowId = nat

  /** Positions and cell values are ordered by the database; each stands for a
      number, since every countable total order embeds in the reals.  The sort
      value is None where SQL reads NULL. */
  datatype Row = Row(id: RowId, position: real, sortEmpty: bool, sortValue: Option<real>)

  /** gridViewSortExpressions over the row's cell in the sort column: the value
      is read from the storage column of the sort column's type, which is NULL for
      a cell of another type.  `rank` orders the values of one type. */
  function SortedRow(id: RowId, position: real, cell: Option<CellValue>, columnType: ValueType,
                     rank: CellValue -> real): Row {
    var empty := cell.None? || cell.value.Empty?;
    Row(id, position, empty, if !empty && TypeOf(cell.value) == columnType then Some(rank(cell.value)) else None)
  }

  datatype Direction = Asc | Desc
  datatype Sort = Sort(columnId: nat, direction: Direction)
  datatype View = View(id: nat, sort: Option<Sort>)

  datatype Cursor =
    | PositionCursor(id: RowId, position: real, search: Option<string>)
    | SortedCursor(viewId: nat, columnId: nat, direction: Direction, empty: bool, value: Option<real>, rowId: RowId,
                   search: Option<string>)

  // ---- the cursor predicate ---------------------------------------------------

  /** SQL's three truth values. */
  datatype Truth = True | False | Unknown

  function Known(b: bool): Truth {
    if b then True else False
  }

  function Or(a: Truth, b: Truth): Truth {
    if a == True || b == True then True else if a == False && b == False then False else Unknown
  }

  function And(a: Truth, b: Truth): Truth {
    if a == False || b == False then False else if a == True && b == True then True else Unknown
  }

  predicate IdAfter(direction: Direction, id: RowId, cursorId: RowId) {
    if direction == Asc then id > cursorId else id < cursorId
  }

  predicate ValueAfter(direction: Direction, value: real, cursorValue: real) {
    if direction == Asc then value > cursorValue else value < cursorValue
  }

  /** buildSortedCursorPredicate, for a cursor that carries a value when it is
      not empty. */
  function SortedCursorPredicate(cursor: Cursor, row: Row): Truth
    requires cursor.SortedCursor? && (cursor.empty || cursor.value.Some?)
  {
    var rowAfter := Known(IdAfter(cursor.direction, row.id, cursor.rowId));
    if cursor.empty then And(Known(row.sortEmpty), rowAfter)
    else
      var valueAfter := if row.sortValue.None? then Unknown
                        else Known(ValueAfter(cursor.direction, row.sortValue.value, cursor.value.value));
      var valueEqual := if row.sortValue.None? then Unknown else Known(row.sortValue.value == cursor.value.value);
      Or(And(Known(!row.sortEmpty), Or(valueAfter, And(valueEqual, rowAfter))), Known(row.sortEmpty))
  }

  predicate PositionCursorPredicate(cursor: Cursor, row: Row)
    requires cursor.PositionCursor?
  {
    row.position > cursor.position || (row.position == cursor.position && row.id > cursor.id)
  }

  // ---- one query --------------------------------------------------------------

  /** The checks of selectGridRows; a refused cursor is an error. */
  predicate CursorFits(view: View, search: Option<string>, cursor: Cursor) {
    cursor.search == search &&
    match view.sort
    case None => cursor.PositionCursor?
    case Some(sort) =>
      cursor.SortedCursor? && cursor.viewId == view.id && cursor.columnId == sort.columnId &&
      cursor.direction == sort.direction &&
      (cursor.empty || cursor.value.Some?)
  }

  predicate Selects(view: View, search: Option<string>, cursor: Option<Cursor>, row: Row)
    requires cursor.None? || CursorFits(view, search, cursor.value)
  {
    match cursor
    case None => true
    case Some(c) => if view.sort.None? then PositionCursorPredicate(c, row) else SortedCursorPredicate(c, row) == True
  }

  function Filter(view: View, search: Option<string>, cursor: Option<Cursor>, rows: seq<Row>): seq<Row>
    requires cursor.None? || CursorFits(view, search, cursor.value)
  {
    if rows == [] then []
    else
      var last := rows[|rows| - 1];
      Filter(view, search, cursor, rows[..|rows| - 1]) + if Selects(view, search, cursor, last) then [last] else []
  }

  function Take(rows: seq<Row>, count: nat): seq<Row> {
    if |rows| <= count then rows else rows[..count]
  }

  /** encodeGridCursor; None is its validation error. */
  function EncodeCursor(view: View, search: Option<string>, row: Row): Option<Cursor> {
    match view.sort
    case None => Some(PositionCursor(row.id, row.position, search))
    case Some(sort) =>
      if row.sortEmpty then Some(SortedCursor(view.id, sort.columnId, sort.direction, true, None, row.id, search))
      else if row.sortValue.None? then None
      else Some(SortedCursor(view.id, sort.columnId, sort.direction, false, row.sortValue, row.id, search))
  }

  function PageLimit(limit: int): (r: nat)
    ensures 1 <= r <= 200 && (1 <= limit <= 200 ==> r == limit) && (limit > 200 ==> r == 200)
  {
    if limit > 200 then 200 else if limit < 1 then 1 else limit
  }

  datatype Snapshot = Snapshot(rows: seq<Row>, hasMore: bool, nextCursor: Option<Cursor>)

  /** getGridSnapshot over the matching rows in the query's order; None is an
      error. */
  function GetSnapshot(view: View, search: Option<string>, matching: seq<Row>, cursor: Option<Cursor>,
                       limit: int): Option<Snapshot> {
    if cursor.Some? && !CursorFits(view, search, cursor.value) then None
    else
      var selected := Take(Filter(view, search, cursor, matching), PageLimit(limit) + 1);
      var hasMore := |selected| > PageLimit(limit);
      var page := Take(selected, PageLimit(limit));
      if !hasMore then Some(Snapshot(page, false, None))
      else
        match EncodeCursor(view, search, page[|page| - 1])
        case None => None
        case Some(next) => Some(Snapshot(page, true, Some(next)))
  }

  // ---- the order --------------------------------------------------------------

  /** The order of the query: empty last, then the value in its direction, with
      NULL where PostgreSQL puts it (last ascending, first descending), then id
      in the same direction; without a sort, position then id. */
  predicate Before(view: View, a: Row, b: Row) {
    match view.sort
    case None => a.position < b.position || (a.position == b.position && a.id < b.id)
    case Some(sort) =>
      if a.sortEmpty != b.sortEmpty then !a.sortEmpty
      else if a.sortValue == b.sortValue then IdAfter(sort.direction, b.id, a.id)
      else if a.sortValue.None? then sort.direction == Desc
      else if b.sortValue.None? then sort.direction == Asc
      else ValueAfter(sort.direction, b.sortValue.value, a.sortValue.value)
  }

  ghost predicate InOrder(view: View, rows: seq<Row>) {
    forall i, j :: 0 <= i < j < |rows| ==> Before(view, rows[i], rows[j])
  }

  /** A row whose sort cell is not empty holds a value of the column's type, and
      an empty one holds none. */
  predicate IsTyped(row: Row) {
    row.sortEmpty <==> row.sortValue.None?
  }

  lemma BeforeIsStrictTotal(view: View, a: Row, b: Row, c: Row)
    ensures !Before(view, a, a)
    ensures Before(view, a, b) && Before(view, b, c) ==> Before(view, a, c)
    ensures a.id != b.id ==> Before(view, a, b) || Before(view, b, a)
  {
  }

  /** The cursor of a row selects exactly the rows strictly after it. */
  lemma CursorMeansStrictlyAfter(view: View, search: Option<string>, at: Row, row: Row)
    requires view.sort.Some? ==> IsTyped(at) && IsTyped(row)
    ensures EncodeCursor(view, search, at).Some?
    ensures var cursor := EncodeCursor(view, search, at).value;
            CursorFits(view, search, cursor) && (Selects(view, search, Some(cursor), row) <==> Before(view, at, row))
  {
  }

  // ---- following nextCursor ---------------------------------------------------

  /** Whatever a cursor selects after a selected row was selected already. */
  lemma SelectionNarrows(view: View, search: Option<string>, cursor: Option<Cursor>, at: Row, row: Row)
    requires cursor.None? || CursorFits(view, search, cursor.value)
    requires EncodeCursor(view, search, at).Some? && Selects(view, search, cursor, at)
    ensures CursorFits(view, search, EncodeCursor(view, search, at).value)
    ensures Selects(view, search, Some(EncodeCursor(view, search, at).value), row) ==>
              Selects(view, search, cursor, row)
    ensures !Selects(view, search, Some(EncodeCursor(view, search, at).value), at)
  {
  }

  lemma {:induction false} FilterNarrows(view: View, search: Option<string>, wide: Option<Cursor>, at: Row,
                                         rows: seq<Row>)
    requires wide.None? || CursorFits(view, search, wide.value)
    requires EncodeCursor(view, search, at).Some? && Selects(view, search, wide, at)
    ensures CursorFits(view, search, EncodeCursor(view, search, at).value)
    ensures var narrow := Some(EncodeCursor(view, search, at).value);
            |Filter(view, search, narrow, rows)| <= |Filter(view, search, wide, rows)| &&
            (at in rows ==> |Filter(view, search, narrow, rows)| < |Filter(view, search, wide, rows)|)
  {
    hide Selects, EncodeCursor, CursorFits;
    SelectionNarrows(view, search, wide, at, at);
    if rows != [] {
      var n := |rows| - 1;
      FilterNarrows(view, search, wide, at, rows[..n]);
      SelectionNarrows(view, search, wide, at, rows[n]);
    }
  }

  lemma {:induction false} FilteredRows(view: View, search: Option<string>, cursor: Option<Cursor>, rows: seq<Row>)
    requires cursor.None? || CursorFits(view, search, cursor.value)
    ensures forall r :: r in Filter(view, search, cursor, rows) <==> r in rows && Selects(view, search, cursor, r)
  {
    hide Selects, CursorFits;
    if rows != [] {
      var n := |rows| - 1;
      FilteredRows(view, search, cursor, rows[..n]);
      assert rows == rows[..n] + [rows[n]];
    }
  }

  lemma NextPageShrinks(view: View, search: Option<string>, matching: seq<Row>, cursor: Option<Cursor>, limit: int)
    requires cursor.None? || CursorFits(view, search, cursor.value)
    requires var snapshot := GetSnapshot(view, search, matching, cursor, limit);
             snapshot.Some? && snapshot.value.nextCursor.Some?
    ensures var next := GetSnapshot(view, search, matching, cursor, limit).value.nextCursor;
            CursorFits(view, search, next.value) &&
            |Filter(view, search, next, matching)| < |Filter(view, search, cursor, matching)|
  {
    hide Selects, EncodeCursor, CursorFits, Filter;
    var filtered := Filter(view, search, cursor, matching);
    var page := Take(Take(filtered, PageLimit(limit) + 1), PageLimit(limit));
    var at := page[|page| - 1];
    assert at in filtered;
    FilteredRows(view, search, cursor, matching);
    FilterNarrows(view, search, cursor, at, matching);
  }

  /** All rows a client sees that follows nextCursor to the end; None when a page
      is refused on the way. */
  function Follow(view: View, search: Option<string>, matching: seq<Row>, cursor: Option<Cursor>,
                  limit: int): Option<seq<Row>>
    requires cursor.None? || CursorFits(view, search, cursor.value)
    decreases |Filter(view, search, cursor, matching)|
  {
    match GetSnapshot(view, search, matching, cursor, limit)
    case None => None
    case Some(snapshot) =>
      if snapshot.nextCursor.None? then Some(snapshot.rows)
      else
        NextPageShrinks(view, search, matching, cursor, limit);
        match Follow(view, search, matching, snapshot.nextCursor, limit)
        case None => None
        case Some(rest) => Some(snapshot.rows + rest)
  }

  ghost predicate AllTyped(view: View, rows: seq<Row>) {
    view.sort.Some? ==> forall i :: 0 <= i < |rows| ==> IsTyped(rows[i])
  }

  /** A cursor at row i of the ordered rows selects the tail behind it. */
  lemma {:induction false} CursorSelectsTail(view: View, search: Option<string>, rows: seq<Row>, i: nat, prefix: nat)
    requires InOrder(view, rows) && AllTyped(view, rows) && i < |rows| && prefix <= |rows|
    ensures EncodeCursor(view, search, rows[i]).Some? &&
            CursorFits(view, search, EncodeCursor(view, search, rows[i]).value)
    ensures Filter(view, search, Some(EncodeCursor(view, search, rows[i]).value), rows[..prefix]) ==
            if i < prefix then rows[i + 1..prefix] else []
  {
    hide Selects, EncodeCursor, CursorFits, Before;
    CursorMeansStrictlyAfter(view, search, rows[i], rows[i]);
    if prefix > 0 {
      var n := prefix - 1;
      CursorSelectsTail(view, search, rows, i, n);
      CursorMeansStrictlyAfter(view, search, rows[i], rows[n]);
      BeforeIsStrictTotal(view, rows[i], rows[n], rows[i]);
      assert rows[..prefix][..n] == rows[..n];
      assert Before(view, rows[i], rows[n]) <==> i < n;
    }
  }

  lemma {:induction false} NoCursorSelectsAll(view: View, search: Option<string>, rows: seq<Row>)
    ensures Filter(view, search, None, rows) == rows
  {
    if rows != [] { NoCursorSelectsAll(view, search, rows[..|rows| - 1]); }
  }

  /** One page of the tail. */
  lemma PageOfTail(view: View, search: Option<string>, rows: seq<Row>, cursor: Option<Cursor>, from: nat, limit: int)
    requires InOrder(view, rows) && AllTyped(view, rows) && from <= |rows|
    requires cursor.None? || CursorFits(view, search, cursor.value)
    requires Filter(view, search, cursor, rows) == rows[from..]
    ensures var size := PageLimit(limit);
            GetSnapshot(view, search, rows, cursor, limit) ==
            if |rows| - from <= size then Some(Snapshot(rows[from..], false, None))
            else Some(Snapshot(rows[from..from + size], true, EncodeCursor(view, search, rows[from + size - 1])))
  {
    hide Selects, EncodeCursor, CursorFits, Before, Filter;
    var size := PageLimit(limit);
    if |rows| - from > size {
      CursorSelectsTail(view, search, rows, from + size - 1, |rows|);
      assert Take(Take(rows[from..], size + 1), size) == rows[from..from + size];
      assert rows[from..from + size][size - 1] == rows[from + size - 1];
    } else {
      assert Take(Take(rows[from..], size + 1), size) == rows[from..];
    }
  }

  lemma {:induction false} FollowTail(view: View, search: Option<string>, rows: seq<Row>, cursor: Option<Cursor>,
                                      from: nat, limit: int)
    requires InOrder(view, rows) && AllTyped(view, rows) && from <= |rows|
    requires cursor.None? || CursorFits(view, search, cursor.value)
    requires Filter(view, search, cursor, rows) == rows[from..]
    ensures Follow(view, search, rows, cursor, limit) == Some(rows[from..])
    decreases |rows| - from
  {
    hide Selects, EncodeCursor, CursorFits, Before, Filter, GetSnapshot;
    var size := PageLimit(limit);
    PageOfTail(view, search, rows, cursor, from, limit);
    if |rows| - from > size {
      var next := EncodeCursor(view, search, rows[from + size - 1]);
      CursorSelectsTail(view, search, rows, from + size - 1, |rows|);
      assert rows[..|rows|] == rows;
      FollowTail(view, search, rows, next, from + size, limit);
      assert rows[from..from + size] + rows[from + size..] == rows[from..];
    }
  }

  /** Following nextCursor returns every matching row exactly once, in order, for
      every page limit. */
  lemma EveryRowOnce(view: View, search: Option<string>, rows: seq<Row>, limit: int)
    requires InOrder(view, rows) && AllTyped(view, rows)
    ensures Follow(view, search, rows, None, limit) == Some(rows)
  {
    NoCursorSelectsAll(view, search, rows);
    assert rows[0..] == rows;
    FollowTail(view, search, rows, None, 0, limit);
  }

  // ---- cells that are not of the column's type --------------------------------

  /** No cursor selects a row whose sort cell has another type. */
  lemma MistypedIsNeverAfter(view: View, search: Option<string>, cursor: Cursor, row: Row)
    requires view.sort.Some? && CursorFits(view, search, cursor) && !row.sortEmpty && row.sortValue.None?
    ensures !Selects(view, search, Some(cursor), row)
  {
  }

  ghost predicate IsMistyped(row: Row) {
    !row.sortEmpty && row.sortValue.None?
  }

  lemma {:induction false} FollowSkipsMistyped(view: View, search: Option<string>, rows: seq<Row>, cursor: Cursor,
                                               limit: int)
    requires view.sort.Some? && CursorFits(view, search, cursor)
    requires Follow(view, search, rows, Some(cursor), limit).Some?
    ensures forall r :: r in Follow(view, search, rows, Some(cursor), limit).value ==> !IsMistyped(r)
    decreases |Filter(view, search, Some(cursor), rows)|
  {
    hide Selects, EncodeCursor, CursorFits, Filter;
    FilteredRows(view, search, Some(cursor), rows);
    var snapshot := GetSnapshot(view, search, rows, Some(cursor), limit).value;
    forall r | r in snapshot.rows ensures !IsMistyped(r) {
      assert r in Filter(view, search, Some(cursor), rows);
      if IsMistyped(r) { MistypedIsNeverAfter(view, search, cursor, r); }
    }
    if snapshot.nextCursor.Some? {
      NextPageShrinks(view, search, rows, Some(cursor), limit);
      FollowSkipsMistyped(view, search, rows, snapshot.nextCursor.value, limit);
    }
  }

  /** Empty sort cells hold no value (serialized as all-NULL columns). */
  ghost predicate EmptiesHoldNothing(rows: seq<Row>) {
    forall i :: 0 <= i < |rows| ==> rows[i].sortEmpty ==> rows[i].sortValue.None?
  }

  ghost predicate SomeMistyped(rows: seq<Row>) {
    exists i :: 0 <= i < |rows| && IsMistyped(rows[i])
  }

  /** A sorted view pages correctly at every limit exactly when no row's sort
      cell has another type than its column, or there is at most one row. */
  lemma PagingWorksIff(view: View, search: Option<string>, rows: seq<Row>)
    requires view.sort.Some? && InOrder(view, rows) && EmptiesHoldNothing(rows)
    ensures (forall limit: int :: Follow(view, search, rows, None, limit) == Some(rows)) <==>
              !SomeMistyped(rows) || |rows| <= 1
  {
    if !SomeMistyped(rows) {
      forall i | 0 <= i < |rows| ensures IsTyped(rows[i]) { assert !IsMistyped(rows[i]); }
      forall limit: int
        ensures Follow(view, search, rows, None, limit) == Some(rows)
      {
        EveryRowOnce(view, search, rows, limit);
      }
    } else if |rows| <= 1 {
      forall limit: int
        ensures Follow(view, search, rows, None, limit) == Some(rows)
      {
        OnePageIsEnough(view, search, rows, limit);
      }
    } else {
      SinglePagesFail(view, search, rows);
    }
  }

  lemma OnePageIsEnough(view: View, search: Option<string>, rows: seq<Row>, limit: int)
    requires |rows| <= 1
    ensures Follow(view, search, rows, None, limit) == Some(rows)
  {
    NoCursorSelectsAll(view, search, rows);
  }

  lemma SinglePagesFail(view: View, search: Option<string>, rows: seq<Row>)
    requires view.sort.Some? && InOrder(view, rows) && SomeMistyped(rows) && |rows| > 1
    ensures Follow(view, search, rows, None, 1) != Some(rows)
  {
    hide Selects, CursorFits, Filter, Before;
    NoCursorSelectsAll(view, search, rows);
    var m :| 0 <= m < |rows| && IsMistyped(rows[m]);
    var followed := Follow(view, search, rows, None, 1);
    var snapshot := GetSnapshot(view, search, rows, None, 1);
    assert Take(Take(rows, 2), 1) == [rows[0]];
    if followed.Some? {
      assert !IsMistyped(rows[0]);
      NextPageShrinks(view, search, rows, None, 1);
      FollowSkipsMistyped(view, search, rows, snapshot.value.nextCursor.value, 1);
      var rest := Follow(view, search, rows, snapshot.value.nextCursor, 1).value;
      assert followed.value == [rows[0]] + rest;
      assert rows[m] !in followed.value;
    }
    assert rows[m] in rows;
  }

  lemma SortedRowsAreMistypedIff(id: RowId, position: real, cell: Option<CellValue>, columnType: ValueType,
                                 rank: CellValue -> real)
    ensures var row := SortedRow(id, position, cell, columnType, rank);
            (row.sortEmpty ==> row.sortValue.None?) &&
            (IsMistyped(row) <==> cell.Some? && !cell.value.Empty? && TypeOf(cell.value) != columnType)
  {
  }

  /** Two rows sorted by a number column in which the second holds text, as a
      source resumed after a conversion writes it: one row to a page, the second
      row is never shown. */
  lemma TextInNumberColumnIsLost(view: View, search: Option<string>, rank: CellValue -> real, number: real,
                                 text: string)
    requires view.sort.Some? && view.sort.value.direction == Asc
    ensures var rows := [SortedRow(1, 1.0, Some(Number(number)), NumberType, rank),
                         SortedRow(2, 2.0, Some(Text(text)), NumberType, rank)];
            InOrder(view, rows) && Follow(view, search, rows, None, 1) == Some(rows[..1])
  {
    hide CursorFits, Selects;
    var first, second := SortedRow(1, 1.0, Some(Number(number)), NumberType, rank),
      SortedRow(2, 2.0, Some(Text(text)), NumberType, rank);
    var rows := [first, second];
    NoCursorSelectsAll(view, search, rows);
    var cursor := EncodeCursor(view, search, first);
    CursorMeansStrictlyAfter(view, search, first, first);
    MistypedIsNeverAfter(view, search, cursor.value, second);
    assert cursor == Some(cursor.value) && !Selects(view, search, cursor, first) &&
           !Selects(view, search, cursor, second);
    assert rows[..1] == [first] && [first][..0] == [];
    assert Filter(view, search, cursor, [first]) == [];
    assert Filter(view, search, cursor, rows) == [];
    assert Take(Take(rows, 2), 1) == rows[..1] && rows[..1][0] == first;
    assert GetSnapshot(view, search, rows, None, 1) == Some(Snapshot(rows[..1], true, cursor));
    assert GetSnapshot(view, search, rows, cursor, 1) == Some(Snapshot([], false, None));
    assert Follow(view, search, rows, cursor, 1) == Some([]) && rows[..1] + [] == rows[..1];
  }

  // ---- cursors of other queries -----------------------------------------------

  /** A cursor made for another search, view, column or direction is refused. */
  lemma ForeignCursorIsRefused(view: View, search: Option<string>, other: View, otherSearch: Option<string>, row: Row,
                               rows: seq<Row>, limit: int)
    requires EncodeCursor(other, otherSearch, row).Some?
    ensures GetSnapshot(view, search, rows, EncodeCursor(other, otherSearch, row), limit).Some? ==>
              otherSearch == search && other.sort == view.sort && (view.sort.Some? ==> other.id == view.id)
  {
  }
}
