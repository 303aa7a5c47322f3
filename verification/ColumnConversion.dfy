/** The paged scan and apply loops of a column type conversion
    (packages/db/src/schema-lifecycle.ts:745-895).  Pages are cut by cell id, so
    the loops see every cell once whatever the page boundaries. */
module ColumnConversion {
  import opened Collections

  const PAGE_SIZE: nat := 1_000
  const SAMPLE_SIZE: nat := 10

  datatype ValueType = TextType | NumberType | BooleanType | TimestampType | JsonType

  /** A cell of the column; an empty one has no stored type. */
  datatype Cell = Cell(id: nat, stored: Option<ValueType>, value: int, version: nat)

  datatype Impact = Impact(convertible: nat, empties: nat, failed: nat, total: nat)

  /** The conversion at hand; `convert` is convertColumnCellValue on the values of
      the current type, None where it throws. */
  datatype Conversion = Conversion(current: ValueType, target: ValueType, convert: int -> Option<int>)

  // ---- what the loops should compute ------------------------------------------

  predicate Fails(conversion: Conversion, cell: Cell) {
    cell.stored.Some? && (cell.stored.value != conversion.current || conversion.convert(cell.value).None?)
  }

  function CountCell(conversion: Conversion, impact: Impact, cell: Cell): Impact {
    var next := impact.(total := impact.total + 1);
    if cell.stored.None? then next.(empties := next.empties + 1)
    else if Fails(conversion, cell) then next.(failed := next.failed + 1)
    else next.(convertible := next.convertible + 1)
  }

  function ImpactOf(conversion: Conversion, cells: seq<Cell>): Impact {
    if cells == [] then Impact(0, 0, 0, 0) else CountCell(conversion, ImpactOf(conversion, cells[..|cells| - 1]),
                                                          cells[|cells| - 1])
  }

  /** The ids of the first failing cells. */
  function SampleOf(conversion: Conversion, cells: seq<Cell>): (r: seq<nat>)
    ensures |r| <= SAMPLE_SIZE
  {
    if cells == [] then []
    else
      var sample := SampleOf(conversion, cells[..|cells| - 1]);
      if Fails(conversion, cells[|cells| - 1]) && |sample| < SAMPLE_SIZE then sample + [cells[|cells| - 1].id]
         else sample
  }

  function ConvertCell(conversion: Conversion, cell: Cell): Cell {
    if cell.stored.None? then cell
    else cell.(stored := Some(conversion.target), value := conversion.convert(cell.value).GetOr(cell.value),
               version := cell.version + 1)
  }

  ghost predicate IdsAscend(cells: seq<Cell>) {
    forall i, j :: 0 <= i < j < |cells| ==> cells[i].id < cells[j].id
  }

  lemma {:induction false} ImpactAddsUp(conversion: Conversion, cells: seq<Cell>)
    ensures var impact := ImpactOf(conversion, cells);
            impact.total == |cells| && impact.total == impact.convertible + impact.empties + impact.failed &&
            (impact.failed == 0 <==> forall i :: 0 <= i < |cells| ==> !Fails(conversion, cells[i]))
  {
    if cells != [] { ImpactAddsUp(conversion, cells[..|cells| - 1]); }
  }

  /** The positions of cells that hold nothing. */
  ghost function Empties(cells: seq<Cell>): set<nat> {
    set i | 0 <= i < |cells| && cells[i].stored == None
  }

  /** The positions of cells that cannot be converted: they hold a value of
      another type than the column's, or one that has no value of the target. */
  ghost function Failures(conversion: Conversion, cells: seq<Cell>): set<nat> {
    set i | 0 <= i < |cells| && cells[i].stored != None &&
            (cells[i].stored == Some(conversion.current) ==> conversion.convert(cells[i].value) == None)
  }

  lemma LastPosition(conversion: Conversion, cells: seq<Cell>)
    requires cells != []
    ensures var n := |cells| - 1;
            |Empties(cells)| == |Empties(cells[..n])| + (if cells[n].stored == None then 1 else 0) &&
            |Failures(conversion, cells)| ==
            |Failures(conversion, cells[..n])| + if n in Failures(conversion, cells) then 1 else 0
  {
    var n := |cells| - 1;
    assert Empties(cells) == Empties(cells[..n]) + if cells[n].stored == None then {n} else {};
    assert Failures(conversion, cells) ==
           Failures(conversion, cells[..n]) + if n in Failures(conversion, cells) then {n} else {};
  }

  /** The scan counts the empty cells, the failing ones and, with ImpactAddsUp,
      the convertible ones. */
  lemma {:induction false} ImpactIsExact(conversion: Conversion, cells: seq<Cell>)
    ensures ImpactOf(conversion, cells).empties == |Empties(cells)|
    ensures ImpactOf(conversion, cells).failed == |Failures(conversion, cells)|
  {
    if cells != [] {
      LastPosition(conversion, cells);
      ImpactIsExact(conversion, cells[..|cells| - 1]);
      hide Empties;
    }
  }

  /** The sample names the first ten failing cells, or all when there are fewer: a
      failing cell with k failing cells before it comes k-th. */
  lemma {:induction false} SampleIsExact(conversion: Conversion, cells: seq<Cell>, i: nat)
    ensures var count := |Failures(conversion, cells)|;
            |SampleOf(conversion, cells)| == if count < 10 then count else 10
    ensures i in Failures(conversion, cells) && |Failures(conversion, cells[..i])| < 10 ==>
              |Failures(conversion, cells[..i])| < |SampleOf(conversion, cells)| &&
              SampleOf(conversion, cells)[|Failures(conversion, cells[..i])|] == cells[i].id
  {
    if cells != [] {
      var n := |cells| - 1;
      LastPosition(conversion, cells);
      SampleIsExact(conversion, cells[..n], i);
      if i < n { assert cells[..n][..i] == cells[..i]; }
    }
  }

  /** A converted cell keeps its identity and becomes a new version of the target
      type with the converted value; an empty one stays as it is. */
  lemma ConvertedMeans(conversion: Conversion, cells: seq<Cell>, i: nat)
    requires i < |cells| && i !in Failures(conversion, cells)
    ensures var before, after := cells[i], ConvertCell(conversion, cells[i]);
            if i in Empties(cells) then after == before
            else
              before.stored == Some(conversion.current) && conversion.convert(before.value) == Some(after.value) &&
              after.stored == Some(conversion.target) && after.id == before.id && after.version == before.version + 1
  {
  }

  // ---- the pages --------------------------------------------------------------

  predicate Qualifies(cell: Cell, onlyStored: bool) {
    !onlyStored || cell.stored.Some?
  }

  /** The first cells from an index on, in id order. */
  function SelectFrom(cells: seq<Cell>, from: nat, onlyStored: bool, limit: nat): seq<nat>
    requires from <= |cells|
    decreases |cells| - from
  {
    if from == |cells| || limit == 0 then []
    else if Qualifies(cells[from], onlyStored) then [from] + SelectFrom(cells, from + 1, onlyStored, limit - 1)
    else SelectFrom(cells, from + 1, onlyStored, limit)
  }

  /** How many cells an id cursor excludes. */
  function Excluded(cells: seq<Cell>, last: Option<nat>): (r: nat)
    ensures r <= |cells|
  {
    if cells == [] || last.None? then 0
    else if cells[|cells| - 1].id <= last.value then |cells|
    else Excluded(cells[..|cells| - 1], last)
  }

  function SelectPage(cells: seq<Cell>, last: Option<nat>, onlyStored: bool): seq<nat> {
    SelectFrom(cells, Excluded(cells, last), onlyStored, PAGE_SIZE)
  }

  lemma {:induction false} CursorExcludesItsPrefix(cells: seq<Cell>, k: nat)
    requires IdsAscend(cells) && k < |cells|
    ensures Excluded(cells, Some(cells[k].id)) == k + 1
  {
    var n := |cells| - 1;
    if k < n { CursorExcludesItsPrefix(cells[..n], k); }
  }

  ghost predicate NothingFrom(cells: seq<Cell>, from: nat) {
    forall i :: from <= i < |cells| ==> cells[i].stored.None?
  }

  /** Where a page ends. */
  function EndOf(page: seq<nat>, from: nat): nat {
    if page == [] then from else page[|page| - 1] + 1
  }

  /** Without a filter a page is the next cells, all of them. */
  lemma {:induction false} PlainPage(cells: seq<Cell>, from: nat, limit: nat)
    requires from <= |cells|
    ensures var page := SelectFrom(cells, from, false, limit);
            |page| == (if limit < |cells| - from then limit else |cells| - from) &&
            forall i :: 0 <= i < |page| ==> page[i] == from + i
    decreases |cells| - from
  {
    if from < |cells| && limit > 0 { PlainPage(cells, from + 1, limit - 1); }
  }

  ghost predicate VisitsStored(cells: seq<Cell>, from: nat, page: seq<nat>) {
    Ascending(page) && from <= EndOf(page, from) <= |cells| &&
    (forall x :: x in page ==> from <= x < EndOf(page, from) && cells[x].stored.Some?) &&
    (forall i :: from <= i < EndOf(page, from) && i !in page ==> cells[i].stored.None?)
  }

  lemma SkipOne(cells: seq<Cell>, from: nat, page: seq<nat>)
    requires from < |cells| && cells[from].stored.None? && page != [] && VisitsStored(cells, from + 1, page)
    ensures VisitsStored(cells, from, page)
  {
  }

  lemma VisitOne(cells: seq<Cell>, from: nat, rest: seq<nat>)
    requires from < |cells| && cells[from].stored.Some? && VisitsStored(cells, from + 1, rest)
    ensures VisitsStored(cells, from, [from] + rest) && EndOf([from] + rest, from) == EndOf(rest, from + 1)
  {
    var page := [from] + rest;
    PrependAscends(from, rest);
    assert EndOf(page, from) == EndOf(rest, from + 1);
    assert forall x :: x in rest ==> x in page;
    forall i | from <= i < EndOf(page, from) && i !in page ensures cells[i].stored.None? {
      assert page[0] == from && i !in rest;
    }
  }

  /** A page of stored cells visits them in order, skips only empty ones, and
      reaches the end when it is not full. */
  lemma {:induction false} StoredPage(cells: seq<Cell>, from: nat, limit: nat)
    requires from <= |cells|
    ensures var page := SelectFrom(cells, from, true, limit);
            |page| <= limit && VisitsStored(cells, from, page) &&
            (|page| < limit ==> NothingFrom(cells, EndOf(page, from)))
    decreases |cells| - from
  {
    hide VisitsStored;
    var page := SelectFrom(cells, from, true, limit);
    if from < |cells| && limit > 0 {
      if Qualifies(cells[from], true) {
        StoredPage(cells, from + 1, limit - 1);
        VisitOne(cells, from, SelectFrom(cells, from + 1, true, limit - 1));
      } else {
        StoredPage(cells, from + 1, limit);
        if page == [] { VisitsNothing(cells, from); } else { SkipOne(cells, from, page); }
      }
    } else {
      VisitsNothing(cells, from);
    }
  }

  lemma VisitsNothing(cells: seq<Cell>, from: nat)
    requires from <= |cells|
    ensures VisitsStored(cells, from, [])
  {
  }

  lemma {:induction false} PageDependsOnRest(a: seq<Cell>, b: seq<Cell>, from: nat, limit: nat)
    requires |a| == |b| && from <= |a| && forall i :: from <= i < |a| ==> a[i] == b[i]
    ensures SelectFrom(a, from, true, limit) == SelectFrom(b, from, true, limit)
    decreases |a| - from
  {
    if from < |a| && limit > 0 {
      PageDependsOnRest(a, b, from + 1, limit - 1);
      PageDependsOnRest(a, b, from + 1, limit);
    }
  }

  function Convertible(conversion: Conversion, cells: seq<Cell>, to: nat): nat
    requires to <= |cells|
  {
    ImpactOf(conversion, cells[..to]).convertible
  }

  lemma NothingConverted(conversion: Conversion, cells: seq<Cell>)
    ensures Convertible(conversion, cells, 0) == 0
  {
  }

  lemma OneMoreCell(conversion: Conversion, cells: seq<Cell>, to: nat)
    requires to < |cells| && !Fails(conversion, cells[to])
    ensures Convertible(conversion, cells, to + 1) == Convertible(conversion, cells, to) +
            if cells[to].stored.Some? then 1 else 0
  {
    hide Fails;
    assert cells[..to + 1][..to] == cells[..to];
  }

  /** When nothing fails, a page of stored cells counts its cells. */
  lemma {:induction false} PageIsCounted(conversion: Conversion, cells: seq<Cell>, from: nat, limit: nat)
    requires from <= |cells| && forall i :: 0 <= i < |cells| ==> !Fails(conversion, cells[i])
    ensures var page := SelectFrom(cells, from, true, limit);
            EndOf(page, from) <= |cells| && (page != [] ==>
                                             Convertible(conversion, cells, EndOf(page, from)) ==
                                               Convertible(conversion, cells, from) + |page|)
    decreases |cells| - from
  {
    hide Fails, ImpactOf;
    StoredPage(cells, from, limit);
    if from < |cells| && limit > 0 {
      OneMoreCell(conversion, cells, from);
      if Qualifies(cells[from], true) {
        PageIsCounted(conversion, cells, from + 1, limit - 1);
      } else {
        PageIsCounted(conversion, cells, from + 1, limit);
      }
    }
  }

  lemma {:induction false} EmptyRestIsNotCounted(conversion: Conversion, cells: seq<Cell>, from: nat)
    requires from <= |cells| && NothingFrom(cells, from)
    ensures Convertible(conversion, cells, from) == ImpactOf(conversion, cells).convertible
    decreases |cells| - from
  {
    if from < |cells| {
      OneMoreCell(conversion, cells, from);
      EmptyRestIsNotCounted(conversion, cells, from + 1);
    } else {
      assert cells[..from] == cells;
    }
  }

  // ---- the loops --------------------------------------------------------------

  class ConversionStore {
    const conversion: Conversion
    var cells: seq<Cell>

    constructor (conversion: Conversion, cells: seq<Cell>)
      ensures this.conversion == conversion && this.cells == cells
    {
      this.conversion, this.cells := conversion, cells;
    }

    /** scanColumnTypeConversion: every cell once. */
    method Scan() returns (impact: Impact, failures: seq<nat>)
      requires IdsAscend(cells)
      ensures impact == ImpactOf(conversion, cells) && failures == SampleOf(conversion, cells)
    {
      impact, failures := Impact(0, 0, 0, 0), [];
      ghost var done := 0;
      var last: Option<nat> := None;
      var more := true;
      while more
        invariant done <= |cells| && done == Excluded(cells, last)
        invariant impact == ImpactOf(conversion, cells[..done]) && failures == SampleOf(conversion, cells[..done])
        invariant !more ==> done == |cells|
        decreases |cells| - done, more
      {
        var page := SelectPage(cells, last, false);
        PlainPage(cells, done, PAGE_SIZE);
        impact, failures := ScanPage(page, done, impact, failures);
        if page != [] {
          CursorExcludesItsPrefix(cells, page[|page| - 1]);
          last := Some(cells[page[|page| - 1]].id);
        }
        done := done + |page|;
        more := |page| == PAGE_SIZE;
      }
      assert cells[..done] == cells;
    }

    method ScanPage(page: seq<nat>, ghost from: nat, before: Impact, sampled: seq<nat>) returns (impact: Impact,
          failures: seq<nat>)
      requires from + |page| <= |cells| && forall i :: 0 <= i < |page| ==> page[i] == from + i
      requires before == ImpactOf(conversion, cells[..from]) && sampled == SampleOf(conversion, cells[..from])
      ensures impact == ImpactOf(conversion, cells[..from + |page|]) &&
              failures == SampleOf(conversion, cells[..from + |page|])
    {
      hide Fails, CountCell;
      impact, failures := before, sampled;
      var k := 0;
      while k < |page|
        invariant 0 <= k <= |page|
        invariant impact == ImpactOf(conversion, cells[..from + k]) &&
                  failures == SampleOf(conversion, cells[..from + k])
      {
        var cell := cells[page[k]];
        assert cells[..from + k + 1][..from + k] == cells[..from + k];
        impact := CountCell(conversion, impact, cell);
        if Fails(conversion, cell) && |failures| < SAMPLE_SIZE { failures := failures + [cell.id]; }
        k := k + 1;
      }
    }

    /** applyColumnTypeConversion, reached only when no cell fails: every stored
        cell is converted exactly once and empty cells stay. */
    method Apply() returns (converted: nat)
      requires IdsAscend(cells) && forall i :: 0 <= i < |cells| ==> !Fails(conversion, cells[i])
      modifies this`cells
      ensures |cells| == |old(cells)| && forall i :: 0 <= i < |cells| ==>
                cells[i] == ConvertCell(conversion, old(cells)[i])
      ensures converted == ImpactOf(conversion, old(cells)).convertible
    {
      hide Fails, ConvertCell, SelectFrom, ImpactOf;
      ghost var original := cells;
      NothingConverted(conversion, cells);
      converted := 0;
      ghost var done := 0;
      var last: Option<nat> := None;
      var more := true;
      while more
        invariant IsHalfway(original, done) && done == Excluded(cells, last)
        invariant converted == Convertible(conversion, original, done)
        invariant !more ==> NothingFrom(original, done)
        decreases |cells| - done, more
      {
        var page := SelectPage(cells, last, true);
        ConvertPage(page, original, done);
        if page != [] {
          CursorExcludesItsPrefix(cells, page[|page| - 1]);
          last := Some(cells[page[|page| - 1]].id);
          converted := converted + |page|;
        }
        done := EndOf(page, done);
        more := |page| == PAGE_SIZE;
      }
      EmptyRestIsNotCounted(conversion, original, done);
      RestIsUnchanged(original, done);
    }

    ghost predicate IsHalfway(original: seq<Cell>, done: nat)
      reads this
    {
      |cells| == |original| && IdsAscend(cells) && done <= |cells| &&
      (forall i :: 0 <= i < done ==> cells[i] == ConvertCell(conversion, original[i])) &&
      (forall i :: done <= i < |cells| ==> cells[i] == original[i])
    }

    lemma RestIsUnchanged(original: seq<Cell>, done: nat)
      requires IsHalfway(original, done) && NothingFrom(original, done)
      ensures forall i :: 0 <= i < |cells| ==> cells[i] == ConvertCell(conversion, original[i])
    {
    }

    method ConvertPage(page: seq<nat>, ghost original: seq<Cell>, ghost done: nat)
      requires IsHalfway(original, done) && page == SelectFrom(cells, done, true, PAGE_SIZE)
      requires forall i :: 0 <= i < |original| ==> !Fails(conversion, original[i])
      modifies this`cells
      ensures var end := EndOf(page, done);
              done <= end <= |cells| && IsHalfway(original, end) &&
              (page != [] ==>
               Convertible(conversion, original, end) == Convertible(conversion, original, done) + |page| &&
               page[|page| - 1] < |cells|) &&
              (page == [] ==> end == done && cells == old(cells)) && |page| <= PAGE_SIZE &&
              (|page| < PAGE_SIZE ==> NothingFrom(original, end))
    {
      hide Fails, SelectFrom, ImpactOf, Convertible;
      StoredPage(original, done, PAGE_SIZE);
      PageDependsOnRest(cells, original, done, PAGE_SIZE);
      PageIsCounted(conversion, original, done, PAGE_SIZE);
      ApplyPage(page);
    }

    method ApplyPage(page: seq<nat>)
      requires Ascending(page) && forall x :: x in page ==> x < |cells|
      modifies this`cells
      ensures |cells| == |old(cells)|
      ensures forall i :: 0 <= i < |cells| ==>
                cells[i] == if i in page then ConvertCell(conversion, old(cells)[i]) else old(cells)[i]
      ensures forall i :: 0 <= i < |cells| ==> cells[i].id == old(cells)[i].id
    {
      var k := 0;
      while k < |page|
        invariant 0 <= k <= |page| && |cells| == |old(cells)|
        invariant forall i :: 0 <= i < |cells| ==>
                    cells[i] == if i in page[..k] then ConvertCell(conversion, old(cells)[i]) else old(cells)[i]
      {
        assert page[k] !in page[..k] && page[k] in page;
        assert page[..k + 1] == page[..k] + [page[k]];
        cells := cells[page[k] := ConvertCell(conversion, cells[page[k]])];
        k := k + 1;
      }
      assert page[..k] == page;
    }

    /** The scan and the apply loop of the transaction: refused when the scan
        counts a failing cell, and then no cell changes; otherwise every stored
        cell has the target type.  Its other blockers concern the schema. */
    method Convert() returns (refused: bool, converted: nat)
      requires IdsAscend(cells)
      modifies this`cells
      ensures refused <==> exists i :: 0 <= i < |old(cells)| && Fails(conversion, old(cells)[i])
      ensures refused ==> cells == old(cells)
      ensures !refused ==> |cells| == |old(cells)| && forall i :: 0 <= i < |cells| ==>
                cells[i] == ConvertCell(conversion, old(cells)[i])
    {
      hide Fails, ConvertCell;
      var impact, failures := Scan();
      ImpactAddsUp(conversion, cells);
      if impact.failed > 0 { return true, 0; }
      converted := Apply();
      return false, converted;
    }
  }
}
