/** The monthly counter table: rows of programmed and completed inspections
    and trainings, edited cell by cell, deleted by id and shown four at a
    time. */
module MonthlyTable {
  import opened Wrappers
  import opened JsString
  import opened Sorting

  /** `Monthlydata`. */
  datatype Monthlydata = Monthlydata(
    id: string,
    month: string,
    inspectionsProgrammed: int,
    inspectionsCompleted: int,
    trainingProgrammed: int,
    trainingCompleted: int)

  /** The four editable cells of a row. */
  datatype CounterField = InspectionsProgrammed | InspectionsCompleted | TrainingProgrammed | TrainingCompleted

  function Get(row: Monthlydata, field: CounterField): int {
    match field
    case InspectionsProgrammed => row.inspectionsProgrammed
    case InspectionsCompleted => row.inspectionsCompleted
    case TrainingProgrammed => row.trainingProgrammed
    case TrainingCompleted => row.trainingCompleted
  }

  /** The programmed counter a completed counter may not exceed. */
  function Bound(field: CounterField): CounterField {
    match field
    case InspectionsCompleted => InspectionsProgrammed
    case TrainingCompleted => TrainingProgrammed
    case _ => field
  }

  /** The other counter of the same pair: programmed and completed
      inspections, programmed and completed trainings. */
  function Partner(field: CounterField): CounterField {
    match field
    case InspectionsProgrammed => InspectionsCompleted
    case InspectionsCompleted => InspectionsProgrammed
    case TrainingProgrammed => TrainingCompleted
    case TrainingCompleted => TrainingProgrammed
  }

  function Min(a: int, b: int): int { if a <= b then a else b }

  // ---------------------------------------------------------------------------
  // Cell edits
  // ---------------------------------------------------------------------------

  /** `parseInt(value) || 0`: text that is not an integer is 0. */
  function CellValue(value: string): (v: int)
    ensures ParseInt(value).None? ==> v == 0
  {
    ParseIntOrZero(value)
  }

  /** A numeral typed into a cell is the number it spells. */
  lemma CellValueOfNumeral(n: nat)
    ensures CellValue(NatToString(n)) == n
  {
    ParseIntNatToString(n);
  }

  /** The row after writing `v` into `field`: a completed counter is clamped to
      its programmed counter, and nothing else moves. */
  function Edit(item: Monthlydata, field: CounterField, v: int): (r: Monthlydata)
    ensures r.id == item.id && r.month == item.month
    ensures forall f :: f != field ==> Get(r, f) == Get(item, f)
    ensures Bound(field) == field ==> Get(r, field) == v
    ensures Bound(field) != field ==> Get(r, field) == Min(v, Get(item, Bound(field)))
  {
    match field
    case InspectionsProgrammed => item.(inspectionsProgrammed := v)
    case InspectionsCompleted =>
      item.(inspectionsCompleted := if v > item.inspectionsProgrammed then item.inspectionsProgrammed else v)
    case TrainingProgrammed => item.(trainingProgrammed := v)
    case TrainingCompleted =>
      item.(trainingCompleted := if v > item.trainingProgrammed then item.trainingProgrammed else v)
  }

  /** Writing a completed counter leaves it within its programmed counter. */
  lemma EditCompletedWithinProgrammed(item: Monthlydata, field: CounterField, v: int)
    requires Bound(field) != field
    ensures Get(Edit(item, field, v), field) <= Get(Edit(item, field, v), Bound(field))
  {
  }

  /** Writing a programmed counter stores the value as typed and leaves its
      completed counter alone, so a programmed value below the completed one
      leaves the row with more completed than programmed. */
  lemma ProgrammedWriteKeepsCompleted(item: Monthlydata, field: CounterField, v: int)
    requires Bound(field) == field
    ensures Get(Edit(item, field, v), field) == v
    ensures Get(Edit(item, field, v), Partner(field)) == Get(item, Partner(field))
    ensures v < Get(item, Partner(field)) ==>
              Get(Edit(item, field, v), Partner(field)) > Get(Edit(item, field, v), field)
  {
    assert Partner(field) != field;
  }

  /** `data.map(...)`: the rows with that id are edited, each in its place. */
  function ChangeRows(data: seq<Monthlydata>, id: string, field: CounterField, v: int): (r: seq<Monthlydata>)
    ensures |r| == |data|
    ensures forall i :: 0 <= i < |data| && data[i].id != id ==> r[i] == data[i]
    ensures forall i :: 0 <= i < |data| && data[i].id == id ==> r[i] == Edit(data[i], field, v)
  {
    if data == [] then []
    else [if data[0].id == id then Edit(data[0], field, v) else data[0]] + ChangeRows(data[1..], id, field, v)
  }

  /** The position of the first row with that id, or -1. */
  function FirstIndex(rows: seq<Monthlydata>, id: string): (i: int)
    ensures -1 <= i < |rows|
    ensures i >= 0 ==> rows[i].id == id && forall j :: 0 <= j < i ==> rows[j].id != id
    ensures i == -1 <==> forall j :: 0 <= j < |rows| ==> rows[j].id != id
  {
    if rows == [] then -1
    else if rows[0].id == id then 0
    else
      var k := FirstIndex(rows[1..], id);
      if k < 0 then -1 else k + 1
  }

  /** `find((d) => d.id === id)`. */
  function Find(rows: seq<Monthlydata>, id: string): (r: Option<Monthlydata>)
    ensures r.None? <==> forall j :: 0 <= j < |rows| ==> rows[j].id != id
    ensures r.Some? ==> r.value.id == id && r.value in rows
  {
    var i := FirstIndex(rows, id);
    if i < 0 then None else Some(rows[i])
  }

  /** The first position of an id depends on the ids alone. */
  lemma {:induction false} FirstIndexOfSameIds(a: seq<Monthlydata>, b: seq<Monthlydata>, id: string)
    requires |a| == |b|
    requires forall j :: 0 <= j < |a| ==> a[j].id == b[j].id
    ensures FirstIndex(a, id) == FirstIndex(b, id)
  {
    if a != [] {
      FirstIndexOfSameIds(a[1..], b[1..], id);
    }
  }

  /** The record sent for persistence is the edited local row: the first row
      with that id, after the edit. */
  lemma PersistedIsUpdatedRow(data: seq<Monthlydata>, id: string, field: CounterField, v: int)
    ensures var i := FirstIndex(data, id);
            Find(ChangeRows(data, id, field, v), id) == if i < 0 then None else Some(Edit(data[i], field, v))
  {
    var r := ChangeRows(data, id, field, v);
    FirstIndexOfSameIds(data, r, id);
  }

  /** `prev.filter((item) => item.id !== id)`. */
  function OtherId(id: string): Monthlydata -> bool {
    (item: Monthlydata) => item.id != id
  }

  function DeleteRows(data: seq<Monthlydata>, id: string): (r: seq<Monthlydata>)
    ensures |r| <= |data|
    ensures forall x :: x in r ==> x in data && x.id != id
  {
    Filter(data, OtherId(id))
  }

  /** Delete removes the rows with that id and keeps the other rows in order:
      it works on each part of the list separately, and a list without that
      id comes back unchanged. */
  lemma DeleteRowsSound(data: seq<Monthlydata>, id: string)
    ensures forall x :: x in DeleteRows(data, id) <==> x in data && x.id != id
    ensures forall a, b :: data == a + b ==> DeleteRows(data, id) == DeleteRows(a, id) + DeleteRows(b, id)
    ensures (forall i :: 0 <= i < |data| ==> data[i].id != id) ==> DeleteRows(data, id) == data
  {
    forall a, b | data == a + b ensures DeleteRows(data, id) == DeleteRows(a, id) + DeleteRows(b, id) {
      FilterAppend(a, b, OtherId(id));
    }
    if forall i :: 0 <= i < |data| ==> data[i].id != id {
      FilterAll(data, OtherId(id));
    }
  }

  // ---------------------------------------------------------------------------
  // Pagination
  // ---------------------------------------------------------------------------

  const ItemsPerPage: nat := 4

  /** `Math.ceil(n / 4)`: the fewest pages of four that hold n rows. */
  function TotalPages(n: nat): (r: nat)
    ensures r * ItemsPerPage >= n
    ensures r == 0 || (r - 1) * ItemsPerPage < n
  {
    (n + ItemsPerPage - 1) / ItemsPerPage
  }

  /** `s.slice(start, end)` for non-negative bounds. */
  function Slice<T>(s: seq<T>, start: nat, end: nat): (r: seq<T>)
    ensures |r| <= |s| && (start <= end ==> |r| <= end - start)
    ensures forall k :: 0 <= k < |r| ==> start + k < |s| && r[k] == s[start + k]
    ensures start <= end ==> |r| == Min(end, |s|) - Min(start, |s|)
  {
    if start >= |s| || end <= start then []
    else s[start..Min(end, |s|)]
  }

  /** The rows page `page` (counted from 1) shows. */
  function PageRows<T>(data: seq<T>, page: nat): (r: seq<T>)
    requires page >= 1
    ensures |r| <= ItemsPerPage
  {
    Slice(data, (page - 1) * ItemsPerPage, page * ItemsPerPage)
  }

  /** Pages 1..k one after another. */
  function Pages<T>(data: seq<T>, k: nat): seq<T> {
    if k == 0 then [] else Pages(data, k - 1) + PageRows(data, k)
  }

  lemma {:induction false} PagesPrefix<T>(data: seq<T>, k: nat)
    ensures Pages(data, k) == data[..Min(k * ItemsPerPage, |data|)]
  {
    if k > 0 {
      PagesPrefix(data, k - 1);
      var lo, hi := Min((k - 1) * ItemsPerPage, |data|), Min(k * ItemsPerPage, |data|);
      assert data[..hi] == data[..lo] + data[lo..hi];
    }
  }

  /** Pages 1..totalPages are the rows in order, each row on exactly one page. */
  lemma PagesPartition<T>(data: seq<T>)
    ensures Pages(data, TotalPages(|data|)) == data
  {
    PagesPrefix(data, TotalPages(|data|));
  }

  /** Every page up to totalPages shows at least one row, and every page after
      it none. */
  lemma PageRowsNonEmpty<T>(data: seq<T>, page: nat)
    requires page >= 1
    ensures PageRows(data, page) != [] <==> page <= TotalPages(|data|)
  {
  }

  /** The table component: the rows and the page shown. */
  class MonthlyDataTable {
    var data: seq<Monthlydata>
    var currentPage: int

    ghost predicate Valid()
      reads this
    {
      currentPage >= 1
    }

    constructor (data: seq<Monthlydata>)
      ensures Valid()
      ensures this.data == data && currentPage == 1
    {
      this.data := data;
      currentPage := 1;
    }

    function TotalPageCount(): nat
      reads this
    {
      TotalPages(|data|)
    }

    /** `currentData`. */
    function CurrentData(): seq<Monthlydata>
      reads this
      requires Valid()
    {
      PageRows(data, currentPage)
    }

    /** `handleChange`: edits the rows and returns the record to persist, or
        None when no row has that id. */
    method HandleChange(id: string, field: CounterField, value: string) returns (persisted: Option<Monthlydata>)
      requires Valid()
      modifies this
      ensures Valid() && currentPage == old(currentPage)
      ensures data == ChangeRows(old(data), id, field, CellValue(value))
      ensures var i := FirstIndex(old(data), id);
              persisted == if i < 0 then None else Some(Edit(old(data)[i], field, CellValue(value)))
    {
      var numericValue := CellValue(value);
      PersistedIsUpdatedRow(data, id, field, numericValue);
      data := ChangeRows(data, id, field, numericValue);
      persisted := Find(data, id);
    }

    /** `handleDelete`: `removed` is whether the store deleted the record; when
        it failed, the rows stay as they were. */
    method HandleDelete(id: string, removed: bool)
      requires Valid()
      modifies this
      ensures Valid() && currentPage == old(currentPage)
      ensures data == if removed then DeleteRows(old(data), id) else old(data)
    {
      if removed {
        data := DeleteRows(data, id);
      }
    }

    /** `handleNextPage`. */
    method HandleNextPage()
      requires Valid()
      modifies this
      ensures Valid() && data == old(data)
      ensures currentPage == if old(currentPage) < TotalPageCount() then old(currentPage) + 1 else old(currentPage)
    {
      if currentPage < TotalPageCount() {
        currentPage := currentPage + 1;
      }
    }

    /** `handlePreviousPage`. */
    method HandlePreviousPage()
      requires Valid()
      modifies this
      ensures Valid() && data == old(data)
      ensures currentPage == if old(currentPage) > 1 then old(currentPage) - 1 else old(currentPage)
    {
      if currentPage > 1 {
        currentPage := currentPage - 1;
      }
    }
  }
}
