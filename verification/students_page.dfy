/**
 * The students list page: backend rows mapped to table rows with defaults, and
 * the pagination state. The query result is a parameter of `OnData`.
 */
module StudentsPage {
  import opened Wrappers
  import StudentTypes
  import StudentColumns
  import LastUpdatedFilter
  import Paging
  import Text

  /** `StudentInfos`: the page of items and the total count, either possibly missing. */
  datatype StudentsList = StudentsList(items: Option<seq<StudentTypes.RawStudent>>, totalCount: Option<int>)

  /** One backend item as a table row: missing text becomes `''`, IsDeleted a
      boolean, missing Tags an empty list. */
  function MapRow(s: StudentTypes.RawStudent): StudentTypes.StudentItem {
    StudentTypes.StudentItem(
      s.ItemId,
      s.Name.GetOr(""),
      s.StudentId.GetOr(""),
      s.Email.GetOr(""),
      s.Course.GetOr(""),
      s.Section.GetOr(""),
      Some(s.Grade.GetOr("")),
      Some(s.CreatedBy.GetOr("")),
      Some(s.CreatedDate.GetOr("")),
      Some(s.LastUpdatedBy.GetOr("")),
      Some(s.LastUpdatedDate.GetOr("")),
      Some(s.IsDeleted == Some(true)),
      s.Tags.GetOr([]),
      s.Status.GetOr(""),
      s.Language.GetOr(""))
  }

  /** `items.map(...)`: one row per item, in order. */
  function MapRows(items: seq<StudentTypes.RawStudent>): (r: seq<StudentTypes.StudentItem>)
    ensures |r| == |items|
    ensures forall i :: 0 <= i < |items| ==> r[i] == MapRow(items[i])
  {
    if items == [] then [] else [MapRow(items[0])] + MapRows(items[1..])
  }

  /** `result?.StudentInfos?.items ?? []`. */
  function Items(data: Option<StudentsList>): seq<StudentTypes.RawStudent> {
    if data.Some? then data.value.items.GetOr([]) else []
  }

  /** `result?.StudentInfos?.totalCount ?? 0`. */
  function TotalCount(data: Option<StudentsList>): int {
    if data.Some? then data.value.totalCount.GetOr(0) else 0
  }

  class StudentsListPage {
    var tableData: seq<StudentTypes.StudentItem>
    var pagination: Paging.PaginationState

    constructor ()
      ensures tableData == [] && pagination == Paging.Initial
    {
      tableData := [];
      pagination := Paging.Initial;
    }

    /** The effect that runs when new data arrives. */
    method OnData(data: Option<StudentsList>)
      modifies this
      ensures tableData == MapRows(Items(data))
      ensures pagination == Paging.WithTotalCount(old(pagination), TotalCount(data))
    {
      tableData := MapRows(Items(data));
      pagination := Paging.WithTotalCount(pagination, TotalCount(data));
    }

    /** `handlePaginationChange`. */
    method HandlePaginationChange(pageIndex: int, pageSize: int)
      modifies this`pagination
      ensures pagination == Paging.WithPage(old(pagination), pageIndex, pageSize)
    {
      pagination := Paging.WithPage(pagination, pageIndex, pageSize);
    }

    /** The query `useGetStudents` is called with. */
    function CurrentQuery(): (q: Paging.PageQuery)
      reads this
      ensures q.pageNo == pagination.pageIndex + 1 && q.pageSize == pagination.pageSize
    {
      Paging.Query(pagination)
    }
  }

  /** Without a `StudentInfos` result the table is empty and the total count is 0. */
  lemma MissingResultIsEmpty(data: Option<StudentsList>)
    requires data.None? || data.value.items.None?
    ensures MapRows(Items(data)) == []
    ensures data.None? || data.value.totalCount.None? ==> TotalCount(data) == 0
  {
  }

  /** A mapped row's text columns show the backend field trimmed, `''` when missing. */
  lemma MappedTextColumns(s: StudentTypes.RawStudent, fmt: string -> string)
    ensures StudentColumns.Value(MapRow(s), StudentColumns.Name, fmt) == Text.Trim(s.Name.GetOr(""))
    ensures StudentColumns.Value(MapRow(s), StudentColumns.StudentId, fmt) == Text.Trim(s.StudentId.GetOr(""))
    ensures StudentColumns.Value(MapRow(s), StudentColumns.Email, fmt) == Text.Trim(s.Email.GetOr(""))
    ensures StudentColumns.Value(MapRow(s), StudentColumns.Course, fmt) == Text.Trim(s.Course.GetOr(""))
    ensures StudentColumns.Value(MapRow(s), StudentColumns.Section, fmt) == Text.Trim(s.Section.GetOr(""))
    ensures StudentColumns.Value(MapRow(s), StudentColumns.Grade, fmt) == Text.Trim(s.Grade.GetOr(""))
  {
  }

  /** Defaulting a missing date to `''` keeps the row under `no_entry`. */
  lemma MappedNoEntry(s: StudentTypes.RawStudent, fv: LastUpdatedFilter.FilterValue, fmt: string -> string, today: string)
    requires fv.kind == Some("no_entry")
    requires s.LastUpdatedDate.Some? && s.LastUpdatedDate.value != "" ==> fmt(s.LastUpdatedDate.value) != ""
    ensures StudentColumns.LastUpdatedFilterFn(MapRow(s), Some(fv), fmt, today) <==>
      s.LastUpdatedDate.None? || s.LastUpdatedDate.value == ""
  {
    StudentColumns.NoEntryIffNoDate(MapRow(s), fv, fmt, today);
  }

  /** Mapping distributes over concatenation: rows keep the backend's order. */
  lemma {:induction false} MapRowsAppend(a: seq<StudentTypes.RawStudent>, b: seq<StudentTypes.RawStudent>)
    ensures MapRows(a + b) == MapRows(a) + MapRows(b)
  {
    if a == [] {
      assert a + b == b;
    } else {
      assert (a + b)[1..] == a[1..] + b;
      MapRowsAppend(a[1..], b);
    }
  }
}
