/**
 * The books list page: backend rows mapped to table rows with defaults, and the
 * pagination state. The query result is a parameter of `OnData`.
 */
module BooksPage {
  import opened Wrappers
  import BookTypes
  import BookColumns
  import LastUpdatedFilter
  import Paging
  import Text
  import Numbers

  /** `Bookss`: the page of items and the total count, either possibly missing. */
  datatype BooksList = BooksList(items: Option<seq<BookTypes.RawBook>>, totalCount: Option<int>)

  /** One backend item as a table row: missing text becomes `''`, missing copy
      counts 0, a missing year the `''` default (None), IsDeleted a boolean. */
  function MapRow(b: BookTypes.RawBook): BookTypes.BookItem {
    BookTypes.BookItem(
      b.ItemId,
      b.Title.GetOr(""),
      b.Author.GetOr(""),
      b.ISBN.GetOr(""),
      b.Category.GetOr(""),
      b.Publisher.GetOr(""),
      b.PublicationYear,
      Some(b.TotalCopies.GetOr(0)),
      Some(b.AvailableCopies.GetOr(0)),
      Some(b.Description.GetOr("")),
      Some(b.CoverImageId.GetOr("")),
      Some(b.CreatedBy.GetOr("")),
      Some(b.CreatedDate.GetOr("")),
      Some(b.LastUpdatedBy.GetOr("")),
      Some(b.LastUpdatedDate.GetOr("")),
      Some(b.IsDeleted == Some(true)),
      b.Tags.GetOr([]),
      b.Status.GetOr(""),
      b.Language.GetOr(""))
  }

  /** `items.map(...)`: one row per item, in order. */
  function MapRows(items: seq<BookTypes.RawBook>): (r: seq<BookTypes.BookItem>)
    ensures |r| == |items|
    ensures forall i :: 0 <= i < |items| ==> r[i] == MapRow(items[i])
  {
    if items == [] then [] else [MapRow(items[0])] + MapRows(items[1..])
  }

  /** `result?.Bookss?.items ?? []`. */
  function Items(data: Option<BooksList>): seq<BookTypes.RawBook> {
    if data.Some? then data.value.items.GetOr([]) else []
  }

  /** `result?.Bookss?.totalCount ?? 0`. */
  function TotalCount(data: Option<BooksList>): int {
    if data.Some? then data.value.totalCount.GetOr(0) else 0
  }

  class BooksListPage {
    var tableData: seq<BookTypes.BookItem>
    var pagination: Paging.PaginationState

    constructor ()
      ensures tableData == [] && pagination == Paging.Initial
    {
      tableData := [];
      pagination := Paging.Initial;
    }

    /** The effect that runs when new data arrives. */
    method OnData(data: Option<BooksList>)
      modifies this
      ensures tableData == MapRows(Items(data))
      ensures pagination == Paging.WithTotalCount(old(pagination), TotalCount(data))
    {
      tableData := MapRows(Items(data));
      pagination := Paging.WithTotalCount(pagination, TotalCount(data));
    }

    /** `handlePaginationChange`. */
    method HandlePaginationChange(pageIndex: int, pageSize: int)
      modifies this`pagination
      ensures pagination == Paging.WithPage(old(pagination), pageIndex, pageSize)
    {
      pagination := Paging.WithPage(pagination, pageIndex, pageSize);
    }

    /** The query `useGetBooks` is called with. */
    function CurrentQuery(): (q: Paging.PageQuery)
      reads this
      ensures q.pageNo == pagination.pageIndex + 1 && q.pageSize == pagination.pageSize
    {
      Paging.Query(pagination)
    }
  }

  /** Without a `Bookss` result the table is empty and the total count is 0. */
  lemma MissingResultIsEmpty(data: Option<BooksList>)
    requires data.None? || data.value.items.None?
    ensures MapRows(Items(data)) == []
    ensures data.None? || data.value.totalCount.None? ==> TotalCount(data) == 0
  {
  }

  /** A mapped row's text columns show the backend field trimmed, `''` when missing. */
  lemma MappedTextColumns(b: BookTypes.RawBook, fmt: string -> string)
    ensures BookColumns.Value(MapRow(b), BookColumns.Title, fmt) == Text.Trim(b.Title.GetOr(""))
    ensures BookColumns.Value(MapRow(b), BookColumns.Author, fmt) == Text.Trim(b.Author.GetOr(""))
    ensures BookColumns.Value(MapRow(b), BookColumns.ISBN, fmt) == Text.Trim(b.ISBN.GetOr(""))
    ensures BookColumns.Value(MapRow(b), BookColumns.Category, fmt) == Text.Trim(b.Category.GetOr(""))
    ensures BookColumns.Value(MapRow(b), BookColumns.Publisher, fmt) == Text.Trim(b.Publisher.GetOr(""))
  {
  }

  /** A mapped row's copy columns read back as the backend count, 0 when missing. */
  lemma MappedCopyColumns(b: BookTypes.RawBook, fmt: string -> string)
    ensures Numbers.ToNumber(BookColumns.Value(MapRow(b), BookColumns.TotalCopies, fmt))
         == Numbers.Int(b.TotalCopies.GetOr(0))
    ensures Numbers.ToNumber(BookColumns.Value(MapRow(b), BookColumns.AvailableCopies, fmt))
         == Numbers.Int(b.AvailableCopies.GetOr(0))
  {
    BookColumns.CopyValueReadsBack(MapRow(b), BookColumns.TotalCopies, fmt);
    BookColumns.CopyValueReadsBack(MapRow(b), BookColumns.AvailableCopies, fmt);
  }

  /** Defaulting a missing date to `''` keeps the row under `no_entry`. */
  lemma MappedNoEntry(b: BookTypes.RawBook, fv: LastUpdatedFilter.FilterValue, fmt: string -> string, today: string)
    requires fv.kind == Some("no_entry")
    requires b.LastUpdatedDate.Some? && b.LastUpdatedDate.value != "" ==> fmt(b.LastUpdatedDate.value) != ""
    ensures BookColumns.LastUpdatedFilterFn(MapRow(b), Some(fv), fmt, today) <==>
      b.LastUpdatedDate.None? || b.LastUpdatedDate.value == ""
  {
    BookColumns.NoEntryIffNoDate(MapRow(b), fv, fmt, today);
  }

  /** Mapping distributes over concatenation: rows keep the backend's order. */
  lemma {:induction false} MapRowsAppend(a: seq<BookTypes.RawBook>, b: seq<BookTypes.RawBook>)
    ensures MapRows(a + b) == MapRows(a) + MapRows(b)
  {
    if a == [] {
      assert a + b == b;
    } else {
      assert (a + b)[1..] == a[1..] + b;
      MapRowsAppend(a[1..], b);
    }
  }
}
