/**
 * The value accessors of the book table's columns (`accessorFn`) and the
 * "last updated" column's filter applied to a book row.
 */
module BookColumns {
  import opened Wrappers
  import Text
  import Numbers
  import BookTypes
  import LastUpdatedFilter

  /** The data columns, by their column id; `select` has no accessor. */
  datatype ColumnId = Title | Author | ISBN | Category | Publisher | PublicationYear
    | TotalCopies | AvailableCopies | LastUpdated

  /** `row.LastUpdatedDate ? format(new Date(row.LastUpdatedDate), 'yyyy-MM-dd') : ''`. */
  function LastUpdatedValue(row: BookTypes.BookItem, fmt: string -> string): string {
    if row.LastUpdatedDate.Some? && row.LastUpdatedDate.value != "" then fmt(row.LastUpdatedDate.value) else ""
  }

  /** The string the column's `accessorFn` yields for `row`. */
  function Value(row: BookTypes.BookItem, id: ColumnId, fmt: string -> string): string {
    match id
    case Title => Text.Trim(row.Title)
    case Author => Text.Trim(row.Author)
    case ISBN => Text.Trim(row.ISBN)
    case Category => Text.Trim(row.Category)
    case Publisher => Text.Trim(row.Publisher)
    case PublicationYear => if row.PublicationYear.Some? then Numbers.IntText(row.PublicationYear.value) else ""
    case TotalCopies => Numbers.IntText(row.TotalCopies.GetOr(0))
    case AvailableCopies => Numbers.IntText(row.AvailableCopies.GetOr(0))
    case LastUpdated => LastUpdatedValue(row, fmt)
  }

  /** The column's `filterFn` for `row`. */
  predicate LastUpdatedFilterFn(row: BookTypes.BookItem, filter: Option<LastUpdatedFilter.FilterValue>,
                                fmt: string -> string, today: string) {
    LastUpdatedFilter.Accepts(Value(row, LastUpdated, fmt), filter, fmt, today)
  }

  /** The text columns show their field trimmed, so the value has no whitespace at
      either end and is blank exactly when the field is blank. */
  lemma TextValueTrimmed(row: BookTypes.BookItem, id: ColumnId, fmt: string -> string)
    requires id in {Title, Author, ISBN, Category, Publisher}
    ensures var v := Value(row, id, fmt);
      var field := match id
        case Title => row.Title case Author => row.Author case ISBN => row.ISBN
        case Category => row.Category case _ => row.Publisher;
      v == Text.Trim(field) && Text.Trim(v) == v && (v == "" <==> Text.AllWhitespace(field))
  {
    var field := match id
      case Title => row.Title case Author => row.Author case ISBN => row.ISBN
      case Category => row.Category case _ => row.Publisher;
    Text.TrimIdempotent(field);
    Text.TrimEmptyIff(field);
  }

  /** The copy-count columns read back as the count, a missing count as 0. */
  lemma CopyValueReadsBack(row: BookTypes.BookItem, id: ColumnId, fmt: string -> string)
    requires id == TotalCopies || id == AvailableCopies
    ensures var count := if id == TotalCopies then row.TotalCopies else row.AvailableCopies;
      Numbers.ToNumber(Value(row, id, fmt)) == Numbers.Int(count.GetOr(0))
  {
    var count := if id == TotalCopies then row.TotalCopies else row.AvailableCopies;
    assert Value(row, id, fmt) == Numbers.IntText(count.GetOr(0));
    Numbers.ToNumberOfIntText(count.GetOr(0));
  }

  /** A missing copy count is shown as `'0'`. */
  lemma MissingCopiesShowZero(row: BookTypes.BookItem, id: ColumnId, fmt: string -> string)
    requires id == TotalCopies || id == AvailableCopies
    requires (if id == TotalCopies then row.TotalCopies else row.AvailableCopies).None?
    ensures Value(row, id, fmt) == "0"
  {
    assert Numbers.NatDigits(0) == "0";
  }

  /** The publication year column is `''` exactly when the year is absent, and
      reads back as the year otherwise. */
  lemma YearValueReadsBack(row: BookTypes.BookItem, fmt: string -> string)
    ensures Value(row, PublicationYear, fmt) == "" <==> row.PublicationYear.None?
    ensures row.PublicationYear.Some? ==>
      Numbers.ToNumber(Value(row, PublicationYear, fmt)) == Numbers.Int(row.PublicationYear.value)
  {
    if row.PublicationYear.Some? {
      Numbers.ToNumberOfIntText(row.PublicationYear.value);
    }
  }

  /** `no_entry` keeps exactly the books without a last-updated date, given that
      formatting a date never yields `''`. */
  lemma NoEntryIffNoDate(row: BookTypes.BookItem, fv: LastUpdatedFilter.FilterValue, fmt: string -> string, today: string)
    requires fv.kind == Some("no_entry")
    requires row.LastUpdatedDate.Some? && row.LastUpdatedDate.value != "" ==> fmt(row.LastUpdatedDate.value) != ""
    ensures LastUpdatedFilterFn(row, Some(fv), fmt, today) <==>
      row.LastUpdatedDate.None? || row.LastUpdatedDate.value == ""
  {
  }
}
