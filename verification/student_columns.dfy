/**
 * The value accessors of the student table's columns (`accessorFn`) and the
 * "last updated" column's filter applied to a student row.
 */
module StudentColumns {
  import opened Wrappers
  import Text
  import StudentTypes
  import LastUpdatedFilter

  /** The data columns, by their column id; `select` has no accessor. */
  datatype ColumnId = Name | StudentId | Email | Course | Section | Grade | LastUpdated

  /** `row.LastUpdatedDate ? format(new Date(row.LastUpdatedDate), 'yyyy-MM-dd') : ''`. */
  function LastUpdatedValue(row: StudentTypes.StudentItem, fmt: string -> string): string {
    if row.LastUpdatedDate.Some? && row.LastUpdatedDate.value != "" then fmt(row.LastUpdatedDate.value) else ""
  }

  /** The field behind a text column, `''` when missing (`row.X || ''`). */
  function Field(row: StudentTypes.StudentItem, id: ColumnId): string
    requires id != LastUpdated
  {
    match id
    case Name => row.Name
    case StudentId => row.StudentId
    case Email => row.Email
    case Course => row.Course
    case Section => row.Section
    case Grade => row.Grade.GetOr("")
  }

  /** The string the column's `accessorFn` yields for `row`. */
  function Value(row: StudentTypes.StudentItem, id: ColumnId, fmt: string -> string): string {
    if id == LastUpdated then LastUpdatedValue(row, fmt) else Text.Trim(Field(row, id))
  }

  predicate LastUpdatedFilterFn(row: StudentTypes.StudentItem, filter: Option<LastUpdatedFilter.FilterValue>,
                                fmt: string -> string, today: string) {
    LastUpdatedFilter.Accepts(Value(row, LastUpdated, fmt), filter, fmt, today)
  }

  /** The text columns show their field trimmed, so the value has no whitespace at
      either end, is blank exactly when the field is blank, and is `''` for a missing
      grade. */
  lemma TextValueTrimmed(row: StudentTypes.StudentItem, id: ColumnId, fmt: string -> string)
    requires id != LastUpdated
    ensures var v := Value(row, id, fmt);
      v == Text.Trim(Field(row, id)) && Text.Trim(v) == v && (v == "" <==> Text.AllWhitespace(Field(row, id)))
    ensures id == Grade && row.Grade.None? ==> Value(row, id, fmt) == ""
  {
    Text.TrimIdempotent(Field(row, id));
    Text.TrimEmptyIff(Field(row, id));
  }

  /** `no_entry` keeps exactly the students without a last-updated date, given that
      formatting a date never yields `''`. */
  lemma NoEntryIffNoDate(row: StudentTypes.StudentItem, fv: LastUpdatedFilter.FilterValue, fmt: string -> string, today: string)
    requires fv.kind == Some("no_entry")
    requires row.LastUpdatedDate.Some? && row.LastUpdatedDate.value != "" ==> fmt(row.LastUpdatedDate.value) != ""
    ensures LastUpdatedFilterFn(row, Some(fv), fmt, today) <==>
      row.LastUpdatedDate.None? || row.LastUpdatedDate.value == ""
  {
  }

  /** `today` keeps exactly the students whose formatted date is today's. */
  lemma TodayIffSameDay(row: StudentTypes.StudentItem, fv: LastUpdatedFilter.FilterValue, fmt: string -> string, today: string)
    requires fv.kind == Some("today") && today != ""
    ensures LastUpdatedFilterFn(row, Some(fv), fmt, today) <==>
      row.LastUpdatedDate.Some? && row.LastUpdatedDate.value != "" && fmt(row.LastUpdatedDate.value) == today
  {
  }
}
