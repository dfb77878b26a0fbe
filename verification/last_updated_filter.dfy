/**
 * The `filterFn` of the "last updated" column, identical in the book and the
 * student tables. A row's value is its `yyyy-MM-dd` date or `''`; the filter
 * value names a strategy and carries raw dates. Date formatting (`format(new
 * Date(d), 'yyyy-MM-dd')`) is the parameter `fmt`, and today's formatted date
 * the parameter `today`.
 */
module LastUpdatedFilter {
  import opened Wrappers
  import Text

  /** `{ type?, date?, from?, to? }`; `type` is called `kind` here. */
  datatype FilterValue = FilterValue(kind: Option<string>, date: Option<string>, from: Option<string>, to: Option<string>)

  datatype Strategy = Today | OnDate | After | Before | DateRange | NoEntry

  /** The key of `filterStrategies` that `kind` names, if any. */
  function StrategyOf(kind: Option<string>): (r: Option<Strategy>)
    ensures r.Some? <==>
      kind.Some? && kind.value in ["today", "date", "after", "before", "date_range", "no_entry"]
  {
    if kind.None? then None
    else
      match kind.value
      case "today" => Some(Today)
      case "date" => Some(OnDate)
      case "after" => Some(After)
      case "before" => Some(Before)
      case "date_range" => Some(DateRange)
      case "no_entry" => Some(NoEntry)
      case _ => None
  }

  /** `d ? format(new Date(d), 'yyyy-MM-dd') : null`: an empty date counts as missing. */
  function Formatted(d: Option<string>, fmt: string -> string): (r: Option<string>)
    ensures r.Some? <==> d.Some? && d.value != ""
    ensures r.Some? ==> r.value == fmt(d.value)
  {
    if d.Some? && d.value != "" then Some(fmt(d.value)) else None
  }

  /** Whether the row whose column value is `rowDate` passes `filter`. */
  function Accepts(rowDate: string, filter: Option<FilterValue>, fmt: string -> string, today: string): bool {
    if filter.None? then true
    else
      var fv := filter.value;
      var date := Formatted(fv.date, fmt);
      var from := Formatted(fv.from, fmt);
      var to := Formatted(fv.to, fmt);
      match StrategyOf(fv.kind)
      case None => true
      case Some(Today) => rowDate == today
      case Some(OnDate) => date.Some? && rowDate == date.value
      case Some(After) => date.Some? && Text.Less(date.value, rowDate)
      case Some(Before) => date.Some? && Text.Less(rowDate, date.value)
      case Some(DateRange) =>
        from.Some? && to.Some? && !Text.Less(rowDate, from.value) && !Text.Less(to.value, rowDate)
      case Some(NoEntry) => rowDate == ""
  }

  /** A missing filter value, or one whose type is missing or not a strategy, accepts every row. */
  lemma UnfilteredAcceptsAll(rowDate: string, filter: Option<FilterValue>, fmt: string -> string, today: string)
    requires filter.None? || StrategyOf(filter.value.kind).None?
    ensures Accepts(rowDate, filter, fmt, today)
  {
  }

  /** Without a date, `date`, `after` and `before` reject every row. */
  lemma NoDateRejects(rowDate: string, fv: FilterValue, fmt: string -> string, today: string)
    requires fv.kind == Some("date") || fv.kind == Some("after") || fv.kind == Some("before")
    requires fv.date.None? || fv.date == Some("")
    ensures !Accepts(rowDate, Some(fv), fmt, today)
  {
  }

  /** With a date given, exactly one of `date`, `after` and `before` accepts a row:
      `date` is equality with the formatted date, `after` accepts rows whose date
      sorts strictly later and `before` rows whose date sorts strictly earlier. */
  lemma {:induction false} DateAfterBeforePartition(rowDate: string, d: string, fmt: string -> string, today: string)
    requires d != ""
    ensures var on := Accepts(rowDate, Some(FilterValue(Some("date"), Some(d), None, None)), fmt, today);
      var after := Accepts(rowDate, Some(FilterValue(Some("after"), Some(d), None, None)), fmt, today);
      var before := Accepts(rowDate, Some(FilterValue(Some("before"), Some(d), None, None)), fmt, today);
      && (on <==> rowDate == fmt(d))
      && (after <==> Text.Less(fmt(d), rowDate))
      && (before <==> Text.Less(rowDate, fmt(d)))
      && (on || after || before)
      && !(on && after) && !(on && before) && !(after && before)
  {
    Text.LessTrichotomy(rowDate, fmt(d));
  }

  /** `date_range` needs both bounds and is inclusive at both ends. */
  lemma {:induction false} DateRangeInclusive(rowDate: string, fv: FilterValue, fmt: string -> string, today: string)
    requires fv.kind == Some("date_range")
    ensures Accepts(rowDate, Some(fv), fmt, today) <==>
      && fv.from.Some? && fv.from.value != "" && fv.to.Some? && fv.to.value != ""
      && (Text.Less(fmt(fv.from.value), rowDate) || rowDate == fmt(fv.from.value))
      && (Text.Less(rowDate, fmt(fv.to.value)) || rowDate == fmt(fv.to.value))
  {
    if fv.from.Some? && fv.to.Some? {
      Text.LessOrEqualIff(fmt(fv.from.value), rowDate);
      Text.LessOrEqualIff(rowDate, fmt(fv.to.value));
    }
  }

  /** A range whose end is before its start accepts no row. */
  lemma {:induction false} ReversedRangeEmpty(rowDate: string, fv: FilterValue, fmt: string -> string, today: string)
    requires fv.kind == Some("date_range") && fv.from.Some? && fv.from.value != "" && fv.to.Some? && fv.to.value != ""
    requires Text.Less(fmt(fv.to.value), fmt(fv.from.value))
    ensures !Accepts(rowDate, Some(fv), fmt, today)
  {
    var lo, hi := fmt(fv.from.value), fmt(fv.to.value);
    if Accepts(rowDate, Some(fv), fmt, today) {
      Text.LessTrichotomy(rowDate, lo);
      Text.LessTrichotomy(rowDate, hi);
      if rowDate == lo {
        Text.LessTrichotomy(hi, lo);
      } else {
        Text.LessTransitive(hi, lo, rowDate);
      }
    }
  }

  /** A one-day range accepts exactly the rows the `date` strategy accepts for that day. */
  lemma {:induction false} OneDayRangeIsDate(rowDate: string, d: string, fmt: string -> string, today: string)
    requires d != ""
    ensures Accepts(rowDate, Some(FilterValue(Some("date_range"), None, Some(d), Some(d))), fmt, today)
      == Accepts(rowDate, Some(FilterValue(Some("date"), Some(d), None, None)), fmt, today)
  {
    Text.LessTrichotomy(rowDate, fmt(d));
  }

  /** `no_entry` accepts exactly the rows whose value is `''`, whatever the dates say. */
  lemma NoEntryIffEmpty(rowDate: string, fv: FilterValue, fmt: string -> string, today: string)
    requires fv.kind == Some("no_entry")
    ensures Accepts(rowDate, Some(fv), fmt, today) <==> rowDate == ""
  {
  }
}
