/** What both create forms do when their insert mutation settles. */
module FormSubmit {
  import opened Wrappers

  /** The `insertStudentInfo` / `insertBooks` part of a mutation response. */
  datatype InsertInfo = InsertInfo(acknowledged: bool, itemId: string)

  /** How the insert mutation ended: an error, or a response whose insert part may be missing. */
  datatype SubmitOutcome = Failed | Succeeded(info: Option<InsertInfo>)

  /** The route navigated to after the mutation settles: the new record's details
      page under `base` when the insert was acknowledged, and nowhere otherwise. */
  function NavigationTarget(outcome: SubmitOutcome, base: string): (r: Option<string>)
    ensures r.Some? <==> outcome.Succeeded? && outcome.info.Some? && outcome.info.value.acknowledged
    ensures r.Some? ==> r.value == base + outcome.info.value.itemId
  {
    match outcome
    case Failed => None
    case Succeeded(info) =>
      if info.Some? && info.value.acknowledged then Some(base + info.value.itemId) else None
  }
}
