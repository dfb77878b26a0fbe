/**
 * The book details page: which book the route selects, the edit / cancel /
 * update state, the update input built from the edited fields, and the delete
 * request. The mutations themselves are outside the model: an update's outcome
 * is a parameter.
 */
module BookDetails {
  import opened Wrappers
  import Text
  import Numbers
  import Json
  import BookTypes

  /** `Partial<AddBookInput>` as the page builds it; numbers pass through `Number(...)`. */
  datatype UpdateBookInput = UpdateBookInput(
    Title: Option<string>,
    Author: Option<string>,
    ISBN: Option<string>,
    Category: Option<string>,
    Publisher: Option<string>,
    PublicationYear: Option<Numbers.NumberValue>,
    TotalCopies: Option<Numbers.NumberValue>,
    AvailableCopies: Option<Numbers.NumberValue>,
    Description: Option<string>,
    CoverImageId: Option<string>)

  /** The keys `renderField` passes to `handleFieldChange`: one per editable field. */
  datatype EditKey = TitleKey | AuthorKey | IsbnKey | CategoryKey | PublisherKey | PublicationYearKey
    | TotalCopiesKey | AvailableCopiesKey | DescriptionKey | CoverImageIdKey

  const EmptyInput := UpdateBookInput(None, None, None, None, None, None, None, None, None, None)

  datatype UpdateRequest = UpdateRequest(filter: string, input: UpdateBookInput)

  datatype DeleteRequest = DeleteRequest(filter: string, isHardDelete: bool)

  /** The book's id, trimmed, is `key`. */
  predicate HasId(b: BookTypes.BookItem, key: string) {
    Text.Trim(b.ItemId) == key
  }

  /** The index of the first book whose trimmed id is `key`. */
  function FirstMatch(items: seq<BookTypes.BookItem>, key: string): (r: Option<nat>)
    ensures r.Some? ==> r.value < |items| && HasId(items[r.value], key)
    ensures r.Some? ==> forall j :: 0 <= j < r.value ==> !HasId(items[j], key)
    ensures r.None? ==> forall j :: 0 <= j < |items| ==> !HasId(items[j], key)
  {
    if items == [] then None
    else if HasId(items[0], key) then Some(0)
    else
      match FirstMatch(items[1..], key)
      case Some(i) => Some(i + 1)
      case None => None
  }

  /** `selectedBook`: the first book whose trimmed id equals the trimmed route id
      (`''` when the route has none). */
  function SelectedBook(items: seq<BookTypes.BookItem>, routeId: Option<string>): Option<BookTypes.BookItem> {
    match FirstMatch(items, Text.Trim(routeId.GetOr("")))
    case Some(i) => Some(items[i])
    case None => None
  }

  /** The edited value of `key` when it is truthy (a non-empty string). */
  function IfTruthy(edited: map<EditKey, string>, key: EditKey): Option<string> {
    if key in edited && edited[key] != "" then Some(edited[key]) else None
  }

  /** The edited value of `key` whenever it was edited at all. */
  function IfEdited(edited: map<EditKey, string>, key: EditKey): Option<string> {
    if key in edited then Some(edited[key]) else None
  }

  function AsNumber(v: Option<string>): Option<Numbers.NumberValue> {
    if v.Some? then Some(Numbers.ToNumber(v.value)) else None
  }

  /** `editedInput` of `handleUpdateDetails`. */
  function EditedInput(edited: map<EditKey, string>): UpdateBookInput {
    UpdateBookInput(
      IfTruthy(edited, TitleKey),
      IfTruthy(edited, AuthorKey),
      IfTruthy(edited, IsbnKey),
      IfTruthy(edited, CategoryKey),
      IfTruthy(edited, PublisherKey),
      AsNumber(IfTruthy(edited, PublicationYearKey)),
      AsNumber(IfEdited(edited, TotalCopiesKey)),
      AsNumber(IfEdited(edited, AvailableCopiesKey)),
      IfEdited(edited, DescriptionKey),
      IfEdited(edited, CoverImageIdKey))
  }

  /** The effect on the update input of setting the edited field `key` to `v`,
      stated field by field. */
  function Apply(input: UpdateBookInput, key: EditKey, v: string): UpdateBookInput {
    var text := if v != "" then Some(v) else None;
    match key
    case TitleKey => input.(Title := text)
    case AuthorKey => input.(Author := text)
    case IsbnKey => input.(ISBN := text)
    case CategoryKey => input.(Category := text)
    case PublisherKey => input.(Publisher := text)
    case PublicationYearKey => input.(PublicationYear := if v != "" then Some(Numbers.ToNumber(v)) else None)
    case TotalCopiesKey => input.(TotalCopies := Some(Numbers.ToNumber(v)))
    case AvailableCopiesKey => input.(AvailableCopies := Some(Numbers.ToNumber(v)))
    case DescriptionKey => input.(Description := Some(v))
    case CoverImageIdKey => input.(CoverImageId := Some(v))
  }

  /** `handleFieldChange` touches only the named key, so the update input changes
      only in the field that key feeds. */
  lemma FieldChangeIsLocal(edited: map<EditKey, string>, key: EditKey, v: string)
    ensures EditedInput(edited[key := v]) == Apply(EditedInput(edited), key, v)
  {
  }

  /** Fields that were never edited are never part of the update input. */
  lemma NothingEditedNothingSent()
    ensures EditedInput(map[]) == EmptyInput
  {
  }

  /** Clearing a text field or the year drops it from the input, while clearing a
      copy count sends 0 (`Number('')`), and a cleared description is sent as `''`. */
  lemma ClearedFields(edited: map<EditKey, string>)
    ensures EditedInput(edited[TitleKey := ""]).Title.None?
    ensures EditedInput(edited[PublicationYearKey := ""]).PublicationYear.None?
    ensures EditedInput(edited[TotalCopiesKey := ""]).TotalCopies == Some(Numbers.Int(0))
    ensures EditedInput(edited[DescriptionKey := ""]).Description == Some("")
  {
    assert Text.AllWhitespace("");
  }

  /** An edited year typed as an integer is sent as that integer. */
  lemma EditedYearSent(edited: map<EditKey, string>, year: int)
    ensures EditedInput(edited[PublicationYearKey := Numbers.IntText(year)]).PublicationYear
      == Some(Numbers.Int(year))
  {
    Numbers.ToNumberOfIntText(year);
  }

  class BookDetailsPage {
    const items: seq<BookTypes.BookItem>
    const routeId: Option<string>
    var editDetails: bool
    var editedFields: map<EditKey, string>

    constructor (items: seq<BookTypes.BookItem>, routeId: Option<string>)
      ensures this.items == items && this.routeId == routeId
      ensures !editDetails && editedFields == map[]
    {
      this.items := items;
      this.routeId := routeId;
      editDetails := false;
      editedFields := map[];
    }

    method HandleEditDetails()
      modifies this`editDetails
      ensures editDetails
    {
      editDetails := true;
    }

    method HandleCancelEdit()
      modifies this`editDetails, this`editedFields
      ensures !editDetails && editedFields == map[]
    {
      editDetails := false;
      editedFields := map[];
    }

    method HandleFieldChange(field: EditKey, value: string)
      modifies this`editedFields
      ensures editedFields == old(editedFields)[field := value]
    {
      editedFields := editedFields[field := value];
    }

    /** `handleUpdateDetails`, with `succeeded` the outcome of the update mutation:
        nothing is sent without a selected book; a success leaves edit mode and
        forgets the edits, an error keeps both. */
    method HandleUpdateDetails(succeeded: bool) returns (request: Option<UpdateRequest>)
      modifies this`editDetails, this`editedFields
      ensures request.None? <==> SelectedBook(items, routeId).None?
      ensures request.Some? ==>
        request.value == UpdateRequest(Json.IdFilter(SelectedBook(items, routeId).value.ItemId),
                                       EditedInput(old(editedFields)))
      ensures request.Some? && succeeded ==> !editDetails && editedFields == map[]
      ensures request.None? || !succeeded ==>
        editDetails == old(editDetails) && editedFields == old(editedFields)
    {
      var book := SelectedBook(items, routeId);
      if book.None? {
        return None;
      }
      request := Some(UpdateRequest(Json.IdFilter(book.value.ItemId), EditedInput(editedFields)));
      if succeeded {
        editDetails := false;
        editedFields := map[];
      }
    }

    /** `handleDelete`: nothing without a route id; otherwise a hard delete of the
        record whose id is the route id. */
    method HandleDelete() returns (request: Option<DeleteRequest>)
      ensures request.None? <==> routeId.None? || routeId.value == ""
      ensures request.Some? ==> request.value.isHardDelete
      ensures request.Some? ==> Json.ParseIdFilter(request.value.filter) == Some(routeId.value)
    {
      if routeId.None? || routeId.value == "" {
        return None;
      }
      request := Some(DeleteRequest(Json.IdFilter(routeId.value), true));
      Json.IdFilterRoundTrip(routeId.value);
    }
  }

  /** The selected book is the first whose trimmed id equals the trimmed route id;
      none is selected only when no book matches. */
  lemma SelectedBookIsFirstMatch(items: seq<BookTypes.BookItem>, routeId: Option<string>)
    ensures var key := Text.Trim(routeId.GetOr(""));
      && (SelectedBook(items, routeId).None? <==> forall j :: 0 <= j < |items| ==> Text.Trim(items[j].ItemId) != key)
      && (SelectedBook(items, routeId).Some? ==>
            exists i :: 0 <= i < |items| && SelectedBook(items, routeId).value == items[i]
                        && Text.Trim(items[i].ItemId) == key
                        && forall j :: 0 <= j < i ==> Text.Trim(items[j].ItemId) != key)
  {
  }

  /** The update filter names exactly the selected book's id. */
  lemma UpdateFilterNamesBook(book: BookTypes.BookItem)
    ensures Json.ParseIdFilter(Json.IdFilter(book.ItemId)) == Some(book.ItemId)
  {
    Json.IdFilterRoundTrip(book.ItemId);
  }
}
