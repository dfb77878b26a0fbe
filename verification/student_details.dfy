/**
 * The student details page: which student the route selects, the edit / cancel /
 * update state, the update input built from the edited fields, the delete
 * request and the options of the grade select. An update's outcome is a parameter.
 */
module StudentDetails {
  import opened Wrappers
  import Text
  import Json
  import StudentTypes

  const GradeOptions: seq<string> := ["A+", "A", "B+", "B", "C", "D", "F"]

  /** `UpdateStudentInput`. */
  datatype UpdateStudentInput = UpdateStudentInput(
    Name: Option<string>,
    StudentId: Option<string>,
    Email: Option<string>,
    Course: Option<string>,
    Section: Option<string>,
    Grade: Option<string>)

  const EmptyInput := UpdateStudentInput(None, None, None, None, None, None)

  /** The keys `renderField` passes to `handleFieldChange`: one per editable field. */
  datatype EditKey = NameKey | StudentIdKey | EmailKey | CourseKey | SectionKey | GradeKey

  datatype UpdateRequest = UpdateRequest(filter: string, input: UpdateStudentInput)

  datatype DeleteRequest = DeleteRequest(filter: string, isHardDelete: bool)

  /** `String(studentId)`: a missing route parameter reads as the text `undefined`. */
  function RouteKey(routeId: Option<string>): string {
    if routeId.Some? then routeId.value else "undefined"
  }

  /** The index of the first student whose id is exactly `key`. */
  function FirstMatch(items: seq<StudentTypes.StudentItem>, key: string): (r: Option<nat>)
    ensures r.Some? ==> r.value < |items| && items[r.value].ItemId == key
    ensures r.Some? ==> forall j :: 0 <= j < r.value ==> items[j].ItemId != key
    ensures r.None? ==> forall j :: 0 <= j < |items| ==> items[j].ItemId != key
  {
    if items == [] then None
    else if items[0].ItemId == key then Some(0)
    else
      match FirstMatch(items[1..], key)
      case Some(i) => Some(i + 1)
      case None => None
  }

  /** `selectedStudent`: the first student whose id equals the route id, untrimmed. */
  function SelectedStudent(items: seq<StudentTypes.StudentItem>, routeId: Option<string>): Option<StudentTypes.StudentItem> {
    match FirstMatch(items, RouteKey(routeId))
    case Some(i) => Some(items[i])
    case None => None
  }

  /** The edited value of `key` when it is truthy (a non-empty string). */
  function IfTruthy(edited: map<EditKey, string>, key: EditKey): Option<string> {
    if key in edited && edited[key] != "" then Some(edited[key]) else None
  }

  /** `editedInput` of `handleUpdateDetails`: each field only when edited and non-empty. */
  function EditedInput(edited: map<EditKey, string>): UpdateStudentInput {
    UpdateStudentInput(
      IfTruthy(edited, NameKey),
      IfTruthy(edited, StudentIdKey),
      IfTruthy(edited, EmailKey),
      IfTruthy(edited, CourseKey),
      IfTruthy(edited, SectionKey),
      IfTruthy(edited, GradeKey))
  }

  /** The input field fed by `key`. */
  function InputField(input: UpdateStudentInput, key: EditKey): Option<string> {
    match key
    case NameKey => input.Name
    case StudentIdKey => input.StudentId
    case EmailKey => input.Email
    case CourseKey => input.Course
    case SectionKey => input.Section
    case GradeKey => input.Grade
  }

  /** Every field of the update input is present exactly when its key was edited to
      a non-empty value, and then carries that value; so a field never edited, or
      cleared, is never sent. */
  lemma EditedInputFields(edited: map<EditKey, string>, key: EditKey)
    ensures InputField(EditedInput(edited), key).Some? <==> key in edited && edited[key] != ""
    ensures InputField(EditedInput(edited), key).Some? ==> InputField(EditedInput(edited), key).value == edited[key]
  {
  }

  /** `handleFieldChange` touches only the named key. */
  lemma FieldChangeIsLocal(edited: map<EditKey, string>, key: EditKey, other: EditKey, v: string)
    requires other != key
    ensures InputField(EditedInput(edited[key := v]), other) == InputField(EditedInput(edited), other)
    ensures InputField(EditedInput(edited[key := v]), key) == if v != "" then Some(v) else None
  {
  }

  /** `{_id: "<id>"}`, the filter of `handleDelete`, written without JSON quoting. */
  function DeleteFilter(id: string): string {
    "{_id: \"" + id + "\"}"
  }

  /** `options.filter(o => !!o && o !== '')`: for strings, the test only drops `''`. */
  function SafeOptions(options: seq<string>): (r: seq<string>)
    ensures forall o :: o in r <==> o in options && o != ""
    ensures multiset(r) == multiset(options)["" := 0]
  {
    var r := Text.RemoveAll(options, "");
    assert forall o :: o in r <==> multiset(r)[o] > 0;
    assert forall o :: o in options <==> multiset(options)[o] > 0;
    r
  }

  class StudentDetailsPage {
    const items: seq<StudentTypes.StudentItem>
    const routeId: Option<string>
    var editDetails: bool
    var editedFields: map<EditKey, string>

    constructor (items: seq<StudentTypes.StudentItem>, routeId: Option<string>)
      ensures this.items == items && this.routeId == routeId
      ensures !editDetails && editedFields == map[]
    {
      this.items := items;
      this.routeId := routeId;
      editDetails := false;
      editedFields := map[];
    }

    method HandleEditDetails()
      modifies this`editDetails
      ensures editDetails
    {
      editDetails := true;
    }

    method HandleCancelEdit()
      modifies this`editDetails, this`editedFields
      ensures !editDetails && editedFields == map[]
    {
      editDetails := false;
      editedFields := map[];
    }

    method HandleFieldChange(field: EditKey, value: string)
      modifies this`editedFields
      ensures editedFields == old(editedFields)[field := value]
    {
      editedFields := editedFields[field := value];
    }

    /** `handleUpdateDetails`, with `succeeded` the outcome of the update mutation. */
    method HandleUpdateDetails(succeeded: bool) returns (request: Option<UpdateRequest>)
      modifies this`editDetails, this`editedFields
      ensures request.None? <==> SelectedStudent(items, routeId).None?
      ensures request.Some? ==>
        request.value == UpdateRequest(Json.IdFilter(SelectedStudent(items, routeId).value.ItemId),
                                       EditedInput(old(editedFields)))
      ensures request.Some? && succeeded ==> !editDetails && editedFields == map[]
      ensures request.None? || !succeeded ==>
        editDetails == old(editDetails) && editedFields == old(editedFields)
    {
      var student := SelectedStudent(items, routeId);
      if student.None? {
        return None;
      }
      request := Some(UpdateRequest(Json.IdFilter(student.value.ItemId), EditedInput(editedFields)));
      if succeeded {
        editDetails := false;
        editedFields := map[];
      }
    }

    /** `handleDelete`: nothing without a route id; otherwise a hard delete whose
        filter quotes the route id as typed. */
    method HandleDelete() returns (request: Option<DeleteRequest>)
      ensures request.None? <==> routeId.None? || routeId.value == ""
      ensures request.Some? ==> request.value.isHardDelete
      ensures request.Some? ==> request.value.filter == DeleteFilter(routeId.value)
      ensures request.Some? ==> Json.ParseIdFilter(request.value.filter).None?
    {
      if routeId.None? || routeId.value == "" {
        return None;
      }
      var f := DeleteFilter(routeId.value);
      assert f[1] == '_';
      request := Some(DeleteRequest(f, true));
    }
  }

  /** The selected student is the first whose id equals the route id exactly; with
      no route id, only a student whose id is the text `undefined` can match. */
  lemma SelectedStudentIsFirstMatch(items: seq<StudentTypes.StudentItem>, routeId: Option<string>)
    ensures SelectedStudent(items, routeId).None? <==>
      forall j :: 0 <= j < |items| ==> items[j].ItemId != RouteKey(routeId)
    ensures SelectedStudent(items, routeId).Some? ==>
      exists i :: 0 <= i < |items| && SelectedStudent(items, routeId).value == items[i]
                  && items[i].ItemId == RouteKey(routeId)
                  && forall j :: 0 <= j < i ==> items[j].ItemId != RouteKey(routeId)
    ensures routeId.None? && SelectedStudent(items, routeId).Some? ==>
      SelectedStudent(items, routeId).value.ItemId == "undefined"
  {
  }

  /** Ids are not trimmed: a route id with a trailing space selects no student whose
      id lacks it. */
  lemma UntrimmedLookup(s: StudentTypes.StudentItem, id: string)
    requires s.ItemId == id
    ensures SelectedStudent([s], Some(id + " ")).None?
  {
    assert |id + " "| != |s.ItemId|;
  }

  /** Filtering options distributes over concatenation, so the kept options stay in
      their original order. */
  lemma SafeOptionsAppend(a: seq<string>, b: seq<string>)
    ensures SafeOptions(a + b) == SafeOptions(a) + SafeOptions(b)
  {
    Text.RemoveAllAppend(a, b, "");
  }

  /** The grade select never offers an empty option, and keeps every other one. */
  lemma GradeOptionsSafe()
    ensures SafeOptions(GradeOptions) == GradeOptions
  {
    assert forall i :: 0 <= i < |GradeOptions| ==> GradeOptions[i] != "";
  }
}
