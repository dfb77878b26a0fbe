/**
 * The multi-step "add book" form: the same step and upload flow as the student
 * form, except that an existing cover image is kept, plus the numeric fields'
 * conversion and the trimmed insert payload.
 */
module BooksForm {
  import opened Wrappers
  import Text
  import Numbers
  import Stepper
  import Uploads
  import FormSubmit

  const StepCount := 2

  const FirstCategory := "Computer Science"

  datatype BookFormData = BookFormData(
    title: string,
    author: string,
    isbn: string,
    category: string,
    publisher: string,
    publicationYear: string,
    totalCopies: string,
    availableCopies: string,
    images: seq<string>,
    coverImageUrl: string,
    description: string)

  datatype Field = Title | Author | Isbn | Category | Publisher | PublicationYear | TotalCopies
    | AvailableCopies | Description

  function InitialFormData(): BookFormData {
    BookFormData("", "", "", FirstCategory, "", "", "", "", [], "", "")
  }

  function Get(fd: BookFormData, f: Field): string {
    match f
    case Title => fd.title
    case Author => fd.author
    case Isbn => fd.isbn
    case Category => fd.category
    case Publisher => fd.publisher
    case PublicationYear => fd.publicationYear
    case TotalCopies => fd.totalCopies
    case AvailableCopies => fd.availableCopies
    case Description => fd.description
  }

  /** `{ ...prev, [field]: value }`. */
  function WithField(fd: BookFormData, f: Field, v: string): (r: BookFormData)
    ensures Get(r, f) == v
    ensures forall g :: g != f ==> Get(r, g) == Get(fd, g)
    ensures r.images == fd.images && r.coverImageUrl == fd.coverImageUrl
  {
    match f
    case Title => fd.(title := v)
    case Author => fd.(author := v)
    case Isbn => fd.(isbn := v)
    case Category => fd.(category := v)
    case Publisher => fd.(publisher := v)
    case PublicationYear => fd.(publicationYear := v)
    case TotalCopies => fd.(totalCopies := v)
    case AvailableCopies => fd.(availableCopies := v)
    case Description => fd.(description := v)
  }

  /** A value `toNumberOrUndefined` may be given. */
  datatype JsValue = Undefined | Null | Num(n: int) | Str(s: string)

  /** `toNumberOrUndefined`: absent for `''`, `null`, `undefined` and for text that
      does not read as a number; the number otherwise. */
  function ToNumberOrUndefined(v: JsValue): (r: Option<int>)
    ensures v == Str("") || v.Null? || v.Undefined? ==> r.None?
    ensures v.Num? ==> r == Some(v.n)
    ensures v.Str? && v.s != "" && Text.AllWhitespace(v.s) ==> r == Some(0)
    ensures v.Str? && r.Some? ==> Numbers.ToNumber(v.s) == Numbers.Int(r.value)
    ensures v.Str? && v.s != "" && Numbers.ToNumber(v.s).Int? ==> r == Some(Numbers.ToNumber(v.s).n)
  {
    if v == Str("") || v.Null? || v.Undefined? then None
    else
      var n := if v.Num? then Numbers.Int(v.n) else Numbers.ToNumber(v.s);
      match n
      case Int(i) => Some(i)
      case NaN => None
  }

  /** The merge after uploads: new URLs are appended to `images`, and the cover is
      set to the first of them only when there was none. */
  function AfterUploads(fd: BookFormData, urls: seq<string>): BookFormData {
    if urls == [] then fd
    else fd.(coverImageUrl := if fd.coverImageUrl != "" then fd.coverImageUrl else urls[0],
             images := fd.images + urls)
  }

  /** `handleDeleteImage`. */
  function AfterDelete(fd: BookFormData, url: string): BookFormData {
    fd.(images := Text.RemoveAll(fd.images, url),
        coverImageUrl := if fd.coverImageUrl == url then "" else fd.coverImageUrl)
  }

  /** `isGeneralInfoValid`: title, author, isbn, category and publisher are non-blank
      after trimming; the numeric fields are not checked. */
  predicate IsGeneralInfoValid(fd: BookFormData) {
    Text.Trim(fd.title) != [] && Text.Trim(fd.author) != [] && Text.Trim(fd.isbn) != []
    && Text.Trim(fd.category) != [] && Text.Trim(fd.publisher) != []
  }

  /** `AddBookInput`. */
  datatype AddBookInput = AddBookInput(
    Title: string,
    Author: string,
    ISBN: string,
    Category: string,
    Publisher: string,
    PublicationYear: Option<int>,
    TotalCopies: Option<int>,
    AvailableCopies: Option<int>,
    CoverImageId: Option<string>,
    Description: Option<string>)

  /** The payload built by `handleSubmit`. */
  function SubmitInput(fd: BookFormData): AddBookInput {
    var description := Text.Trim(fd.description);
    AddBookInput(
      Text.Trim(fd.title), Text.Trim(fd.author), Text.Trim(fd.isbn), fd.category, Text.Trim(fd.publisher),
      ToNumberOrUndefined(Str(fd.publicationYear)),
      ToNumberOrUndefined(Str(fd.totalCopies)),
      ToNumberOrUndefined(Str(fd.availableCopies)),
      if fd.coverImageUrl == "" then None else Some(fd.coverImageUrl),
      if description == "" then None else Some(description))
  }

  class BooksFormState {
    var currentStep: int
    var formData: BookFormData
    var isUploading: bool
    var loading: bool

    ghost predicate Valid()
      reads this
    {
      0 <= currentStep < StepCount
    }

    constructor ()
      ensures Valid()
      ensures currentStep == 0 && formData == InitialFormData() && !isUploading && !loading
    {
      currentStep := 0;
      formData := InitialFormData();
      isUploading := false;
      loading := false;
    }

    method StepperClick(index: int)
      requires Valid() && 0 <= index < StepCount
      modifies this`currentStep
      ensures Valid()
      ensures currentStep == Stepper.Click(old(currentStep), index)
    {
      if index < currentStep {
        currentStep := index;
      }
    }

    method GoToNextStep()
      requires Valid()
      modifies this`currentStep
      ensures Valid()
      ensures currentStep == Stepper.Next(old(currentStep), StepCount)
    {
      if currentStep < StepCount - 1 {
        currentStep := currentStep + 1;
      }
    }

    method GoToPreviousStep()
      requires Valid()
      modifies this`currentStep
      ensures Valid()
      ensures currentStep == Stepper.Previous(old(currentStep))
    {
      if currentStep > 0 {
        currentStep := currentStep - 1;
      }
    }

    method HandleInputChange(field: Field, value: string)
      modifies this`formData
      ensures formData == WithField(old(formData), field, value)
    {
      formData := WithField(formData, field, value);
    }

    /** `handleAddImages`, with `results` the settled upload of each file, in order. */
    method HandleAddImages(files: seq<Uploads.FileEntry>, results: seq<Option<Uploads.UploadResult>>)
      requires |results| == |Uploads.Files(files)|
      modifies this`formData, this`isUploading
      ensures Uploads.Files(files) == [] ==> formData == old(formData) && isUploading == old(isUploading)
      ensures Uploads.Files(files) != [] ==>
        formData == AfterUploads(old(formData), Uploads.SuccessfulUrls(results)) && !isUploading
    {
      var fileObjects := Uploads.Files(files);
      if |fileObjects| == 0 {
        return;
      }
      isUploading := true;
      var uploadUrls := Uploads.SuccessfulUrls(results);
      if |uploadUrls| > 0 {
        formData := AfterUploads(formData, uploadUrls);
      }
      isUploading := false;
    }

    method HandleDeleteImage(url: string)
      modifies this`formData
      ensures formData == AfterDelete(old(formData), url)
    {
      formData := AfterDelete(formData, url);
    }

    method HandleSubmit() returns (input: AddBookInput)
      modifies this`loading
      ensures loading
      ensures input == SubmitInput(formData)
    {
      loading := true;
      input := SubmitInput(formData);
    }

    method OnSubmitSettled(outcome: FormSubmit.SubmitOutcome) returns (navigateTo: Option<string>)
      modifies this`loading
      ensures !loading
      ensures navigateTo == FormSubmit.NavigationTarget(outcome, "/books/")
    {
      navigateTo := FormSubmit.NavigationTarget(outcome, "/books/");
      loading := false;
    }
  }

  /** An existing cover survives any upload; an empty one becomes the first new URL. */
  lemma UploadKeepsCover(fd: BookFormData, results: seq<Option<Uploads.UploadResult>>, k: nat)
    requires k < |results| && Uploads.Succeeded(results[k])
    requires forall i :: 0 <= i < k ==> !Uploads.Succeeded(results[i])
    ensures var r := AfterUploads(fd, Uploads.SuccessfulUrls(results));
      && (fd.coverImageUrl != "" ==> r.coverImageUrl == fd.coverImageUrl)
      && (fd.coverImageUrl == "" ==> r.coverImageUrl == results[k].value.uploadUrl)
      && r.images == fd.images + Uploads.SuccessfulUrls(results)
      && r.(images := fd.images, coverImageUrl := fd.coverImageUrl) == fd
  {
    Uploads.FirstSuccessfulUrl(results, k);
  }

  /** Uploads with no success leave the form data as it was. */
  lemma NoSuccessNoChange(fd: BookFormData, results: seq<Option<Uploads.UploadResult>>)
    requires forall i :: 0 <= i < |results| ==> !Uploads.Succeeded(results[i])
    ensures AfterUploads(fd, Uploads.SuccessfulUrls(results)) == fd
  {
  }

  /** Deleting `url` removes all its occurrences and keeps every other URL's count;
      the cover is cleared exactly when it was `url`, and no other field changes.
      The surviving URLs keep their order: see `Text.RemoveAllAppend`. */
  lemma DeleteRemovesOnlyUrl(fd: BookFormData, url: string)
    ensures var r := AfterDelete(fd, url);
      && url !in r.images
      && (forall u :: u != url ==> multiset(r.images)[u] == multiset(fd.images)[u])
      && (fd.coverImageUrl == url ==> r.coverImageUrl == "")
      && (fd.coverImageUrl != url ==> r.coverImageUrl == fd.coverImageUrl)
      && r.(images := fd.images, coverImageUrl := fd.coverImageUrl) == fd
  {
  }

  /** Uploading one new image and deleting it again restores the form exactly when a
      cover was already set (unlike the student form, which loses its profile image). */
  lemma UploadThenDeleteRestores(fd: BookFormData, url: string)
    requires url != [] && url !in fd.images && fd.coverImageUrl != "" && fd.coverImageUrl != url
    ensures AfterDelete(AfterUploads(fd, [url]), url) == fd
  {
    Text.RemoveAllAfterAppend(fd.images, url);
  }

  /** The validator holds exactly when each checked field has a non-whitespace
      character; the numeric fields never matter. */
  lemma GeneralInfoValidIff(fd: BookFormData, year: string, total: string, available: string)
    ensures IsGeneralInfoValid(fd) <==>
      !Text.AllWhitespace(fd.title) && !Text.AllWhitespace(fd.author) && !Text.AllWhitespace(fd.isbn)
      && !Text.AllWhitespace(fd.category) && !Text.AllWhitespace(fd.publisher)
    ensures IsGeneralInfoValid(fd.(publicationYear := year, totalCopies := total, availableCopies := available))
      == IsGeneralInfoValid(fd)
  {
    Text.TrimEmptyIff(fd.title);
    Text.TrimEmptyIff(fd.author);
    Text.TrimEmptyIff(fd.isbn);
    Text.TrimEmptyIff(fd.category);
    Text.TrimEmptyIff(fd.publisher);
  }

  /** The payload's required text fields are the typed text with its surrounding
      whitespace removed (so trimming them again changes nothing), Category is
      passed as chosen, and each numeric field is its text read as a number. */
  lemma PayloadTrimmed(fd: BookFormData)
    ensures var p := SubmitInput(fd);
      && p.Title == Text.Trim(fd.title) && p.Author == Text.Trim(fd.author)
      && p.ISBN == Text.Trim(fd.isbn) && p.Publisher == Text.Trim(fd.publisher)
      && Text.Trim(p.Title) == p.Title && Text.Trim(p.Author) == p.Author
      && Text.Trim(p.ISBN) == p.ISBN && Text.Trim(p.Publisher) == p.Publisher
      && p.Category == fd.category
      && p.PublicationYear == ToNumberOrUndefined(Str(fd.publicationYear))
      && p.TotalCopies == ToNumberOrUndefined(Str(fd.totalCopies))
      && p.AvailableCopies == ToNumberOrUndefined(Str(fd.availableCopies))
  {
    Text.TrimIdempotent(fd.title);
    Text.TrimIdempotent(fd.author);
    Text.TrimIdempotent(fd.isbn);
    Text.TrimIdempotent(fd.publisher);
  }

  /** A validated form yields a payload whose required text fields are non-empty. */
  lemma ValidFormPayload(fd: BookFormData)
    requires IsGeneralInfoValid(fd)
    ensures var p := SubmitInput(fd);
      p.Title != "" && p.Author != "" && p.ISBN != "" && p.Publisher != "" && p.Category != ""
  {
    assert fd.category != "";
  }

  /** Optional text is absent rather than blank: no cover gives no CoverImageId, and
      a description of whitespace only gives no Description; when present, they are
      the cover URL and the trimmed description. */
  lemma PayloadOptionalFields(fd: BookFormData)
    ensures var p := SubmitInput(fd);
      && (p.CoverImageId.None? <==> fd.coverImageUrl == "")
      && (p.Description.None? <==> Text.AllWhitespace(fd.description))
      && (p.CoverImageId.Some? ==> p.CoverImageId.value == fd.coverImageUrl)
      && (p.Description.Some? ==> p.Description.value == Text.Trim(fd.description))
      && (p.Description.Some? ==> p.Description.value != "" && Text.Trim(p.Description.value) == p.Description.value)
  {
    var p := SubmitInput(fd);
    assert p.Description == (if Text.Trim(fd.description) == "" then None else Some(Text.Trim(fd.description)));
    Text.TrimIdempotent(fd.description);
    Text.TrimEmptyIff(fd.description);
  }

  /** A numeric field typed as an integer reaches the payload as that integer. */
  lemma NumberFieldRoundTrip(n: int)
    ensures ToNumberOrUndefined(Str(Numbers.IntText(n))) == Some(n)
  {
    Numbers.ToNumberOfIntText(n);
  }
}
