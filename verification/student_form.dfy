/**
 * The multi-step "add student" form: its state (current step, form data, upload
 * and submit flags), the handlers that change it, the general-info validator and
 * the payload handed to the insert mutation.
 */
module StudentForm {
  import opened Wrappers
  import Text
  import Stepper
  import Uploads
  import FormSubmit

  /** General info and Additional info. */
  const StepCount := 2

  const CourseOptions: seq<string> := ["Computer Science", "Mathematics", "Physics", "Chemistry", "Biology", "Economics"]
  const SectionOptions: seq<string> := ["A", "B", "C", "D"]
  const GradeOptions: seq<string> := ["A+", "A", "B+", "B", "C", "D", "F"]

  datatype StudentFormData = StudentFormData(
    name: string,
    studentId: string,
    email: string,
    course: string,
    section: string,
    grade: string,
    images: seq<string>,
    profileImageUrl: string,
    profileImageUrls: seq<string>,
    notes: string)

  /** The keys the form's inputs pass to `handleInputChange`. */
  datatype Field = Name | StudentId | Email | Course | Section | Grade | Notes

  function InitialFormData(): StudentFormData {
    StudentFormData("", "", "", CourseOptions[0], SectionOptions[0], GradeOptions[0], [], "", [], "")
  }

  function Get(fd: StudentFormData, f: Field): string {
    match f
    case Name => fd.name
    case StudentId => fd.studentId
    case Email => fd.email
    case Course => fd.course
    case Section => fd.section
    case Grade => fd.grade
    case Notes => fd.notes
  }

  /** `{ ...prev, [field]: value }`. */
  function WithField(fd: StudentFormData, f: Field, v: string): (r: StudentFormData)
    ensures Get(r, f) == v
    ensures forall g :: g != f ==> Get(r, g) == Get(fd, g)
    ensures r.images == fd.images && r.profileImageUrl == fd.profileImageUrl
    ensures r.profileImageUrls == fd.profileImageUrls
  {
    match f
    case Name => fd.(name := v)
    case StudentId => fd.(studentId := v)
    case Email => fd.(email := v)
    case Course => fd.(course := v)
    case Section => fd.(section := v)
    case Grade => fd.(grade := v)
    case Notes => fd.(notes := v)
  }

  /** The merge after uploads: the new URLs are appended to `images` and
      `profileImageUrls`, and the first of them becomes the profile image. */
  function AfterUploads(fd: StudentFormData, urls: seq<string>): StudentFormData {
    if urls == [] then fd
    else fd.(profileImageUrl := urls[0],
             profileImageUrls := fd.profileImageUrls + urls,
             images := fd.images + urls)
  }

  /** `handleDeleteImage`: every occurrence of `url` leaves both lists, and the
      profile image is cleared only when it is `url`. */
  function AfterDelete(fd: StudentFormData, url: string): StudentFormData {
    fd.(images := Text.RemoveAll(fd.images, url),
        profileImageUrls := Text.RemoveAll(fd.profileImageUrls, url),
        profileImageUrl := if fd.profileImageUrl == url then "" else fd.profileImageUrl)
  }

  /** `isGeneralInfoValid`: name, student id, email, course and section are non-blank
      after trimming; grade is not checked. */
  predicate IsGeneralInfoValid(fd: StudentFormData) {
    Text.Trim(fd.name) != [] && Text.Trim(fd.studentId) != [] && Text.Trim(fd.email) != []
    && Text.Trim(fd.course) != [] && Text.Trim(fd.section) != []
  }

  /** The input of the insert mutation built by `handleSubmit`. */
  datatype StudentInput = StudentInput(
    Name: string,
    StudentId: string,
    Email: string,
    Course: string,
    Section: string,
    Grade: string,
    ProfileImageFileId: string,
    ProfileImageFileIds: seq<string>,
    Notes: string)

  /** The submit payload: every field is passed on untrimmed. */
  function SubmitInput(fd: StudentFormData): StudentInput {
    StudentInput(fd.name, fd.studentId, fd.email, fd.course, fd.section, fd.grade,
                 fd.profileImageUrl, fd.profileImageUrls, fd.notes)
  }

  class StudentFormState {
    var currentStep: int
    var formData: StudentFormData
    var isUploading: bool
    var loading: bool

    ghost predicate Valid()
      reads this
    {
      0 <= currentStep < StepCount
    }

    constructor ()
      ensures Valid()
      ensures currentStep == 0 && formData == InitialFormData() && !isUploading && !loading
    {
      currentStep := 0;
      formData := InitialFormData();
      isUploading := false;
      loading := false;
    }

    /** A click on the circle of step `index` in the `Stepper`. */
    method StepperClick(index: int)
      requires Valid() && 0 <= index < StepCount
      modifies this`currentStep
      ensures Valid()
      ensures currentStep == Stepper.Click(old(currentStep), index)
    {
      if index < currentStep {
        currentStep := index;
      }
    }

    method GoToNextStep()
      requires Valid()
      modifies this`currentStep
      ensures Valid()
      ensures currentStep == Stepper.Next(old(currentStep), StepCount)
    {
      if currentStep < StepCount - 1 {
        currentStep := currentStep + 1;
      }
    }

    method GoToPreviousStep()
      requires Valid()
      modifies this`currentStep
      ensures Valid()
      ensures currentStep == Stepper.Previous(old(currentStep))
    {
      if currentStep > 0 {
        currentStep := currentStep - 1;
      }
    }

    method HandleInputChange(field: Field, value: string)
      modifies this`formData
      ensures formData == WithField(old(formData), field, value)
    {
      formData := WithField(formData, field, value);
    }

    /** `handleAddImages`, with `results` the settled upload of each file, in order. */
    method HandleAddImages(files: seq<Uploads.FileEntry>, results: seq<Option<Uploads.UploadResult>>)
      requires |results| == |Uploads.Files(files)|
      modifies this`formData, this`isUploading
      ensures Uploads.Files(files) == [] ==> formData == old(formData) && isUploading == old(isUploading)
      ensures Uploads.Files(files) != [] ==>
        formData == AfterUploads(old(formData), Uploads.SuccessfulUrls(results)) && !isUploading
    {
      var fileObjects := Uploads.Files(files);
      if |fileObjects| == 0 {
        return;
      }
      isUploading := true;
      var uploadUrls := Uploads.SuccessfulUrls(results);
      if |uploadUrls| > 0 {
        formData := AfterUploads(formData, uploadUrls);
      }
      isUploading := false;
    }

    method HandleDeleteImage(url: string)
      modifies this`formData
      ensures formData == AfterDelete(old(formData), url)
    {
      formData := AfterDelete(formData, url);
    }

    /** `handleSubmit`: marks the form as loading and hands back the mutation input. */
    method HandleSubmit() returns (input: StudentInput)
      modifies this`loading
      ensures loading
      ensures input == SubmitInput(formData)
    {
      loading := true;
      input := SubmitInput(formData);
    }

    /** The mutation's `onSuccess` / `onError`: loading ends, and an acknowledged
        insert navigates to the new student's page. */
    method OnSubmitSettled(outcome: FormSubmit.SubmitOutcome) returns (navigateTo: Option<string>)
      modifies this`loading
      ensures !loading
      ensures navigateTo == FormSubmit.NavigationTarget(outcome, "/students/")
    {
      navigateTo := FormSubmit.NavigationTarget(outcome, "/students/");
      loading := false;
    }
  }

  /** Uploads with no success leave the form data as it was. */
  lemma NoSuccessNoChange(fd: StudentFormData, results: seq<Option<Uploads.UploadResult>>)
    requires forall i :: 0 <= i < |results| ==> !Uploads.Succeeded(results[i])
    ensures AfterUploads(fd, Uploads.SuccessfulUrls(results)) == fd
  {
  }

  /** The first successful upload replaces the profile image, even when one was set:
      the kept URLs are appended in order and no other field changes. */
  lemma UploadOverwritesProfileImage(fd: StudentFormData, results: seq<Option<Uploads.UploadResult>>, k: nat)
    requires k < |results| && Uploads.Succeeded(results[k])
    requires forall i :: 0 <= i < k ==> !Uploads.Succeeded(results[i])
    ensures var r := AfterUploads(fd, Uploads.SuccessfulUrls(results));
      && r.profileImageUrl == results[k].value.uploadUrl
      && r.images == fd.images + Uploads.SuccessfulUrls(results)
      && r.profileImageUrls == fd.profileImageUrls + Uploads.SuccessfulUrls(results)
      && r.(profileImageUrl := fd.profileImageUrl, images := fd.images, profileImageUrls := fd.profileImageUrls) == fd
  {
    Uploads.FirstSuccessfulUrl(results, k);
  }

  /** After deleting `url` it is in neither list, every other URL keeps its number
      of occurrences, a different profile image is kept, and no other field
      changes. The surviving URLs keep their order: see `Text.RemoveAllAppend`. */
  lemma DeleteRemovesOnlyUrl(fd: StudentFormData, url: string)
    ensures var r := AfterDelete(fd, url);
      && url !in r.images && url !in r.profileImageUrls
      && (forall u :: u != url ==> multiset(r.images)[u] == multiset(fd.images)[u])
      && (forall u :: u != url ==> multiset(r.profileImageUrls)[u] == multiset(fd.profileImageUrls)[u])
      && (r.profileImageUrl == "" <==> fd.profileImageUrl == url || fd.profileImageUrl == "")
      && (fd.profileImageUrl != url ==> r.profileImageUrl == fd.profileImageUrl)
      && r.(profileImageUrl := fd.profileImageUrl, images := fd.images, profileImageUrls := fd.profileImageUrls) == fd
  {
  }

  /** Uploading one new image and deleting it again restores both lists but loses
      the previous profile image: the upload had replaced it. */
  lemma UploadThenDeleteLosesProfileImage(fd: StudentFormData, url: string)
    requires url != [] && url !in fd.images && url !in fd.profileImageUrls
    ensures var r := AfterDelete(AfterUploads(fd, [url]), url);
      && r.images == fd.images && r.profileImageUrls == fd.profileImageUrls
      && r.profileImageUrl == ""
  {
    Text.RemoveAllAfterAppend(fd.images, url);
    Text.RemoveAllAfterAppend(fd.profileImageUrls, url);
  }

  /** The validator holds exactly when each checked field has a non-whitespace
      character; the grade never matters. */
  lemma GeneralInfoValidIff(fd: StudentFormData, grade: string)
    ensures IsGeneralInfoValid(fd) <==>
      !Text.AllWhitespace(fd.name) && !Text.AllWhitespace(fd.studentId) && !Text.AllWhitespace(fd.email)
      && !Text.AllWhitespace(fd.course) && !Text.AllWhitespace(fd.section)
    ensures IsGeneralInfoValid(fd.(grade := grade)) == IsGeneralInfoValid(fd)
  {
    Text.TrimEmptyIff(fd.name);
    Text.TrimEmptyIff(fd.studentId);
    Text.TrimEmptyIff(fd.email);
    Text.TrimEmptyIff(fd.course);
    Text.TrimEmptyIff(fd.section);
  }

  /** The initial form data does not pass the validator: its name is blank. */
  lemma InitialFormInvalid()
    ensures !IsGeneralInfoValid(InitialFormData())
  {
    assert Text.Trim("") == [];
  }

  /** A payload submitted from a validated form carries non-blank required fields,
      exactly as typed (nothing is trimmed). */
  lemma ValidFormPayload(fd: StudentFormData)
    requires IsGeneralInfoValid(fd)
    ensures var p := SubmitInput(fd);
      && !Text.AllWhitespace(p.Name) && !Text.AllWhitespace(p.StudentId) && !Text.AllWhitespace(p.Email)
      && !Text.AllWhitespace(p.Course) && !Text.AllWhitespace(p.Section)
      && p.Name == fd.name && p.StudentId == fd.studentId && p.Email == fd.email
      && p.Course == fd.course && p.Section == fd.section && p.Grade == fd.grade
      && p.ProfileImageFileId == fd.profileImageUrl && p.ProfileImageFileIds == fd.profileImageUrls
      && p.Notes == fd.notes
  {
    GeneralInfoValidIff(fd, fd.grade);
  }
}
