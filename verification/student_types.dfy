/** The student records: the table row (`StudentItem`) and the row as the backend sends it. */
module StudentTypes {
  import opened Wrappers

  /** `StudentItem`, with the extra Tags, Status and Language the list page attaches. */
  datatype StudentItem = StudentItem(
    ItemId: string,
    Name: string,
    StudentId: string,
    Email: string,
    Course: string,
    Section: string,
    Grade: Option<string>,
    CreatedBy: Option<string>,
    CreatedDate: Option<string>,
    LastUpdatedBy: Option<string>,
    LastUpdatedDate: Option<string>,
    IsDeleted: Option<bool>,
    Tags: seq<string>,
    Status: string,
    Language: string)

  /** One item of `StudentInfos.items` as received: every field but the id may be null or missing. */
  datatype RawStudent = RawStudent(
    ItemId: string,
    Name: Option<string>,
    StudentId: Option<string>,
    Email: Option<string>,
    Course: Option<string>,
    Section: Option<string>,
    Grade: Option<string>,
    CreatedBy: Option<string>,
    CreatedDate: Option<string>,
    LastUpdatedBy: Option<string>,
    LastUpdatedDate: Option<string>,
    IsDeleted: Option<bool>,
    Tags: Option<seq<string>>,
    Status: Option<string>,
    Language: Option<string>)
}
