/** The book records: the table row (`BookItem`) and the row as the backend sends it. */
module BookTypes {
  import opened Wrappers

  /** `BookItem`, with the extra Tags, Status and Language the list page attaches.
      `PublicationYear` None stands for both a missing year and the `''` default. */
  datatype BookItem = BookItem(
    ItemId: string,
    Title: string,
    Author: string,
    ISBN: string,
    Category: string,
    Publisher: string,
    PublicationYear: Option<int>,
    TotalCopies: Option<int>,
    AvailableCopies: Option<int>,
    Description: Option<string>,
    CoverImageId: Option<string>,
    CreatedBy: Option<string>,
    CreatedDate: Option<string>,
    LastUpdatedBy: Option<string>,
    LastUpdatedDate: Option<string>,
    IsDeleted: Option<bool>,
    Tags: seq<string>,
    Status: string,
    Language: string)

  /** One item of `Bookss.items` as received: every field but the id may be null or missing. */
  datatype RawBook = RawBook(
    ItemId: string,
    Title: Option<string>,
    Author: Option<string>,
    ISBN: Option<string>,
    Category: Option<string>,
    Publisher: Option<string>,
    PublicationYear: Option<int>,
    TotalCopies: Option<int>,
    AvailableCopies: Option<int>,
    Description: Option<string>,
    CoverImageId: Option<string>,
    CreatedBy: Option<string>,
    CreatedDate: Option<string>,
    LastUpdatedBy: Option<string>,
    LastUpdatedDate: Option<string>,
    IsDeleted: Option<bool>,
    Tags: Option<seq<string>>,
    Status: Option<string>,
    Language: Option<string>)
}
