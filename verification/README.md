# Student and book management: verified model of the UI-state logic

This project models, in Dafny, the state logic of a React front end that manages
books and students. It has no protocol or engine of its own. What it does have is a
set of small UI-state rules that can be stated exactly:

- the two multi-step create forms: step navigation, the image list merged after
  uploads and pruned on delete, the required-field validator, and the submit payload;
- the "last updated" column filter and the string accessors of both tables;
- the two details pages: record lookup by route id, the edit / cancel / update state,
  the update input built from edited fields, and the delete request;
- the books table's column-visibility menu: locked columns, "select all", and
  visibility overrides;
- the two list pages: backend rows mapped to table rows, and the pagination record.

Network calls, date formatting and the wall clock are parameters of the model. Every
operation that changes component state is a method of a class whose fields are that
state. The pure expressions are functions, and lemmas prove what the code promises.

Modules, by file:

- `wrappers.dfy`: `Option`.
- `text.dfy`: JavaScript `trim` and its whitespace set, the lexicographic string order
  of `<`/`>`, and `filter(x => x !== v)`.
- `numbers.dfy`: decimal rendering (`${n}`) and `Number(text)` on integer text.
- `json.dfy`: `JSON.stringify` of a string (RFC 8259 section 7) with its inverse,
  and the `{"_id": …}` filter.
- `stepper.dfy`, `uploads.dfy`, `form_submit.dfy`: the parts both create forms share.
- `student_form.dfy`, `books_form.dfy`: the create forms.
- `last_updated_filter.dfy`, `book_columns.dfy`, `student_columns.dfy`: the table columns.
- `book_types.dfy`, `student_types.dfy`: the records, as rows and as received.
- `book_details.dfy`, `student_details.dfy`: the details pages. `student_details.dfy`
  also holds `SafeOptions`, the grade select's `!!o && o !== ''` filter.
- `view_options.dfy`: the column-visibility menu. The table's visibility flags are an
  array that the menu's loops update in place.
- `paging.dfy`, `books_page.dfy`, `students_page.dfy`: the list pages.

Where the two forms or the two details pages differ, the model keeps the difference
and proves it:

- The student form overwrites the profile image with the first upload; the book form
  keeps an existing cover.
- The book lookup trims ids; the student lookup does not.
- The book delete filter is JSON; the student delete filter is not.

## Model

| member | source | states |
|---|---|---|
| Stepper.Next | src/features/students/component/student-form/student-form.tsx:219-223 | advances by one exactly when the step is below the last, otherwise stays; stays within [0, count) |
| Stepper.Previous | src/features/students/component/student-form/student-form.tsx:225-229 | goes back by one exactly when the step is above 0, otherwise stays; never goes negative |
| Stepper.Click | src/features/students/component/student-form/student-form.tsx:57 | a circle click moves only to an earlier step; the current and later circles leave the step as it is |
| Stepper.NextThenPrevious | src/features/books/component/books-form/books-form.tsx:194-195 | Previous undoes Next everywhere except on the last step |
| Stepper.PreviousThenNext | src/features/books/component/books-form/books-form.tsx:194-195 | Next undoes Previous everywhere except on the first step |
| Stepper.RunStaysInRange | src/features/books/component/books-form/books-form.tsx:194-195 | any sequence of Next, Previous and circle clicks keeps the step within [0, count) |
| Uploads.Files | src/features/students/component/student-form/student-form.tsx:182-183 | keeps only the File entries; empty exactly when every entry is an existing URL |
| Uploads.SuccessfulUrls | src/features/students/component/student-form/student-form.tsx:188-194 | keeps the URLs of results that are non-null with non-empty fileId and uploadUrl, none empty; empty exactly when no result succeeded; every successful URL is kept and every kept URL is that of a successful result |
| Uploads.SuccessfulUrlsAppend | src/features/students/component/student-form/student-form.tsx:188-194 | keeping URLs distributes over concatenation, so the URLs stay in the order of their results, one per success |
| Uploads.FirstSuccessfulUrl | src/features/students/component/student-form/student-form.tsx:198 | the first kept URL is the URL of the first successful result |
| Uploads.StripQuery | src/features/students/component/student-form/student-form.tsx:145 | the result is a prefix of the URL with no '?', and is the whole URL or stops at its first '?' |
| Uploads.StripQueryIdempotent | src/features/books/component/books-form/books-form.tsx:129 | stripping the query twice is stripping it once |
| Uploads.StripQueryOfPlain | src/features/books/component/books-form/books-form.tsx:129 | a URL without '?' is returned unchanged |
| FormSubmit.NavigationTarget | src/features/students/component/student-form/student-form.tsx:250-256 | navigates to base + itemId exactly when the insert succeeded and was acknowledged, nowhere otherwise |
| StudentForm.WithField | src/features/students/component/student-form/student-form.tsx:129-134 | handleInputChange sets the named field and leaves every other field and both image lists unchanged |
| StudentForm.StudentFormState.constructor | src/features/students/component/student-form/student-form.tsx:109-127 | step 0, the initial form data with the first course, section and grade, not uploading, not loading |
| StudentForm.StudentFormState.StepperClick | src/features/students/component/student-form/student-form.tsx:286 | the step becomes Stepper.Click of the old step and stays valid |
| StudentForm.StudentFormState.GoToNextStep | src/features/students/component/student-form/student-form.tsx:219-223 | the step becomes Stepper.Next of the old step over two steps and stays valid |
| StudentForm.StudentFormState.GoToPreviousStep | src/features/students/component/student-form/student-form.tsx:225-229 | the step becomes Stepper.Previous of the old step and stays valid |
| StudentForm.StudentFormState.HandleInputChange | src/features/students/component/student-form/student-form.tsx:129-134 | the form data becomes WithField of the old data |
| StudentForm.StudentFormState.HandleAddImages | src/features/students/component/student-form/student-form.tsx:181-208 | no File entries: nothing changes; otherwise the data is merged with the successful URLs and uploading ends |
| StudentForm.StudentFormState.HandleDeleteImage | src/features/students/component/student-form/student-form.tsx:210-217 | the form data becomes AfterDelete of the old data |
| StudentForm.StudentFormState.HandleSubmit | src/features/students/component/student-form/student-form.tsx:231-245 | loading is set and the mutation input is the payload of the current form data |
| StudentForm.StudentFormState.OnSubmitSettled | src/features/students/component/student-form/student-form.tsx:247-258 | loading ends on success and on error; navigation to /students/itemId only on an acknowledged insert |
| StudentForm.NoSuccessNoChange | src/features/students/component/student-form/student-form.tsx:193 | uploads with no success leave the form data unchanged |
| StudentForm.UploadOverwritesProfileImage | src/features/students/component/student-form/student-form.tsx:196-201 | the first successful URL replaces the profile image even when one was set; the URLs are appended in order to both lists; every other field is unchanged |
| StudentForm.DeleteRemovesOnlyUrl | src/features/students/component/student-form/student-form.tsx:210-217 | the URL leaves both lists, every other URL keeps its count, the profile image is cleared only when it is the URL and is otherwise kept, every other field is unchanged |
| StudentForm.UploadThenDeleteLosesProfileImage | src/features/students/component/student-form/student-form.tsx:196-216 | uploading a new URL and deleting it restores both lists but leaves no profile image |
| StudentForm.GeneralInfoValidIff | src/features/students/component/student-form/student-form.tsx:261-269 | valid exactly when name, studentId, email, course and section each have a non-whitespace character; the grade never matters |
| StudentForm.InitialFormInvalid | src/features/students/component/student-form/student-form.tsx:116-127 | the initial form data does not pass the validator |
| StudentForm.ValidFormPayload | src/features/students/component/student-form/student-form.tsx:235-245 | a validated form gives a payload with non-blank required fields; every payload field is its form field as typed |
| BooksForm.ToNumberOrUndefined | src/features/books/component/books-form/books-form.tsx:79-83 | undefined for '', null and undefined; a number passes through; blank text gives 0; otherwise the number the text reads as, or undefined when it is not one; text that reads as a number always gives that number |
| BooksForm.NumberFieldRoundTrip | src/features/books/component/books-form/books-form.tsx:207-209 | a numeric field typed as an integer reaches the payload as that integer |
| BooksForm.BooksFormState.constructor | src/features/books/component/books-form/books-form.tsx:89-109 | step 0, empty fields, the first category, not uploading, not loading |
| BooksForm.BooksFormState.StepperClick | src/features/books/component/books-form/books-form.tsx:39 | the step becomes Stepper.Click of the old step and stays valid |
| BooksForm.BooksFormState.GoToNextStep | src/features/books/component/books-form/books-form.tsx:194 | the step becomes Stepper.Next of the old step over two steps and stays valid |
| BooksForm.BooksFormState.GoToPreviousStep | src/features/books/component/books-form/books-form.tsx:195 | the step becomes Stepper.Previous of the old step and stays valid |
| BooksForm.BooksFormState.HandleInputChange | src/features/books/component/books-form/books-form.tsx:112-117 | the form data becomes WithField of the old data |
| BooksForm.BooksFormState.HandleAddImages | src/features/books/component/books-form/books-form.tsx:163-184 | no File entries: nothing changes; otherwise the data is merged with the successful URLs and uploading ends |
| BooksForm.BooksFormState.HandleDeleteImage | src/features/books/component/books-form/books-form.tsx:186-192 | the form data becomes AfterDelete of the old data |
| BooksForm.BooksFormState.HandleSubmit | src/features/books/component/books-form/books-form.tsx:197-212 | loading is set and the mutation input is the payload of the current form data |
| BooksForm.BooksFormState.OnSubmitSettled | src/features/books/component/books-form/books-form.tsx:214-225 | loading ends on success and on error; navigation to /books/itemId only on an acknowledged insert |
| BooksForm.WithField | src/features/books/component/books-form/books-form.tsx:112-117 | handleInputChange sets the named field and leaves the other fields, the images and the cover unchanged |
| BooksForm.UploadKeepsCover | src/features/books/component/books-form/books-form.tsx:173-179 | a non-empty cover survives uploads; an empty one becomes the first successful URL; the URLs are appended in order; nothing else changes |
| BooksForm.NoSuccessNoChange | src/features/books/component/books-form/books-form.tsx:173 | uploads with no success leave the form data unchanged |
| BooksForm.DeleteRemovesOnlyUrl | src/features/books/component/books-form/books-form.tsx:186-192 | the URL leaves the images, every other URL keeps its count, the cover is cleared exactly when it is the URL and is otherwise kept; nothing else changes |
| BooksForm.UploadThenDeleteRestores | src/features/books/component/books-form/books-form.tsx:175-191 | with a cover set, uploading a new URL and deleting it restores the form data exactly |
| BooksForm.GeneralInfoValidIff | src/features/books/component/books-form/books-form.tsx:228-233 | valid exactly when title, author, isbn, category and publisher each have a non-whitespace character; the numeric fields never matter |
| BooksForm.PayloadTrimmed | src/features/books/component/books-form/books-form.tsx:202-206 | Title, Author, ISBN and Publisher are the typed text trimmed; Category is sent as chosen; each number field is its text read by toNumberOrUndefined |
| BooksForm.ValidFormPayload | src/features/books/component/books-form/books-form.tsx:201-206 | a validated form gives a payload with non-empty required fields |
| BooksForm.PayloadOptionalFields | src/features/books/component/books-form/books-form.tsx:210-211 | CoverImageId is absent exactly when there is no cover; CoverImageId is otherwise the cover URL; Description is absent exactly when it is blank, and otherwise the trimmed description, non-empty |
| LastUpdatedFilter.StrategyOf | src/features/books/component/advance-table-columns/advance-table-columns.tsx:173-186 | a strategy is found exactly for the six known type tags |
| LastUpdatedFilter.Formatted | src/features/books/component/advance-table-columns/advance-table-columns.tsx:168-170 | a date is formatted exactly when it is present and non-empty |
| LastUpdatedFilter.UnfilteredAcceptsAll | src/features/books/component/advance-table-columns/advance-table-columns.tsx:165-186 | a missing filter value, or a missing or unknown type, accepts every row |
| LastUpdatedFilter.NoDateRejects | src/features/books/component/advance-table-columns/advance-table-columns.tsx:175-177 | date, after and before reject every row when no date is given |
| LastUpdatedFilter.DateAfterBeforePartition | src/features/students/component/advance-table-columns/advance-table-columns.tsx:132-134 | with a date, date accepts exactly the rows equal to the formatted date, after exactly those sorting strictly later, before exactly those sorting strictly earlier, and exactly one of the three accepts any row |
| LastUpdatedFilter.DateRangeInclusive | src/features/books/component/advance-table-columns/advance-table-columns.tsx:178-182 | date_range needs both bounds and accepts exactly the rows between them, bounds included |
| LastUpdatedFilter.ReversedRangeEmpty | src/features/students/component/advance-table-columns/advance-table-columns.tsx:135-139 | a range whose end is before its start accepts no row |
| LastUpdatedFilter.OneDayRangeIsDate | src/features/students/component/advance-table-columns/advance-table-columns.tsx:132-139 | a one-day range accepts exactly the rows the date strategy accepts for that day |
| LastUpdatedFilter.NoEntryIffEmpty | src/features/students/component/advance-table-columns/advance-table-columns.tsx:140 | no_entry accepts exactly the rows whose value is '' |
| BookColumns.TextValueTrimmed | src/features/books/component/advance-table-columns/advance-table-columns.tsx:34-90 | a text column's value is its field trimmed, has no surrounding whitespace, and is blank exactly when the field is |
| BookColumns.CopyValueReadsBack | src/features/books/component/advance-table-columns/advance-table-columns.tsx:118-132 | a copy-count column reads back as the count, a missing count as 0 |
| BookColumns.MissingCopiesShowZero | src/features/books/component/advance-table-columns/advance-table-columns.tsx:118-132 | a missing copy count is shown as '0' |
| BookColumns.YearValueReadsBack | src/features/books/component/advance-table-columns/advance-table-columns.tsx:104 | the year column is '' exactly when the year is absent, and reads back as the year otherwise |
| BookColumns.NoEntryIffNoDate | src/features/books/component/advance-table-columns/advance-table-columns.tsx:146-183 | no_entry keeps exactly the books without a last-updated date |
| StudentColumns.TextValueTrimmed | src/features/students/component/advance-table-columns/advance-table-columns.tsx:32-92 | a text column's value is its field trimmed, has no surrounding whitespace, is blank exactly when the field is, and is '' for a missing grade |
| StudentColumns.NoEntryIffNoDate | src/features/students/component/advance-table-columns/advance-table-columns.tsx:104-140 | no_entry keeps exactly the students without a last-updated date |
| StudentColumns.TodayIffSameDay | src/features/students/component/advance-table-columns/advance-table-columns.tsx:131 | today keeps exactly the students whose formatted date is today's |
| BookDetails.FirstMatch | src/features/books/component/advance-book-details/advance-book-details.tsx:39 | the index of the first book whose trimmed id is the key; none exactly when no book matches |
| BookDetails.SelectedBookIsFirstMatch | src/features/books/component/advance-book-details/advance-book-details.tsx:38-41 | the selected book is the first whose trimmed id equals the trimmed route id; none only when no book matches |
| BookDetails.FieldChangeIsLocal | src/features/books/component/advance-book-details/advance-book-details.tsx:61-72 | editing one key changes only the update-input field that key feeds, as Apply states field by field |
| BookDetails.NothingEditedNothingSent | src/features/books/component/advance-book-details/advance-book-details.tsx:61-72 | with nothing edited the update input is empty |
| BookDetails.ClearedFields | src/features/books/component/advance-book-details/advance-book-details.tsx:62-70 | a cleared text field or year is dropped, a cleared copy count is sent as 0, a cleared description is sent as '' |
| BookDetails.EditedYearSent | src/features/books/component/advance-book-details/advance-book-details.tsx:67 | an edited year typed as an integer is sent as that integer |
| BookDetails.UpdateFilterNamesBook | src/features/books/component/advance-book-details/advance-book-details.tsx:77 | the update filter parses back to exactly the book's id |
| BookDetails.BookDetailsPage.constructor | src/features/books/component/advance-book-details/advance-book-details.tsx:21-23 | not editing, no edited fields |
| BookDetails.BookDetailsPage.HandleEditDetails | src/features/books/component/advance-book-details/advance-book-details.tsx:51 | edit mode is on |
| BookDetails.BookDetailsPage.HandleCancelEdit | src/features/books/component/advance-book-details/advance-book-details.tsx:52-55 | edit mode is off and no field is edited |
| BookDetails.BookDetailsPage.HandleFieldChange | src/features/books/component/advance-book-details/advance-book-details.tsx:93-95 | only the named key is overwritten |
| BookDetails.BookDetailsPage.HandleUpdateDetails | src/features/books/component/advance-book-details/advance-book-details.tsx:57-91 | no request when no book is selected; otherwise the JSON id filter and the edited input; success resets the edit state, an error keeps it |
| BookDetails.BookDetailsPage.HandleDelete | src/features/books/component/advance-book-details/advance-book-details.tsx:140-145 | no request without a route id; otherwise a hard delete whose JSON filter parses back to the route id |
| StudentDetails.FirstMatch | src/features/students/component/advance-student-details/advance-student-details.tsx:38 | the index of the first student whose id is exactly the key; none exactly when no student matches |
| StudentDetails.SelectedStudentIsFirstMatch | src/features/students/component/advance-student-details/advance-student-details.tsx:36-40 | the selected student is the first whose id equals the route id; a missing route id only matches the id 'undefined' |
| StudentDetails.UntrimmedLookup | src/features/students/component/advance-student-details/advance-student-details.tsx:38 | ids are compared untrimmed: a route id with a trailing space does not match |
| StudentDetails.EditedInputFields | src/features/students/component/advance-student-details/advance-student-details.tsx:58-65 | each field is present exactly when its key was edited to a non-empty value, and then carries that value |
| StudentDetails.FieldChangeIsLocal | src/features/students/component/advance-student-details/advance-student-details.tsx:85-87 | editing one key changes only the field that key feeds |
| StudentDetails.SafeOptions | src/features/students/component/advance-student-details/advance-student-details.tsx:97 | exactly the non-empty options are kept, each as often as in the input |
| StudentDetails.SafeOptionsAppend | src/features/students/component/advance-student-details/advance-student-details.tsx:97 | filtering distributes over concatenation, so the kept options keep their order |
| StudentDetails.GradeOptionsSafe | src/features/students/component/advance-student-details/advance-student-details.tsx:20 | the grade select keeps every grade option |
| StudentDetails.StudentDetailsPage.constructor | src/features/students/component/advance-student-details/advance-student-details.tsx:24-25 | not editing, no edited fields |
| StudentDetails.StudentDetailsPage.HandleEditDetails | src/features/students/component/advance-student-details/advance-student-details.tsx:49 | edit mode is on |
| StudentDetails.StudentDetailsPage.HandleCancelEdit | src/features/students/component/advance-student-details/advance-student-details.tsx:50-53 | edit mode is off and no field is edited |
| StudentDetails.StudentDetailsPage.HandleFieldChange | src/features/students/component/advance-student-details/advance-student-details.tsx:85-87 | only the named key is overwritten |
| StudentDetails.StudentDetailsPage.HandleUpdateDetails | src/features/students/component/advance-student-details/advance-student-details.tsx:55-83 | no request when no student is selected; otherwise the JSON id filter and the edited input; success resets the edit state, an error keeps it |
| StudentDetails.StudentDetailsPage.HandleDelete | src/features/students/component/advance-student-details/advance-student-details.tsx:139-150 | no request without a route id; otherwise a hard delete whose filter is `{_id: "<id>"}` with the route id as typed, which does not parse as the JSON id filter |
| ViewOptions.LockedIds | src/features/books/component/advance-table-view-options/advance-table-view-options.tsx:35-38 | an id is locked exactly when it is Title, Author, ISBN or one of the disabled columns |
| ViewOptions.Displayed | src/features/books/component/advance-table-view-options/advance-table-view-options.tsx:93 | a column with an override shows the override; one without shows its actual visibility |
| ViewOptions.ListedColumns | src/features/books/component/advance-table-view-options/advance-table-view-options.tsx:88-90 | exactly the columns other than select are listed |
| ViewOptions.ListedColumnsAppend | src/features/books/component/advance-table-view-options/advance-table-view-options.tsx:88-91 | the listed columns keep the table's order |
| ViewOptions.ListedWithoutSelect | src/features/books/component/advance-table-view-options/advance-table-view-options.tsx:88-91 | with no select column every column is listed, in order |
| ViewOptions.ViewOptionsMenu.constructor | src/features/books/component/advance-table-view-options/advance-table-view-options.tsx:35-42 | allChecked starts as "every column is visible or cannot be hidden" |
| ViewOptions.ViewOptionsMenu.SetColumnVisibility | src/features/books/component/advance-table-view-options/advance-table-view-options.tsx:24 | the override prop is replaced |
| ViewOptions.ViewOptionsMenu.ApplyOverrides | src/features/books/component/advance-table-view-options/advance-table-view-options.tsx:45-52 | the visibility becomes Overridden of the old visibility |
| ViewOptions.ViewOptionsMenu.SyncAllChecked | src/features/books/component/advance-table-view-options/advance-table-view-options.tsx:55-58 | allChecked becomes "every column is visible or cannot be hidden" |
| ViewOptions.ViewOptionsMenu.HandleToggleAll | src/features/books/component/advance-table-view-options/advance-table-view-options.tsx:60-68 | allChecked is negated and the visibility becomes ToggledAll of the old visibility with the new value |
| ViewOptions.ViewOptionsMenu.ToggleColumn | src/features/books/component/advance-table-view-options/advance-table-view-options.tsx:97-100 | an enabled, listed checkbox sets only its own column |
| ViewOptions.DisabledIffNotToggleable | src/features/books/component/advance-table-view-options/advance-table-view-options.tsx:64-92 | a checkbox is disabled exactly for the columns toggle-all leaves alone |
| ViewOptions.ToggleAllKeepsDisabled | src/features/books/component/advance-table-view-options/advance-table-view-options.tsx:63-67 | toggle-all keeps every locked or unhideable column and sets every other one to the new value |
| ViewOptions.ToggleAllIdempotent | src/features/books/component/advance-table-view-options/advance-table-view-options.tsx:63-67 | toggling all to the same value twice is toggling once |
| ViewOptions.SelectAllThenSync | src/features/books/component/advance-table-view-options/advance-table-view-options.tsx:55-68 | after select-all, allChecked stays true exactly when no locked hideable column is hidden |
| ViewOptions.DeselectAllThenSync | src/features/books/component/advance-table-view-options/advance-table-view-options.tsx:55-68 | after deselect-all with one toggleable column, allChecked stays false |
| ViewOptions.ToggleAllWithoutToggleable | src/features/books/component/advance-table-view-options/advance-table-view-options.tsx:55-68 | with no toggleable column, toggle-all leaves the visibility and hence the synchronised allChecked unchanged |
| ViewOptions.OverridesChangeOnlyListed | src/features/books/component/advance-table-view-options/advance-table-view-options.tsx:46-50 | the override effect changes only columns with an entry, sets those to it, and afterwards each checkbox shows actual visibility |
| ViewOptions.OverridesIdempotent | src/features/books/component/advance-table-view-options/advance-table-view-options.tsx:46-50 | applying the same overrides twice is applying them once |
| Paging.WithTotalCount | src/pages/books/books.tsx:75-78 | a refresh replaces totalCount and keeps pageIndex and pageSize |
| Paging.WithPage | src/pages/students/students.tsx:78-87 | a pagination change sets pageIndex and pageSize and keeps totalCount |
| Paging.Query | src/pages/books/books.tsx:40-43 | the requested page number is pageIndex + 1 with the same page size |
| Paging.QueryIgnoresTotal | src/pages/students/students.tsx:27-40 | a refresh never changes the query; the first query asks for page 1 of 10 |
| BooksPage.MapRows | src/pages/books/books.tsx:52-72 | one row per item, the i-th row mapped from the i-th item |
| BooksPage.MapRowsAppend | src/pages/books/books.tsx:52 | mapping keeps the backend's order over concatenation |
| BooksPage.MissingResultIsEmpty | src/pages/books/books.tsx:50-77 | a missing Bookss result gives no rows and totalCount 0 |
| BooksPage.MappedTextColumns | src/pages/books/books.tsx:54-58 | a mapped row's text columns show the backend field trimmed, '' when missing |
| BooksPage.MappedCopyColumns | src/pages/books/books.tsx:60-61 | a mapped row's copy columns read back as the count, 0 when missing |
| BooksPage.MappedNoEntry | src/pages/books/books.tsx:67 | a mapped row passes no_entry exactly when the backend had no date |
| BooksPage.BooksListPage.constructor | src/pages/books/books.tsx:29-34 | no rows; pagination 0 / 10 / 0 |
| BooksPage.BooksListPage.OnData | src/pages/books/books.tsx:45-79 | rows become the mapped items; totalCount is replaced and the page kept |
| BooksPage.BooksListPage.HandlePaginationChange | src/pages/books/books.tsx:81-90 | the pagination becomes WithPage of the old one |
| BooksPage.BooksListPage.CurrentQuery | src/pages/books/books.tsx:40-43 | pageNo is pageIndex + 1, with the current page size |
| StudentsPage.MapRows | src/pages/students/students.tsx:52-68 | one row per item, the i-th row mapped from the i-th item |
| StudentsPage.MapRowsAppend | src/pages/students/students.tsx:52 | mapping keeps the backend's order over concatenation |
| StudentsPage.MissingResultIsEmpty | src/pages/students/students.tsx:50-73 | a missing StudentInfos result gives no rows and totalCount 0 |
| StudentsPage.MappedTextColumns | src/pages/students/students.tsx:54-59 | a mapped row's text columns show the backend field trimmed, '' when missing |
| StudentsPage.MappedNoEntry | src/pages/students/students.tsx:63 | a mapped row passes no_entry exactly when the backend had no date |
| StudentsPage.StudentsListPage.constructor | src/pages/students/students.tsx:26-31 | no rows; pagination 0 / 10 / 0 |
| StudentsPage.StudentsListPage.OnData | src/pages/students/students.tsx:45-75 | rows become the mapped items; totalCount is replaced and the page kept |
| StudentsPage.StudentsListPage.HandlePaginationChange | src/pages/students/students.tsx:78-87 | the pagination becomes WithPage of the old one |
| StudentsPage.StudentsListPage.CurrentQuery | src/pages/students/students.tsx:37-40 | pageNo is pageIndex + 1, with the current page size |
| Text.Trim | src/features/students/component/student-form/student-form.tsx:263-267 | the result is no longer than the input and has no whitespace at either end |
| Text.TrimIsSlice | src/features/books/component/books-form/books-form.tsx:202-206 | the trimmed text is a slice of the input with only whitespace cut off both sides |
| Text.TrimEmptyIff | src/features/books/component/books-form/books-form.tsx:229-233 | trimming gives '' exactly when the text is all whitespace |
| Text.TrimIdempotent | src/features/books/component/books-form/books-form.tsx:202-206 | trimming twice is trimming once |
| Text.LessIrreflexive | src/features/books/component/advance-table-columns/advance-table-columns.tsx:176-177 | no date is strictly before itself |
| Text.LessTransitive | src/features/books/component/advance-table-columns/advance-table-columns.tsx:178-182 | the string order is transitive |
| Text.LessTrichotomy | src/features/books/component/advance-table-columns/advance-table-columns.tsx:176-177 | of two strings, exactly one is before, equal to, or after the other |
| Text.LessOrEqualIff | src/features/books/component/advance-table-columns/advance-table-columns.tsx:181-182 | <= is < or equality |
| Text.RemoveAll | src/features/students/component/student-form/student-form.tsx:213 | the value is gone and every other element keeps its count |
| Text.RemoveAllAppend | src/features/students/component/student-form/student-form.tsx:213 | removal distributes over concatenation, so the remaining URLs keep their order |
| Text.RemoveAllAfterAppend | src/features/students/component/student-form/student-form.tsx:200-213 | removing a freshly appended value gives the list back |
| Numbers.DigitsRoundTrip | src/features/books/component/advance-table-columns/advance-table-columns.tsx:118 | the decimal digits of a count read back as the count |
| Numbers.IntTextRoundTrip | src/features/books/component/advance-table-columns/advance-table-columns.tsx:104-132 | the decimal text of an integer parses back to it |
| Numbers.ToNumber | src/features/books/component/books-form/books-form.tsx:81 | blank text is 0; other text is NaN exactly when its trimmed form is not optionally signed decimal digits, and otherwise that integer |
| Numbers.ParseSignedDigits | src/features/books/component/books-form/books-form.tsx:81 | digits, '+' digits and '-' digits parse to their value with the sign applied |
| Numbers.LeadingZeroValue | src/features/books/component/books-form/books-form.tsx:81 | a leading zero does not change the value of a run of digits |
| Numbers.ToNumberIgnoresTrim | src/features/books/component/books-form/books-form.tsx:81 | Number of the trimmed text equals Number of the text |
| Numbers.ToNumberOfSignedDigits | src/features/books/component/books-form/books-form.tsx:81 | digit text, unsigned or with '+' or '-', is a number with that value |
| Numbers.ToNumberLeadingZeros | src/features/books/component/books-form/books-form.tsx:81 | a leading zero before digit text does not change the number it reads as |
| Numbers.ToNumberOfIntText | src/features/books/component/advance-book-details/advance-book-details.tsx:67-69 | Number of an integer's decimal text is that integer |
| Json.EscapeRoundTrip | src/features/books/component/advance-book-details/advance-book-details.tsx:77 | the escaped string body unescapes to the string |
| Json.IdFilterRoundTrip | src/features/students/component/advance-student-details/advance-student-details.tsx:70 | the JSON id filter parses back to exactly the id |

## Left out

- The presigned-URL request and the HTTP PUT of each file are network I/O. Each file's
  settled result is a parameter, an optional `(fileId, uploadUrl)`.
- The `Promise.all` concurrency in `handleAddImages` is left out, and so is the `isUploading`
  flag being true while uploads run. The model shows the state once all uploads have
  settled. `HandleAddImages` requires one result per File entry.
- Date parsing and formatting (`new Date`, `format(…, 'yyyy-MM-dd')`) and the wall clock
  are the parameters `fmt` and `today`. A date that `new Date` cannot parse makes
  `format` throw; that path is not modelled.
- `Number(…)` is modelled only on integer decimal text, with an optional sign and
  surrounding whitespace. Decimals, exponents, hexadecimal and `Infinity` read as NaN.
  Floating point is out of scope.
- Numbers.ToNumber: integer text of any length is read exactly. JavaScript rounds
  integers above 2^53 to the nearest double and reads text beyond about 1.8e308 as
  `Infinity`; the model captures neither.
- Numbers.IntText: renders every integer in plain decimal. JavaScript's `${n}` uses
  exponent form from 1e21 on; the years and copy counts the columns render are far smaller.
- BooksForm.ToNumberOrUndefined: because the model reads large integer text exactly, it
  gives that integer where JavaScript's `isFinite` check would give `undefined` (text
  beyond about 1.8e308) or a rounded number (above 2^53).
- The Next button of both create forms is disabled while the general-info validator
  fails; the handlers and the validator are modelled, the button's `disabled` gate is not.
- `filterStrategies[type]` on a key of `Object.prototype` (`toString`, `hasOwnProperty`, …)
  would call the inherited function. The model treats every unknown type as "no
  strategy", which accepts the row.
- String comparison is by code point. JavaScript compares UTF-16 code units, which
  differs only for text outside the Basic Multilingual Plane.
- TanStack's own `toggleVisibility` guard (it ignores columns that cannot be hidden) is
  library code; the model sets the flag unconditionally. Sorting, faceting, pinning
  and the other table internals are out of scope too.
- The GraphQL services, queries, mutations and react-query hooks are left out. Mutation
  outcomes are parameters (`succeeded`, `SubmitOutcome`), and the fetched list is a
  parameter of `OnData` and of the details pages.
- The navigation after a successful delete (to `/books` or `/students`) and the `navigate(-1)`
  back button are not modelled.
- The selected-image effect, toasts, console logging, JSX rendering, CSS, i18n, CSV
  export and the expand-row components are presentation and are not part of this model.
- Record ids are taken to be present, as strings. A book's `PublicationYear` uses one `None`
  for both "missing" and the `''` default the list page gives it.
- Edited-field keys on the details pages are the keys the pages' inputs pass
  (`EditKey`), with string values. A key outside that set, or a numeric value, is not
  modelled.
- StudentForm.StudentFormState.StepperClick: requires a circle index below the step
  count, because the `Stepper` renders only those circles.
- BooksForm.BooksFormState.StepperClick: requires a circle index below the step count,
  for the same reason.
- ViewOptions.ViewOptionsMenu.ToggleColumn: requires the column to be listed and its
  checkbox enabled, because a disabled checkbox fires no change.
