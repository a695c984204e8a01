# SaferUse admin dashboard — a Dafny model of its record handling

SaferUse's admin dashboard is a client-side React application. Administrators log in and manage five kinds of records: clinics, quotes, donations, users and admin accounts. This project models the data handling inside its components as pure Dafny functions over immutable records:

- **Clinics**
  - The clinic list merges four built-in clinics with the clinics stored in the browser.
  - It searches them, and edits and deletes them, both on screen and in storage.
  - The add-clinic page and the edit modal share a form with a tag toggle, an image-type check on uploads and a picture requirement.
- **Dashboard overview.** An in-memory clinic table with its own search, a wholesale edit, a confirmed delete and a four-entry activity log.
- **Quotes.** A quotes page with append, delete by name and replace by name. Its list has a three-field search and the edit and delete gates. Its add page and edit modal validate three required fields.
- **Donations.** A donations page whose add and edit forms reject a falsy amount (0 or NaN). It edits by the original title and deletes behind a confirmation. Its list has a three-field search.
- **Users.** A users page that loads from storage, adds, overlays an edit by id, deletes after confirmation, searches, and writes every change back.
- **Admin settings.** A settings page that validates five required fields and the unanchored e-mail pattern `\S+@\S+\.\S+`. It appends admins under a fresh id and deletes by id.
- **App shell.**
  - It seeds the default admins when none are stored.
  - It decides a login: the super-admin pair first, then the first stored admin whose email and password match.
  - It logs out and restores the session flags on load.

## Model layout

- **Shared modules**
  - `Wrappers`: `Option`.
  - `Text`: JavaScript white space, ASCII `toLowerCase`, `includes`, `trim`, `startsWith`.
  - `EmailPattern`: the e-mail regular expression, as a scan proved equal to its match definition.
  - `Lists`: `filter`, a selective `map`, `find`, and the include-or-remove toggle.
  - `Entities`: the records and JavaScript truthiness of pictures and numbers.
  - `Storage`: `localStorage` as a map from key to an already parsed value.
- **One module per component**
  - `ClinicList`, `ClinicForm` (the form code that `AddClinic` and `EditClinicModal` repeat verbatim), `AddClinic`, `EditClinicModal`.
  - `MainContent`.
  - `QuotesPage`, `QuotesList`, `QuoteForm` (shared by `AddQuote` and `EditQuoteModal`), `AddQuote`, `EditQuoteModal`.
  - `DonationsPage`, `DonationsList`.
  - `UsersPage`, `SettingsPage`, `App`.
- **Inputs.** Clocks, file readers, object URLs and `window.confirm` are parameters: a `now`/`today` value, a `dataUrl`/`objectUrl` string, and a `confirmed` flag.
- **Outputs.** Calls on a parent component (`onSave`, `onDelete`, ...) are returned as a list of callback values.

Where a record may lack a property, the field is an `Option`. JavaScript `||` defaults and falsiness are written out:
- the empty string is falsy;
- `0` and `NaN` are the falsy numbers;
- a `File` object is always truthy.

## Model

| member | source | states |
|---|---|---|
| Lists.Filter | src/components/clinics/ClinicList.jsx:107 | `filter` keeps exactly the elements that satisfy the test, in their original relative order; if every element passes the list is returned whole, if none does the result is empty |
| Lists.FilterCounts | src/components/clinics/ClinicList.jsx:107 | `filter` keeps every copy of a kept value and no copy of a dropped one, which together with the order pins the result down |
| Lists.FilterDropsOne | src/pages/SettingsPage.jsx:61 | filtering out the one element the test rejects shortens the list by exactly one |
| Lists.FilterShorter | src/pages/UsersPage.jsx:72 | filtering out any element makes the list strictly shorter |
| Lists.MapWhere | src/pages/QuotesPage.jsx:44-46 | the selective `map` keeps length and positions, rewrites each selected element and leaves every other element as it was |
| Lists.Find | src/App.jsx:56 | `find` returns nothing exactly when no element passes, and otherwise the element at the first passing position |
| Lists.Toggle | src/components/clinics/AddClinic.jsx:58-60 | the toggle flips the membership of the toggled value and of no other value |
| Lists.ToggleTwice | src/components/clinics/AddClinic.jsx:58-60 | toggling an absent value on and off again gives back the original list, order included |
| Lists.ToggleNoDuplicates | src/components/clinics/AddClinic.jsx:58-60 | a toggle never puts a value into the list twice |
| Text.Lower | src/components/clinics/ClinicList.jsx:65 | lower-casing keeps the length and maps each position independently, changing only ASCII capitals |
| Text.IncludesIff | src/components/clinics/ClinicList.jsx:67 | `includes` holds exactly when the needle occurs at some index of the haystack |
| Text.ContainsIgnoringCaseIff | src/pages/UsersPage.jsx:79-81 | the case-insensitive field test holds exactly when the lowered query occurs in the lowered field; the empty query occurs in every field |
| Text.TrimEmptyIff | src/components/clinics/ClinicList.jsx:62 | `trim()` yields the empty string exactly when every character is JavaScript white space |
| EmailPattern.TestIff | src/pages/SettingsPage.jsx:49 | the left-to-right scan accepts an address exactly when some substring of it has the form run@run.run of non-space characters |
| EmailPattern.Examples | src/pages/SettingsPage.jsx:49 | "a@b.c" and an address buried in surrounding text pass; "a@b", "a @b.c" and the empty string fail |
| ClinicForm.HandleChange | src/components/clinics/AddClinic.jsx:34-40 | a typed value lands in the named input only; tags, picture, error and preview stay |
| ClinicForm.HandleTypeToggle | src/components/clinics/AddClinic.jsx:55-62 | the toggled tag changes membership, every other tag and every other form field stays |
| ClinicForm.TypeToggleTwice | src/components/clinics/EditClinicModal.jsx:40-47 | selecting and deselecting a tag restores the form exactly |
| ClinicForm.TypeToggleNoDuplicates | src/components/clinics/EditClinicModal.jsx:43-45 | a tag list without repeats never gains one through the toggle |
| ClinicForm.HandleFileChange | src/components/clinics/AddClinic.jsx:42-53 | no file changes nothing; an image file becomes the picture, clears the error and sets the preview; any other file sets only the "Please upload an image file" error |
| ClinicForm.FileAcceptedIff | src/components/clinics/EditClinicModal.jsx:49-60 | a file becomes the picture exactly when its media type starts with "image/" (or it already was the picture), and the upload error appears exactly for the other files |
| AddClinic.FreshFormShape | src/components/clinics/AddClinic.jsx:8-19 | the page opens with no tags, office hours 09:00 to 17:00 and no picture, so an immediate submit is refused |
| AddClinic.HandleSubmit | src/components/clinics/AddClinic.jsx:64-100 | a submit is refused, with the "Clinic picture is required" error and storage untouched, exactly when the picture is falsy; otherwise the stored list grows by one clinic at its end, carrying every form field, the encoded picture and today's date, and no other key changes |
| AddClinic.ImageFileMakesFormSubmittable | src/components/clinics/AddClinic.jsx:44-75 | the picture is the only validated field: once an image file is accepted the form is saved, however empty the other fields are |
| AddClinic.NonImageFileKeepsRejection | src/components/clinics/AddClinic.jsx:49-75 | a rejected file does not make a picture-less form submittable |
| EditClinicModal.Init | src/components/clinics/EditClinicModal.jsx:6-21 | the form starts from the clinic's values: non-empty office hours are kept, missing or empty ones become '00:00'; missing text becomes '', missing tags [], and a falsy picture none; the preview starts at the clinic's picture or '' |
| EditClinicModal.HandleSubmit | src/components/clinics/EditClinicModal.jsx:62-77 | the modal calls nothing and shows the picture error exactly when both picture and preview are falsy; otherwise it calls `onSave` with the form and then `onClose` |
| EditClinicModal.ApplyEditsKeepPicture | src/components/clinics/EditClinicModal.jsx:32-47 | typing into inputs and toggling tags never changes the picture or the preview |
| EditClinicModal.ExistingPictureAlwaysPasses | src/components/clinics/EditClinicModal.jsx:67-76 | because the preview starts at the clinic's picture, a clinic that has one is always saved, whatever edits follow |
| EditClinicModal.NoPictureRefused | src/components/clinics/EditClinicModal.jsx:67-73 | a clinic without a picture cannot be saved until a file is accepted |
| EditClinicModal.UntouchedSaveIsIdentity | src/components/clinics/EditClinicModal.jsx:6-17 | saving the untouched modal over a clinic that already has every field gives back that clinic |
| EditClinicModal.UntouchedSaveFillsDefaults | src/components/clinics/EditClinicModal.jsx:7-15 | saving the untouched modal over a built-in clinic that lacks fields writes the defaults ('' description, [] tags, '00:00' hours) into it |
| ClinicList.MergeInto | src/components/clinics/ClinicList.jsx:49-55 | the merge keeps the starting list as a prefix and adds at most one clinic per saved clinic |
| ClinicList.MergeIntoNames | src/components/clinics/ClinicList.jsx:51-55 | the merged names are exactly the built-in names together with the saved names |
| ClinicList.MergeIntoDistinct | src/components/clinics/ClinicList.jsx:51-55 | a name already present is never pushed again, so distinct names stay distinct |
| ClinicList.MergeIntoOrder | src/components/clinics/ClinicList.jsx:49-55 | the clinics added after the built-ins appear in stored order |
| ClinicList.MergeIntoFirst | src/components/clinics/ClinicList.jsx:51-55 | each added clinic has a name no built-in has and is the first stored clinic of that name |
| ClinicList.SeedNamesDistinct | src/components/clinics/ClinicList.jsx:15-38 | the four built-in clinics have distinct names |
| ClinicList.MatchesIff | src/components/clinics/ClinicList.jsx:66-70 | a clinic matches exactly when the term occurs in its lowered name, its lowered address, or its lowered description when it has a non-empty one |
| ClinicList.Search | src/components/clinics/ClinicList.jsx:61-73 | the rows on show are the clinic list with the non-matching clinics left out, order kept; a blank trimmed query keeps every clinic, and every kept clinic stays as many times as it occurred |
| ClinicList.SearchSpec | src/components/clinics/ClinicList.jsx:62-71 | a query of white space alone shows every clinic; any other query shows exactly the clinics matching the lowered, untrimmed query |
| ClinicList.WithoutName | src/components/clinics/ClinicList.jsx:107-111 | the clinics not carrying a name are kept, in order and with their number of copies, and no clinic of the name remains |
| ClinicList.MountSpec | src/components/clinics/ClinicList.jsx:44-59 | after mounting, the list is the four built-ins in order, then stored clinics in stored order, each the first of its name and named unlike any built-in; names are pairwise distinct and cover all built-in and stored names |
| ClinicList.HandleEditSave | src/components/clinics/ClinicList.jsx:84-99 | the form is laid over every clinic named like the selected one, both on screen and in the stored list; positions, other clinics, `dateAdded` and every other storage key are kept, and the modal closes |
| ClinicList.EditOfBuiltInNotStored | src/components/clinics/ClinicList.jsx:91-95 | editing a clinic that exists only as a built-in leaves the stored list as it was |
| ClinicList.HandleDeleteConfirm | src/components/clinics/ClinicList.jsx:106-117 | every clinic named like the pending one leaves both the screen and the stored list, the others keep their order and their number of copies in each, and the marker clears |
| ClinicList.DeleteThenRemount | src/components/clinics/ClinicList.jsx:111-113 | after a delete, the next mount shows the deleted name again exactly when it belongs to a built-in clinic |
| ClinicList.AddThenList | src/components/clinics/ClinicList.jsx:44-58 | with nothing stored, adding "Test Clinic" with a picture makes the list the built-ins followed by exactly that clinic |
| ClinicList.DeleteAddedClinic | src/components/clinics/ClinicList.jsx:106-113 | deleting that clinic brings both the screen and the next mount back to the built-ins |
| MainContent.Init | src/components/MainContent.jsx:29-36 | the dashboard starts with six distinctly named clinics, all on show, no pending edit or delete, and four log entries with distinct ids |
| MainContent.Search | src/components/MainContent.jsx:161-171 | the rows on show are the clinic list with the non-hits left out, order kept; a blank query keeps every clinic, and every kept clinic stays as many times as it occurred, duplicates from a namesake edit included |
| MainContent.HitIff | src/components/MainContent.jsx:165-168 | a clinic is a hit exactly when the lowered query occurs in its lowered name or lowered address |
| MainContent.SearchSpec | src/components/MainContent.jsx:162-168 | a white-space query shows every clinic; any other query shows exactly the clinics whose name or address contains it, ignoring ASCII case |
| MainContent.Settle | src/components/MainContent.jsx:161-171 | the search effect recomputes the rows on show and changes nothing else |
| MainContent.Shown | src/components/MainContent.jsx:470-471 | the table lists exactly the first five rows on show, or all of them when there are five or fewer |
| MainContent.LogActivityAsWritten | src/components/MainContent.jsx:214-223 | the page's log gains the new entry in front, numbered one past the log's length, and keeps at most the three newest older entries, so it never exceeds four |
| MainContent.MaxId | src/components/MainContent.jsx:215 | the largest id bounds every id in the log and belongs to one of its entries |
| MainContent.LogActivity | src/components/MainContent.jsx:214-223 | the corrected log gains the new entry in front, with an id above every id already logged (see Findings), and keeps at most the three newest older entries, so it never exceeds four |
| MainContent.LogActivityKeepsIdsDistinct | src/components/MainContent.jsx:414 | logging keeps the ids, which key the rendered list, pairwise distinct |
| MainContent.Log | src/components/MainContent.jsx:214-223 | under either numbering the new entry goes in front, the three newest older entries stay and the log never exceeds four; the page's numbering gives one past the length, the corrected one an id above every logged id |
| MainContent.ConfirmDelete | src/components/MainContent.jsx:207-224 | every clinic with the pending name goes (none when nothing is pending), the others keep their order and number of copies; the rows on show become the new list, the marker clears and a "Deleted clinic" entry is logged under the chosen numbering, the page's or the corrected one |
| MainContent.CancelDelete | src/components/MainContent.jsx:226-228 | cancelling clears the marker and changes nothing else |
| MainContent.DeleteThenSettle | src/components/MainContent.jsx:208-210 | once the search effect runs after a delete, the rows on show are the search over the remaining clinics |
| MainContent.HandleDraftChange | src/components/MainContent.jsx:592-617 | each input of the edit form sets its own field of the draft and nothing else |
| MainContent.HandleSaveEdit | src/components/MainContent.jsx:230-248 | every clinic named like the edited one is replaced wholesale by the draft, positions and other clinics kept; the rows on show become the new list, the edit resets and an "Updated clinic" entry is logged under the chosen numbering, the page's or the corrected one |
| MainContent.CancelEdit | src/components/MainContent.jsx:250-252 | cancelling clears the edited name and keeps the draft |
| MainContent.ApplyLog | src/components/MainContent.jsx:207-252 | only a save and a confirmed delete write to the log; every other action leaves it as it was |
| MainContent.SaveUntouchedEdit | src/components/MainContent.jsx:193-196 | editing a uniquely named clinic and saving it untouched leaves the clinics as they were |
| MainContent.SaveEditCollapsesNamesakes | src/components/MainContent.jsx:231 | two clinics sharing the edited name both become the draft |
| MainContent.ApplyKeepsLogWellFormed | src/components/MainContent.jsx:207-252 | no single action, under the page's numbering or the corrected one, lets the log exceed four entries; under the corrected numbering none repeats an id |
| MainContent.RunInvariant | src/components/MainContent.jsx:207-252 | through any sequence of actions, under the page's numbering or the corrected one, the log holds at most four entries and after a search action the rows on show are the search over the clinics; only the corrected numbering keeps the ids distinct |
| MainContent.ActivityLogStaysWellFormed | src/components/MainContent.jsx:84-89 | from the opened page, whatever the user does, the page's log keeps at most four entries, as does the corrected one; only the corrected numbering never repeats an id (the page's does, see PageRunRepeatsIds) |
| MainContent.ActivityIdsCollide | src/components/MainContent.jsx:215 | with the page's numbering, two deletes after opening the page leave the two newest log entries with the same id, 5 |
| MainContent.PageRunRepeatsIds | src/components/MainContent.jsx:207-224 | on the page as written, opening the dashboard and deleting two clinics leaves two log entries numbered 5, so the ids are no longer distinct |
| QuoteForm.HandleChange | src/components/quotes/AddQuote.jsx:45-51 | a field change updates only the named field; the others and the date are kept |
| QuoteForm.Validate | src/components/quotes/AddQuote.jsx:25-29 | each flag is raised exactly when its field is empty |
| QuoteForm.Submit | src/components/quotes/AddQuote.jsx:31-39 | the flags are recomputed, and the form goes on, unchanged and with all flags clear, exactly when all three fields are filled in |
| QuoteForm.ResubmitRecomputesFlags | src/components/quotes/AddQuote.jsx:25-31 | flags are overwritten on every submit: a field filled in after a refusal loses its flag and the others reflect their own emptiness |
| AddQuote.Fresh | src/components/quotes/AddQuote.jsx:8-19 | the page opens with three empty fields, no flags and today's date |
| AddQuote.HandleSubmit | src/components/quotes/AddQuote.jsx:21-43 | `onAddQuote` receives the form, date included, exactly when all three fields are non-empty; the flags mark the empty fields |
| AddQuote.HandleInput | src/components/quotes/AddQuote.jsx:45-51 | typing changes only the named field and leaves the flags |
| AddQuote.FillInThenSubmit | src/components/quotes/AddQuote.jsx:8-43 | submitting the untouched page raises all three flags and adds nothing; filling all three fields adds exactly that quote with the opening date |
| EditQuoteModal.Init | src/components/quotes/EditQuoteModal.jsx:17-26 | the modal's form is a copy of the quote's four fields with no flags |
| EditQuoteModal.HandleSubmit | src/components/quotes/EditQuoteModal.jsx:28-46 | `onSave` is called, with the form, exactly when no field is empty; each flag marks its field's emptiness |
| EditQuoteModal.HandleInput | src/components/quotes/EditQuoteModal.jsx:48-54 | typing changes only the named field, keeping the date and the flags |
| EditQuoteModal.SaveUntouched | src/components/quotes/EditQuoteModal.jsx:17-46 | saving straight away hands back the quote itself when its fields are filled in, and nothing otherwise |
| EditQuoteModal.RenameKeepsDate | src/components/quotes/EditQuoteModal.jsx:48-54 | a renamed quote is saved differing from the original in its name only |
| QuotesList.HitIff | src/components/quotes/QuotesList.jsx:13-17 | a quote is a hit exactly when the lowered query occurs in its lowered name, description or address; the empty query hits every quote |
| QuotesList.Filtered | src/components/quotes/QuotesList.jsx:13-17 | the rows on show are the quotes with the non-hits left out, order kept, each hit as many times as it occurs in the list |
| QuotesList.FilteredSpec | src/components/quotes/QuotesList.jsx:13-17 | a quote is on show exactly when it is a hit for the untrimmed query; the empty query shows the whole list |
| QuotesList.HandleSaveEdit | src/components/quotes/QuotesList.jsx:23-26 | saving forwards the updated quote as the only call and closes the modal |
| QuotesList.HandleCancelEdit | src/components/quotes/QuotesList.jsx:28-30 | cancelling the edit only closes the modal |
| QuotesList.HandleConfirmDelete | src/components/quotes/QuotesList.jsx:36-39 | confirming passes the pending quote's name as the only call and clears the marker |
| QuotesList.HandleCancelDelete | src/components/quotes/QuotesList.jsx:41-43 | cancelling the delete clears the marker, calls nothing and changes nothing else |
| QuotesPage.AddQuote | src/pages/QuotesPage.jsx:35-37 | the new quote goes at the end, the existing quotes stay in place |
| QuotesPage.DeleteQuote | src/pages/QuotesPage.jsx:39-41 | every quote with the name goes, the others keep their order and their number of copies, and an absent name changes nothing |
| QuotesPage.EditQuote | src/pages/QuotesPage.jsx:43-47 | every quote carrying the updated quote's (new) name is replaced by it, length and other quotes kept |
| QuotesPage.EditRenamedIsLost | src/pages/QuotesPage.jsx:44-46 | a renamed quote matches nothing, so the edit leaves the list unchanged |
| QuotesPage.EditOwnValues | src/pages/QuotesPage.jsx:44-46 | saving a quote's own values changes nothing when it has no namesake |
| QuotesPage.AddThenDelete | src/pages/QuotesPage.jsx:35-41 | adding a quote under a new name and deleting that name gives back the list |
| QuotesPage.ConfirmDeleteRemoves | src/pages/QuotesPage.jsx:39-41 | confirming a delete in the list leaves no quote of the pending name on the page |
| QuotesPage.EditUntouchedRoundTrip | src/pages/QuotesPage.jsx:43-47 | opening the edit modal on a filled-in quote without namesakes and saving untouched leaves the page's list unchanged |
| QuotesPage.InitialNamesDistinct | src/pages/QuotesPage.jsx:8-33 | the four initial quotes have distinct names |
| DonationsPage.Missing | src/pages/DonationsPage.jsx:131-137 | a flag marks each empty text field, and the amount is flagged exactly when it is 0 or NaN |
| DonationsPage.Init | src/pages/DonationsPage.jsx:6-82 | the page starts with six complete donations and no open form or pending action |
| DonationsPage.ApplyChange | src/pages/DonationsPage.jsx:219-253 | each input sets its own field of a draft and leaves date and image |
| DonationsPage.ConfirmDelete | src/pages/DonationsPage.jsx:90-93 | every donation with the pending title goes, the others keep their order and their number of copies, and the marker clears |
| DonationsPage.CancelDelete | src/pages/DonationsPage.jsx:95-97 | cancelling leaves the donations and clears the marker |
| DonationsPage.HandleSaveEdit | src/pages/DonationsPage.jsx:104-117 | an incomplete draft only sets the flags; a complete one replaces every donation carrying the title the edit started from, positions kept, and resets the edit |
| DonationsPage.CancelEdit | src/pages/DonationsPage.jsx:119-121 | cancelling clears only the edited title |
| DonationsPage.RenameReplacesInPlace | src/pages/DonationsPage.jsx:100-114 | renaming a uniquely titled donation through the edit form replaces it in place |
| DonationsPage.HandleAddClick | src/pages/DonationsPage.jsx:124-128 | opening the add form resets the draft to blank with today's date and clears every flag |
| DonationsPage.HandleSaveNew | src/pages/DonationsPage.jsx:130-142 | an incomplete draft only sets the flags; a complete one is appended and the form closes |
| DonationsPage.CancelAdd | src/pages/DonationsPage.jsx:144-146 | cancelling closes the form and changes nothing else |
| DonationsPage.AddFlow | src/pages/DonationsPage.jsx:124-142 | the blank draft is refused with all four flags; filling in the texts and any non-zero amount, negative ones included, appends exactly that donation |
| DonationsPage.NaNAmountRefused | src/pages/DonationsPage.jsx:131-138 | an unparsable amount is refused like zero |
| DonationsPage.AddThenDelete | src/pages/DonationsPage.jsx:90-140 | adding a donation under a new title and deleting that title gives back the list |
| DonationsList.HitIff | src/components/donations/DonationsList.jsx:14-18 | a donation is a hit exactly when the lowered query occurs in its lowered title, description or donor; the empty query hits all |
| DonationsList.Filtered | src/components/donations/DonationsList.jsx:14-18 | the rows on show are the donations with the non-hits left out, order kept, each hit as many times as it occurs in the list |
| DonationsList.FilteredSpec | src/components/donations/DonationsList.jsx:14-18 | a donation is on show exactly when it is a hit; the empty query shows the whole list |
| DonationsList.HandleConfirmDelete | src/components/donations/DonationsList.jsx:24-27 | confirming passes the pending donation's title as the only call and clears the marker |
| DonationsList.HandleCancelDelete | src/components/donations/DonationsList.jsx:29-31 | cancelling clears the marker and calls nothing |
| DonationsList.HandleSaveEdit | src/components/donations/DonationsList.jsx:37-40 | saving forwards the updated donation as the only call and closes the modal |
| DonationsList.HandleCancelEdit | src/components/donations/DonationsList.jsx:42-44 | cancelling only closes the modal |
| UsersPage.Mount | src/pages/UsersPage.jsx:20-24 | the page opens with the stored users on screen and the blank form |
| UsersPage.Persist | src/pages/UsersPage.jsx:34 | the write puts the list under the users key and leaves every other key |
| UsersPage.HandleAddUser | src/pages/UsersPage.jsx:26-44 | the corrected add appends one user carrying the form's fields, the creation time and the clock's id (see Findings), the others stay; storage mirrors the list and no other key changes; the form resets, the add modal closes and the rest of the page state is kept |
| UsersPage.HandleEditUser | src/pages/UsersPage.jsx:46-50 | opening the edit selects the user, copies it into the form with its id and creation time, and opens the edit modal; the list, the search and the add modal are untouched |
| UsersPage.HandleUpdateUser | src/pages/UsersPage.jsx:52-68 | the form is laid over exactly the users with the selected id, length and others kept; storage mirrors the list and no other key changes; the form resets, the selection clears and the edit modal closes, the rest of the page state kept |
| UsersPage.CancelEdit | src/pages/UsersPage.jsx:279 | Cancel only hides the edit modal, leaving the copied form |
| UsersPage.OpenAdd | src/pages/UsersPage.jsx:89 | the add button only shows the add modal, over whatever the form holds |
| UsersPage.ChangeForm | src/pages/UsersPage.jsx:171-203 | each input writes the typed value into its own field of the form and leaves every other field, the id and the creation time as they were |
| UsersPage.ApplyChanges | src/pages/UsersPage.jsx:238-270 | any sequence of inputs keeps the form's id and creation time, the selection and the list |
| UsersPage.UpdateKeepsIdentity | src/pages/UsersPage.jsx:46-55 | editing a user and saving keeps that user's id and creation time |
| UsersPage.HandleDeleteUser | src/pages/UsersPage.jsx:70-76 | a refused confirmation changes nothing; a confirmed one removes every user with the id, the others keeping their order and number of copies, and storage mirrors the list with every other key kept |
| UsersPage.HitIff | src/pages/UsersPage.jsx:78-82 | a user is a hit exactly when the lowered query occurs in the lowered first name, last name or email; the empty query hits all |
| UsersPage.Filtered | src/pages/UsersPage.jsx:78-82 | the rows on show are the users with the non-hits left out, order kept, each hit as many times as it occurs in the list |
| UsersPage.FilteredSpec | src/pages/UsersPage.jsx:78-82 | a user is on show exactly when a hit; the empty query shows everyone |
| UsersPage.RunMirrored | src/pages/UsersPage.jsx:26-76 | from a mirrored state, any sequence of actions keeps storage equal to the list on screen, with the page's add and with the corrected one |
| UsersPage.MountedPageStaysMirrored | src/pages/UsersPage.jsx:20-24 | from the mounted page, whatever the user does, storage holds exactly the list on screen, with the page's add and with the corrected one |
| UsersPage.HandleAddUserAsWritten | src/pages/UsersPage.jsx:26-44 | the page's add appends one user carrying the form's fields and the creation time, whose id is the form's id when the form holds one and the clock's otherwise; storage mirrors the list and no other key changes; the form resets, the add modal closes and the rest of the page state is kept |
| UsersPage.CancelledEditLeaksId | src/pages/UsersPage.jsx:27-29 | with the page's add, a cancelled edit makes the next added user take the edited user's id, whatever the clock says |
| UsersPage.PageRunLeaksId | src/pages/UsersPage.jsx:27-29 | on the page as written, the action run edit, Cancel, add, save gives the new user the edited user's id |
| UsersPage.LeakedIdDeletesBoth | src/pages/UsersPage.jsx:70-76 | the leaked id makes ids non-unique, and deleting it removes both users |
| UsersPage.AddKeepsIdsDistinct | src/pages/UsersPage.jsx:27-28 | with the corrected add and an unused clock reading, user ids stay unique whatever the form holds |
| SettingsPage.Mount | src/pages/SettingsPage.jsx:21-24 | the page opens with the stored admins, the blank form and no errors |
| SettingsPage.Persist | src/pages/SettingsPage.jsx:32 | the write puts the list under the admins key and leaves every other key |
| SettingsPage.Validate | src/pages/SettingsPage.jsx:43-54 | a field is flagged exactly when it is empty, or when it is a non-empty email in which the pattern finds no match |
| SettingsPage.ValidIff | src/pages/SettingsPage.jsx:43-53 | the form passes exactly when the five fields are filled in and the email contains a match |
| SettingsPage.HandleAddAdmin | src/pages/SettingsPage.jsx:26-35 | an invalid draft only records its errors; a valid one is appended under the given id and written back, with every other key kept, and the form resets, closes and clears its errors while the pending delete stays |
| SettingsPage.HandleChange | src/pages/SettingsPage.jsx:37-41 | a change sets that field and clears only that field's error |
| SettingsPage.HandleEditAdmin | src/pages/SettingsPage.jsx:71-75 | editing copies the chosen admin, password and id included, into the form and shows it |
| SettingsPage.CancelForm | src/pages/SettingsPage.jsx:140-150 | Cancel hides the form, blanks the draft and clears the errors |
| SettingsPage.EditAppendsCopy | src/pages/SettingsPage.jsx:30 | saving an edited admin appends a copy under a new id and leaves the original in place |
| SettingsPage.HandleDeleteConfirm | src/pages/SettingsPage.jsx:60-65 | every admin whose id equals the pending admin's goes (missing ids compare equal), the others keep their order and number of copies; the list is written back with every other key kept, and the marker clears |
| SettingsPage.HandleDeleteCancel | src/pages/SettingsPage.jsx:67-69 | cancelling clears the marker and leaves the admins |
| SettingsPage.DeleteIdlessRemovesAll | src/pages/SettingsPage.jsx:61 | deleting an id-less admin removes every id-less admin and keeps every admin with an id |
| SettingsPage.DeleteWithId | src/pages/SettingsPage.jsx:61 | with unique ids, deleting an admin that has an id shortens the list by exactly one |
| App.SeedAdmins | src/App.jsx:29-32 | the defaults are written exactly when the key is missing or empty; otherwise storage is untouched |
| App.SeedIdempotent | src/App.jsx:30-32 | seeding twice is seeding once |
| App.Restore | src/App.jsx:33-41 | each flag is on exactly when its key holds the text "true"; the photo comes from the stored logged-in admin |
| App.HandleLogin | src/App.jsx:46-74 | the super-admin pair logs in as super admin writing only the two flags; otherwise the first stored admin with that email and password logs in, its record stored; with no match both flags drop and storage is untouched; a missing admin list fails |
| App.HandleLogout | src/App.jsx:76-82 | logout removes exactly the three session keys and drops both flags |
| App.LoginAfterFirstLoadNeverFails | src/App.jsx:29-56 | after a load from storage whose admins key is missing, empty or holds a list, no login attempt fails for want of an admin list |
| App.FirstMatchLogsIn | src/App.jsx:56-64 | the first matching stored admin is the one logged in, whatever matches further down |
| App.DefaultAccountsLogIn | src/App.jsx:20-25 | each default account logs in with its own password after the first load |
| App.LoggedInAdminHasPassword | src/App.jsx:56 | whoever a stored-admin login lets in carries the typed email and password, so admins added on the settings page, which have no password, never log in |
| App.ReloadKeepsSession | src/App.jsx:33-37 | a reload right after a login restores its flags, and a reload after logout restores a logged-out session |

## Left out

- **Other components.** `Sidebar`, `Header`, `PrivacyPolicy` and `ClinicPage` hold navigation, display toggles and static text, with no record logic.
- **Confirmation modals.** The three delete confirmation components are presentational; the confirmation logic is modelled in the lists and pages that wire them.
- **Donation forms.**
  - `AddDonation` and `EditDonationModal` are pass-through forms whose only logic is `parseFloat`.
  - The page's own amount inputs are modelled as delivering an already parsed number: `Num(value)` or `NaN`.
- **Dashboard panels and form.**
  - `refreshData`, `changeTimePeriod` and the clinic progress figures in `MainContent` use `Math.random`, timers and floating-point percentages.
  - `exportData` is an `alert`, and clearing notifications is a list reset unrelated to the records.
  - The new-clinic form state of `MainContent` (its input, coordinate, time and image handlers) is never submitted anywhere.
- **Browser services.**
  - `FileReader` and `URL.createObjectURL` are parameters.
  - JSON encoding and parse failures of `localStorage` are not modelled: each key holds a parsed value, and a value of the wrong kind reads as an empty list.
  - `Date.now()`, `toLocaleDateString()` and `toISOString()` are parameters.
  - `window.confirm` is a boolean parameter; `alert` and `console.log` have no effect.
- **React and routing.** Routing and React's batching of state updates are not modelled. Each handler is one step on an immutable state; effects are steps the model applies explicitly (`MainContent.Settle`).
- **Case mapping.** `toLowerCase` is modelled on ASCII letters only; other Unicode case mappings are not modelled.
- **Image handlers.** `handleImageChange` of `DonationsPage` is left out because it only copies a file-reader result into a record. `handleProfilePhotoChange` of `App` is left out because nothing calls it: the settings page receives it as `onProfilePhotoChange` and never calls it. The settings page never sets an admin's `profilePhoto` to anything but `''`; the model keeps that field, and `SettingsPage.BlankAdmin` carries `""`.
- **Modal-gated handlers.** `ClinicList.HandleEditSave`, `ClinicList.HandleDeleteConfirm`, `QuotesList.HandleConfirmDelete`, `DonationsList.HandleConfirmDelete`, `UsersPage.HandleUpdateUser` and `SettingsPage.HandleDeleteConfirm` require a pending selection. The source renders the modal or button that calls them only while that selection is set, and dereferences it unguarded.
- App.HandleLogin: the crash on a stored admins value that is no list is modelled as `None` rather than as an exception.
- **Two readings of the defective handlers.** The dashboard's run (`MainContent.Apply`, `MainContent.Run`) and the users page's run (`UsersPage.Apply`, `UsersPage.Run`) take a parameter choosing the page's code as written (`ByLength`, `FormIdWins`) or the corrected code (`ByMaxId`, `ClockOnly`) for the two defects under `Findings`. The log bound and storage mirroring are proved for both readings; distinct ids only for the corrected one.

## Findings

| source | as written | input that shows it | evidently intended | confidence | as-written member | corrected member |
|---|---|---|---|---|---|---|
| src/components/MainContent.jsx:215 | a new activity's id is the log's length plus one, but the log is cut to four entries, so every entry after the first two actions is numbered 5; the ids key the rendered list (line 414) | open the dashboard, delete any clinic, delete another: the two newest entries both have id 5 | ids unique within the log, e.g. one past the largest id | not executed | MainContent.LogActivityAsWritten, MainContent.ActivityIdsCollide, MainContent.PageRunRepeatsIds | MainContent.LogActivity, MainContent.LogActivityKeepsIdsDistinct, MainContent.ActivityLogStaysWellFormed |
| src/pages/UsersPage.jsx:27-29 | the new user is built as `{id: Date.now(), ...formData}`, and a cancelled edit (line 279) leaves the edited user's id in `formData` (line 48), which overrides the fresh id | edit user U, press Cancel, add a user: the new user has U's id, and deleting that id removes both | the new user always receives the fresh id | not executed | UsersPage.HandleAddUserAsWritten, UsersPage.CancelledEditLeaksId, UsersPage.PageRunLeaksId, UsersPage.LeakedIdDeletesBoth | UsersPage.HandleAddUser, UsersPage.AddKeepsIdsDistinct |
