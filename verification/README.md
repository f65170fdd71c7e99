# Arunothai Garden Home dashboard: list pages and modals

This project models the core of an apartment-rental admin dashboard, written in Dafny.

- **Apartments page.** Shows the apartments with a case-insensitive name search, a page-size select (5, 10, 20, 50 or 100 rows), Prev/Next buttons, a five-button page window and a "Showing a–b of n" caption. Its delete confirmation removes the row locally once the backend accepts it.
- **Tenants page.** Has the same list view, plus a create/edit form. A full name that is blank after trimming is refused.
- **"Add Tenants to Rental Group" modal.**
  - It offers only tenants who are in no active group of the apartment. Picking a tenant never adds an id that is already selected, and removing one takes out every entry with that id.
  - Tenants typed in on the spot get a `temp-` id.
  - On save, those tenants are created first, then one member row is inserted per selected tenant, and the selection is reported to the parent page.
- **"Assign Tenant" modal.**
  - Phone input: keeps the first eleven digits of whatever is typed.
  - E-mail input: checks against the pattern `^[^\s@]+@[^\s@]+\.[^\s@]+$`.
  - "Create & Assign" is enabled only for a valid form; it inserts the tenant (move-in date defaulting to today) and links it to the apartment.
- **Create/edit apartment modal.** Has three validation rules with their messages, and a confirmation step before the insert or update.

How the model is built:

- Each page and modal is a `class`. Its fields are the component's state, and each event handler is a `method` that states the whole new state.
- The rules behind the handlers are module functions, and lemmas state their properties. Examples:
  - filters keep order and multiplicity;
  - every row lands on a reachable page;
  - the phone normalisation is idempotent;
  - the e-mail pattern means "one `@`, something before it, an inner `.` after it";
  - the Create & Assign button is enabled exactly when no message is shown;
  - an unchanged edit writes an apartment back unchanged;
  - resolved member ids are never `temp-` ids, provided the backend hands out ids that do not start with `temp-`.
- Backend calls are not performed. Each answer is a parameter of the method that receives it: `Option` data, a failure flag, or per-entry created ids.
- Clock readings are parameters too (`stamp`, `now`, `today`).
- JavaScript's `filter`, `slice` (with negative and out-of-range indices), `includes`, `trim`, `startsWith` and the regular-expression classes `\s` and `\d` are written out in `Seqs` and `Text`.

Files:

- `wrappers.dfy`: `Option`, `Min`, `Max`.
- `seqs.dfy`: `filter`, `slice`, subsequences.
- `text.dfy`: string primitives.
- `listing.dfy`: the list view shared by both pages.
- `apartments.dfy`, `tenants.dfy`: the two pages.
- `tenant_groups.dfy`: the group modal.
- `assign_tenant.dfy`: the assign modal.
- `apartment_form.dfy`: the apartment form.

## Model

| member | source | states |
|---|---|---|
| Seqs.Keep | src/app/apartments/page.tsx:41-43 | `Array.prototype.filter`: the result keeps exactly the elements that satisfy the callback, in input order, and is no longer than the input |
| Seqs.KeepCounts | src/app/apartments/page.tsx:41-43 | `filter` keeps each accepted element exactly as often as it occurs, and no rejected element |
| Seqs.KeepAll | src/app/apartments/page.tsx:63 | a filter whose callback accepts every element returns the array unchanged |
| Seqs.SubsequenceMembers | src/app/apartments/page.tsx:41-43 | every element of an order-preserving selection is an element of the source array |
| Seqs.SliceIndex | src/app/apartments/page.tsx:45 | how `slice` reads an index: a negative one counts from the end (len + k, at least 0), and the result is clamped into 0..length |
| Seqs.Slice | src/app/apartments/page.tsx:45 | `slice(start, end)` is empty for end 0; for non-negative bounds it has max(0, min(end, len) − start) elements; element k is element start+k of the input |
| Text.IncludesSpec | src/app/apartments/page.tsx:42 | `includes` holds exactly when the needle occurs at some index of the haystack |
| Text.IncludesEmpty | src/app/apartments/page.tsx:42 | every string includes the empty string |
| Text.TrimStart | src/app/tenants/page.tsx:44 | drops exactly the leading ECMAScript white space and leaves a suffix |
| Text.TrimEnd | src/app/tenants/page.tsx:44 | drops exactly the trailing ECMAScript white space and leaves a prefix |
| Text.Trim | src/app/tenants/page.tsx:44 | `trim()` is empty exactly when the string is all white space; otherwise it starts and ends with non-space; it occurs in the input with only white space before and after it |
| Text.TrimmedPiece | src/app/tenants/page.tsx:44 | cutting white space off the front and then the back leaves a piece of the input with non-space ends and only white space around it, empty exactly when the input is blank |
| Text.Digits | src/components/AssignTenantModal.tsx:101 | `replace(/\D/g, '')` keeps every ASCII digit of the input, as often as it occurs and in input order, and nothing else |
| Listing.FilterByName | src/app/apartments/page.tsx:41-43 | a row is shown exactly when its lower-cased name includes the lower-cased term; the order and the count of each row are kept |
| Listing.EmptyTermKeepsAll | src/app/apartments/page.tsx:41-43 | an empty search box shows every row in order |
| Listing.PageSizesPositive | src/app/apartments/page.tsx:100 | every page size the select offers is positive |
| Listing.PageSlice | src/app/apartments/page.tsx:45 | a page holds at most perPage rows; page 0 is empty; page p holds the rows from index (p−1)·perPage on, as many as remain up to p·perPage |
| Listing.PageCount | src/app/apartments/page.tsx:46 | `Math.ceil(n / perPage)` is the fewest pages that hold n rows; it is 0 for no rows |
| Listing.RowOnItsPage | src/app/apartments/page.tsx:45-46 | every filtered row i appears on page i/perPage+1 at position i%perPage, and that page lies in 1..pageCount, so paging loses no row |
| Listing.PageOfRowExists | src/app/apartments/page.tsx:46 | the page of any existing row is at most the page count |
| Listing.PrevPage | src/app/apartments/page.tsx:174 | Prev moves one page back and never goes below page 1 |
| Listing.NextPage | src/app/apartments/page.tsx:204 | Next moves one page on and never passes the page count |
| Listing.PrevDisabled | src/app/apartments/page.tsx:175 | Prev is disabled exactly when pressing it would leave the page as it is |
| Listing.NextDisabled | src/app/apartments/page.tsx:205 | Next is disabled exactly when pressing it would leave the page as it is |
| Listing.StepsStayInRange | src/app/apartments/page.tsx:173-206 | from a page in 1..pageCount, Prev and Next stay in 1..pageCount |
| Listing.NextOnEmptyList | src/app/apartments/page.tsx:204-205 | with no rows the page count is 0, so Next stays enabled on page 1 and moves to page 0 |
| Listing.ShowingFirst | src/app/apartments/page.tsx:168 | the caption's first number is at least 1 on any page from 1 on; ShowingNamesPageEnds ties it to the first row shown |
| Listing.ShowingLast | src/app/apartments/page.tsx:169 | the caption's last number never exceeds the number of filtered rows; ShowingNamesPageEnds ties it to the last row shown |
| Listing.ShowingNamesPageEnds | src/app/apartments/page.tsx:168-169 | on an existing page, which is never empty, the caption's two numbers are the 1-based positions of the first and the last row the table shows |
| Listing.ShowingCountsPageRows | src/app/apartments/page.tsx:168-169 | on an existing page, the caption's last − first + 1 equals the number of rows shown |
| Listing.WindowLabels | src/app/apartments/page.tsx:180-186 | max(0, min(pageCount, p+2) − max(0, p−3)) buttons, at most five, with consecutive labels from max(1, p−2), all in 1..pageCount, the last being min(pageCount, p+2), and the current page among them when it lies in 1..pageCount |
| Apartments.Filtered | src/app/apartments/page.tsx:41-43 | the table's rows are the apartments whose name matches the search, in fetched order, each as often as it was fetched |
| Apartments.WithoutId | src/app/apartments/page.tsx:63 | after a delete, no row has the deleted id; every other row stays with the same count and order; nothing changes when no row has the id |
| Apartments.ApartmentsPage.PageRows | src/app/apartments/page.tsx:45 | the table body shows at most perPage rows, all of them apartments matching the search |
| Apartments.ApartmentsPage.constructor | src/app/apartments/page.tsx:18-25 | the initial state: no rows, empty search, 10 per page, page 1, no modal, no pending delete |
| Apartments.ApartmentsPage.FetchCompleted | src/app/apartments/page.tsx:26-34 | the fetched rows replace the list; on an error the list is kept |
| Apartments.ApartmentsPage.Saved | src/app/apartments/page.tsx:48-52 | after a save the form closes, no apartment is selected, and the list is refetched |
| Apartments.ApartmentsPage.PerPageChanged | src/app/apartments/page.tsx:95-98 | the new page size, back to page 1; the rows and the search are kept |
| Apartments.ApartmentsPage.SearchChanged | src/app/apartments/page.tsx:113-116 | the new search term, back to page 1; the rows and the page size are kept |
| Apartments.ApartmentsPage.PrevClicked | src/app/apartments/page.tsx:174-175 | the page becomes PrevPage of the old page, at least 1 |
| Apartments.ApartmentsPage.NextClicked | src/app/apartments/page.tsx:204-205 | the page becomes NextPage of the old page, at most the page count |
| Apartments.ApartmentsPage.PageButtonClicked | src/app/apartments/page.tsx:195 | a window button jumps to its label, which is a page in 1..pageCount |
| Apartments.ApartmentsPage.CreateClicked | src/app/apartments/page.tsx:79-82 | the form opens with no apartment to edit |
| Apartments.ApartmentsPage.EditClicked | src/app/apartments/page.tsx:142-145 | the form opens on the clicked apartment |
| Apartments.ApartmentsPage.FormClosed | src/app/apartments/page.tsx:216-219 | the form closes and the selection is cleared |
| Apartments.ApartmentsPage.DeleteClicked | src/app/apartments/page.tsx:151-154 | the apartment is remembered and the confirmation opens |
| Apartments.ApartmentsPage.DeleteCancelled | src/app/apartments/page.tsx:235-238 | the confirmation closes and nothing is remembered |
| Apartments.ApartmentsPage.HandleDelete | src/app/apartments/page.tsx:54-69 | nothing is sent without a remembered row; otherwise a delete by its id; on success the rows with that id leave the local list and the confirmation closes; on an error nothing changes |
| Tenants.Filtered | src/app/tenants/page.tsx:77 | the table's rows are the tenants whose full name matches the search, in fetched order, each as often as it was fetched |
| Tenants.SaveRequest | src/app/tenants/page.tsx:43-65 | nothing is sent exactly when the full name is blank after trimming; otherwise an update of the edited tenant by its id, or an insert, with the name and contact exactly as typed |
| Tenants.TenantsPage.PageRows | src/app/tenants/page.tsx:78 | the table body shows at most perPage rows, all of them tenants matching the search |
| Tenants.TenantsPage.constructor | src/app/tenants/page.tsx:16-25 | the initial state: no rows, empty search, 10 per page, page 1, form closed and empty |
| Tenants.TenantsPage.FetchCompleted | src/app/tenants/page.tsx:31-34 | the fetched rows replace the list; on an error the list is kept |
| Tenants.TenantsPage.PerPageChanged | src/app/tenants/page.tsx:111-114 | the new page size, back to page 1; the rows and the search are kept |
| Tenants.TenantsPage.SearchChanged | src/app/tenants/page.tsx:126-129 | the new search term, back to page 1; the rows and the page size are kept |
| Tenants.TenantsPage.PrevClicked | src/app/tenants/page.tsx:185-186 | the page becomes PrevPage of the old page, at least 1 |
| Tenants.TenantsPage.NextClicked | src/app/tenants/page.tsx:192-193 | the page becomes NextPage of the old page, at most the page count |
| Tenants.TenantsPage.AddClicked | src/app/tenants/page.tsx:92-97 | the form opens empty, editing nobody |
| Tenants.TenantsPage.EditClicked | src/app/tenants/page.tsx:152-157 | the form opens on the tenant, with a missing contact shown as "" |
| Tenants.TenantsPage.FullNameChanged | src/app/tenants/page.tsx:211 | the full name field holds the typed value |
| Tenants.TenantsPage.ContactInfoChanged | src/app/tenants/page.tsx:219 | the contact field holds the typed value |
| Tenants.TenantsPage.ResetForm | src/app/tenants/page.tsx:36-41 | the form is emptied, closed and edits nobody |
| Tenants.TenantsPage.HandleSave | src/app/tenants/page.tsx:43-65 | the write sent is SaveRequest of the form; nothing is sent for a blank name; the form resets only after a successful write, else nothing changes |
| Tenants.TenantsPage.DeleteClicked | src/app/tenants/page.tsx:163-166 | the tenant is remembered and the confirmation opens |
| Tenants.TenantsPage.DeleteCancelled | src/app/tenants/page.tsx:244-247 | the confirmation closes and nothing is remembered |
| Tenants.TenantsPage.HandleDelete | src/app/tenants/page.tsx:67-75 | nothing is sent without a remembered tenant; otherwise a delete by its id; the confirmation closes only on success |
| TenantGroups.FlatMemberIdsSpec | src/components/AddTenantToGroupModal.tsx:72-76 | an id is in the flattened member list exactly when some group lists a member with that tenant id |
| TenantGroups.AssignedIds | src/components/AddTenantToGroupModal.tsx:72-76 | the assigned-id set holds exactly the tenant ids of members of some active group; it is empty when no groups come back |
| TenantGroups.Available | src/components/AddTenantToGroupModal.tsx:79 | exactly the tenants whose id is not assigned, in order and with their counts |
| TenantGroups.FilteredTenantsUnassigned | src/components/AddTenantToGroupModal.tsx:216-218 | `filteredTenants` (computed, but read by no element: the picker lists `availableTenants`) never holds a tenant who is already in an active group, and keeps the available order |
| TenantGroups.FilteredTenantsIsAvailable | src/components/AddTenantToGroupModal.tsx:216-218 | with the search term never set, the filtered list is the whole available list |
| TenantGroups.FindById | src/components/AddTenantToGroupModal.tsx:304 | `find` returns the first tenant with the id, and nothing exactly when no tenant has it |
| TenantGroups.AddToSelection | src/components/AddTenantToGroupModal.tsx:206-210 | afterwards the id is selected; an already selected id changes nothing, otherwise the tenant is appended; unique ids stay unique |
| TenantGroups.SubsequenceKeepsUniqueIds | src/components/AddTenantToGroupModal.tsx:213 | removing entries from a duplicate-free selection keeps it duplicate-free |
| TenantGroups.RemoveFromSelection | src/components/AddTenantToGroupModal.tsx:212-214 | no entry with the id remains; every other entry stays, in order and with its count; unique ids stay unique |
| TenantGroups.TempTenant | src/components/AddTenantToGroupModal.tsx:133-138 | the typed-in tenant gets a `temp-` id and the entered name and contact |
| TenantGroups.TenantInserts | src/components/AddTenantToGroupModal.tsx:161-172 | one tenant insert per `temp-` entry, in selection order, the j-th carrying the full name and contact of the j-th `temp-` entry; none when no entry is a `temp-` one |
| TenantGroups.ResolveIds | src/components/AddTenantToGroupModal.tsx:161-179 | fails exactly when some `temp-` entry's insert failed; otherwise one id per entry, with the created id for a `temp-` entry and the entry's own id for others |
| TenantGroups.ResolvedIdsAreReal | src/components/AddTenantToGroupModal.tsx:161-179 | when created ids never start with `temp-`, no resolved id does |
| TenantGroups.MemberRows | src/components/AddTenantToGroupModal.tsx:182-189 | one member row per id, in order, each under the group's id; SavePlan states which ids these are |
| TenantGroups.ReportedAsWritten | src/components/AddTenantToGroupModal.tsx:193-197 | the list handed to `onSaved` carries each entry's own id, `temp-` ids included |
| TenantGroups.ReportedAsWrittenKeepsTempId | src/components/AddTenantToGroupModal.tsx:193-197 | a save of one typed-in tenant inserts its member row under the created id but reports the `temp-` id |
| TenantGroups.ReportedResolved | src/components/AddTenantToGroupModal.tsx:193-197 | corrected report: each entry under the id its member row was inserted with, name and contact unchanged; SavePlan proves the reported ids equal the member rows' ids |
| TenantGroups.SavePlan | src/components/AddTenantToGroupModal.tsx:151-204 | corrected save: an empty selection does nothing; a failed tenant insert stops the save before any member row; otherwise one member row per entry under the group id with its resolved id; only when that insert succeeds is the selection reported, under the same ids |
| TenantGroups.SaveAsWritten | src/components/AddTenantToGroupModal.tsx:151-204 | the save as written: the same inserts, member rows and stopping points as SavePlan, but a completed save reports every entry under its own id |
| TenantGroups.AsWrittenReportsTempIds | src/components/AddTenantToGroupModal.tsx:161-197 | as written, in every completed save each typed-in entry is reported under its `temp-` id, which differs from the id of its member row when the backend's ids do not start with `temp-` |
| TenantGroups.AddTenantToGroupModal.constructor | src/components/AddTenantToGroupModal.tsx:21-32 | the initial state: nothing selected or available, empty search and new-tenant form, no pending tenant |
| TenantGroups.AddTenantToGroupModal.TenantsLoaded | src/components/AddTenantToGroupModal.tsx:34-92 | the available list is every tenant who is in no active group of the apartment |
| TenantGroups.AddTenantToGroupModal.AddTenantToSelection | src/components/AddTenantToGroupModal.tsx:206-210 | the selection becomes AddToSelection of the old one, and stays duplicate-free |
| TenantGroups.AddTenantToGroupModal.TenantPicked | src/components/AddTenantToGroupModal.tsx:303-306 | the first available tenant with the chosen id is added; an unknown id changes nothing |
| TenantGroups.AddTenantToGroupModal.RemoveTenantFromSelection | src/components/AddTenantToGroupModal.tsx:212-214 | the selection becomes RemoveFromSelection of the old one, and has no entry with the id |
| TenantGroups.AddTenantToGroupModal.NewTenantFormToggled | src/components/AddTenantToGroupModal.tsx:245 | the new-tenant form is shown or hidden |
| TenantGroups.AddTenantToGroupModal.NewTenantNameChanged | src/components/AddTenantToGroupModal.tsx:273 | only the name of the new-tenant form changes |
| TenantGroups.AddTenantToGroupModal.NewTenantContactChanged | src/components/AddTenantToGroupModal.tsx:285 | only the contact of the new-tenant form changes |
| TenantGroups.AddTenantToGroupModal.HandleCreateTenant | src/components/AddTenantToGroupModal.tsx:126-149 | an empty name changes nothing; otherwise exactly one `temp-` entry with the typed name and contact is appended, and the form is remembered as pending, cleared and hidden |
| TenantGroups.AddTenantToGroupModal.HandleSave | src/components/AddTenantToGroupModal.tsx:151-204 | the outcome is SaveAsWritten of the current selection: nothing for an empty selection, no report unless the member-row insert succeeds, and then the selection reported with its own ids |
| AssignTenant.NormalizePhone | src/components/AssignTenantModal.tsx:101 | the stored phone is the first min(11, number of digits) digits of the input, in order |
| AssignTenant.NormalizePhoneIdempotent | src/components/AssignTenantModal.tsx:101 | normalising a stored phone again changes nothing |
| AssignTenant.PhoneCheckAgreesWithError | src/components/AssignTenantModal.tsx:100-109 | for a normalised phone, passing `/^\d{11}$/` and having no phone message are the same |
| AssignTenant.PhoneError | src/components/AssignTenantModal.tsx:104-108 | the phone message is empty exactly when the phone has eleven characters, and otherwise is "Phone must be exactly 11 digits" |
| AssignTenant.IsEmailShape | src/components/AssignTenantModal.tsx:116 | the e-mail pattern, position by position; a match has at least five characters, an `@` and a `.`; EmailShapeIsSplit gives its meaning |
| AssignTenant.IndexOf | src/components/AssignTenantModal.tsx:116 | the first position of a character, or none when it does not occur |
| AssignTenant.EmailShapeIsSplit | src/components/AssignTenantModal.tsx:116 | the e-mail pattern matches exactly when the text has one `@` with a non-empty local part before it, and after it a domain with a `.` that is neither first nor last, with no white space anywhere |
| AssignTenant.ShapeSplits | src/components/AssignTenantModal.tsx:116 | a string the pattern matches splits at its first `@` into a non-empty local part and a domain with an inner `.` |
| AssignTenant.SplitHasShape | src/components/AssignTenantModal.tsx:116 | a string that splits that way is matched by the pattern |
| AssignTenant.EmailError | src/components/AssignTenantModal.tsx:111-122 | a message is set exactly for a non-empty address that fails the pattern |
| AssignTenant.IsFormValid | src/components/AssignTenantModal.tsx:40-43 | a valid form has a name that is not blank, a phone the phone handler shows no message for, and an e-mail the e-mail handler shows no message for; FormValidIffNoErrors gives the converse |
| AssignTenant.FormValidIffNoErrors | src/components/AssignTenantModal.tsx:40-43 | when the messages match the current values, the form is valid exactly when the name is not blank and no message is shown |
| AssignTenant.NewTenantRow | src/components/AssignTenantModal.tsx:54-63 | the inserted tenant is the form as typed, with an empty move-in date replaced by today; CreateAndAssignClicked inserts exactly this row |
| AssignTenant.AssignTenantModal.constructor | src/components/AssignTenantModal.tsx:23-38 | the initial state: nothing selected, form hidden and empty except the move-in date, which is the date at mount; no messages |
| AssignTenant.AssignTenantModal.TenantsLoaded | src/components/AssignTenantModal.tsx:45-51 | the fetched tenants replace the list; on an error the list is kept |
| AssignTenant.AssignTenantModal.PhoneChanged | src/components/AssignTenantModal.tsx:100-109 | the normalised phone is stored, and the phone message is shown exactly when it is not eleven digits |
| AssignTenant.AssignTenantModal.EmailChanged | src/components/AssignTenantModal.tsx:111-122 | the address is stored as typed, and the e-mail message is shown exactly when it is non-empty and fails the pattern |
| AssignTenant.AssignTenantModal.FullNameChanged | src/components/AssignTenantModal.tsx:174 | only the full name changes |
| AssignTenant.AssignTenantModal.MoveInDateChanged | src/components/AssignTenantModal.tsx:200 | only the move-in date changes |
| AssignTenant.AssignTenantModal.TenantChosen | src/components/AssignTenantModal.tsx:133 | the chosen id becomes the selection |
| AssignTenant.AssignTenantModal.NewTenantFormToggled | src/components/AssignTenantModal.tsx:147 | the new-tenant form is shown or hidden |
| AssignTenant.AssignTenantModal.CreateEnabledIffNoErrors | src/components/AssignTenantModal.tsx:216-220 | Create & Assign is enabled exactly when the phone has been edited, the name is not blank and no message is shown |
| AssignTenant.AssignTenantModal.CreateAndAssignClicked | src/components/AssignTenantModal.tsx:53-82 | nothing happens while the form is invalid; otherwise the tenant row is inserted, with the clicking render's date as move-in fallback, and once it has an id it becomes the selection and is linked to the apartment |
| AssignTenant.AssignTenantModal.AssignClicked | src/components/AssignTenantModal.tsx:84-98 | no link without a chosen tenant; otherwise a link of that tenant to the apartment |
| ApartmentForm.FormOf | src/components/ApartmentFormModal.tsx:34-36 | the form loaded for editing carries the apartment's name, price, rooms and description; UnchangedEditWritesBack shows these fields are written back unchanged |
| ApartmentForm.Validate | src/components/ApartmentFormModal.tsx:38-44 | a message under `name`, `base_price` or `room_count` exactly when that field's rule fails, no other key, no empty message; no message at all exactly when the form is acceptable |
| ApartmentForm.ShownError | src/components/ApartmentFormModal.tsx:70-71 | a message is shown under a field exactly when it is present and non-empty; the ApartmentFormModal invariant keeps every shown message current |
| ApartmentForm.ClearError | src/components/ApartmentFormModal.tsx:105 | the field's message disappears, every other message stays, and no key is added |
| ApartmentForm.PriceFromInput | src/components/ApartmentFormModal.tsx:118-119 | an unparsable price becomes 0; a parsed one is kept; EmptyInputFallbacks shows the 0 fails the price rule |
| ApartmentForm.RoomsFromInput | src/components/ApartmentFormModal.tsx:133-134 | an unparsable room count becomes 1; a parsed one is kept; EmptyInputFallbacks shows the 1 passes the rooms rule |
| ApartmentForm.EmptyInputFallbacks | src/components/ApartmentFormModal.tsx:117-136 | a cleared price falls back to a value the price rule rejects, a cleared room count to one the rooms rule accepts |
| ApartmentForm.PayloadOf | src/components/ApartmentFormModal.tsx:53-58 | the payload carries the form's four fields; SentPayloadIsValid shows a sent payload passes the three rules |
| ApartmentForm.SubmitRequest | src/components/ApartmentFormModal.tsx:46-64 | rejected with the messages exactly when a rule fails; otherwise the four fields go in an update by the edited apartment's id, or in an insert |
| ApartmentForm.SentPayloadIsValid | src/components/ApartmentFormModal.tsx:46-58 | whatever is written has a non-empty name, a positive price and at least one room |
| ApartmentForm.UnchangedEditWritesBack | src/components/ApartmentFormModal.tsx:34-64 | opening a valid apartment and confirming without changes writes back exactly its own fields under its own id |
| ApartmentForm.ApartmentFormModal.constructor | src/components/ApartmentFormModal.tsx:24-36 | the form starts empty (price 0, one room), or filled from the edited apartment; no messages; no confirmation |
| ApartmentForm.ApartmentFormModal.NameChanged | src/components/ApartmentFormModal.tsx:103-106 | the name is stored and its message cleared; no shown message becomes stale |
| ApartmentForm.ApartmentFormModal.PriceChanged | src/components/ApartmentFormModal.tsx:117-121 | the parsed price (0 for NaN) is stored and its message cleared |
| ApartmentForm.ApartmentFormModal.RoomsChanged | src/components/ApartmentFormModal.tsx:132-136 | the parsed room count (1 for NaN) is stored and its message cleared |
| ApartmentForm.ApartmentFormModal.DescriptionChanged | src/components/ApartmentFormModal.tsx:146 | only the description changes |
| ApartmentForm.ApartmentFormModal.FormSubmitted | src/components/ApartmentFormModal.tsx:86-94 | an acceptable form opens the confirmation; otherwise the messages of Validate are shown |
| ApartmentForm.ApartmentFormModal.ConfirmCancelled | src/components/ApartmentFormModal.tsx:177 | the confirmation closes |
| ApartmentForm.ApartmentFormModal.ConfirmClicked | src/components/ApartmentFormModal.tsx:46-68 | the form is validated again; nothing is sent exactly when a rule fails, and then the messages are shown; otherwise the write of SubmitRequest is sent |

## Left out

- Backend calls are not performed. Their answers are parameters:
  - fetched data as `Option`;
  - a write's failure as a flag;
  - each created tenant's id as an `Option`.
- Error branches that only log or alert, and the modals' `loading` and `error` flags, are not modelled.
- The group modal's fetch is modelled on its success path only. Its error branch only sets an error message.
- The refetch that follows a tenant save or delete is not modelled as part of that handler. It is the separate `FetchCompleted`.
- Concurrency is not modelled. This covers `Promise.all` in the group save, and responses arriving in another order.
- Partial creation is not modelled. When one tenant insert fails in the group save, earlier inserts are still created in the backend; the model only records that the save stops before any member row.
- The `onClose` and `onAssigned` callbacks into parent components are not modelled, and neither is what a parent does with `onSaved`. The group modal's `onSaved` payload is modelled (`ReportedAsWritten`); the apartments page's own `handleSave` is modelled as `Saved`.
- Rendering is not modelled: table cells, `toLocaleString` dates, option labels, and the confirmation texts.
- `AddTenantToGroupModal.handleSubmit` (src/components/AddTenantToGroupModal.tsx:94-124) is not modelled: no element of the modal calls it.
- Text.LowerChar: `toLowerCase` is modelled for ASCII letters only. Unicode case mapping is not modelled.
- Strings are sequences of Unicode scalar values (`char`), while JavaScript strings are sequences of UTF-16 code units. A character outside the Basic Multilingual Plane is one `char` here and two code units in JavaScript, so lengths and positions in such text differ. Lone surrogates cannot be represented.
- ApartmentForm.PriceFromInput: prices are `real`. JavaScript floating point, `Infinity` and the text-to-number parsing of `parseFloat`/`parseInt` are not modelled. The parse result is a parameter, with `None` for NaN.
- Clock readings are parameters: `Date.now()`, `new Date().toISOString()`, and today's date.
- AssignTenant.AssignTenantModal.CreateAndAssignClicked: the handler itself has no validity check. The model applies the button's `disabled={!isFormValid}` as the guard, since the handler cannot be reached otherwise.
- AssignTenant.AssignTenantModal.CreateAndAssignClicked: the link insert's own failure is not modelled, because it only decides whether the parent's callbacks run.
- Apartments.ApartmentsPage.HandleDelete: `alert` on failure is not modelled.
- Tenants.TenantsPage.HandleSave: the `alert` for a blank name is not modelled.
- TenantGroups.AddTenantToGroupModal.HandleCreateTenant: the `alert` for an empty name is not modelled.
- `pendingNewTenant` is stored as the source stores it. The source never reads it again.
- `filteredTenants` is modelled, but no element reads it and `searchTerm` is never set, so the picker's options are `availableTenants`.
- TenantGroups.AddTenantToGroupModal.HandleCreateTenant: appends without checking for an id already in the selection, as the source does, so unlike the picker it does not preserve unique ids (two entries created in the same millisecond share an id).

## Findings

| source | as written | input that shows it | evidently intended | confidence | as-written member | corrected member |
|---|---|---|---|---|---|---|
| src/components/AddTenantToGroupModal.tsx:193-197 | after creating the typed-in tenants and inserting their member rows under the created ids, `onSaved` is handed `selectedTenants` with their `temp-` ids | one typed-in tenant with id `temp-1717000000000`, whose insert returns id `a1b2`: the member row has tenant id `a1b2`, but `onSaved` reports `temp-1717000000000` | report each tenant under the id its member row was inserted with (`tenantIds[i]`) | not executed | TenantGroups.ReportedAsWritten, TenantGroups.SaveAsWritten, TenantGroups.AsWrittenReportsTempIds, TenantGroups.ReportedAsWrittenKeepsTempId | TenantGroups.ReportedResolved, TenantGroups.SavePlan |
