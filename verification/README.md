# Lead capture and admin lead list — a Dafny model

This project models the two pieces of logic in the landing-page application
that carry real rules. The network calls, the rendering and the library
internals are not part of the model.

* **The lead form** (`src/components/landing/LeadForm.tsx`). It covers:
  - the `leadSchema` validation rules;
  - the per-field error map that `handleSubmit` builds from the schema's issues;
  - campaign (UTM) attribution;
  - the row inserted into the `leads` table;
  - the notification e-mail with its `AVISO` warning;
  - the success/failure reconciliation of the two independent network calls;
  - the error clearing done by `handleChange`/`handleSelectChange`.
* **The admin lead list** (`src/pages/admin/Leads.tsx`). It covers:
  - the case-insensitive search over name and e-mail;
  - the sort on `created_at` with its asc/desc toggle;
  - pagination in pages of `ITEMS_PER_PAGE = 10`;
  - the clamped previous/next buttons;
  - the "Mostrando a a b de n leads" label;
  - the page's state machine: load, search, toggle, page buttons.

Modules and files:

| file | module | contents |
|---|---|---|
| `text.dfy` | `Text` | `String.prototype.trim`, `toLowerCase`, `includes` |
| `lead_schema.dfy` | `LeadSchema` | form data, the schema's checks and messages, the error map, `Validate` |
| `lead_submission.dfy` | `LeadSubmission` | UTM resolution, `insertData`, `emailData`, `handleSubmit`, edit handlers |
| `lead_example.dfy` | `LeadExample` | a worked submission: a padded, mixed-case address with no campaign |
| `lead_list.dfy` | `LeadList` | the lead record, the search filter, the comparator and the stable sort |
| `pagination.dfy` | `Pagination` | page count, `Array.prototype.slice`, page contents, clamps, label |
| `admin_leads.dfy` | `AdminLeads` | the admin page's state, its events and what the table shows |

Outside collaborators are parameters:

* `LeadSchema.Library` has two fields:
  - `isEmail`: zod's e-mail syntax check;
  - `coerce`: `z.coerce.number()` on the age text, giving `NotANumber` or an integer.
* `HandleSubmit` takes the insert's result (`Saved` or `Failed(detail)`) and
  whether the notification POST returned an OK status.
* The admin page receives loaded rows through the `Loaded(data)` event, or
  a failed load through `LoadFailed`.

Semantics followed, read from the code:

* **zod issue order.** zod reports issues field by field in the order the
  schema declares them, and each field's checks in chain order. A failed
  string check does not stop the chain, so an address that is malformed and
  longer than 255 characters raises two issues. A NaN age raises only zod's
  own `invalid_type` message, "Expected number, received nan".
* **The last message per field wins.** `handleSubmit` writes each issue into
  a record with `fieldErrors[path] = message`, so a later message for a field
  overwrites an earlier one. The only field that
  can fail two checks at once is the e-mail (`EmailLastMessageWins`).
* **Campaign values.** The campaign values are strings that are `""` when
  absent. `x || y` is modelled as "`x` unless it is `""`".
* **Query normalisation.** The search query is lower-cased first and then
  trimmed, as written. `ToLowerTrimCommute` shows the order does not matter.
* **Sort.** `Array.prototype.sort` is stable (ECMAScript 2019 and later). A
  stable sort under a fixed comparator has exactly one result
  (`StableSortUnique`), and `Sort` is an insertion sort that produces it.
* **Page buttons.** The "Mostrando" label and the previous/next buttons are
  rendered only inside the branch for a non-empty table
  (`paginatedLeads.length !== 0`) and only when `totalPages > 1`, so the page
  events change nothing otherwise. On a valid page the first condition
  follows from the second (`ControlsVisibleIff`).
* **Search with unchanged text.** Setting the search box to the text it
  already holds changes no state and so does not re-run the search effect.

## Model

| member | source | states |
|---|---|---|
| `Text.Trim` | src/components/landing/LeadForm.tsx:93-95 | the result has no whitespace (ECMAScript WhiteSpace/LineTerminator) at either end and is no longer than the input |
| `Text.TrimSplit` | src/components/landing/LeadForm.tsx:18-20 | every string is its trimmed form with only whitespace before and after, so trimming removes nothing else |
| `Text.TrimPadded` | src/components/landing/LeadForm.tsx:18-20 | trimming any whitespace padding around a string with non-whitespace ends gives back exactly that string |
| `Text.TrimIdempotent` | src/components/landing/LeadForm.tsx:93-95 | trimming twice is trimming once |
| `Text.TrimEmptyIff` | src/pages/admin/Leads.tsx:120-121 | a string trims to "" exactly when it is all whitespace, i.e. a blank search box counts as no query |
| `Text.ToLower` | src/components/landing/LeadForm.tsx:94 | lower-casing keeps the length and maps each character on its own |
| `Text.LowerChar` | src/components/landing/LeadForm.tsx:94 | a lower-cased character is never upper-case, changes only if it was upper-case, and is whitespace exactly when the original was |
| `Text.ToLowerTrimCommute` | src/pages/admin/Leads.tsx:120 | lower-casing then trimming equals trimming then lower-casing, and the result is trimmed |
| `Text.IncludesIff` | src/pages/admin/Leads.tsx:126-127 | `includes` holds exactly when the needle occurs at some index of the haystack |
| `LeadSchema.Set` | src/components/landing/LeadForm.tsx:56 | the edited field takes the new value and every other field keeps its value |
| `LeadSchema.FieldIssues` | src/components/landing/LeadForm.tsx:17-25 | every issue a field raises is tagged with that field, and a field raises at most two |
| `LeadSchema.FieldIssuesIff` | src/components/landing/LeadForm.tsx:17-25 | a field raises no issue exactly when its bounds hold (trimmed name 2..100, e-mail syntax and trimmed length ≤ 255, trimmed phone 10..20, age a number in 18..120, trimmed profession and area ≥ 2, channel ≥ 1) |
| `LeadSchema.SchemaOrderComplete` | src/components/landing/LeadForm.tsx:17-25 | the schema checks each of the seven fields exactly once |
| `LeadSchema.ErrorMap` | src/components/landing/LeadForm.tsx:75-80 | the last issue's field always has an entry, holding that issue's message: a later message for a field overwrites an earlier one |
| `LeadSchema.ErrorMapLastWins` | src/components/landing/LeadForm.tsx:75-80 | the error map has a key for exactly the fields that raised an issue, holding the message of that field's last issue |
| `LeadSchema.LastWinsAt` | src/components/landing/LeadForm.tsx:76-79 | an issue with no later issue for the same field decides that field's entry in the error map |
| `LeadSchema.ErrorMapAppend` | src/components/landing/LeadForm.tsx:76-80 | writing two runs of issues in turn gives the first run's map overridden by the second's |
| `LeadSchema.ErrorMapOfFields` | src/components/landing/LeadForm.tsx:73-80 | checking distinct fields in turn leaves an entry exactly for each failing field, holding its last failed check's message |
| `LeadSchema.Validate` | src/components/landing/LeadForm.tsx:73-83 | the form is accepted exactly when every field's bounds hold; otherwise every failing field, and no other, gets the message of its last failed check |
| `LeadSchema.EmailLastMessageWins` | src/components/landing/LeadForm.tsx:19 | an address that is both malformed and over 255 characters reports only "E-mail muito longo" |
| `LeadSchema.SingleViolation` | src/components/landing/LeadForm.tsx:73-80 | a form breaking exactly one field's rule is rejected with an error for that field alone |
| `LeadSchema.EmptyFormRejected` | src/components/landing/LeadForm.tsx:24 | the blank form is rejected, with "Selecione por onde nos conheceu" for the channel |
| `LeadSubmission.ResolveSource` | src/components/landing/LeadForm.tsx:89 | the stored source is the campaign's source when there is one, else the channel the visitor picked |
| `LeadSubmission.ResolveMedium` | src/components/landing/LeadForm.tsx:90 | the stored medium is the campaign's medium when there is one; otherwise manual_selection when a campaign source is present, else website_form |
| `LeadSubmission.BuildRecord` | src/components/landing/LeadForm.tsx:89-101 | name and phone trimmed; e-mail trimmed and lower-cased; source is the campaign's or else the channel; medium is the campaign's, else manual_selection with a campaign source, else website_form; campaign and term are null exactly when absent; content is the summary, followed by a bar and the campaign content only when there is one |
| `LeadSubmission.ManualSelectionIff` | src/components/landing/LeadForm.tsx:90 | "manual_selection" is stored exactly when the link says so or has a source without a medium |
| `LeadSubmission.WebsiteFormIff` | src/components/landing/LeadForm.tsx:90 | "website_form" is stored exactly when the link says so or has neither source nor medium |
| `LeadSubmission.ContentRecoverable` | src/components/landing/LeadForm.tsx:100 | the stored content starts with the summary and ends, after a bar separator, with the campaign's own content, which is absent exactly when nothing follows the summary |
| `LeadSubmission.RecordWithinSchema` | src/components/landing/LeadForm.tsx:92-95 | an accepted form yields a trimmed name of 2..100, a trimmed phone of 10..20 and a trimmed lower-case e-mail of at most 255, all unchanged by normalising again |
| `LeadSubmission.NormalisedEmail` | src/components/landing/LeadForm.tsx:94 | the stored address is trimmed, has no upper-case letter, keeps the trimmed length and is a fixed point of normalisation |
| `LeadSubmission.BuildNotification` | src/components/landing/LeadForm.tsx:117-136 | the letter is plain exactly when the record was saved; the subject says whether it was; a failed insert adds the warning with the error text; origin and campaign default to "Direto" and "Nenhuma" |
| `LeadSubmission.Body` | src/components/landing/LeadForm.tsx:117-136 | the posted JSON holds the eleven letter keys in insertion order with their values, followed by exactly one more entry, `AVISO` with the warning text, when the letter is warned |
| `LeadSubmission.WarningIffWarned` | src/components/landing/LeadForm.tsx:133-136 | the posted body has an AVISO key exactly for the warned letter, as its twelfth and last entry after `_subject` and `_template` |
| `LeadSubmission.WarningIffUnsaved` | src/components/landing/LeadForm.tsx:127-136 | AVISO is present exactly when the insert failed, carrying its error text, and the subject is "Novo Lead Capturado - Dados Completos!" exactly when it succeeded |
| `LeadSubmission.HandleSubmit` | src/components/landing/LeadForm.tsx:69-165 | an invalid form yields only its error map (no insert, no notification), with an entry exactly for each failing field holding that field's last message; a valid one is inserted and notified whatever the insert did, succeeds iff either channel did, clears the form on success and keeps every value on total failure |
| `LeadSubmission.NotifyRegardlessOfPersistence` | src/components/landing/LeadForm.tsx:103-158 | the insert's outcome changes neither the record nor the notification's fields other than subject and warning |
| `LeadSubmission.RetryAfterFailureRebuildsRecord` | src/components/landing/LeadForm.tsx:160-165 | after a failed insert and a failed notification the form is kept, so submitting again rebuilds the identical record |
| `LeadSubmission.ResubmitAfterSuccessRejected` | src/components/landing/LeadForm.tsx:160-162 | after a success the blank form would be rejected before any network call |
| `LeadSubmission.InitialSubmitRejected` | src/components/landing/LeadForm.tsx:28-39 | submitting the form as it first appears (all fields blank) is rejected with the channel message, and the form stays blank and unsent |
| `LeadSubmission.HandleChange` | src/components/landing/LeadForm.tsx:54-60 | the edited field takes the value; its error is blanked only if one is showing; every other field and error is unchanged |
| `LeadSubmission.HandleSelectChange` | src/components/landing/LeadForm.tsx:62-67 | choosing a channel sets only the channel and blanks only a showing channel error |
| `LeadSubmission.EditClearsOwnError` | src/components/landing/LeadForm.tsx:54-60 | after an edit no message shows for the edited field, and two edits of a field equal the last one alone |
| `LeadExample.AnaSilvaValid` | src/components/landing/LeadForm.tsx:17-25 | the sample lead with a padded "ANA@Test.com " passes the schema, its address trimming to "ANA@Test.com" |
| `LeadExample.AnaSilvaSummary` | src/components/landing/LeadForm.tsx:100 | the sample lead's summary lists age 29, profession Advogada, area Jurídico and channel Instagram, in the fixed format |
| `LeadExample.AnaSilvaRecord` | src/components/landing/LeadForm.tsx:92-101 | without campaign parameters the sample lead is stored as ana@test.com with source Instagram, medium website_form, null campaign and term |
| `LeadExample.AnaSilvaExample` | src/components/landing/LeadForm.tsx:160-162 | storing and notifying the sample lead succeeds, sends the "saved" subject and leaves a blank form behind the confirmation |
| `LeadList.NormaliseQuery` | src/pages/admin/Leads.tsx:120 | the normalised query is trimmed, has no upper-case letter, and equals lower-case of the trimmed query |
| `LeadList.Select` | src/pages/admin/Leads.tsx:124-128 | `filter` keeps at most as many leads as it is given; with `SelectSubsequence`, `SelectMatches` and `SelectCounts`, exactly the matching leads in their order |
| `LeadList.FilterLeads` | src/pages/admin/Leads.tsx:119-130 | a blank query keeps the list as it is; any other query selects the leads matching it |
| `LeadList.FilterIsSelect` | src/pages/admin/Leads.tsx:119-130 | the shortcut for the blank query agrees with filtering: the search is one filter for every query |
| `LeadList.SelectEmptyQuery` | src/pages/admin/Leads.tsx:121-122 | the empty query matches every lead |
| `LeadList.SelectSubsequence` | src/pages/admin/Leads.tsx:124-128 | the search result is a subsequence of the loaded leads |
| `LeadList.SelectMatches` | src/pages/admin/Leads.tsx:124-128 | every lead in the search result has the query in its lower-cased name or e-mail |
| `LeadList.SelectCounts` | src/pages/admin/Leads.tsx:124-128 | each matching lead occurs in the result as often as in the input, and no other lead occurs |
| `LeadList.SelectAppend` | src/pages/admin/Leads.tsx:124-128 | filtering distributes over concatenation |
| `LeadList.QueryCaseInsensitive` | src/pages/admin/Leads.tsx:120 | the case of the typed query does not change the result |
| `LeadList.FilterMember` | src/pages/admin/Leads.tsx:119-130 | the search keeps only loaded leads, and only matching ones when the query is not blank |
| `LeadList.Toggle` | src/pages/admin/Leads.tsx:151-153 | toggling always changes the order (of two orders, so it swaps them) |
| `LeadList.ToggleTwice` | src/pages/admin/Leads.tsx:151-153 | toggling twice is the identity |
| `LeadList.Compare` | src/pages/admin/Leads.tsx:134-138 | the comparator is zero exactly for equal times and negative exactly when the first lead is newer (desc) or older (asc) |
| `LeadList.CompareBefore` | src/pages/admin/Leads.tsx:137 | the comparator puts `a` no later than `b` exactly when `a` is at least as new (desc) or at least as old (asc) |
| `LeadList.Sort` | src/pages/admin/Leads.tsx:134-138 | the sorted list is a permutation of the filtered list |
| `LeadList.SortOrdered` | src/pages/admin/Leads.tsx:134-138 | the comparator never puts a lead ahead of one that stands before it in the sorted list |
| `LeadList.SortedByTime` | src/pages/admin/Leads.tsx:134-138 | creation times never increase down the list in "desc" order and never decrease in "asc" |
| `LeadList.SortStable` | src/pages/admin/Leads.tsx:134-138 | leads with the same creation time keep their relative order |
| `LeadList.StableSortUnique` | src/pages/admin/Leads.tsx:134-138 | any ordered rearrangement keeping same-time leads in input order equals the sorted list |
| `LeadList.SortOrderedNoop` | src/pages/admin/Leads.tsx:134-138 | a list already in order is left as it is |
| `Pagination.TotalPages` | src/pages/admin/Leads.tsx:140 | the page count is the fewest pages of 10 that hold every item (the ceiling of n/10) |
| `Pagination.TotalPagesZero` | src/pages/admin/Leads.tsx:140 | there are no pages exactly when there are no items |
| `Pagination.JsSlice` | src/pages/admin/Leads.tsx:141-144 | `slice` returns one contiguous run of the list, never longer than the list |
| `Pagination.JsSliceNonNegative` | src/pages/admin/Leads.tsx:141-144 | from a non-negative start, `slice` takes the items between the two indices clipped to the list |
| `Pagination.JsSliceWidth` | src/pages/admin/Leads.tsx:141-144 | a slice never holds more items than the distance between its bounds, negative indices included |
| `Pagination.PageOf` | src/pages/admin/Leads.tsx:141-144 | a page holds at most 10 items, whatever the page number |
| `Pagination.PageContents` | src/pages/admin/Leads.tsx:141-144 | page p shows exactly the items (p-1)*10 to min(p*10, n) |
| `Pagination.PageMember` | src/pages/admin/Leads.tsx:141-144 | a page shows only items of the list |
| `Pagination.PageNonEmpty` | src/pages/admin/Leads.tsx:140-144 | page p (from 1) is non-empty exactly when p is at most the page count |
| `Pagination.FirstPagesPrefix` | src/pages/admin/Leads.tsx:141-144 | the first k pages concatenated are the first min(10k, n) items |
| `Pagination.AllPages` | src/pages/admin/Leads.tsx:140-144 | all pages in order concatenate back to the whole list |
| `Pagination.Prev` | src/pages/admin/Leads.tsx:274 | the previous page is at least 1, one less when there is one, never more than one step back, and exactly 1 from page 1 or below |
| `Pagination.Next` | src/pages/admin/Leads.tsx:285 | the next page is at most the page count, one more when there is one, never more than one step on, and exactly the page count from the last page or beyond |
| `Pagination.ClampsKeepRange` | src/pages/admin/Leads.tsx:270-288 | from a page in 1..totalPages both buttons stay in range, and the disabled one (previous on page 1, next on the last) changes nothing |
| `Pagination.Label` | src/pages/admin/Leads.tsx:266-268 | the label's total is the item count and its last index never exceeds it |
| `Pagination.LabelDescribesPage` | src/pages/admin/Leads.tsx:266-268 | on a valid page the label runs from 1 or later to no more than n, its first and last are the slice bounds (p-1)·10+1 and min(10p, n), the page shows exactly items first..last, and there are last-first+1 of them |
| `AdminLeads.Initial` | src/pages/admin/Leads.tsx:46-51 | the page opens with no leads, an empty query, page 1 and most recent first |
| `AdminLeads.Step` | src/pages/admin/Leads.tsx:94-153 | loading sets the leads and resets to page 1; a changed query resets to page 1; toggling flips only the order; the page buttons do nothing unless the table is non-empty and there is more than one page (Leads.tsx:220, 263), and otherwise previous sets the page to max(1, p-1) and next to min(totalPages, p+1) (Leads.tsx:274, 285); nothing else changes |
| `AdminLeads.ToggleKeepsLeads` | src/pages/admin/Leads.tsx:134-140 | toggling the order keeps the same leads and the same page count |
| `AdminLeads.StepKeepsPageValid` | src/pages/admin/Leads.tsx:131 | every event keeps the current page between 1 and the page count (or 1 when empty) |
| `AdminLeads.RunKeepsPageValid` | src/pages/admin/Leads.tsx:119-153 | any sequence of events from a valid state keeps the page valid |
| `AdminLeads.ReachableValid` | src/pages/admin/Leads.tsx:50 | every state reachable from the initial one has a valid page |
| `AdminLeads.ToggleTwiceRestores` | src/pages/admin/Leads.tsx:151-153 | toggling twice restores the page state exactly |
| `AdminLeads.ShownAreMatches` | src/pages/admin/Leads.tsx:119-144 | every row shown is a loaded lead matching the non-blank query |
| `AdminLeads.TableOf` | src/pages/admin/Leads.tsx:220-224 | rows are shown exactly when the page is non-empty; otherwise "Nenhum lead encontrado" exactly when the search box holds text |
| `AdminLeads.EmptyTableIff` | src/pages/admin/Leads.tsx:220-224 | on a valid page the table is empty exactly when no lead passes the search |
| `AdminLeads.RangeLabel` | src/pages/admin/Leads.tsx:220-268 | the label is present exactly when the table has rows and there is more than one page; it reads (p-1)·10+1 to min(10p, n) of n, n the number of filtered leads |
| `AdminLeads.ControlsVisibleIff` | src/pages/admin/Leads.tsx:220-263 | on a valid page the label and buttons show exactly when there is more than one page |
| `AdminLeads.RangeLabelMatchesRows` | src/pages/admin/Leads.tsx:266-268 | on a valid page the label names exactly the rows of the table |

## Left out

- The Supabase insert and select, the POST to the notification endpoint, and the session checks and redirects are network I/O. Their results are parameters or events.
- The detail of a failed insert (`err.message || JSON.stringify(err)`) is taken as a given string. JSON serialisation is not modelled.
- zod's e-mail regular expression and `z.coerce.number()` are the parameters `isEmail` and `coerce`:
  - zod coerces "" to 0, which a caller of the model must supply through `coerce`;
  - fractional and infinite ages are not modelled, only integers and NaN.
- The browser's own checks are not modelled: `type="email"` and `type="number"` inputs, and the fixed options of the channel select. The model accepts any text in every field.
- String lengths are counted in Unicode scalar values. JavaScript counts UTF-16 code units, so the two differ for characters outside the Basic Multilingual Plane.
- Text.ToLower: covers only ASCII and Latin-1 capitals, because full Unicode case mapping (including one-to-many mappings) needs tables this model does not carry.
- Text.LowerChar: maps only ASCII and Latin-1 capitals, so a capital such as 'Ā' is left unchanged where JavaScript gives 'ā'; the reason is the same as for Text.ToLower.
- `created_at` is an integer instant. Date parsing, `date-fns` formatting and the NaN a malformed date would give the comparator are not modelled.
- The list leaves out the display-only columns (age, profession, area, UTM values). The `leads.length` total card is not modelled either.
- React scheduling is not modelled. The intermediate render between a state change and its effect, `isLoading`, `isSubmitting`, toasts and console logging are left out. The filtered list is derived from the state instead of stored.
- Reading the query string with `URLSearchParams` is not modelled: the five UTM values are inputs.
- `src/pages/admin/Login.tsx` is not part of this model; it is a thin wrapper over the authentication service. Neither is any presentational section (`Navbar.tsx`, `HeroSection.tsx`, `ComparisonSection.tsx`, `MethodSection.tsx`, `Footer.tsx`, `Index.tsx`), nor the scripts `check_db.js` and `test_columns.js`.
- The server-side `order("created_at", { ascending: false })` of the load query is not modelled. The client sorts the list again anyway.
