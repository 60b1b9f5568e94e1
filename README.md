# Contact manager client: a verified model

This project models the client-side logic of a contact manager written in
TypeScript and React. It covers:

- **The contact list of the `useContacts` hook.** From the contacts fetched from the backend it derives one page:
  - every record is normalized;
  - a case-insensitive search runs over name, e-mail and phone;
  - a group filter with the "Tất cả" (all groups) sentinel follows;
  - an optional stable sort on a field, ascending or descending;
  - 1-based pagination with `page` defaulting to 1 and `limit` defaulting to 10.
- **Query keys.** The hook's keys, and the cache entries each successful mutation marks stale.
- **Normalization.** The mapping from the wire record (`_id`, optional `phone`, `__v`) to the canonical contact.
- **The add and edit forms.** The e-mail pattern `^[^\s@]+@[^\s@]+\.[^\s@]+$`, the per-field error map, the input-change rule, and the request bodies built on submit, including the phone round trip.
- **The older list screen with local state.** A name search with a group filter, a name sort with an asc/desc toggle, pages of six, removal by id after confirmation, the pagination bar and the group badge colours.

Layout, one module per file:

| file | module | models |
|---|---|---|
| `seqs.dfy` | `Seqs` | `Array.prototype.filter` and `String.prototype.includes` |
| `sorting.dfy` | `Sorting` | the stable `Array.prototype.sort` (section 23.1.3.30 of ECMA-262) and the in-place insertion sort that computes it |
| `contact_types.dfy` | `ContactTypes` | `src/types/contact.ts` |
| `contact_queries.dfy` | `ContactQueries` | `src/hooks/useContacts.ts` |
| `contact_form.dfy` | `ContactForm` | the form logic that `src/components/AddContact.tsx` and `src/components/EditContact.tsx` share |
| `add_contact.dfy` | `AddContact` | the submit path of `AddContact.tsx` |
| `edit_contact.dfy` | `EditContact` | the prefill and submit paths of `EditContact.tsx` |
| `contact_management.dfy` | `ContactManagement` | `src/components/ContactManagement.tsx` |

Some JavaScript library functions become parameters:

- `lower` stands for `toLowerCase`. The model assumes nothing about it, except `lower("") == ""` where stated.
- `collate` stands for `localeCompare(_, "vi")`. Ordering results assume only that it is a total preorder (`Sorting.ValidComparator`).

`trim` and the regular-expression class `\s` are modelled exactly. Both use the ECMAScript WhiteSpace and LineTerminator code points (`ContactForm.IsSpace`).

Two kinds of member stand for the source's state:

- **In-place updates** are methods. The in-place sort of the hook's fresh array is `Sorting.SortInPlace` on an `array`. The hook derivation that drives it is `ContactQueries.DeriveView`, which may not modify the fetched array.
- **Component state** is a class. The form state is `ContactForm.ContactFormState`, the query cache is `ContactQueries.QueryCache`, and the older screen's `useState` hooks are `ContactManagement.ContactScreen`.

`AddContact.tsx` and `EditContact.tsx` repeat the same `validateEmail`, `validateForm` and `handleInputChange` code. The `ContactForm` rows below cite the `AddContact.tsx` lines. The same members model `EditContact.tsx:65-68`, `EditContact.tsx:70-85` and `EditContact.tsx:111-116`.

## Model

| member | source | states |
|---|---|---|
| `Seqs.Filter` | src/hooks/useContacts.ts:40-45 | the result holds exactly the elements that satisfy the predicate and is no longer than the input |
| `Seqs.FilterConcat` | src/hooks/useContacts.ts:40-45 | filtering distributes over concatenation, so survivors keep their relative order |
| `Seqs.FilterCount` | src/hooks/useContacts.ts:40-45 | a surviving value keeps every one of its occurrences; a failing value keeps none |
| `Seqs.Contains` | src/hooks/useContacts.ts:42-44 | none of its own; `String.prototype.includes`, characterised by `Seqs.ContainsAt` |
| `Seqs.ContainsAt` | src/hooks/useContacts.ts:42-44 | `includes` holds exactly when the term occurs at some index as a contiguous block |
| `Sorting.KeyedComparatorValid` | src/hooks/useContacts.ts:55-60 | comparing by a key under a total-preorder collation gives a total preorder, and so does its negation for "desc" |
| `Sorting.SortSeq` | src/hooks/useContacts.ts:55-60 | the result has the input's length; what `sort` promises (permutation, order, stability, uniqueness) is in `Sorting.SortPermutes`, `Sorting.SortSorted`, `Sorting.SortStable` and `Sorting.StableSortIsSortSeq` |
| `Sorting.SortPermutes` | src/hooks/useContacts.ts:55 | sorting neither adds, drops nor duplicates an element |
| `Sorting.SortSorted` | src/hooks/useContacts.ts:55 | under a valid comparator the sorted sequence is ordered pairwise |
| `Sorting.SortStable` | src/hooks/useContacts.ts:55 | for every element, the elements comparing equal to it keep their original order |
| `Sorting.SortedStableUnique` | src/hooks/useContacts.ts:55 | two sorted sequences with the same equal-key classes are identical |
| `Sorting.StableSortIsSortSeq` | src/hooks/useContacts.ts:55 | any sorted, stable rearrangement equals `SortSeq`, so the engine's choice of algorithm does not matter |
| `Sorting.InsertInPlace` | src/hooks/useContacts.ts:55 | one step of the in-place sort: the prefix becomes the insertion of the next element and the rest of the array is untouched |
| `Sorting.SortInPlace` | src/hooks/useContacts.ts:55 | the in-place sort leaves the array holding `SortSeq` of its old contents |
| `ContactTypes.ContactGroupsDistinct` | src/types/contact.ts:46-52 | the five group names are pairwise distinct and do not include the "all groups" sentinel |
| `ContactTypes.PhoneOrEmpty` | src/types/contact.ts:61 | `phone \|\| ""` is non-empty exactly when a non-empty phone is present, and is then that phone |
| `ContactTypes.Normalize` | src/types/contact.ts:57-65 | the function is total; `id` is `_id`; name, e-mail, group and timestamps are copied; phone is the present non-empty phone, else "" |
| `ContactTypes.NormalizeKeepsIdentity` | src/types/contact.ts:58 | two records get the same `id` exactly when they have the same `_id` |
| `ContactTypes.NormalizeIgnoresVersion` | src/types/contact.ts:57-65 | the `__v` field has no influence on the result |
| `ContactTypes.NormalizeMergesOnlyEmptyPhones` | src/types/contact.ts:57-65 | two records normalize alike exactly when they differ at most in `__v` and in an absent vs empty phone |
| `ContactTypes.NormalizeAll` | src/hooks/useContacts.ts:35 | the mapped array has the same length and holds the normalization of each record at the same index |
| `ContactQueries.MatchesSearch` | src/hooks/useContacts.ts:41-45 | none of its own; the search predicate, stated through `ContactQueries.SearchFilter` |
| `ContactQueries.SearchFilter` | src/hooks/useContacts.ts:37-46 | with a non-empty term, a contact survives iff the lowercased term occurs in its lowercased name, e-mail or non-empty phone; an absent or empty term keeps the list as it is |
| `ContactQueries.SearchFilterKeepsOrder` | src/hooks/useContacts.ts:40-45 | the search step keeps survivors in their original relative order |
| `ContactQueries.InGroup` | src/hooks/useContacts.ts:50 | none of its own; the group predicate, stated through `ContactQueries.GroupFilter` |
| `ContactQueries.GroupFilter` | src/hooks/useContacts.ts:49-51 | keeps exactly the contacts of the given group; skipped for an absent group, an empty group or "Tất cả" |
| `ContactQueries.GroupFilterKeepsOrder` | src/hooks/useContacts.ts:49-51 | the group step keeps survivors in their original relative order |
| `ContactQueries.FiltersKeepOccurrences` | src/hooks/useContacts.ts:37-51 | after both filters, every contact that passes both keeps all of its occurrences and every other contact has none |
| `ContactQueries.SortKey` | src/hooks/useContacts.ts:56-57 | none of its own; the compared field, `String(a[sortBy])` of a string field |
| `ContactQueries.ContactComparator` | src/hooks/useContacts.ts:55-60 | none of its own; see `ContactQueries.ComparatorValid`, `ContactQueries.SortStepOrdered` and `ContactQueries.SortStepStable` |
| `ContactQueries.ComparatorValid` | src/hooks/useContacts.ts:55-60 | the hook's comparator is a total preorder whenever the collation is |
| `ContactQueries.SortStep` | src/hooks/useContacts.ts:54-61 | sorting keeps the length; without `sortBy` the order is unchanged |
| `ContactQueries.SortStepPermutes` | src/hooks/useContacts.ts:54-61 | the sort step is a permutation of the filtered list |
| `ContactQueries.SortStepOrdered` | src/hooks/useContacts.ts:55-60 | keys ascend under the collation, or descend when the order is "desc" |
| `ContactQueries.SortStepStable` | src/hooks/useContacts.ts:55-60 | contacts whose keys compare equal keep their filtered order, in both directions |
| `ContactQueries.AnyStableSortAgrees` | src/hooks/useContacts.ts:55-60 | any ordered, stable rearrangement of the filtered list is exactly the sort step's result |
| `ContactQueries.EffectivePage` | src/hooks/useContacts.ts:64 | `page \|\| 1`: the page is at least 1, a given non-zero page is kept, and an absent or 0 page becomes 1 |
| `ContactQueries.EffectiveLimit` | src/hooks/useContacts.ts:65 | `limit \|\| 10`: the limit is at least 1, a given non-zero limit is kept, and an absent or 0 limit becomes 10 |
| `ContactQueries.TotalPages` | src/hooks/useContacts.ts:67 | `ceil(total/limit)`: the fewest pages of `limit` that hold `total`, and 0 exactly for an empty list |
| `ContactQueries.PageSlice` | src/hooks/useContacts.ts:68-69 | the clamped slice from `(page-1)*limit`: at most `limit` items, each at its offset in the list, and empty past the end |
| `ContactQueries.PageBeyondLastIsEmpty` | src/hooks/useContacts.ts:67-69 | a page number above `totalPages` gives an empty page |
| `ContactQueries.EarlyPagesAreFull` | src/hooks/useContacts.ts:67-69 | every page before the last holds exactly `limit` items |
| `ContactQueries.AllPagesReassemble` | src/hooks/useContacts.ts:67-69 | concatenating pages 1..`totalPages` gives back the whole filtered and sorted list |
| `ContactQueries.Processed` | src/hooks/useContacts.ts:35-61 | the filtered and sorted list is never longer than the fetched one |
| `ContactQueries.Derive` | src/hooks/useContacts.ts:31-78 | without data the result is exactly `{[], 0, 0}`; otherwise `total` is the filtered length, `page` and `limit` are echoed with their defaults, `totalPages` is the ceiling, and `data` holds exactly `min(limit, total - (page-1)*limit)` items (none past the end), the consecutive items starting at `(page-1)*limit` |
| `ContactQueries.DeriveView` | src/hooks/useContacts.ts:31-78 | the step-by-step derivation (reassigned `filtered`, sorted in place) returns `Derive` of the fetched contacts and only reads the fetched array |
| `ContactQueries.SortCopy` | src/hooks/useContacts.ts:55 | sorting the fresh array built from a sequence yields `SortSeq` of that sequence |
| `ContactQueries.ListQueryKey` | src/hooks/useContacts.ts:25 | the list query key is `["contacts","list"]`, whatever the search parameters |
| `ContactQueries.ListKey` | src/hooks/useContacts.ts:17 | none of its own; see `ContactQueries.KeysShape` and `ContactQueries.InvalidationTargets` |
| `ContactQueries.DetailKey` | src/hooks/useContacts.ts:19 | none of its own; see `ContactQueries.KeysShape` and `ContactQueries.InvalidationTargets` |
| `ContactQueries.KeysShape` | src/hooks/useContacts.ts:15-20 | `detail(id)` is `["contacts","detail",id]` and injective in `id`; `["contacts"]` prefixes both the list and detail keys; the list key is not a detail key |
| `ContactQueries.InvalidationTargets` | src/hooks/useContacts.ts:15-20 | among stored keys, prefix matching on the list key hits only the list key, and on `detail(id)` only that detail key |
| `ContactQueries.QueryCache.constructor` | src/hooks/useContacts.ts:24-28 | the cache starts with no entries and nothing stale |
| `ContactQueries.QueryCache.Store` | src/hooks/useContacts.ts:24-28 | a completed fetch stores the key as fresh, so it no longer needs fetching |
| `ContactQueries.QueryCache.Invalidate` | src/hooks/useContacts.ts:106 | every stored key that the filter prefixes becomes stale, and nothing else changes |
| `ContactQueries.QueryCache.OnCreateSettled` | src/hooks/useContacts.ts:105-106 | a successful create marks only the list key stale; a failed one changes nothing |
| `ContactQueries.QueryCache.OnUpdateSettled` | src/hooks/useContacts.ts:130-132 | a successful update marks the list key and `detail(id)` stale; a failed one changes nothing |
| `ContactQueries.QueryCache.OnDeleteSettled` | src/hooks/useContacts.ts:155-156 | a successful delete marks only the list key stale and leaves `detail(id)` as it was; a failed one changes nothing |
| `ContactForm.TrimStartShape` | src/components/AddContact.tsx:47 | trimming the start drops only white space and keeps a suffix that does not start with white space |
| `ContactForm.TrimEndShape` | src/components/AddContact.tsx:47 | trimming the end drops only white space and keeps a prefix that does not end with white space |
| `ContactForm.Trim` | src/components/AddContact.tsx:47 | the result is no longer than the input; see `ContactForm.TrimEmptyIffAllSpace` |
| `ContactForm.TrimEmptyIffAllSpace` | src/components/AddContact.tsx:47 | `!s.trim()` holds exactly when every character of `s` is white space |
| `ContactForm.ValidEmail` | src/components/AddContact.tsx:39-42 | none of its own; `validateEmail`, proved equal to the regular expression by `ContactForm.ValidEmailIffPattern` |
| `ContactForm.ValidEmailIffPattern` | src/components/AddContact.tsx:39-42 | the check accepts `s` iff `s` = local + "@" + d1 + "." + d2, where each of the three parts is non-empty with no white space and no "@" |
| `ContactForm.EmailExamples` | src/components/AddContact.tsx:39-42 | "a@b.co" passes and "not-an-email" fails |
| `ContactForm.ValidEmailNotBlank` | src/components/AddContact.tsx:51-55 | an accepted address is never blank, so the "required" and "format" errors never overlap |
| `ContactForm.SpaceInEmailIsFormatError` | src/components/AddContact.tsx:51-55 | white space inside a non-blank address gives the format error, not the "required" one |
| `ContactForm.WithField` | src/components/AddContact.tsx:83 | the edited field takes the new value and every other field keeps its value |
| `ContactForm.FormErrors` | src/components/AddContact.tsx:44-59 | the phone and group fields never carry an error |
| `ContactForm.NameErrorIffBlank` | src/components/AddContact.tsx:47-49 | the name error is present iff the name is all white space, and it is "required" |
| `ContactForm.EmailErrorCases` | src/components/AddContact.tsx:51-55 | a blank e-mail gives "required"; a non-blank e-mail that fails the pattern gives "format"; a matching e-mail gives no error |
| `ContactForm.FormValidIff` | src/components/AddContact.tsx:44-58 | the error map is empty iff the name is not blank and the e-mail matches the pattern |
| `ContactForm.ContactFormState.constructor` | src/components/AddContact.tsx:29-35 | the form starts with four empty fields and no errors |
| `ContactForm.ContactFormState.ValidateForm` | src/components/AddContact.tsx:44-59 | the stored errors are the form's error map, and the result is true iff the form is valid |
| `ContactForm.ContactFormState.HandleInputChange` | src/components/AddContact.tsx:82-87 | sets only the edited field, clears only that field's error, and keeps the other errors |
| `AddContact.CreatePayload` | src/components/AddContact.tsx:69-74 | the create body copies name, e-mail and group, and carries the phone iff it is non-empty |
| `AddContact.CreatedPhoneRoundTrip` | src/components/AddContact.tsx:72 | a contact stored with the sent phone normalizes back to the form's phone, "" included |
| `AddContact.HandleSubmit` | src/components/AddContact.tsx:61-80 | a request is issued exactly when the form is valid, and it is the create body of the form; errors are stored either way |
| `EditContact.PrefillForm` | src/components/EditContact.tsx:43-52 | the form takes the contact's name, e-mail, group and phone (`phone \|\| ""`) |
| `EditContact.PrefillEffect` | src/components/EditContact.tsx:43-52 | a loaded contact fills the form; with no contact the form is unchanged |
| `EditContact.UpdatePayload` | src/components/EditContact.tsx:95-103 | the PATCH body sends name, e-mail and group, and the phone only when it is non-empty |
| `EditContact.PhoneRoundTrip` | src/components/EditContact.tsx:48-100 | with the screen untouched, an absent or empty wire phone is left out of the body and a non-empty phone is sent unchanged |
| `EditContact.HandleSubmit` | src/components/EditContact.tsx:87-109 | a call for the route id is issued exactly when the form is valid, carrying the update body |
| `EditContact.ApplyPatch` | src/services/contactApi.ts:26-29 | none of its own; it models the backend, not the client: the assumed partial-update semantics of the PATCH call, where an absent field keeps the stored value |
| `EditContact.ClearedPhoneIsKept` | src/components/EditContact.tsx:100 | emptying the phone of a contact that has one and saving leaves the stored phone unchanged |
| `EditContact.ClearedPhoneFormIsValid` | src/components/EditContact.tsx:70-85 | that form passes validation whenever the contact's name and e-mail do, so the request is really sent |
| `EditContact.UpdatePayloadSendingPhone` | src/components/EditContact.tsx:95-103 | the corrected body always sends the phone, and it equals the original body whenever the phone is non-empty |
| `EditContact.SavedContactMatchesForm` | src/components/EditContact.tsx:95-103 | with the corrected body, the saved contact refills the form exactly as it was submitted |
| `ContactManagement.FilteredContacts` | src/components/ContactManagement.tsx:46-54 | the filtered list is never longer than the contacts |
| `ContactManagement.Shown` | src/components/ContactManagement.tsx:47-50 | none of its own; see `ContactManagement.FilteredIsPermutationOfMatches` |
| `ContactManagement.NameComparator` | src/components/ContactManagement.tsx:51-54 | none of its own; see `ContactManagement.FilteredIsOrderedByName` |
| `ContactManagement.FilteredIsPermutationOfMatches` | src/components/ContactManagement.tsx:46-54 | the list holds every contact that passes the name and group filter, as often as the contacts do, and nothing else |
| `ContactManagement.FilteredIsOrderedByName` | src/components/ContactManagement.tsx:51-54 | names ascend under the collation for "asc" and descend for "desc" |
| `ContactManagement.InitialFiltersShowAll` | src/components/ContactManagement.tsx:38-50 | with the empty search term and "Tất cả", every contact passes the filter, in order |
| `ContactManagement.ShowEmptyState` | src/components/ContactManagement.tsx:244 | none of its own; see `ContactManagement.EmptyStateIffNoMatch` |
| `ContactManagement.EmptyStateIffNoMatch` | src/components/ContactManagement.tsx:244 | the empty state is shown iff no contact passes the filter |
| `ContactManagement.EightMatchesMakeTwoPages` | src/components/ContactManagement.tsx:43-59 | eight matches give two pages, of six and two contacts |
| `ContactManagement.NumberedPagesAreNonEmpty` | src/components/ContactManagement.tsx:57-59 | every page from 1 to `totalPages` shows at least one contact |
| `ContactManagement.Pagination` | src/components/ContactManagement.tsx:209-241 | the bar is shown iff `totalPages > 1`; "previous" is disabled iff the page is 1; "next" is disabled iff the page is the last; the buttons are numbered 1..`totalPages` |
| `ContactManagement.NavigationStaysOnPages` | src/components/ContactManagement.tsx:211-239 | from a page in range, every enabled button leads to a non-empty page |
| `ContactManagement.RemoveById` | src/components/ContactManagement.tsx:72 | removal keeps exactly the contacts whose id differs from the deleted one |
| `ContactManagement.RemoveByIdKeepsOthers` | src/components/ContactManagement.tsx:72 | the other contacts keep their order and every occurrence |
| `ContactManagement.Toggle` | src/components/ContactManagement.tsx:88-90 | the toggle always changes the order |
| `ContactManagement.ToggleTwice` | src/components/ContactManagement.tsx:88-90 | two toggles restore the original order |
| `ContactManagement.GroupBadgeColor` | src/components/ContactManagement.tsx:92-101 | every string outside the five named groups gets the gray badge |
| `ContactManagement.BadgeClass` | src/components/ContactManagement.tsx:92-101 | none of its own; see `ContactManagement.BadgeClassInjective` |
| `ContactManagement.BadgeColorsDistinct` | src/components/ContactManagement.tsx:92-101 | the five named groups get five different colours, none of them gray |
| `ContactManagement.BadgeClassInjective` | src/components/ContactManagement.tsx:92-101 | different colours get different class strings, so the five named groups get five different badges |
| `ContactManagement.MockGroupsAreSentinelAndBadgeGroups` | src/components/ContactManagement.tsx:32 | the selector offers "Tất cả" followed by exactly the five groups with a badge colour of their own; the sentinel gets the gray badge |
| `ContactManagement.DeleteCanLeaveBlankPage` | src/components/ContactManagement.tsx:57-72 | seven contacts with the user on page 2: after deleting its only contact, page 2 is empty, the bar is hidden and the empty state is not shown |
| `ContactManagement.ClampPage` | src/components/ContactManagement.tsx:41 | the clamped page is at least 1, at most `totalPages` when there are pages, and a page already in range is unchanged |
| `ContactManagement.ClampedPageShowsContacts` | src/components/ContactManagement.tsx:57-59 | with the clamped page, a non-empty list always shows a non-empty page |
| `ContactManagement.ContactScreen.constructor` | src/components/ContactManagement.tsx:37-42 | the screen starts with the eight mock contacts, no search term, "Tất cả", ascending order, page 1 and the dialog closed |
| `ContactManagement.ContactScreen.Filtered` | src/components/ContactManagement.tsx:46-54 | none of its own; it is `FilteredContacts` of the screen's state, see `ContactManagement.ContactScreen.Visible` |
| `ContactManagement.ContactScreen.Visible` | src/components/ContactManagement.tsx:57-59 | the visible page is the slice of the filtered list from `(currentPage-1)*6`: exactly `min(6, n - start)` contacts (none past the end), in filtered order, each a contact of the screen that passes the filter |
| `ContactManagement.ContactScreen.SetSearchTerm` | src/components/ContactManagement.tsx:122 | typing replaces the search term |
| `ContactManagement.ContactScreen.SetSelectedGroup` | src/components/ContactManagement.tsx:128 | the group selector replaces the selected group |
| `ContactManagement.ContactScreen.GoToPage` | src/components/ContactManagement.tsx:225 | a numbered button sets the current page to its number |
| `ContactManagement.ContactScreen.PreviousPage` | src/components/ContactManagement.tsx:211-216 | "previous", enabled only away from page 1, moves back one page and stays at or above 1 |
| `ContactManagement.ContactScreen.NextPage` | src/components/ContactManagement.tsx:233-238 | "next" moves forward one page |
| `ContactManagement.ContactScreen.HandleSort` | src/components/ContactManagement.tsx:88-90 | the sort button toggles the order |
| `ContactManagement.ContactScreen.HandleDeleteClick` | src/components/ContactManagement.tsx:61-63 | the delete button opens the dialog for that contact |
| `ContactManagement.ContactScreen.HandleDialogOpenChange` | src/components/ContactManagement.tsx:257 | opening or closing the dialog keeps the selected contact |
| `ContactManagement.ContactScreen.ConfirmDelete` | src/components/ContactManagement.tsx:65-86 | with no selected contact nothing changes; otherwise the contacts with its id are removed and the dialog closes, while the current page stays as it was |

## Left out

- `src/lib/api.ts` and `src/services/contactApi.ts` are not part of this model. They are `fetch` calls with URL building and logging. Fetching shows up only as the `Option`/`array?` of fetched contacts that `Derive` and `DeriveView` take. `getContacts` ignores its parameters, so every search runs on the client.
- React Query's own behaviour is library code: `staleTime`, request deduplication, background refetching, retries and the `enabled` flag of `useContact`. `QueryCache` keeps only which keys hold data and which are stale. `Store` stands for a completed fetch.
- The `useContact` detail query is modelled only through `Normalize`, which its query function applies. The fetch is left out.
- Toasts, navigation after a submit, loading skeletons, rendering, `DeleteConfirmDialog.tsx` and `SearchResultsInfo.tsx` are presentation only.
- The mutation error handlers only show toasts; the model has them change no cache state. A rejected `mutateAsync` is caught and ignored, which `HandleSubmit` reflects by returning the request it issues and nothing more.
- The 500 ms `setTimeout` in `confirmDelete` and its `catch` branch are left out; nothing in the model can fail there.
- `toLowerCase` and `localeCompare(_, "vi")` are parameters without Unicode tables. Ordering lemmas assume the collation is a total preorder.
- Negative or fractional `page` and `limit` values are left out. `Option<nat>` models an absent value, and 0 falls back to the default exactly as `||` does.
- `NormalizedContact.createdAt` and `updatedAt` are optional in the TypeScript type, but `normalizeContact` always sets them. They are plain strings here, so `String(...)` of a sort field is the field itself.
- `handleInputChange` stores `undefined` under the cleared key rather than deleting it. The model removes the key. Nothing reads the difference: the screens test `errors[field]` for truthiness, and `validateForm` builds a new map.
- `getGroupBadgeColor` is modelled as the colour it picks (`BadgeColor`). `BadgeClass` builds each class string from the Tailwind colour name; the result is character for character the literal in the source.
- `ContactManagement.ContactScreen.NextPage` does not state the disabled state of "next". That depends on the filtered list, which needs `lower` and `collate`. `NavigationStaysOnPages` states it instead.
- The older screen's `sort` runs on the fresh array that `filter` returns. It is modelled by its value (`Sorting.SortSeq`); the in-place algorithm is modelled once, for the hook.

## Findings

| source | as written | input that shows it | evidently intended | confidence | as-written member | corrected member |
|---|---|---|---|---|---|---|
| src/components/EditContact.tsx:100 | `phone: formData.phone \|\| undefined` leaves an emptied phone out of the PATCH body, so the server keeps the old phone | a contact with name "A", e-mail "a@b.co" and phone "0901234567"; the user empties the phone field and saves | clearing the field removes the phone, so the body carries `phone: ""` | medium, not executed; assumes the server applies PATCH as a partial update, as `contactApi.ts` names it | `EditContact.ClearedPhoneIsKept` | `EditContact.SavedContactMatchesForm` |
| src/components/ContactManagement.tsx:72 | `confirmDelete` removes the contact but leaves `currentPage` as it was | seven contacts; the user is on page 2 and deletes its only contact, leaving page 2 blank with no pagination bar and no empty state | the current page is pulled back into 1..`totalPages` | high, not executed | `ContactManagement.DeleteCanLeaveBlankPage` | `ContactManagement.ClampedPageShowsContacts` |

The edit and list screens (`EditContact.HandleSubmit`, `ContactManagement.ContactScreen.ConfirmDelete`) model the code as written. The corrected definitions, `EditContact.UpdatePayloadSendingPhone` and `ContactManagement.ClampPage`, stand beside them with their properties proved.

Changing the search term or the group (`ContactManagement.tsx:122` and `:128`) also leaves `currentPage` as it was. `ContactManagement.ContactScreen.SetSearchTerm` and `SetSelectedGroup` model that as written. `ClampedPageShowsContacts` holds for any filtered list, so the same clamp covers those cases too.
