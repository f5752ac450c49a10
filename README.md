# Escalation tracker dashboard — a Dafny model

This project models the frontend logic of an escalation tracker: the list page, the create/edit form, and the helpers they share.

On the list page, a user narrows the escalation records with a filter panel and reads three summary cards. The cards count the filtered records by status, by functional area and by business group. The user then browses the filtered records in a table sorted by a column header. The form edits one record as a draft and shows three read-only displays: the creation date, the escalation's length in days, and the escalation number.

The model covers:

- **`EscalationsFilterHook`** (`useEscalationsFilters.ts`):
  - the filter criteria and the predicate that filters the records;
  - the loop that fills the three count dictionaries;
  - the sorted distinct values offered by the drop-downs;
  - the criteria state with set and reset.
- **`EscalationsFilters`** (`EscalationsFilters.tsx`):
  - one-field updates of the criteria;
  - the "All" sentinels of the three drop-downs;
  - `hasActiveFilters`;
  - the status labels.
- **`EscalationsTable`** (`EscalationsTable.tsx`):
  - the sort key, comparator and direction;
  - the stable sort of a copy of the list;
  - the header toggle, as a class with the two state variables.
- **`EscalationsSummary`** (`EscalationsSummary.tsx`): each dictionary rendered as rows ordered by descending count, or as "No data available".
- **`EscalationLength`** (`escalationLength.ts`): the whole days since creation and their display string.
- **`EscalationForm`** (`EscalationForm.tsx`):
  - the draft state: initial value, loading the record being edited, field changes;
  - the creation-date, length and escalation-number displays.
- **Shared modules**:
  - `Escalations`: the record and its status enum.
  - `Sorting`: a generic stable sort. It has a reference definition, a proof that any stable sort computes the same sequence, and an in-place array algorithm proved to compute it.
  - `Text`: ASCII case mapping, substring search, string order and decimal rendering.
  - `Wrappers`: `Option`.

Conventions:

- A record's `createdDate` is the backend's creation instant in nanoseconds, and 0 means "not saved yet".
- The current time is the parameter `now`, in milliseconds.
- The two filter date bounds are `Option<int>` instants. `None` means their input is empty.

## Model

Source paths are relative to the repository root.

| member | source | states |
|---|---|---|
| Escalations.WithText | src/frontend/src/components/escalations/EscalationForm.tsx:46-48 | the changed text field holds the new value; every other text field, the id, status and creation instant are unchanged |
| Escalations.WithStatus | src/frontend/src/components/escalations/EscalationForm.tsx:138 | the status is the chosen one; every text field, the id and creation instant are unchanged |
| Text.Lower | src/frontend/src/hooks/useEscalationsFilters.ts:30 | same length, and no ASCII upper-case letter is left in the result |
| Text.LowerIgnoresCase | src/frontend/src/hooks/useEscalationsFilters.ts:30 | a string and its upper-cased form lower-case alike; lower-casing twice is lower-casing once |
| Text.Contains | src/frontend/src/hooks/useEscalationsFilters.ts:30-34 | `s.includes(t)`: `t` occurs as a contiguous block of `s`; `EmptyContainsOnlyEmpty` states its empty-string case |
| Text.EmptyContainsOnlyEmpty | src/frontend/src/hooks/useEscalationsFilters.ts:30-36 | the empty string contains exactly the empty string, so an empty field never passes a non-empty search |
| Text.Below | src/frontend/src/components/escalations/EscalationsTable.tsx:49-50 | JavaScript `<` on strings: a proper prefix comes first, otherwise the first differing character decides; the four lemmas below give its order properties |
| Text.BelowIrreflexive | src/frontend/src/components/escalations/EscalationsTable.tsx:49-50 | no string is below itself under `<` |
| Text.BelowAsymmetric | src/frontend/src/components/escalations/EscalationsTable.tsx:49-50 | `<` on strings never holds both ways |
| Text.BelowTransitive | src/frontend/src/components/escalations/EscalationsTable.tsx:49-50 | `<` on strings is transitive |
| Text.BelowTotal | src/frontend/src/components/escalations/EscalationsTable.tsx:49-51 | two strings are equal or ordered one way, so the comparator's 0 means equal keys |
| Text.Decimal | src/frontend/src/utils/escalationLength.ts:49 | `toString` of a whole number is non-empty, all digits, no leading zero |
| Text.DecimalRoundTrip | src/frontend/src/utils/escalationLength.ts:49 | reading the rendered digits back gives the number |
| Text.DecimalInjective | src/frontend/src/utils/escalationLength.ts:49 | different numbers render differently |
| Sorting.SortPermutation | src/frontend/src/components/escalations/EscalationsTable.tsx:22 | the sort output is a permutation of its input |
| Sorting.SortOrdered | src/frontend/src/components/escalations/EscalationsTable.tsx:22-52 | no output key is strictly below its predecessor's |
| Sorting.SortStable | src/frontend/src/components/escalations/EscalationsTable.tsx:49-52 | the elements of each key keep their input order |
| Sorting.SortOfOrdered | src/frontend/src/components/escalations/EscalationsTable.tsx:21-53 | an already ordered sequence is returned unchanged |
| Sorting.SortIdempotent | src/frontend/src/components/escalations/EscalationsTable.tsx:21-53 | sorting twice equals sorting once |
| Sorting.SortUnique | src/frontend/src/components/escalations/EscalationsTable.tsx:22 | any ordered permutation that is stable per key equals the reference sort |
| Sorting.SortInPlace | src/frontend/src/components/escalations/EscalationsTable.tsx:22 | the array afterwards holds the reference sort of its old contents |
| Sorting.InsertAt | src/frontend/src/components/escalations/EscalationsTable.tsx:22 | one pass moves element i into the sorted prefix; the rest of the array is unchanged |
| EscalationLength.TruncDiv | src/frontend/src/utils/escalationLength.ts:13 | `bigint` division: floor for non-negative, truncation toward zero for negative |
| EscalationLength.CreatedMillis | src/frontend/src/utils/escalationLength.ts:13 | the millisecond instant is the largest whole millisecond not after a non-negative nanosecond instant; a negative instant gives at most 0 |
| EscalationLength.DaysSinceCreation | src/frontend/src/utils/escalationLength.ts:6-27 | null exactly for 0, a non-positive millisecond instant or a future one; otherwise whole days d with d days ≤ elapsed < d+1 days |
| EscalationLength.SubMillisecondIsUnset | src/frontend/src/utils/escalationLength.ts:13-17 | positive instants below one millisecond give null |
| EscalationLength.DaysAreExact | src/frontend/src/utils/escalationLength.ts:19-23 | the result is exactly the floor of elapsed milliseconds over a day |
| EscalationLength.DaysMonotoneInNow | src/frontend/src/utils/escalationLength.ts:12-23 | a defined age stays defined and never decreases as time passes |
| EscalationLength.ThreeDaysTwoHours | src/frontend/src/utils/escalationLength.ts:19-23 | a record 3 days 2 hours old is 3 days old and shows "3 days" |
| EscalationLength.FormatEscalationLength | src/frontend/src/utils/escalationLength.ts:34-50 | null gives "Not yet created", 1 gives "1 day", any other n gives its decimal plus " days" |
| EscalationLength.FormatDays | src/frontend/src/utils/escalationLength.ts:34-50 | the display for a day count; `FormatEscalationLength` gives its cases and `FormatDaysInjective` its injectivity |
| EscalationLength.FormatDaysInjective | src/frontend/src/utils/escalationLength.ts:34-50 | different ages (including null) never share a display string |
| EscalationsFilterHook.FilterEscalations | src/frontend/src/hooks/useEscalationsFilters.ts:27-49 | no longer than the input; every kept record is an input record meeting every set criterion |
| EscalationsFilterHook.Matches | src/frontend/src/hooks/useEscalationsFilters.ts:28-48 | the filter predicate; with the empty criteria every record passes; `MatchesMeaning` gives what each set criterion demands |
| EscalationsFilterHook.SearchIgnoresCase | src/frontend/src/hooks/useEscalationsFilters.ts:30-36 | upper-casing the customer or manager search, or the record's field, does not change whether the record passes |
| EscalationsFilterHook.MatchesAsWritten | src/frontend/src/hooks/useEscalationsFilters.ts:28-48 | the callback as written: the same verdict as `Matches` with no date bound set; a set date bound reaches `new Date` on a `bigint`, modelled as a throw |
| EscalationsFilterHook.DateFilterThrowsAsWritten | src/frontend/src/hooks/useEscalationsFilters.ts:41-44 | as written, any record passing the text criteria throws once a date bound is set |
| EscalationsFilterHook.DateFilterThrowsOnAnyRecord | src/frontend/src/hooks/useEscalationsFilters.ts:41-44 | as written, setting only "Created From" throws on every record, where the intended filter keeps exactly the records created at or after the bound |
| EscalationsFilterHook.KeepCounts | src/frontend/src/hooks/useEscalationsFilters.ts:28 | `filter` keeps each satisfying element as often as it occurs and nothing else |
| EscalationsFilterHook.KeepMonotone | src/frontend/src/hooks/useEscalationsFilters.ts:28 | a stronger predicate keeps a subsequence of what a weaker one keeps |
| EscalationsFilterHook.FilterIsSubsequence | src/frontend/src/hooks/useEscalationsFilters.ts:27-49 | the filtered list is an order-preserving subsequence of the input |
| EscalationsFilterHook.FilterCounts | src/frontend/src/hooks/useEscalationsFilters.ts:27-49 | each matching record is kept with its multiplicity; non-matching records not at all |
| EscalationsFilterHook.EmptyFiltersKeepAll | src/frontend/src/hooks/useEscalationsFilters.ts:14-22 | with the empty criteria the filtered list is the whole list |
| EscalationsFilterHook.MatchesMeaning | src/frontend/src/hooks/useEscalationsFilters.ts:29-45 | a passing record has the exact status, area and group asked for; its lower-cased customer and manager contain the lower-cased searches, and are non-empty when searched; it lies within each set bound |
| EscalationsFilterHook.DateRangeIsInclusive | src/frontend/src/hooks/useEscalationsFilters.ts:41-45 | with no text criterion, a record passes exactly when from ≤ created ≤ to for the set bounds |
| EscalationsFilterHook.FilterMonotone | src/frontend/src/hooks/useEscalationsFilters.ts:28-48 | setting previously unset criteria yields a subsequence of the previous result |
| EscalationsFilterHook.Tally | src/frontend/src/hooks/useEscalationsFilters.ts:52-60 | the intended dictionary over the keys in order; `TallyCounts` and `TallyTotal` state its contents and total |
| EscalationsFilterHook.IncrementMeaning | src/frontend/src/hooks/useEscalationsFilters.ts:57-59 | `m[k] = (m[k] \|\| 0) + 1`: `k` becomes a key, counted once more than before (1 when new), every other key keeps its count |
| EscalationsFilterHook.TallyCounts | src/frontend/src/hooks/useEscalationsFilters.ts:56-60 | a key is in the dictionary exactly when it occurs, and maps to its number of occurrences |
| EscalationsFilterHook.TallyTotal | src/frontend/src/hooks/useEscalationsFilters.ts:56-60 | the counts sum to the number of records counted |
| EscalationsFilterHook.ComputeSummaries | src/frontend/src/hooks/useEscalationsFilters.ts:51-63 | each of the three dictionaries the loop fills is the tally of that attribute over the filtered list |
| EscalationsFilterHook.SummaryClosure | src/frontend/src/hooks/useEscalationsFilters.ts:51-63 | counts sum to the filtered length, each is at least 1, every key is some record's value and every record's value is a key |
| EscalationsFilterHook.IncrementAsWritten | src/frontend/src/hooks/useEscalationsFilters.ts:57-59 | the update on a plain `{}`: `"__proto__"` stores nothing, an inherited method name stores its source text plus "1", other keys count up |
| EscalationsFilterHook.TallyAsWritten | src/frontend/src/hooks/useEscalationsFilters.ts:52-60 | the own properties of the plain object the source fills over the keys in order |
| EscalationsFilterHook.AsWrittenAgreesOffPrototype | src/frontend/src/hooks/useEscalationsFilters.ts:52-60 | when no key is `"__proto__"` or an inherited method name, the plain object holds exactly the intended counts |
| EscalationsFilterHook.ProtoKeyIsDropped | src/frontend/src/hooks/useEscalationsFilters.ts:52-60 | one `"__proto__"` key: the intended count is 1 and totals 1; the plain object stays empty |
| EscalationsFilterHook.ConstructorKeyIsNotACount | src/frontend/src/hooks/useEscalationsFilters.ts:52-60 | one `"constructor"` key: the intended count is 1; the plain object stores the string "function Object() { [native code] }1" |
| EscalationsFilterHook.DistinctValuesMeaning | src/frontend/src/hooks/useEscalationsFilters.ts:70-74 | a value is collected exactly when it is non-empty and some record has it |
| EscalationsFilterHook.StrictlyAscendingHasNoDuplicates | src/frontend/src/hooks/useEscalationsFilters.ts:77-79 | a strictly ascending list has no repeated value |
| EscalationsFilterHook.SortedFromSet | src/frontend/src/hooks/useEscalationsFilters.ts:77-79 | `Array.from(set).sort()` is strictly ascending and holds exactly the set's elements |
| EscalationsFilterHook.CollectValues | src/frontend/src/hooks/useEscalationsFilters.ts:66-74 | the loop over the unfiltered list: each set holds exactly the non-empty values of its attribute |
| EscalationsFilterHook.ComputeUniqueValues | src/frontend/src/hooks/useEscalationsFilters.ts:65-81 | each option list is strictly ascending and holds exactly the non-empty values occurring in the unfiltered list |
| EscalationsFilterHook.FiltersState.constructor | src/frontend/src/hooks/useEscalationsFilters.ts:25 | the criteria start empty |
| EscalationsFilterHook.FiltersState.SetFilters | src/frontend/src/hooks/useEscalationsFilters.ts:85 | the criteria become the given ones |
| EscalationsFilterHook.FiltersState.ResetFilters | src/frontend/src/hooks/useEscalationsFilters.ts:89 | the criteria become the empty ones, under which every record passes |
| EscalationsFilters.WithCriterion | src/frontend/src/components/escalations/EscalationsFilters.tsx:26-28 | the changed criterion holds the value; every other criterion and both bounds are unchanged |
| EscalationsFilters.WithBound | src/frontend/src/components/escalations/EscalationsFilters.tsx:26-28 | the changed bound holds the value; the other bound and every criterion are unchanged |
| EscalationsFilters.WithCriterionUnchanged | src/frontend/src/components/escalations/EscalationsFilters.tsx:26-28 | re-entering a criterion's current value leaves the criteria equal |
| EscalationsFilters.SelectValue | src/frontend/src/components/escalations/EscalationsFilters.tsx:63 | the shown value is never empty: the criterion or the sentinel |
| EscalationsFilters.Sentinel | src/frontend/src/components/escalations/EscalationsFilters.tsx:21-23 | each "All" value is non-empty, so it is never an unset criterion |
| EscalationsFilters.HandleSelectChange | src/frontend/src/components/escalations/EscalationsFilters.tsx:30-35 | the sentinel stores `''`, any other value is stored as is; nothing else changes |
| EscalationsFilters.SelectRoundTrip | src/frontend/src/components/escalations/EscalationsFilters.tsx:63-64 | feeding the shown value back restores the criteria, for any criterion other than the sentinel |
| EscalationsFilters.SelectAllClears | src/frontend/src/components/escalations/EscalationsFilters.tsx:30-35 | choosing "All" clears the criterion and the control shows "All" again |
| EscalationsFilters.SelectShowsChoice | src/frontend/src/components/escalations/EscalationsFilters.tsx:63-64 | after choosing a non-empty option the control shows it |
| EscalationsFilters.HasActiveFiltersMeaning | src/frontend/src/components/escalations/EscalationsFilters.tsx:37 | active exactly when some criterion or bound is set, that is, exactly when the criteria differ from the empty ones |
| EscalationsFilters.HasActiveFilters | src/frontend/src/components/escalations/EscalationsFilters.tsx:37 | some criterion value is non-empty; `HasActiveFiltersMeaning` states when |
| EscalationsFilters.ClearButtonVisibility | src/frontend/src/components/escalations/EscalationsFilters.tsx:37 | setting any criterion non-empty makes the filters active; the empty filters are not |
| EscalationsFilters.GetStatusLabel | src/frontend/src/components/escalations/EscalationsFilters.tsx:40-55 | Red, Yellow, Green map to RED, YELLOW, GREEN; any other string is unchanged |
| EscalationsFilters.StatusLabelIsUpperForColours | src/frontend/src/components/escalations/EscalationsFilters.tsx:40-55 | the label is the upper-cased status for the three colours and the status itself otherwise |
| EscalationsFilters.StatusLabelsDistinct | src/frontend/src/components/escalations/EscalationsFilters.tsx:40-55 | the five statuses get five different labels |
| EscalationsFilters.SettingCriterionNarrows | src/frontend/src/components/escalations/EscalationsFilters.tsx:26-28 | setting an empty criterion yields a subsequence of the previous filtered list |
| EscalationsFilters.SettingBoundNarrows | src/frontend/src/components/escalations/EscalationsFilters.tsx:26-28 | setting an unset bound yields a subsequence of the previous filtered list |
| EscalationsTable.KeyTotal | src/frontend/src/components/escalations/EscalationsTable.tsx:26-47 | two keys of one column are equal or ordered one way |
| EscalationsTable.KeyOf | src/frontend/src/components/escalations/EscalationsTable.tsx:26-47 | the creation-date column, and only it, compares instants; every text key has no upper-case letter |
| EscalationsTable.KeyIgnoresCase | src/frontend/src/components/escalations/EscalationsTable.tsx:27-45 | upper-casing a record's title, customer or number does not change its key |
| EscalationsTable.Compare | src/frontend/src/components/escalations/EscalationsTable.tsx:49-51 | the comparator; `CompareMeaning` gives its sign |
| EscalationsTable.CompareAsWritten | src/frontend/src/components/escalations/EscalationsTable.tsx:22-52 | the comparator as written: equal to `Compare` on the text columns; on the creation-date column `new Date` of a `bigint`, modelled as a throw |
| EscalationsTable.DefaultSortThrowsAsWritten | src/frontend/src/components/escalations/EscalationsTable.tsx:18-19 | as written, under the initial state every comparison throws; the intended comparison puts the later instant first and ties exactly on equal instants |
| EscalationsTable.SortEscalations | src/frontend/src/components/escalations/EscalationsTable.tsx:21-53 | the sorted copy; the `SortIs…` lemmas and `AnyStableSortAgrees` state its properties |
| EscalationsTable.DefaultSortIsNewestFirst | src/frontend/src/components/escalations/EscalationsTable.tsx:18-19 | under the initial state the creation instants are non-increasing down the list |
| EscalationsTable.PrecedesAsymmetric | src/frontend/src/components/escalations/EscalationsTable.tsx:49-51 | the sort order never holds both ways in either direction |
| EscalationsTable.PrecedesTransitive | src/frontend/src/components/escalations/EscalationsTable.tsx:49-51 | the sort order is transitive in either direction |
| EscalationsTable.CompareMeaning | src/frontend/src/components/escalations/EscalationsTable.tsx:49-51 | the comparator is negative exactly when the first key precedes, positive exactly when the second does, zero exactly when the keys are equal |
| EscalationsTable.SortIsPermutation | src/frontend/src/components/escalations/EscalationsTable.tsx:22 | the sorted list is a permutation of the input |
| EscalationsTable.SortIsOrdered | src/frontend/src/components/escalations/EscalationsTable.tsx:26-51 | adjacent keys are non-decreasing ascending and non-increasing descending |
| EscalationsTable.SortIsStable | src/frontend/src/components/escalations/EscalationsTable.tsx:49-52 | records with equal keys keep their relative order |
| EscalationsTable.SortIsIdempotent | src/frontend/src/components/escalations/EscalationsTable.tsx:21-53 | an already ordered list is unchanged; sorting twice is sorting once |
| EscalationsTable.AnyStableSortAgrees | src/frontend/src/components/escalations/EscalationsTable.tsx:22-52 | any stable sort with this comparator produces exactly the modelled sequence |
| EscalationsTable.NextSortState | src/frontend/src/components/escalations/EscalationsTable.tsx:55-62 | the current column keeps its field and flips direction; another column becomes its ascending sort |
| EscalationsTable.ToggleTwiceRestores | src/frontend/src/components/escalations/EscalationsTable.tsx:55-62 | clicking the current column twice restores the state |
| EscalationsTable.NewColumnThenToggle | src/frontend/src/components/escalations/EscalationsTable.tsx:55-62 | clicking a new column twice sorts it descending |
| EscalationsTable.SortableTable.constructor | src/frontend/src/components/escalations/EscalationsTable.tsx:18-19 | the initial sort is by creation date, descending |
| EscalationsTable.SortableTable.HandleSort | src/frontend/src/components/escalations/EscalationsTable.tsx:55-62 | the new state is the toggle of the old state and the clicked column |
| EscalationsTable.SortableTable.SortedEscalations | src/frontend/src/components/escalations/EscalationsTable.tsx:21-53 | sorting a fresh copy yields the modelled sort of the list under the current state; the input array is not modified |
| EscalationsSummary.Label | src/frontend/src/components/escalations/EscalationsSummary.tsx:27 | the empty key shows as "Unspecified"; any other key as itself |
| EscalationsSummary.LabelNearlyInjective | src/frontend/src/components/escalations/EscalationsSummary.tsx:27 | two keys share a label only when they are `""` and "Unspecified" |
| EscalationsSummary.CountComparator | src/frontend/src/components/escalations/EscalationsSummary.tsx:15 | `b[1] - a[1]`; `CountComparatorMeaning` gives its sign |
| EscalationsSummary.RenderGroup | src/frontend/src/components/escalations/EscalationsSummary.tsx:14-34 | the card body; the lemmas below state its rows |
| EscalationsSummary.RowsSort | src/frontend/src/components/escalations/EscalationsSummary.tsx:15-25 | sorting entries reorders their rows, each occurring as often as before |
| EscalationsSummary.CountComparatorMeaning | src/frontend/src/components/escalations/EscalationsSummary.tsx:15 | `b[1] - a[1]` is negative exactly when a's count is greater, zero exactly when the counts are equal |
| EscalationsSummary.RenderShowsEntries | src/frontend/src/components/escalations/EscalationsSummary.tsx:15-25 | "No data available" exactly for no entries; otherwise the rows are the entries' rows as a multiset: each occurs exactly as often as its entry, and nothing else |
| EscalationsSummary.RowsByDescendingCount | src/frontend/src/components/escalations/EscalationsSummary.tsx:15 | rows appear in non-increasing order of count |
| EscalationsSummary.EqualCountsKeepOrder | src/frontend/src/components/escalations/EscalationsSummary.tsx:15 | entries with equal counts keep their enumeration order |
| EscalationsSummary.RenderShowsDictionary | src/frontend/src/components/escalations/EscalationsSummary.tsx:14-34 | for an enumeration of a dictionary: "No data available" exactly when it is empty; otherwise each key appears as a row with its count, and nothing else does |
| EscalationsSummary.RowsSumToTotal | src/frontend/src/components/escalations/EscalationsSummary.tsx:25-30 | the count badges of a card sum to the dictionary's total |
| EscalationsSummary.CardsAddUpToTotalCount | src/frontend/src/pages/EscalationsListPage.tsx:50 | in every card the badges sum to `totalCount`, the filtered length the page passes; the component does not display it |
| EscalationsSummary.ProtoGroupCardIsEmptyAsWritten | src/frontend/src/components/escalations/EscalationsSummary.tsx:15-21 | as written, one record in business group `"__proto__"` leaves its card showing "No data available"; the intended dictionary shows one row with count 1 |
| EscalationForm.DefaultDraftIsBlank | src/frontend/src/components/escalations/EscalationForm.tsx:19-38 | a fresh draft has id 0, creation instant 0, status Assessment and every text field empty |
| EscalationForm.FormatCreatedDate | src/frontend/src/components/escalations/EscalationForm.tsx:58-63 | the unsaved sentinel 0, and only it, shows "Not yet created"; otherwise the millisecond instant is rendered |
| EscalationForm.LengthDisplay | src/frontend/src/components/escalations/EscalationForm.tsx:66-78 | "Calculated after save" in create mode or for instant 0; else "Not yet created" for a null age; else the bare day count |
| EscalationForm.LengthDisplayIsBareDayCount | src/frontend/src/components/escalations/EscalationForm.tsx:71-77 | the shown age is all digits and reads back as the age; for ages other than 1 it is the list's display without " days" |
| EscalationForm.EscalationNumberDisplay | src/frontend/src/components/escalations/EscalationForm.tsx:102-117 | "Auto-generated on save" in create mode, the draft's number in edit mode |
| EscalationForm.EscalationFormState.constructor | src/frontend/src/components/escalations/EscalationForm.tsx:19-38 | the draft starts as the blank draft |
| EscalationForm.EscalationFormState.LoadInitialData | src/frontend/src/components/escalations/EscalationForm.tsx:40-44 | a present record replaces the whole draft, creation instant and number included; absent, the draft is unchanged |
| EscalationForm.EscalationFormState.HandleChange | src/frontend/src/components/escalations/EscalationForm.tsx:46-48 | only the changed text field of the draft changes |
| EscalationForm.EscalationFormState.HandleStatusChange | src/frontend/src/components/escalations/EscalationForm.tsx:138 | only the draft's status changes |
| EscalationForm.EscalationFormState.LengthOfEscalationDisplay | src/frontend/src/components/escalations/EscalationForm.tsx:66-78 | "Calculated after save" in create mode or for instant 0; in edit mode the display for the draft's instant |
| EscalationForm.EscalationFormState.EscalationNumberShown | src/frontend/src/components/escalations/EscalationForm.tsx:102-109 | in edit mode the field shows the draft's number |
| EscalationForm.FormDisplays | src/frontend/src/components/escalations/EscalationForm.tsx:40-78 | after mounting, loading and one text edit: create mode shows both placeholders; edit mode shows the loaded record's number and its age display |

## Left out

- Rendering: JSX markup, styling, routing, the table's empty-list message and the navigation to a record. None of it computes data.
- Authentication, the profile bootstrap, and the pages and dialogs around these components. These are I/O and navigation. The one fact used from the pages is that `totalCount` is the filtered length.
- Remote calls and caching (`useQueries.ts`). The form hands its whole draft to the caller on submit. An update therefore forwards the loaded `createdDate` and `escalationNumber` unchanged. The client does not itself protect those fields from change.
- Date parsing and locale formatting. This covers turning the `YYYY-MM-DD` filter inputs into instants and `toLocaleString`.
  - The bounds are `Option<int>` instants, `None` when the input is empty.
  - `FormatCreatedDate` returns the millisecond instant it would render, not the text.
- EscalationsFilterHook.Matches: the date criterion compares `createdDate` with the bounds as one integer instant, in one unit. As written, `new Date(...)` of the `bigint` throws; see "## Findings". Converted to a number, nanoseconds would be compared with milliseconds; the model does not state that second discrepancy.
- EscalationsTable.KeyOf: the creation-date key is the integer instant itself, the intended reading of `new Date(createdDate).getTime()`; see "## Findings". The table cell's `new Date(...).toLocaleDateString()` is rendering and is left out.
- EscalationsFilterHook.ComputeSummaries: the three dictionaries are modelled as maps that own no key in advance. The source's plain `{}` objects differ for `"__proto__"` and for the names `Object.prototype` provides (`"constructor"`, `"toString"`, `"valueOf"` and the others in `InheritedMethods`); see "## Findings". `AsWrittenAgreesOffPrototype` shows they agree for every other key.
- EscalationsFilterHook.SummaryClosure: the closure is proved for the intended dictionaries. As written it holds only when no functional area or business group is one of the inherited names above. `ProtoKeyIsDropped` and `ProtoGroupCardIsEmptyAsWritten` exhibit the break.
- EscalationsSummary.CardsAddUpToTotalCount: holds for the intended dictionaries, with the same restriction as `SummaryClosure` for the source's plain objects.
- EscalationLength.DaysSinceCreation: `Number(...)` of the millisecond value and the floating-point division are exact integer arithmetic here. Precision above 2^53 is not modelled. The `try/catch` is left out because no statement inside it can throw on these values.
- `Date.now()`: the current time is the parameter `now`.
- Text.Lower: only ASCII letters change case. Searches and sort keys use it. Full Unicode case mapping and UTF-16 code-unit ordering are not modelled: `Below` compares characters by code point.
- EscalationsSummary.RenderGroup: `Object.entries` enumeration order is a parameter. `EntriesOf` requires only that the sequence lists each key once with its count. The engine's ordering rule (integer-like keys first) is not modelled.
- The three summary cards call the same `RenderGroup`, so they follow the same rule by construction. No separate lemma states this.
- EscalationsFilters.GetStatusLabel: modelled as a function of the string. The row labels in the drop-down markup are not.

## Findings

| source | as written | input that shows it | evidently intended | confidence | as-written member | corrected member |
|---|---|---|---|---|---|---|
| src/frontend/src/hooks/useEscalationsFilters.ts:52-59 | the counts live in plain `{}` objects updated with `m[k] = (m[k] \|\| 0) + 1`; a `"__proto__"` key is never stored, and an inherited method name such as `"constructor"` stores text | one filtered record whose business group is `"__proto__"`: its card shows "No data available" while `totalCount` is 1 | a dictionary that owns no key in advance (a `Map` or `Object.create(null)`), whose counts add up to `totalCount` | high; not executed | EscalationsFilterHook.TallyAsWritten, EscalationsFilterHook.ProtoKeyIsDropped, EscalationsFilterHook.ConstructorKeyIsNotACount, EscalationsSummary.ProtoGroupCardIsEmptyAsWritten | EscalationsFilterHook.Tally, EscalationsFilterHook.TallyTotal, EscalationsFilterHook.SummaryClosure |
| src/frontend/src/components/escalations/EscalationsTable.tsx:39-41 | the creation-date key is `new Date(a.createdDate).getTime()`, and the `Date` constructor throws a `TypeError` for the `bigint` `createdDate` | any two records under the initial sort state (creation date, descending) | compare the creation instants themselves | high; not executed | EscalationsTable.CompareAsWritten, EscalationsTable.DefaultSortThrowsAsWritten | EscalationsTable.Compare, EscalationsTable.CompareMeaning, EscalationsTable.DefaultSortIsNewestFirst |
| src/frontend/src/hooks/useEscalationsFilters.ts:41-44 | once a date bound is set, the callback evaluates `new Date(esc.createdDate)` on the `bigint`, which throws | any record, with only "Created From" set | compare the record's instant with the bound's, in one unit | high; not executed | EscalationsFilterHook.MatchesAsWritten, EscalationsFilterHook.DateFilterThrowsOnAnyRecord | EscalationsFilterHook.Matches, EscalationsFilterHook.DateRangeIsInclusive |
