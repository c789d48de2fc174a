# Campus lost-and-found portal: a Dafny model of its report core

The portal lets students and staff report lost or found items, browse and
filter the reports, and mark items resolved. Everything lives in the
browser: a `useReports` hook keeps the list of reports (newest first) and
writes the whole list under one storage key after every change; the page
derives a filtered view from the list and splits it into active and
resolved groups; a statistics bar counts reports by status; a filter panel
shows and edits the search criteria the page holds; a dialog turns typed fields into a draft report.

This project models that core as immutable datatypes and pure functions and
proves what each operation promises.

| file | module | models |
|---|---|---|
| `report_types.dfy` | `ReportTypes` | `src/types/report.ts`: statuses, the `type` sub-union, `Report`, the draft, the allowed status change |
| `report_store.dfy` | `ReportStore` | `src/hooks/useReports.ts`: add, resolve, delete, save, initial load |
| `index_page.dfy` | `IndexPage` | `src/pages/Index.tsx`: the filter, the active/resolved split, the two handlers |
| `stats_bar.dfy` | `StatsBar` | `src/components/StatsBar.tsx`: the four counts |
| `search_filter.dfy` | `SearchFilter` | `src/components/SearchFilter.tsx`: `hasFilters`, `clearFilters`, the status buttons |
| `report_form.dfy` | `ReportForm` | `src/components/ReportForm.tsx`: submit and remove-image |
| `seqs.dfy` | `Seqs` | `Array.prototype.filter` and the facts about it the rest uses |
| `text.dfy` | `Text` | `toLowerCase` (ASCII letters) and `includes` |

Modelling choices:

- `ReportType` is a subset type of `ReportStatus` (every status but
  `Resolved`), mirroring `type: 'lost' | 'found'` inside
  `ReportStatus = 'lost' | 'found' | 'resolved'`. That is why a new report
  can take `status := type`. The source's `type` field is named `kind`,
  since `type` is a Dafny keyword.
- `imageUrl` is an `Option<string>`; every other field is required.
- Storage is a `map<string, seq<Report>>`: the JSON text in between is taken
  to encode and decode exactly. The in-memory list and the storage live
  together in a `Session`; `Persisted` says the snapshot under
  `campus-lost-found-reports` equals the list.
- `crypto.randomUUID()` and `new Date().toISOString()` are parameters (`id`,
  `createdAt`). Where uniqueness of ids is concluded, freshness of the id is a
  precondition.
- `addReport`, `markAsResolved` and `deleteReport` return nothing in the
  code; the model's functions return the new list (or the new session),
  which is what the hook then renders and stores.
- The status filter is a string, as in the source (`useState('all')`,
  compared with `report.status === statusFilter`); `StatusName` gives a
  status's string.

## Model

| member | source | states |
|---|---|---|
| `ReportTypes.StatusNameInjective` | src/types/report.ts:1 | the three statuses have distinct string names, so comparing names compares statuses |
| `ReportTypes.MayBecomeIsMonotonic` | src/hooks/useReports.ts:31-35 | the only allowed change (none, or status set to resolved) keeps a report well formed, keeps id, type and creation time, and never un-resolves |
| `ReportTypes.MayBecomeTransitive` | src/hooks/useReports.ts:31-35 | a chain of allowed changes is itself an allowed change |
| `ReportStore.NewReport` | src/hooks/useReports.ts:21-27 | the new record carries the supplied id and timestamp, copies every draft field (stripping it gives back the draft), and starts with status equal to its type, never resolved |
| `ReportStore.AddReport` | src/hooks/useReports.ts:21-29 | the list grows by one, the head is the new record built from the draft, the tail is exactly the old list |
| `ReportStore.MarkAsResolved` | src/hooks/useReports.ts:31-36 | same length and order; each record changes at most by becoming resolved; a record ends resolved iff it has the id or already was; records with other ids are untouched |
| `ReportStore.DeleteReport` | src/hooks/useReports.ts:38-40 | a record survives iff it was there and has another id; no record keeps the id; survivors keep their order and every copy of a surviving record is kept |
| `ReportStore.MarkAsResolvedCons` | src/hooks/useReports.ts:32-34 | the map resolves a list's head independently of its rest |
| `ReportStore.MarkAsResolvedIdempotent` | src/hooks/useReports.ts:31-35 | resolving the same id twice equals resolving once |
| `ReportStore.MarkAsResolvedTwice` | src/hooks/useReports.ts:31-35 | after two resolutions with any ids every record is still its original or the original resolved |
| `ReportStore.MarkAsResolvedUnknownId` | src/hooks/useReports.ts:31-35 | resolving an id no record has leaves the list unchanged |
| `ReportStore.DeleteReportUnknownId` | src/hooks/useReports.ts:38-40 | deleting an id no record has leaves the list unchanged |
| `ReportStore.DeleteReportRemovesOne` | src/hooks/useReports.ts:38-40 | with unique ids, deleting a present id shortens the list by exactly one |
| `ReportStore.DeleteUndoesAdd` | src/hooks/useReports.ts:21-40 | deleting a report just added under a fresh id restores the previous list |
| `ReportStore.AddReportPreservesValid` | src/hooks/useReports.ts:21-29 | adding under a fresh id keeps ids unique and every status equal to its type or resolved |
| `ReportStore.MarkAsResolvedPreservesValid` | src/hooks/useReports.ts:31-36 | resolving keeps ids unique and statuses well formed |
| `ReportStore.DeleteReportPreservesValid` | src/hooks/useReports.ts:38-40 | deleting keeps ids unique and statuses well formed |
| `ReportStore.Load` | src/hooks/useReports.ts:9-14 | with nothing stored the list is empty; with a stored snapshot the list is that snapshot; storage is not touched |
| `ReportStore.Save` | src/hooks/useReports.ts:16-19 | afterwards the snapshot under the storage key equals the list in memory, which is the given list; other keys are unchanged |
| `ReportStore.Add` | src/hooks/useReports.ts:28 | adding persists: the stored snapshot equals the new list, and no other storage key changes |
| `ReportStore.Resolve` | src/hooks/useReports.ts:35 | resolving persists: the stored snapshot equals the new list, and no other storage key changes |
| `ReportStore.Delete` | src/hooks/useReports.ts:39 | deleting persists: the stored snapshot equals the new list, and no other storage key changes |
| `ReportStore.ReloadRestores` | src/hooks/useReports.ts:9-19 | loading from what a persisted session stored reproduces that session exactly |
| `ReportStore.NewestFirst` | src/hooks/useReports.ts:28 | after adding `a` then `b`, the list is `b`, `a`, then the old list |
| `Seqs.Filter` | src/pages/Index.tsx:35 | `Array.prototype.filter`: an element is kept iff it passes, in order, and each passing element keeps exactly as many copies as the input has |
| `Text.Includes` | src/pages/Index.tsx:36-41 | the result is true iff the query occurs as a contiguous block at some position |
| `Text.NotIncludedWithoutFirstChar` | src/pages/Index.tsx:36-41 | a non-empty query whose first character does not occur in the text is not included in it |
| `Text.Lower` | src/pages/Index.tsx:36-41 | same length; each upper-case ASCII letter becomes its own lower-case letter, every other character is kept |
| `Text.LowerEqualIffSameUpToCase` | src/pages/Index.tsx:36-41 | two strings lower-case to the same string iff they agree position by position up to ASCII letter case |
| `Text.LowerIdempotent` | src/pages/Index.tsx:36-41 | lower-casing twice equals lower-casing once |
| `IndexPage.FilterReports` | src/pages/Index.tsx:34-46 | a record is in the view iff it is in the list and passes all three tests; the view is an order-preserving subsequence keeping every copy of a matching record |
| `IndexPage.ActiveReports` | src/pages/Index.tsx:48 | a record is in the active group iff it is in the view and not resolved; order and multiplicity preserved |
| `IndexPage.ResolvedReports` | src/pages/Index.tsx:49 | a record is in the resolved group iff it is in the view and resolved; order and multiplicity preserved |
| `IndexPage.ShownIffAllTestsPass` | src/pages/Index.tsx:36-44 | a listed record is shown iff the search, the location and the status tests all pass |
| `IndexPage.EmptyCriteriaKeepAll` | src/pages/Index.tsx:36-44 | empty search, empty location and status `all` show the whole list unchanged |
| `IndexPage.FilterIgnoresQueryCase` | src/pages/Index.tsx:36-41 | queries equal up to letter case give the same view |
| `IndexPage.FilterSameForLowerCasedQuery` | src/pages/Index.tsx:36-41 | lower-casing the queries first does not change the view |
| `IndexPage.FilterReportsIdempotent` | src/pages/Index.tsx:35-45 | filtering the view again with the same criteria returns it unchanged |
| `IndexPage.PartitionIsExact` | src/pages/Index.tsx:48-49 | the active and resolved groups share no record, together hold every record of the view, and their lengths add up to its length |
| `IndexPage.ResolvedFilterHasNoActive` | src/pages/Index.tsx:42-49 | with status filter `resolved` the active group is empty |
| `IndexPage.OpenFilterHasNoResolved` | src/pages/Index.tsx:42-49 | with status filter `lost` or `found` the resolved group is empty |
| `IndexPage.HandleSubmit` | src/pages/Index.tsx:18-24 | submitting persists a list one longer whose head carries the draft, the supplied id and timestamp, and status equal to its type; no other storage key changes |
| `IndexPage.HandleResolve` | src/pages/Index.tsx:26-32 | resolving persists a list of the same length in which each record changed at most by becoming resolved, a record ends resolved iff it has the id or already was, and records with other ids are untouched; no other storage key changes |
| `IndexPage.ResolvedReportMovesGroup` | src/pages/Index.tsx:26-49 | a resolved record leaves the active group and, if the criteria select it, appears in the resolved group |
| `IndexPage.SubmittedFormBecomesNewest` | src/components/ReportForm.tsx:39-45 | the typed fields, the dialog's type and the preview become the newest report, status equal to the type, image present iff a preview was shown |
| `IndexPage.SearchExampleMatches` | src/pages/Index.tsx:36-44 | "BackPack" matches the blue backpack and not the phone |
| `IndexPage.SearchExample` | src/pages/Index.tsx:34-46 | on a backpack-and-phone list, searching "BackPack" finds only the backpack |
| `IndexPage.StatusExample` | src/pages/Index.tsx:34-46 | on the same list, status `found` finds only the phone |
| `IndexPage.CombinedExample` | src/pages/Index.tsx:34-46 | on the same list, location "library" with status `found` finds nothing |
| `IndexPage.StudentIdScenario` | src/pages/Index.tsx:18-49 | a lost "Student ID Card" is added as lost; after resolving it, it is in the resolved group and not in the active one |
| `StatsBar.CountStatus` | src/components/StatsBar.tsx:11-13 | a count is at most the number of reports, and zero iff no report has that status |
| `StatsBar.CountsSumToTotal` | src/components/StatsBar.tsx:10-13 | lost, found and resolved counts add up to the number of reports |
| `StatsBar.ComputeStats` | src/components/StatsBar.tsx:9-14 | total is the list length; each other count is the number with that exact status, at most the total; the three add up to the total |
| `StatsBar.StatsAfterAdd` | src/components/StatsBar.tsx:10-13 | after adding, total and the draft type's count grow by one and the other counts stay |
| `StatsBar.ResolvedCountMonotonic` | src/components/StatsBar.tsx:10-13 | resolving keeps the total and never lowers the resolved count |
| `SearchFilter.HasFilters` | src/components/SearchFilter.tsx:22 | true iff the search or the location is non-empty or the status filter is not `all`, i.e. the criteria differ from the cleared ones |
| `SearchFilter.ClearFilters` | src/components/SearchFilter.tsx:22-28 | the cleared criteria have no active filter, and are the only criteria without one |
| `SearchFilter.StatusOptionsAreAllPlusStatuses` | src/components/SearchFilter.tsx:66 | the buttons are `all` then the name of each status; every status has a button and every button other than `all` names a status |
| `SearchFilter.NoFiltersShowsAll` | src/components/SearchFilter.tsx:22 | with no active filter the view is the whole list |
| `SearchFilter.ClearThenFilterShowsAll` | src/components/SearchFilter.tsx:24-28 | clearing and then filtering gives back the full list |
| `ReportForm.Submit` | src/components/ReportForm.tsx:39-56 | the draft's fields are the form's, its type is the dialog's, its image is absent iff the preview is empty and otherwise equals it; the dialog returns to its initial state (empty fields, no preview, closed) |
| `ReportForm.RemoveImage` | src/components/ReportForm.tsx:187-190 | the preview becomes empty; fields and open flag are untouched |
| `ReportForm.RemovedImageIsNotSubmitted` | src/components/ReportForm.tsx:44 | submitting after removing the image gives a draft with no image and the same fields |
| `ReportForm.SubmittedImageNonEmpty` | src/components/ReportForm.tsx:44 | a submitted image URL is never the empty string |

## Left out

- Rendering, styling, tabs, toasts and the presentational components (header, grid, card with its badge mapping and "Mark Resolved" guard).
- `localStorage` failures (quota, disabled storage) and `JSON.parse` of corrupt data: they surface as uncaught exceptions and are not modelled; storage values are already-decoded lists.
- Id and timestamp generation: `crypto.randomUUID()` and the clock are parameters, so no claim is made that successive timestamps increase.
- The image upload handler (`handleImageChange`): it reads a file asynchronously through `FileReader`; its effect is the data-URI string, or `null` when the read fails or is aborted (src/components/ReportForm.tsx:32-34); `null` acts as the empty preview (`imagePreview || undefined`, src/components/ReportForm.tsx:44), so both enter the model through `FormState.imagePreview`, `null` as `""`.
- The per-field `onChange` handlers of the dialog and the open/close trigger: each replaces one field of the form state.
- React scheduling: `useState`, `useEffect` and `useMemo` timing, and handlers reading a stale `reports`; each operation is a function of the current list.
- ReportStore.Load: the code skips a stored value that is the empty string, as it does a missing key; storage values here are decoded lists, so that case is not represented.
- Text.Lower: lower-cases ASCII letters only, not the full Unicode mapping of `toLowerCase`.
- The browser's `required`-field validation on the dialog, which runs outside the component's logic.
