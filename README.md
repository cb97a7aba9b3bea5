# Extraction history screen and dashboard header — a Dafny model

This project models the client-side logic of a table-extraction web front end.

The first part is the **extraction-history screen**, `src/app/dashboard/history/page.tsx`. It lists the user's extraction tasks and sets a 5-second interval meant to refresh the list while a task is processing. The interval tests the list captured when the effect last ran (see "## Findings"). When a task is clicked, it loads a tabular preview of one of the task's result files. It also offers the task's `.csv` and `.json` result files for download.

The second part is the **dashboard header**, `src/components/dashboard/dashboard-nav.tsx`. Two of its rules are modelled: which navigation link is marked active, and which initials the avatar shows.

Modules:

- `Wrappers` (`Wrappers.dfy`). An `Option` type, used for JavaScript's `null` and `undefined`.
- `JsStrings` (`JsStrings.dfy`). The JavaScript string operations the screens use: `endsWith`, single-character `split` and `pop`, and the decimal printing of an index. The screens' only `join` is the `join("")` of the initials, which `DashboardNav.FirstChars` models. `JsStrings.Join` is here only to state the split/join round trip. Lemmas also characterise the last segment.
- `Json` (`Json.dfy`). A decoded response body, a named property read, and JavaScript truthiness.
- `Preview` (`Preview.dfy`). The normalisation of a preview body. An envelope `{metadata, data}` yields `data`. A `null` body throws, so the rows are kept as they were. Any other body, such as a bare array, is kept whole.
- `Artifacts` (`Artifacts.dfy`). Classification of `result_files`:
  - the CSV and JSON download cards and their display names;
  - the preview buttons, which are shown only for `.json` positions, each labelled `Table {i+1}`, where `i` is its 0-based index in the original list.
- `HistoryView` (`HistoryView.dfy`). The `Task` record, plus five display rules: the status icon, the task icon, the row highlight, the detail pane and the preview area.
- `HistoryState` (`HistoryState.dfy`). The screen's state and its events.
  - The state has the six React state hooks (`tasks`, `isLoading`, `selectedTask`, `selectedFileIndex`, `tableData`, `isLoadingPreview`). It also has what the polling effect captured when it last ran: the task list the interval callback reads (`capturedTasks`), the `?task=` id, and whether the interval is set.
  - Pure transition functions say what each event does.
  - The class `HistoryPage` carries the same fields. It has one method per event, and each method ensures that its new state is the transition function applied to its old state.
  - Each asynchronous handler is split into two events: one issues the request, the other delivers the outcome.
- `DashboardNav` (`DashboardNav.dfy`). The four fixed navigation entries, the exact-match active rule, and the avatar initials. For a non-empty name, the initials are proved equal to an independent left-to-right "first letter of each word" scanner.

The code lacks some behaviour one might expect of this screen; the model follows the code:

- A successful refresh never clears the selection. When the `?task=` id is not in the new list, the selection is left untouched.
- Refreshes carry no sequence numbers. No tick is skipped while a refresh is in flight.
- Preview responses are not matched to their requests. The last response to arrive sets `tableData`.
- `fetchTablePreview` does not check that its index is in range.
- A task click always previews index 0, even when that file is not a `.json` file.
- The `Table {k}` fallback name is used only when the last `/` segment is empty, not when there is no `/` at all.
- Paths ending in neither `.csv` nor `.json` appear on neither card.

The session is modelled only as a boolean `hasSession`, passed to each event that checks it. Response bodies are parameters of the outcome events.

## Model

| member | source | states |
|---|---|---|
| `JsStrings.Split` | src/app/dashboard/history/page.tsx:364 | `split('/')` yields at least one piece, and no piece contains the separator |
| `JsStrings.EndsWith` | src/app/dashboard/history/page.tsx:317 | `endsWith`: the string's final characters, as many as the suffix has, equal the suffix, compared exactly and case-sensitively |
| `JsStrings.LastSegment` | src/app/dashboard/history/page.tsx:364 | `split('/').pop()`: the last piece of the split, which holds no `/` |
| `JsStrings.LastSegmentIsTail` | src/app/dashboard/history/page.tsx:364 | `split('/').pop()` is the tail of the path after its last `/` (preceded by a `/` when shorter than the path), or the whole path when it has no `/` |
| `JsStrings.NatToString` | src/app/dashboard/history/page.tsx:328 | the printed index is a non-empty string of decimal digits |
| `JsStrings.DecimalValueOfNatToString` | src/app/dashboard/history/page.tsx:328 | reading the printed index back gives the index, so different indices print differently |
| `Json.Member` | src/app/dashboard/history/page.tsx:114 | `value.metadata` and `value.data`, the only reads the screen makes: the field of an object when present, and `undefined` for a missing field or a non-object; built-in properties such as `length` are not modelled |
| `Json.Truthy` | src/app/dashboard/history/page.tsx:114 | JavaScript truthiness: `undefined`, `null`, `false`, `0` and `""` are falsy, and every array and object is truthy |
| `Json.HasPositiveLength` | src/app/dashboard/history/page.tsx:340 | `tableData.length > 0` for arrays and strings: a non-empty array or string |
| `Preview.Normalize` | src/app/dashboard/history/page.tsx:113-118 | a `null` body throws (the failure path); an envelope with truthy `metadata` and `data` yields its `data`; every other body is kept whole |
| `Preview.IsEnvelope` | src/app/dashboard/history/page.tsx:114 | `data.metadata && data.data`: both properties are truthy |
| `Preview.EnvelopeMatchesBareArray` | src/app/dashboard/history/page.tsx:113-118 | `{metadata: m, data: rows}` with a truthy `m` and the bare array `rows` normalise to the same rows |
| `Preview.FalsyMetadataKeepsWholeBody` | src/app/dashboard/history/page.tsx:114-117 | an object whose `metadata` is missing or falsy is kept whole, even if it has `data` |
| `Preview.BareArrayKept` | src/app/dashboard/history/page.tsx:116-117 | a bare array is kept as it is |
| `Artifacts.FilterBySuffix` | src/app/dashboard/history/page.tsx:361-362 | the filtered list holds exactly the paths ending in the suffix, and is no longer than the input |
| `Artifacts.CsvFiles` | src/app/dashboard/history/page.tsx:361-362 | the CSV card's list holds exactly the paths ending in `.csv` |
| `Artifacts.JsonFiles` | src/app/dashboard/history/page.tsx:391-392 | the JSON card's list holds exactly the paths ending in `.json` |
| `Artifacts.SuffixIndices` | src/app/dashboard/history/page.tsx:315-317 | exactly the positions whose path ends in the suffix, strictly increasing |
| `Artifacts.FilterPicksMatchingIndices` | src/app/dashboard/history/page.tsx:361-363 | filtering keeps the matching paths in their original order: it equals picking the matching positions in increasing order |
| `Artifacts.CsvAndJsonExclusive` | src/app/dashboard/history/page.tsx:361-393 | no path ends in both `.csv` and `.json` |
| `Artifacts.DownloadListsPartition` | src/app/dashboard/history/page.tsx:361-393 | the CSV card lists exactly the `.csv` paths and the JSON card exactly the `.json` paths; a path with neither suffix is on neither; no path is on both |
| `Artifacts.PartitionExample` | src/app/dashboard/history/page.tsx:361-393 | `["a/b.csv", "x.json", "y.pdf"]` gives `["a/b.csv"]` and `["x.json"]`, and `y.pdf` appears nowhere |
| `Artifacts.DisplayName` | src/app/dashboard/history/page.tsx:364 | the name is the last `/` segment when that is non-empty, and `Table {k+1}` plus the extension otherwise |
| `Artifacts.DisplayNameIsAfterLastSlash` | src/app/dashboard/history/page.tsx:364 | the name is the text after the last `/`, or the whole path; the fallback is taken for a path ending in `/` |
| `Artifacts.MatchingPathNeverFallsBack` | src/app/dashboard/history/page.tsx:364 | a path ending in a suffix whose last character is not `/` has a non-empty last segment, which is its name |
| `Artifacts.DownloadEntries` | src/app/dashboard/history/page.tsx:361-380 | one entry per filtered path, in order, opening that path; entry `k` is named with `k`, its position in the filtered list |
| `Artifacts.DownloadNamesAreLastSegments` | src/app/dashboard/history/page.tsx:361-394 | every entry on the CSV card (lines 361-364) and the JSON card (lines 391-394) is named by its last path segment; the `Table {k}` fallback cannot be reached there |
| `Artifacts.PreviewButtons` | src/app/dashboard/history/page.tsx:315-330 | one button per `.json` position `i`, in increasing order, labelled `Table {i+1}`, requesting `i`, highlighted when `i` is the selected index |
| `Artifacts.PreviewButtonsAreJsonPositions` | src/app/dashboard/history/page.tsx:315-317 | a position has a button if and only if its path ends in `.json` |
| `Artifacts.PreviewButtonsOrderedAndDistinct` | src/app/dashboard/history/page.tsx:315-328 | buttons request strictly increasing in-range indices and carry pairwise different labels |
| `Artifacts.AtMostOneButtonActive` | src/app/dashboard/history/page.tsx:324 | at most one button is highlighted |
| `Artifacts.ButtonActiveIffJsonSelected` | src/app/dashboard/history/page.tsx:315-324 | some button is highlighted if and only if the selected index is an in-range `.json` position |
| `Artifacts.PreviewButtonsMatchJsonCard` | src/app/dashboard/history/page.tsx:315-330 | the buttons request exactly the paths the JSON card lists, in the same order |
| `HistoryView.StatusIconFor` | src/app/dashboard/history/page.tsx:138-146 | a check for "completed", a spinner for "processing", and a cross for every other status |
| `HistoryView.QueuedLooksFailed` | src/app/dashboard/history/page.tsx:138-146 | "queued" gets the same cross as "failed" |
| `HistoryView.TaskIconFor` | src/app/dashboard/history/page.tsx:130-136 | a document icon exactly for `file_type` "document" |
| `HistoryView.RowHighlighted` | src/app/dashboard/history/page.tsx:200 | a row is highlighted when a task is selected and its `task_id` equals the row's |
| `HistoryView.DetailPaneFor` | src/app/dashboard/history/page.tsx:241-302 | the prompt when nothing is selected; then "processing", then "failed", then zero tables, and the tabs otherwise, each as an if-and-only-if |
| `HistoryView.StatusBeforeTableCount` | src/app/dashboard/history/page.tsx:261-302 | status is tested before the table count; any other status with a non-zero count, "queued" included, shows the tabs |
| `HistoryView.PreviewAreaFor` | src/app/dashboard/history/page.tsx:336-348 | a spinner while loading; otherwise the table when `tableData.length > 0`, and the prompt otherwise |
| `HistoryState.FindTask` | src/app/dashboard/history/page.tsx:65 | absent if and only if no task has the id; otherwise the first task with that id |
| `HistoryState.AnyProcessing` | src/app/dashboard/history/page.tsx:85 | true if and only if some task's status is "processing" |
| `HistoryState.Init` | src/app/dashboard/history/page.tsx:36-41 | the initial hook values: no tasks, `isLoading` true, no selection, no index, no rows, not loading a preview; nothing captured and no interval |
| `HistoryState.StartEffect` | src/app/dashboard/history/page.tsx:45-91 | the previous interval is cleared; with a session the current list and the URL id are captured and a new interval is set; without one nothing else changes |
| `HistoryState.UrlSelection` | src/app/dashboard/history/page.tsx:64-65 | a non-empty `?task=` id picks the first task with that id from the new list; an absent or empty id picks nothing |
| `HistoryState.RefreshSucceeded` | src/app/dashboard/history/page.tsx:60-69 | the list becomes the response; the URL pick, when there is one, becomes the selection, and otherwise the selection stays; `isLoading` becomes false |
| `HistoryState.RefreshFailed` | src/app/dashboard/history/page.tsx:70-78 | only `isLoading` becomes false |
| `HistoryState.PollFires` | src/app/dashboard/history/page.tsx:85 | a tick refreshes when the interval is set and the captured list has a processing task |
| `HistoryState.Teardown` | src/app/dashboard/history/page.tsx:90 | only the interval is cleared |
| `HistoryState.PreviewRequestFor` | src/app/dashboard/history/page.tsx:94-101 | no request without a session; otherwise `/preview/{task_id}/{fileIndex}` with the index as given |
| `HistoryState.RequestPreview` | src/app/dashboard/history/page.tsx:94-98 | no change without a session; otherwise preview loading starts and the task and the index become the selection |
| `HistoryState.PreviewSucceeded` | src/app/dashboard/history/page.tsx:111-118 | the normalised rows replace `tableData`, unless the body is `null`; preview loading ends |
| `HistoryState.PreviewFailed` | src/app/dashboard/history/page.tsx:119-127 | only preview loading ends; the rows stay |
| `HistoryState.ClickRow` | src/app/dashboard/history/page.tsx:204-212 | the task is selected; with result files, the preview of index 0 is requested; without any, the index and the rows are cleared |
| `HistoryState.ClickRequest` | src/app/dashboard/history/page.tsx:206-207 | a click requests index 0 of a task with result files, when there is a session, and nothing otherwise |
| `HistoryState.RefreshOutcomes` | src/app/dashboard/history/page.tsx:56-78 | success replaces the whole list; a non-empty URL id found in the new list selects that task; otherwise the selection is kept and never cleared; failure keeps the list; loading ends after either outcome |
| `HistoryState.PollTickRule` | src/app/dashboard/history/page.tsx:84-90 | a tick fires if and only if the interval is set and the captured list holds a processing task; it never fires after cleanup or after an effect run without a session |
| `HistoryState.OnlyTheEffectChangesPolling` | src/app/dashboard/history/page.tsx:84-91 | refreshes, clicks and preview events never change whether a tick fires |
| `HistoryState.CapturedListHidesProcessingTask` | src/app/dashboard/history/page.tsx:83-91 | after mounting with a session and a refresh returning a processing task, no tick refreshes |
| `HistoryState.CapturedListKeepsPolling` | src/app/dashboard/history/page.tsx:83-91 | after an effect re-run captures a processing task, a later refresh reporting no processing task leaves ticks refreshing |
| `HistoryState.LivePollFollowsRefresh` | src/app/dashboard/history/page.tsx:83-88 | with ticks reading the current list, polling resumes when a refresh returns a processing task and stops when one returns none |
| `HistoryState.RequestPreviewRule` | src/app/dashboard/history/page.tsx:93-101 | without a session nothing changes and nothing is requested; with one, the preview loads, the task and the unchecked index are selected, and `/preview/{task_id}/{index}` is requested |
| `HistoryState.PreviewOutcomeRule` | src/app/dashboard/history/page.tsx:107-127 | loading ends after either outcome; a failure or a `null` body keeps the rows; a readable body replaces them with its normalised rows; the selection is untouched |
| `HistoryState.LastArrivingPreviewWins` | src/app/dashboard/history/page.tsx:93-127 | after requesting index 0 then 1, a response for 0 that arrives last sets the rows while index 1 stays selected |
| `HistoryState.ClickRowRule` | src/app/dashboard/history/page.tsx:204-212 | the whole new state in each case: with files and a session it is the preview request for index 0; with files and no session only the task is selected; with no files the task is selected, the index and the rows are cleared, and nothing is requested |
| `HistoryState.ClickMayPreviewNonJsonFile` | src/app/dashboard/history/page.tsx:204-212 | for files `["t.csv", "t.json"]` a click previews index 0, and no preview button is highlighted |
| `HistoryState.HighlightFollowsIdNotSnapshot` | src/app/dashboard/history/page.tsx:199-203 | after a refresh with no URL match brings a newer snapshot of the selected task, the selection keeps the old snapshot, yet the new row with that id is highlighted |
| `HistoryState.HistoryPage.constructor` | src/app/dashboard/history/page.tsx:36-41 | the initial hook values: no tasks, loading, no selection, no rows, no interval |
| `HistoryState.HistoryPage.RunEffect` | src/app/dashboard/history/page.tsx:45-91 | clears the previous interval; with a session it captures the list and URL id, sets the interval and issues a refresh |
| `HistoryState.HistoryPage.TasksLoaded` | src/app/dashboard/history/page.tsx:60-69 | the new state is the successful-refresh transition of the old one |
| `HistoryState.HistoryPage.TasksFailed` | src/app/dashboard/history/page.tsx:70-78 | only loading ends |
| `HistoryState.HistoryPage.Tick` | src/app/dashboard/history/page.tsx:84-88 | reports a refresh exactly when the interval is set and the captured list holds a processing task; changes nothing |
| `HistoryState.HistoryPage.ClearInterval` | src/app/dashboard/history/page.tsx:90 | only the interval is cleared |
| `HistoryState.HistoryPage.FetchTablePreview` | src/app/dashboard/history/page.tsx:93-101 | the new state and the request are those of the preview-request transition |
| `HistoryState.HistoryPage.PreviewLoaded` | src/app/dashboard/history/page.tsx:111-127 | the new state is the preview-success transition (rows replaced unless the body is `null`; loading ends) |
| `HistoryState.HistoryPage.PreviewRejected` | src/app/dashboard/history/page.tsx:119-127 | only preview loading ends |
| `HistoryState.HistoryPage.ClickTask` | src/app/dashboard/history/page.tsx:204-212 | the new state and the request are those of the row-click transition |
| `DashboardNav.NavItems` | src/components/dashboard/dashboard-nav.tsx:26-47 | exactly four entries |
| `DashboardNav.NavItemsAreFixed` | src/components/dashboard/dashboard-nav.tsx:26-47 | the entries are Dashboard, Document, Email and History, in that order, with pairwise different hrefs |
| `DashboardNav.IsActive` | src/components/dashboard/dashboard-nav.tsx:64 | an entry is active when the path equals its href exactly |
| `DashboardNav.ActiveIndex` | src/components/dashboard/dashboard-nav.tsx:64 | names an entry whose href equals the path, or none when no href equals it |
| `DashboardNav.AtMostOneActive` | src/components/dashboard/dashboard-nav.tsx:64 | any entry whose href equals the path is the one `ActiveIndex` names, so at most one is active |
| `DashboardNav.NoPrefixMatching` | src/components/dashboard/dashboard-nav.tsx:64 | `/dashboard/history` activates History and not Dashboard; `/dashboard/` and deeper paths activate nothing |
| `DashboardNav.FirstChar` | src/components/dashboard/dashboard-nav.tsx:87-88 | `n[0]` as `join` sees it: the first character of a non-empty piece, and nothing for an empty piece |
| `DashboardNav.FirstChars` | src/components/dashboard/dashboard-nav.tsx:87-88 | `map(n => n[0]).join("")`: at most one character per piece |
| `DashboardNav.Initials` | src/components/dashboard/dashboard-nav.tsx:84-89 | the initials are empty only when the name is present and non-empty; with no name, or an empty one, they are exactly one character |
| `DashboardNav.WordStarts` | src/components/dashboard/dashboard-nav.tsx:84-88 | reference: the first character of every space-separated word, scanning left to right; it holds no space |
| `DashboardNav.FirstCharsOfSplitAreWordStarts` | src/components/dashboard/dashboard-nav.tsx:86-88 | `split(" ").map(n => n[0]).join("")` equals the word-start scan, so empty pieces contribute nothing |
| `DashboardNav.NoWordStartsIffBlank` | src/components/dashboard/dashboard-nav.tsx:84-88 | the scan is empty if and only if the name is made of spaces only |
| `DashboardNav.InitialsFromName` | src/components/dashboard/dashboard-nav.tsx:84-88 | with a non-empty name: the first character of each word, in order, with no space; empty exactly for an all-space name, with no fallback in that case |
| `DashboardNav.InitialsWithoutName` | src/components/dashboard/dashboard-nav.tsx:84-89 | with no name or an empty one: the e-mail's first character, or "U" when the e-mail is absent or empty |

## Findings

| source | as written | input that shows it | evidently intended | confidence | as-written member | corrected member |
|---|---|---|---|---|---|---|
| src/app/dashboard/history/page.tsx:83-91 | The interval callback tests the `tasks` of the render in which the effect ran. `tasks` is not among the effect's dependencies. | Mount with a session. The first refresh returns one task with status "processing". Every later tick reads the empty list captured on mount and issues no refresh. | A tick refreshes while the current task list holds a processing task, as the comment at line 83 says. | medium; not executed | `HistoryState.CapturedListHidesProcessingTask` | `HistoryState.LivePollFollowsRefresh` |

The class `HistoryPage` keeps the as-written tick (`Tick`, reading `capturedTasks`), because it models the screen as it behaves. The same cause works the other way too, as `CapturedListKeepsPolling` shows. Once an effect re-run has captured a list holding a processing task, ticks keep refreshing after a later refresh reports that no task is processing. The corrected rule is `LivePollFires`, and its properties are proved in `LivePollFollowsRefresh`. When the effect re-runs, it captures the list current at that time. The effect's dependencies are `session`, `toast` and the URL id. `toast` is assumed stable, so the effect re-runs on a change of session object or URL id. `toast` comes from `@/components/ui/use-toast`, which is not part of this model; a `toast` that changed on every render would re-run the effect after each `setTasks` and re-capture the list.

## Left out

- HTTP and authentication are left out: `fetch`, bearer headers, `API_URL` and the NextAuth session. The session is a boolean parameter. Responses are the payloads of the outcome events. `API_URL` is defined in `src/lib/constants`, which is not part of this model.
- Timing is left out: the 5-second `setInterval` and the interleaving of async continuations. Each tick and each response is one explicit method call.
- React's rendering, batching and unmounting are left out. The model has no unmounted state. React drops a state update that arrives after unmount, but in the model a late outcome event still applies.
- `HistoryPage.TasksLoaded` looks up the `?task=` id captured by the latest effect run. A fetch issued by an earlier run would use that earlier run's id.
- Task-list bodies are modelled as decoded arrays of tasks. A body that is not an array is not modelled. In the source, `setTasks` stores such a body first. With a truthy `?task=` id, `data.find` then throws inside `fetchTasks`. Without one, nothing throws there. Either way, the stored body reaches the render. A `null` body breaks at `tasks.length`. Any other non-array whose `length` is not 0 breaks at `tasks.map`. A non-array whose `length` is 0, such as `""`, shows "No extractions found" instead.
- Numbers are whole numbers (`int`). JavaScript floating point is not modelled.
- `Json.HasPositiveLength`, and so `HistoryView.PreviewAreaFor`, models `tableData.length > 0` only for arrays and strings. An object body whose `length` field compares greater than 0, such as `{"length": 2}` or `{"length": "2"}`, is stored whole and passes the source's test, but the model treats it as having no length.
- Characters are Dafny `char`s. `n[0]` and `email[0]` take a UTF-16 code unit in JavaScript, and surrogate pairs are not modelled.
- Presentation is left out: toasts, `router.push` (including the "Try Again" targets), `window.open`, JSX and icons. So are `formatDate` (date-fns formatting over JavaScript dates) and the unused `fileName` computed at line 319.
- The submission forms (document, email, register), the auth error-message page, layouts, providers and static pages are left out. They hold no logic beyond form plumbing around network calls or fixed copy.
