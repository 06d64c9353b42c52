# Document intelligence front end — a Dafny model

This project models the decision logic of the document-intelligence web front end
(a Next.js / React application). The user walks through three pages:

1. choose a use case;
2. choose data sources;
3. chat with an assistant about the ingested documents.

The model covers three cores.

- **Request construction in the API clients.** For the documents, upload and reports
  clients: query parameters, ingestion source paths, workflow identifiers, upload
  validation, the seed-report download path and the generate body. It also covers how
  each call turns an HTTP answer into a returned value or a thrown message.
- **The selection store and its navigation handlers.** The state is the chosen use case,
  the chosen sources and a loading flag. It is mirrored into `localStorage`, while the
  chat session id lives in `sessionStorage`. The two storage areas are separate maps.
  The stepper, the header's Start Over, the three pages and the assistant's
  get-or-create session id act on them.
- **The small list and string functions of the components.** These are:
  - the source and document toggles, and the select-all checkbox;
  - the upload limits and the file-size labels;
  - the quick-question rules and the progress-step classes;
  - the toast list and the typewriter's ticks;
  - the use-case labels, the document-name and source-name helpers;
  - the session-id and report-filename formats, and the thinking-step message cleaner.

HTTP answers, clock readings and browser events are parameters of the model. Every
handler is a pure function from the old state and those inputs to the new state,
together with the request it would send.

Modules follow the source files, one module per file:

- `JsValue`, `JsText`, `JsDate` and `JsonStrings` hold the JavaScript behaviour the code
  relies on: truthiness, `trim`, `includes`, `split`/`join`, ASCII `toUpperCase`, number
  rendering, zero padding, date fields, and `JSON.stringify`/`JSON.parse` of a string array.
- `Utf16` holds JavaScript's view of a string as UTF-16 code units, which `length` and `slice` count.
- `Http` holds the shape of an exchange and the three error-reading styles the clients use.
- `Lists` holds the membership toggle shared by several components.

## Model

| member | source | states |
|---|---|---|
| Http.TolerantFailure | frontend/utils/api/documents/api-client.js:193-196 | a failed body read with `.catch(() => ({}))` throws its non-empty `detail`, else the fallback; an unreadable body gives the fallback, never a parse error |
| Http.StrictFailure | frontend/utils/api/documents/api-client.js:41-44 | a failed body read with a plain `response.json()` surfaces its syntax error when unreadable, and otherwise reads like the tolerant case |
| Http.ReadJson | frontend/utils/api/documents/api-client.js:46 | a successful body returns its parsed payload exactly when it parses, and otherwise throws the syntax error |
| Http.StrictCall | frontend/utils/api/upload/api-client.js:42-47 | transport errors propagate; an OK answer returns its payload; a failed one throws the strict failure message |
| Http.FixedCall | frontend/utils/api/reports/api-client.js:34-38 | transport errors propagate; an OK answer returns its payload; any failed status throws the one fixed message without reading the body |
| DocumentsClient.FallbackMessage | frontend/utils/api/documents/api-client.js:43 | every call has a non-empty fallback message |
| DocumentsClient.Complete | frontend/utils/api/documents/api-client.js:187-198 | transport errors propagate, OK returns the parsed body, and a non-OK status always throws |
| DocumentsClient.TolerantFailureMessage | frontend/utils/api/documents/api-client.js:231-234 | for `documentExists`, `startIngestion` and `getIngestionStatus`, a failure throws a non-empty message that is the body's `detail` or the fixed fallback; an unreadable body gives the fallback |
| DocumentsClient.StrictFailureMessage | frontend/utils/api/documents/api-client.js:67-70 | the older calls surface an unreadable error body as its syntax error, and otherwise throw `detail` or the fallback |
| DocumentsClient.SourceParams | frontend/utils/api/documents/api-client.js:30-32 | one `sources` parameter per selector, position by position |
| DocumentsClient.ListDocumentsTarget | frontend/utils/api/documents/api-client.js:19-32 | `use_case`, then `status`, `limit` and `skip` with the defaults `completed`, 100 and 0, then the selectors; the query is 4 + number of selectors long |
| Http.ValuesOfAppend | frontend/utils/api/documents/api-client.js:22-32 | the values read back for a key from concatenated parameter lists are the concatenated values |
| DocumentsClient.ValuesOfSourceParams | frontend/utils/api/documents/api-client.js:30-32 | reading `sources` back from the selector parameters gives the selector list |
| DocumentsClient.ListDocumentsSourcesRoundTrip | frontend/utils/api/documents/api-client.js:19-32 | a server reading `sources` back gets exactly the selector list in order, and `use_case` exactly once |
| Http.NoOtherKeys | frontend/utils/api/documents/api-client.js:22-27 | a parameter list without a key contributes no values for it |
| DocumentsClient.SourcePath | frontend/utils/api/documents/api-client.js:211-220 | `@local` gives `@local@/docs/<industry>/<useCase>`; `@s3` and `@gdrive` give `<selector>@<industry>/<useCase>`; any other string gives no path |
| DocumentsClient.SourcePaths | frontend/utils/api/documents/api-client.js:210-221 | at most one path per selector |
| DocumentsClient.SourcePathsAppend | frontend/utils/api/documents/api-client.js:221 | path construction is an in-order image: the paths of a concatenation are the concatenated paths |
| DocumentsClient.SourcePathsAllRecognised | frontend/utils/api/documents/api-client.js:210-221 | when every selector is recognised there is exactly one path per selector, position by position, repeats included |
| DocumentsClient.WorkflowIdInjective | frontend/utils/api/documents/api-client.js:223 | `<industry>_<useCase>_<millis>` differs for different clock readings of the same selection |
| DocumentsClient.StartIngestionCall | frontend/utils/api/documents/api-client.js:208-236 | industry defaults to `fsi`; absent sources count as none; the body holds the source paths and the stamped workflow id; the result is the tolerant-call outcome |
| DocumentsClient.EmptySourcesStillSent | frontend/utils/api/documents/api-client.js:221-229 | absent or empty sources still send the request, with no paths |
| DocumentsClient.LocalSelectionScenario | frontend/utils/api/documents/api-client.js:213-223 | a selection of `@local` for industry i and use case u sends the one path `@local@/docs/i/u` and the workflow id `i_u_<millis>` |
| DocumentsClient.IngestionLogsTarget | frontend/utils/api/documents/api-client.js:261-262 | `limit` is always sent, 200 by default |
| DocumentsClient.IngestionLogs | frontend/utils/api/documents/api-client.js:266-268 | any non-OK status degrades to an empty log page |
| DocumentsClient.IngestionLogsThrowsOnlyWithoutStatus | frontend/utils/api/documents/api-client.js:261-270 | the log fetch throws exactly on a transport failure or an unparseable OK body |
| JsonStrings.ParseStringify | frontend/contexts/SelectionContext.js:34 | parsing what `JSON.stringify` wrote for a string array gives the array back |
| JsonStrings.Stringify | frontend/contexts/SelectionContext.js:53 | the stored sources text is a bracketed JSON array |
| Selection.Get | frontend/contexts/SelectionContext.js:25-26 | `getItem` is `null` exactly for a missing key |
| Selection.Remove | frontend/contexts/SelectionContext.js:61-63 | `removeItem` removes that key and no other |
| Selection.Fresh | frontend/contexts/SelectionContext.js:19-21 | the provider starts loading, with no use case and no sources, and is in step with storage |
| Selection.SetUseCase | frontend/contexts/SelectionContext.js:45-49 | a changed truthy use case is stored; an empty one leaves the stored value; no other key or store changes; being in step with storage is preserved |
| Selection.SetSources | frontend/contexts/SelectionContext.js:51-55 | a non-empty list is stored as JSON that parses back to it; an empty list leaves the stored list; being in step is preserved |
| Selection.Restored | frontend/contexts/SelectionContext.js:32-38 | a stored list that parses is restored, and one that does not parse is dropped |
| Selection.Load | frontend/contexts/SelectionContext.js:24-42 | the mount effect restores a stored non-empty use case and a parsing source list, ends loading whatever storage held, leaves `sessionStorage` alone and ends in step |
| Selection.ClearSelection | frontend/contexts/SelectionContext.js:58-64 | memory is emptied; the three `localStorage` keys are removed and the others kept; `sessionStorage` is untouched; the selection is incomplete |
| Selection.ReloadRestoresSelection | frontend/contexts/SelectionContext.js:24-55 | a complete selection in step with storage comes back unchanged after a reload |
| Selection.EmptiedSourcesReturnOnReload | frontend/contexts/SelectionContext.js:51-55 | emptying the sources leaves the old list stored, so a reload brings it back |
| ClickableStepper.HandleStepClick | frontend/components/layout/ClickableStepper.jsx:16-64 | later and current steps change nothing; step 1 clears the selection, removes the session id from both stores (every other key of either store keeps its value) and goes to `/use-case`; step 2 keeps the use case, forgets sources in memory and storage, retires the session and goes to `/sources`; step 3 needs a complete selection |
| ClickableStepper.FinalStepBranchUnreachable | frontend/components/layout/ClickableStepper.jsx:18-59 | with at most three steps, a click on step 3 never changes anything |
| ClickableStepper.HandleStepperClick | frontend/components/layout/ClickableStepper.jsx:67-126 | on the final page or with no step hit nothing happens; any change comes from an earlier step; being in step is preserved |
| ClickableStepper.StepperDispatchesPosition | frontend/components/layout/ClickableStepper.jsx:115-120 | the step at 0-based position i acts as step i + 1 |
| AppHeader.GetCurrentStep | frontend/components/layout/AppHeader.jsx:26-31 | the first of `/use-case`, `/sources`, `/document-intelligence` the route contains picks 1, 2 or 3; the default is 1; the result is always in 1..3 |
| AppHeader.PageSteps | frontend/components/layout/AppHeader.jsx:26-31 | the three pages are steps 1, 2 and 3, and `/` is step 1 |
| AppHeader.StartOverOnFinalStep | frontend/components/layout/AppHeader.jsx:45 | where the header reports step 3, Start Over is shown and the stepper is inert |
| AppHeader.HeaderStepperOnlyGoesBack | frontend/components/layout/AppHeader.jsx:51 | a stepper click that changes anything hits an earlier step, on a page without Start Over |
| AppHeader.Capitalize | frontend/components/layout/AppHeader.jsx:21 | `charAt(0).toUpperCase() + slice(1)` upper-cases only the first character; because the model upper-cases ASCII letters only, it also keeps the length (see Left out) |
| AppHeader.TitleAt | frontend/components/layout/AppHeader.jsx:19-22 | the label character by character: `_` becomes a space, and a letter at the start or after `_` is upper-cased (ASCII letters only, see Left out) |
| AppHeader.JoinCapitalizedSplit | frontend/components/layout/AppHeader.jsx:19-22 | split on `_`, capitalise each piece and join with spaces equals the character-wise label |
| AppHeader.FormatUseCase | frontend/components/layout/AppHeader.jsx:17-23 | empty for an absent or empty use case; otherwise the character-wise label, as long as the identifier; the assistant's copy of the helper (`DocumentAssistant.jsx`, lines 25-31) is the same function |
| AppHeader.HandleStartOver | frontend/components/layout/AppHeader.jsx:33-35 | opens the dialog and changes nothing else |
| AppHeader.ConfirmStartOver | frontend/components/layout/AppHeader.jsx:37-42 | clears the selection, removes the session id from `localStorage` only (every other `localStorage` key keeps its value), closes the dialog and goes to `/use-case`; `sessionStorage` and the loading flag are untouched |
| UseCasePage.Mount | frontend/app/use-case/page.js:13-21 | afterwards the selection is incomplete and neither store holds a session id; other session keys stay |
| UseCasePage.MountIdempotent | frontend/app/use-case/page.js:13-21 | mounting twice is mounting once |
| UseCasePage.Continue | frontend/app/use-case/page.js:23-29 | the chosen use case is set and stored, and the sources page opens |
| UseCaseSelection.UseCaseIdsDistinct | frontend/components/use-case/UseCaseSelection.jsx:12-38 | five distinct, non-empty use-case ids |
| UseCaseSelection.Continue | frontend/components/use-case/UseCaseSelection.jsx:44-48 | `onContinue` fires exactly when the button is enabled, and receives the selected id |
| UseCaseSelection.SelectThenContinue | frontend/components/use-case/UseCaseSelection.jsx:40-48 | clicking a card then Continue reports that card's id |
| Lists.RemoveAll | frontend/components/sources/DataSources.jsx:60 | `filter(id => id !== x)` drops x, keeps every other member, and shortens the list exactly when x was present |
| Lists.RemoveAllKeepsOrder | frontend/components/sources/DataSources.jsx:60 | the filtered list is a subsequence of the original |
| Lists.Toggle | frontend/components/sources/DataSources.jsx:56-65 | an absent id is appended at the end, a present one removed; other memberships are unchanged |
| Lists.ToggleNoDup | frontend/components/sources/DataSources.jsx:56-65 | the toggle keeps a list duplicate-free |
| Lists.ToggleTwiceAbsent | frontend/components/sources/DataSources.jsx:56-65 | toggling an absent id twice restores the list exactly |
| Lists.ToggleTwicePresent | frontend/components/sources/DataSources.jsx:56-65 | toggling a present id twice restores membership and length, and moves the id to the end |
| Lists.ToggleTwiceReorders | frontend/components/sources/DataSources.jsx:56-65 | a concrete list whose order a double toggle changes |
| DataSources.SelectSource | frontend/components/sources/DataSources.jsx:56-67 | toggles the connector and clears the example, so both are never chosen together |
| DataSources.SelectExample | frontend/components/sources/DataSources.jsx:69-72 | the example replaces every connector |
| DataSources.Continue | frontend/components/sources/DataSources.jsx:74-78 | `onContinue` fires with `{sources, example}` exactly when the button at line 148 is enabled |
| DataSources.RunWellFormed | frontend/components/sources/DataSources.jsx:56-72 | any sequence of card clicks keeps the picker exclusive, duplicate-free and limited to offered connectors |
| DataSources.ClicksFromInitial | frontend/components/sources/DataSources.jsx:12-13 | from the initial picker every click sequence stays well formed |
| SourcesPage.FormatSource | frontend/app/sources/page.js:24-30 | `local`, `s3` and `google-drive` map to `@local`, `@s3` and `@gdrive`; other ids pass through, except names inherited from `Object.prototype` (see Left out) |
| SourcesPage.FormatSources | frontend/app/sources/page.js:24-31 | length and order are preserved, element by element |
| SourcesPage.OfferedSourcesYieldOnePathEach | frontend/app/sources/page.js:24-31 | every connector offered on the sources page yields exactly one ingestion source path |
| SourcesPage.Continue | frontend/app/sources/page.js:19-37 | the formatted ids become the sources and the document page opens; an example-only choice stores nothing |
| SourcesPage.Back | frontend/app/sources/page.js:39-45 | only the session id leaves `sessionStorage`; the selection and `localStorage` stay |
| SourcesPage.Guard | frontend/app/sources/page.js:13-17 | without a use case the page redirects to `/use-case`, and otherwise nothing changes |
| DocumentIntelligencePage.React | frontend/app/document-intelligence/page.js:20-32 | nothing happens while loading; then a complete selection is fetched and an incomplete one is redirected, never both |
| DocumentIntelligencePage.RendersIffFetches | frontend/app/document-intelligence/page.js:68-71 | the page renders exactly when it fetches |
| DocumentIntelligencePage.Redirect | frontend/app/document-intelligence/page.js:21-25 | `router.replace('/use-case')` exactly on the redirect reaction |
| DocumentIntelligencePage.FetchRequest | frontend/app/document-intelligence/page.js:39-43 | the list request carries the use case, status `completed`, and exactly the selection's selectors |
| DocumentIntelligencePage.Fetched | frontend/app/document-intelligence/page.js:34-52 | success gives the documents, or `[]` when the field is missing, and clears the error; failure records the message and keeps the old list; loading ends |
| DocumentIntelligencePage.MissingDocumentsFieldIsEmpty | frontend/app/document-intelligence/page.js:45 | an OK answer without `documents` leaves no documents |
| DocumentIntelligencePage.HandleDocumentToggle | frontend/app/document-intelligence/page.js:54-62 | an absent id is appended and a present one removed; nothing else changes |
| DocumentIntelligencePage.ToggleKeepsSelectionClean | frontend/app/document-intelligence/page.js:54-62 | the chosen ids stay duplicate-free, and a double toggle of a new id is no change |
| DocumentSidebar.FormatDocumentName | frontend/components/documents/DocumentSidebar.jsx:45-48 | removes the final `.` plus a non-empty tail without `.` or `/`; a name without such a tail is unchanged |
| DocumentSidebar.FormatDocumentNameExamples | frontend/components/documents/DocumentSidebar.jsx:47 | `a.tar.gz` becomes `a.tar`; `report`, `v1.2/notes` and `draft.` are unchanged |
| DocumentSidebar.GetSourceName | frontend/components/documents/DocumentSidebar.jsx:59-64 | tests `@local@`, `@s3@` and `@gdrive@` in that order; `unknown` exactly when none occurs |
| DocumentSidebar.GetSourceNameRecoversKind | frontend/components/documents/DocumentSidebar.jsx:59-64 | for an industry and use case without `@`, the name recovers the connector of every path `startIngestion` builds |
| DocumentSidebar.GetFileIcon | frontend/components/documents/DocumentSidebar.jsx:50-57 | `pdf` gives the PDF icon, `doc`/`docx` the Word icon, and anything else none |
| DocumentSidebar.SelectAllStatesExclusive | frontend/components/documents/DocumentSidebar.jsx:166-167 | all-selected and some-selected are never both true, and both are false with no documents |
| DocumentSidebar.HandleSelectAllClick | frontend/components/documents/DocumentSidebar.jsx:159-164 | with a callback, asks for `!allSelected`; without one, nothing happens |
| DocumentSidebar.AllSelectedCountsStaleIds | frontend/components/documents/DocumentSidebar.jsx:166 | counts alone decide: a stale chosen id makes the box read all-selected while a listed document is unchosen |
| DocumentAssistant.SessionIdAt | frontend/components/assistant/DocumentAssistant.jsx:68 | a synthesised id starts with `session_` |
| DocumentAssistant.TimePartFields | frontend/components/assistant/DocumentAssistant.jsx:68 | the `HHMMSS` part is six digits that read back as the hours, minutes and seconds |
| DocumentAssistant.SessionIdLayout | frontend/components/assistant/DocumentAssistant.jsx:68 | `session_` + YYYYMMDD + `_` + HHMMSS, every field at a fixed place and reading back to the clock's field |
| DocumentAssistant.SessionIdInjective | frontend/components/assistant/DocumentAssistant.jsx:68 | distinct valid clock readings give distinct ids |
| DocumentAssistant.EnsureSession | frontend/components/assistant/DocumentAssistant.jsx:66-71 | a stored non-empty id is reused unchanged; otherwise one is made from the clock and stored |
| DocumentAssistant.SessionStableAcrossQuestions | frontend/components/assistant/DocumentAssistant.jsx:66-71 | two questions with no removal in between use the same id, whatever the clock says |
| DocumentAssistant.Reply | frontend/components/assistant/DocumentAssistant.jsx:84-107 | the answer, with missing lists read as `[]`, exactly for a parsed OK answer; otherwise `Error: ` plus the transport message, the tolerant `detail`/`Failed to get answer`, or the syntax error |
| DocumentAssistant.HandleSubmit | frontend/components/assistant/DocumentAssistant.jsx:47-111 | a refused question changes nothing; an accepted one clears the input, appends the user message and exactly one reply, and sends the untrimmed question under the stored session id; `sessionStorage` changes at most at `di_session_id`, exactly as the get-or-create step leaves it |
| DocumentAssistant.BlankOrNoDocumentsRefused | frontend/components/assistant/DocumentAssistant.jsx:50-52 | a blank question or no chosen documents sends nothing |
| DocumentAssistant.GetSelectedDocumentNames | frontend/components/assistant/DocumentAssistant.jsx:41-45 | every chosen document's name is listed and every listed name is a chosen document's; never longer than the list, and as long when all are chosen |
| DocumentAssistant.SelectedNameOfOne | frontend/components/assistant/DocumentAssistant.jsx:41-45 | one document contributes its name exactly when it is chosen |
| DocumentAssistant.SelectedNamesAppend | frontend/components/assistant/DocumentAssistant.jsx:41-45 | the names are an in-order image of the list: concatenated lists give concatenated names, so order and repetitions follow the documents |
| JsDate.DatePartFields | frontend/components/assistant/DocumentAssistant.jsx:68 | `YYYYMMDD` is eight digits that read back as the year, the 1-based month and the day |
| UploadClient.UploadDocuments | frontend/utils/api/upload/api-client.js:16-51 | no files or an empty list throws `No files selected` and more than one file throws `Only one file can be uploaded at a time`, both without a request; one file sends `files[0]` with industry and use case defaulting to `fsi` and `credit_rating` |
| UploadClient.UploadSentIffSingleFile | frontend/utils/api/upload/api-client.js:19-35 | a request is sent exactly for a single file, and every refusal is thrown |
| UploadClient.GetIndustries | frontend/utils/api/upload/api-client.js:58-78 | returns `industries`, or `[]` when absent; failures throw `detail` or `Failed to fetch industries` |
| UploadClient.IndustriesMissingFieldIsEmpty | frontend/utils/api/upload/api-client.js:73 | an OK answer without `industries` gives `[]` |
| UploadClient.ListUploadedTarget | frontend/utils/api/upload/api-client.js:113-117 | the path names the industry, and `use_case` is added exactly when the use case is truthy |
| UploadClient.ListUploadedDocuments | frontend/utils/api/upload/api-client.js:111-136 | the request is that target; failures throw `detail` or `Failed to list documents` |
| UploadModal.Initial | frontend/components/modals/UploadModal.jsx:11-13 | no files, not uploading, no error |
| UploadModal.ChooseFiles | frontend/components/modals/UploadModal.jsx:16-41 | more than three files set the error and keep the old list; up to three replace the list and clear the error |
| UploadModal.DropIndexSlices | frontend/components/modals/UploadModal.jsx:48 | `filter((_, i) => i !== index)` is the list without position `index`, or the list itself for an index out of range |
| UploadModal.RemoveFile | frontend/components/modals/UploadModal.jsx:47-50 | deletes exactly position `index`, keeps the order of the rest and clears the error |
| UploadModal.HandleUpload | frontend/components/modals/UploadModal.jsx:52-76 | an empty list sets `Please select files to upload` and sends nothing; otherwise the client is called with `fsi` and the use case or `credit_rating`; success clears the error, and failure records a non-empty message |
| UploadModal.SingleFileRequest | frontend/components/modals/UploadModal.jsx:62-66 | one chosen file is sent with `fsi` and the use case or `credit_rating` |
| UploadModal.SeveralFilesAlwaysFail | frontend/components/modals/UploadModal.jsx:20-72 | two or three files pass the modal's limit but always end in the client's one-file error, with no request |
| UploadModal.RoundDiv | frontend/components/modals/UploadModal.jsx:80 | `Math.round(n / d)` for non-negative integers: the integer nearest n/d, halves rounded up |
| UploadModal.RoundDivUnique | frontend/components/modals/UploadModal.jsx:80 | that integer is unique |
| UploadModal.FormatFileSize | frontend/components/modals/UploadModal.jsx:78-82 | `bytes` below 1024, `KB` below 1048576, else `MB`, each with the rounded count |
| UploadModal.KilobyteLabelReaches1024 | frontend/components/modals/UploadModal.jsx:80 | 1048575 bytes is labelled `1024 KB` |
| ReportsClient.FailureMessage | frontend/utils/api/reports/api-client.js:17 | each report call has its own non-empty fixed message |
| ReportsClient.Complete | frontend/utils/api/reports/api-client.js:65-142 | apart from the latest-report call, any failed status throws the call's fixed message |
| ReportsClient.LatestReportTarget | frontend/utils/api/reports/api-client.js:11 | `/api/reports/latest/<industry>/<useCase>` |
| ReportsClient.GetLatestReport | frontend/utils/api/reports/api-client.js:10-21 | a failed status gives "no report" exactly for 404 and throws `Failed to fetch latest report` otherwise; an OK answer returns the report |
| ReportsClient.NoReportOnlyOn404 | frontend/utils/api/reports/api-client.js:13-18 | "no report" comes only from a 404 answer |
| ReportsClient.StringParam | frontend/utils/api/reports/api-client.js:27-29 | a truthy filter gives one parameter, and otherwise none |
| ReportsClient.StringParamValues | frontend/utils/api/reports/api-client.js:27-29 | a string filter is read back only under its own key, and only when truthy |
| ReportsClient.LimitParamValues | frontend/utils/api/reports/api-client.js:30 | `limit` is read back exactly when it is a non-zero number |
| ReportsClient.ListReportsTarget | frontend/utils/api/reports/api-client.js:24-32 | a server reads each of industry, use_case, status and limit back exactly once, with its value, when that filter is truthy, and not at all otherwise; a limit of 0 is left out |
| ReportsClient.ListQueryOrdered | frontend/utils/api/reports/api-client.js:25-30 | only the four keys appear, in the order industry, use_case, status, limit |
| ReportsClient.NoFiltersNoQuery | frontend/utils/api/reports/api-client.js:24-30 | missing, empty and zero filters give an empty query |
| ReportsClient.DownloadTarget | frontend/utils/api/reports/api-client.js:42-55 | the seed path exactly when the id is `seed` and industry and use case are truthy; `/api/reports/<id>/download` otherwise |
| ReportsClient.DownloadReport | frontend/utils/api/reports/api-client.js:42-62 | an OK answer returns the bytes; a failure throws `Failed to download seed report` on the seed path and `Failed to download report` otherwise |
| ReportsClient.SeedWithoutUseCaseUsesRegularPath | frontend/utils/api/reports/api-client.js:44-55 | `seed` without a use case goes to `/api/reports/seed/download` |
| ReportsClient.GenerateRequest | frontend/utils/api/reports/api-client.js:76-107 | `generate` and `generate-adhoc` send the same `{industry, use_case}` body |
| ReportsClient.After | frontend/utils/api/reports/api-client.js:82 | the rest after a literal prefix exists exactly when the text starts with it |
| ReportsClient.GenerateBodyRoundTrip | frontend/utils/api/reports/api-client.js:82 | whatever characters they hold, a JSON reader gets back exactly the industry and use case from the body |
| ReportModal.FetchLatest | frontend/components/modals/ReportModal.jsx:23-43 | a found report or "no report" replaces the shown one and clears the error; a failure keeps the report and records the message; loading ends |
| ReportModal.NotFoundClearsReport | frontend/components/modals/ReportModal.jsx:35-36 | a 404 empties the dialog without an error |
| ReportModal.Panels | frontend/components/modals/ReportModal.jsx:184-300 | spinner iff loading, error box iff an error, the empty state or the details only when neither is shown |
| ReportModal.OnePanelWhenSettled | frontend/components/modals/ReportModal.jsx:215-232 | exactly one panel shows when the dialog is neither loading nor in error |
| ReportModal.LoadedDialogShowsOnePanel | frontend/components/modals/ReportModal.jsx:23-43 | after a successful load the dialog shows exactly the report or the empty state |
| ReportModal.Interpolate | frontend/components/modals/ReportModal.jsx:78 | a template literal writes a present string as itself and an `undefined` one as `undefined` (a `null` one is not told apart, see Left out) |
| ReportModal.ReportFilenameFields | frontend/components/modals/ReportModal.jsx:76-78 | the file name is the use case, `_report_`, eight digits reading back as the UTC date, and `.pdf` |
| ReportModal.HandleDownload | frontend/components/modals/ReportModal.jsx:45-103 | no report means no request, file or toast; otherwise the id picks the path; a received file is saved under the dated name with a success toast; a failure pushes the error toast; downloading ends |
| ReportModal.SeedStatusDoesNotPickSeedPath | frontend/components/modals/ReportModal.jsx:55-68 | a report marked `seed` by status but with another id downloads from the regular path |
| ReportModal.GenerateAdhoc | frontend/components/modals/ReportModal.jsx:120-157 | the latest report is reloaded with a success toast exactly for status `success`; any other status fails with `result.message` or `Failed to generate report`; every failure records an error and pushes the error toast; loading ends |
| ReportModal.GeneratedButReloadFailed | frontend/components/modals/ReportModal.jsx:133-141 | a failing reload after a success still shows the success toast and only the reload's error |
| ReportModal.ReplaceFirstUnderscore | frontend/components/modals/ReportModal.jsx:170 | `replace('_', ' ')` turns only the first underscore into a space |
| ReportModal.CapitalizeWords | frontend/components/modals/ReportModal.jsx:170 | `/\b\w/g` upper-cases exactly the word characters not preceded by a word character |
| ReportModal.ReportTitle | frontend/components/modals/ReportModal.jsx:170 | the heading of a truthy use case, or `Scheduled`, followed by ` Report` |
| ReportModal.Subtitle | frontend/components/modals/ReportModal.jsx:173 | the upper-cased industry followed by ` Industry`, or `Automated Report` |
| ReportModal.HeadingMatchesHeaderLabel | frontend/components/modals/ReportModal.jsx:240 | for an identifier with at most one underscore, the dialog's heading equals the header's label |
| ReportModal.HeadingKeepsLaterUnderscores | frontend/components/modals/ReportModal.jsx:240 | with two underscores the dialog keeps the second one and its word stays lower-case, unlike the header |
| PreCannedQuestions.GetPreCannedQuestions | frontend/components/assistant/PreCannedQuestions.jsx:12-58 | capabilities, about and memory always come first, in that order; the two FSI questions are appended exactly for use case `fsi` |
| PreCannedQuestions.QuestionIdsDistinct | frontend/components/assistant/PreCannedQuestions.jsx:13-55 | the offered questions have distinct ids |
| PreCannedQuestions.EnabledCases | frontend/components/assistant/PreCannedQuestions.jsx:98-99 | nothing is disabled with documents chosen, and a general question never is |
| PreCannedQuestions.WithoutDocuments | frontend/components/assistant/PreCannedQuestions.jsx:98-99 | without documents, capabilities is enabled, about disabled, memory enabled exactly with earlier messages, and the FSI questions disabled |
| PreCannedQuestions.Click | frontend/components/assistant/PreCannedQuestions.jsx:62-65 | a click selects and passes on the question exactly when it is enabled (line 105) |
| PreCannedQuestions.GetCategoryColor | frontend/components/assistant/PreCannedQuestions.jsx:71-79 | the four known categories have their colours, and any other category gets `#666`, except names inherited from `Object.prototype` (see Left out) |
| PreCannedQuestions.OnlyMemoryIsGrey | frontend/components/assistant/PreCannedQuestions.jsx:71-79 | among offered questions, only memory is grey |
| ProgressIndicator.HandleStepClick | frontend/components/progress/ProgressIndicator.jsx:16-21 | navigates to the step's path exactly when it lies before the current step |
| ProgressIndicator.CircleState | frontend/components/progress/ProgressIndicator.jsx:33-37 | completed, active or inactive exactly as the id is below, equal to or above the current step |
| ProgressIndicator.ConnectorAfter | frontend/components/progress/ProgressIndicator.jsx:50-53 | connectors follow only the first two steps, completed exactly when the step is before the current one |
| ProgressIndicator.ClickableIffCompleted | frontend/components/progress/ProgressIndicator.jsx:16-45 | a step is clickable exactly when completed, and its label is highlighted exactly when not inactive |
| ProgressIndicator.OneActiveStep | frontend/components/progress/ProgressIndicator.jsx:7-37 | for a valid current step exactly one circle is active and the earlier ones are completed |
| Toast.PushToast | frontend/components/toast/Toast.jsx:14-25 | appends exactly one toast at the end with the given fields and the clock reading as id; removal is scheduled unless `dismissible` is exactly `false` |
| Toast.RemoveToast | frontend/components/toast/Toast.jsx:27-29 | no toast with that id remains, and every other toast keeps its membership |
| Toast.RemoveAbsentId | frontend/components/toast/Toast.jsx:27-29 | an absent id leaves the list unchanged |
| Toast.RemoveToastAppend | frontend/components/toast/Toast.jsx:28 | the filter keeps order: removal distributes over concatenation |
| Toast.PushThenRemove | frontend/components/toast/Toast.jsx:14-29 | removing a just-pushed toast with a fresh id restores the list |
| Toast.SameMillisecondShareRemoval | frontend/components/toast/Toast.jsx:15-28 | two toasts pushed in the same millisecond share an id, and one removal drops both |
| Toast.UseToast | frontend/components/toast/Toast.jsx:40-46 | outside a provider the hook throws its message, and inside it returns the context |
| Utf16.EncodeChar | frontend/components/common/Typewriter.jsx:28 | a character up to U+FFFF is one code unit, neither half of a surrogate pair; one above is a high and a low surrogate |
| Utf16.Encode | frontend/components/common/Typewriter.jsx:31 | a string's `length` is its number of characters plus one per character above U+FFFF |
| Utf16.DecodeEncode | frontend/components/common/Typewriter.jsx:28 | reading the code units back gives the string, so the code units determine the text |
| Utf16.EncodeBmp | frontend/components/common/Typewriter.jsx:28-31 | without characters above U+FFFF, code units and characters coincide one for one |
| Typewriter.Start | frontend/components/common/Typewriter.jsx:15-24 | an already completed message shows in full and completes at once; otherwise typing starts from empty over the text's code units |
| Typewriter.Tick | frontend/components/common/Typewriter.jsx:26-35 | a stopped typewriter ignores ticks, and no tick changes the text |
| Typewriter.TypingAfter | frontend/components/common/Typewriter.jsx:23-35 | after k ticks the display is the first min(k, length) UTF-16 code units; it runs while k is below the length in code units (empty text stops on the first tick); `onComplete` has run once exactly when it stopped |
| Typewriter.DisplayIsPrefix | frontend/components/common/Typewriter.jsx:28 | the display is always a prefix of the text's code units |
| Typewriter.CompletesOnce | frontend/components/common/Typewriter.jsx:31-34 | once every code unit is typed the display reads back as the whole text, and further ticks change nothing |
| Typewriter.EmojiAnswerTicks | frontend/components/common/Typewriter.jsx:27-31 | `🤖 hi` is five code units: the first tick shows half the emoji, which is no text, and typing ends on the fifth tick |
| DocumentList.ToggleSelect | frontend/components/documents/DocumentList.jsx:11-19 | flips one filename's membership and leaves the others |
| DocumentList.ToggleTwice | frontend/components/documents/DocumentList.jsx:11-19 | toggling twice restores the set |
| DocumentList.FormatFileSize | frontend/components/documents/DocumentList.jsx:21-25 | below 1024 the integer and ` B`; otherwise the rounded kilobytes and ` KB` |
| DocumentList.Render | frontend/components/documents/DocumentList.jsx:40-70 | nothing is rendered exactly for an empty list; otherwise one row per document, checked exactly when selected |
| DocumentList.Rows | frontend/components/documents/DocumentList.jsx:57-70 | one row per document, in order, carrying its name, check state and size label |
| DocumentList.ToggleFlipsOnlyItsRows | frontend/components/documents/DocumentList.jsx:11-19 | a toggle flips the check of the rows with that filename only |
| QuestionInput.HandleSubmit | frontend/components/chat/QuestionInput.jsx:10-15 | `onSubmit` fires exactly for a non-blank question while not loading, with the untrimmed text |
| QuestionInput.ButtonMatchesSubmit | frontend/components/chat/QuestionInput.jsx:40 | the button is enabled exactly when a submit would fire |
| QuestionInput.SuggestionThenSubmit | frontend/components/chat/QuestionInput.jsx:17-54 | submitting a shown, non-blank suggestion sends it verbatim |
| DocumentUpload.OnlyPdfs | frontend/components/upload/DocumentUpload.jsx:24-26 | exactly the PDF files are kept |
| DocumentUpload.OnlyPdfsAppend | frontend/components/upload/DocumentUpload.jsx:24-26 | filtering is an in-order image |
| DocumentUpload.AllPdfsKept | frontend/components/upload/DocumentUpload.jsx:24-26 | a drop of only PDFs passes through unchanged |
| DocumentUpload.HighlightFollowsDrag | frontend/components/upload/DocumentUpload.jsx:10-31 | entering the zone turns the highlight on and uploads nothing; leaving or dropping turns it off whatever it was; only a drop can upload |
| DocumentUpload.Drop | frontend/components/upload/DocumentUpload.jsx:20-31 | the highlight goes off; `onUpload` gets the non-empty PDF subset exactly when some dropped file is a PDF |
| DocumentUpload.Pick | frontend/components/upload/DocumentUpload.jsx:33-38 | picked files go unfiltered to `onUpload` exactly when there are any |
| DocumentUpload.PickerAcceptsWhatDropRefuses | frontend/components/upload/DocumentUpload.jsx:24-37 | a non-PDF file is uploaded when picked but not when dropped |
| ThinkingProcess.GetStepClass | frontend/components/assistant/ThinkingProcess.jsx:44-51 | the success class exactly for `complete` and `grade_relevant`, the warning class exactly for `grade_irrelevant`, and only the base class otherwise |
| ThinkingProcess.GetStepIcon | frontend/components/assistant/ThinkingProcess.jsx:15-35 | the plain dot exactly for unknown step types, and the grouped icons for the shared cases |
| ThinkingProcess.StepClassMatchesIcon | frontend/components/assistant/ThinkingProcess.jsx:15-51 | a step drawn as a success shows a check or sparkles, one drawn as a warning shows the retry arrow, and an unknown step gets the base class |
| ThinkingProcess.FirstMatch | frontend/components/assistant/ThinkingProcess.jsx:40 | the regex alternation tries alternatives in order: the first one that matches here |
| ThinkingProcess.StripNoneOccurs | frontend/components/assistant/ThinkingProcess.jsx:40 | global replace changes nothing when no alternative occurs |
| ThinkingProcess.StripRemovesSingle | frontend/components/assistant/ThinkingProcess.jsx:40 | when a single character is an alternative and no longer alternative starts with it, that character never survives the replace |
| ThinkingProcess.FormatMessage | frontend/components/assistant/ThinkingProcess.jsx:37-42 | the cleaned message is never longer, and a message containing none of the sequences is only trimmed |
| ThinkingProcess.FirstMatchPicks | frontend/components/assistant/ThinkingProcess.jsx:40 | the alternation picks alternative j exactly when it matches and no earlier one does |
| ThinkingProcess.StripDeletesMatch | frontend/components/assistant/ThinkingProcess.jsx:40 | the global replace deletes the alternative it picks and carries on with the text after it |
| ThinkingProcess.FormatMessageDeletes | frontend/components/assistant/ThinkingProcess.jsx:37-42 | every listed sequence is deleted: a message opening with alternative j (no earlier one matching too) cleans exactly as the text after it |
| ThinkingProcess.PlainMessageOnlyTrimmed | frontend/components/assistant/ThinkingProcess.jsx:39-42 | a message without the characters U+00F0 and U+00E2 is only trimmed |
| ThinkingProcess.MojibakeRobotDeleted | frontend/components/assistant/ThinkingProcess.jsx:40 | the listed sequence for the robot is deleted |
| ThinkingProcess.RobotEmojiSurvives | frontend/components/assistant/ThinkingProcess.jsx:40 | the robot emoji itself is not removed by the listed sequences |
| ThinkingProcess.IntendedEmojiRemoved | frontend/components/assistant/ThinkingProcess.jsx:40 | with the emoji themselves as alternatives, no single-character emoji survives |
| ThinkingProcess.IntendedRobotDeleted | frontend/components/assistant/ThinkingProcess.jsx:40 | the corrected cleaner deletes a leading robot emoji and trims |

## Left out

- HTTP, `FormData`, blobs, object URLs and the DOM download link are left out. Each call's answer is an input, and the model records the request it would send.
- Rendering, JSX, CSS, `router.push`/`router.replace` and the DOM walk in `ClickableStepper.jsx:76-113` are left out. A route change is a field of the state, and the walk is summarised by the clicked step's position.
- The Next.js proxy routes and the MongoDB route are left out as plumbing. The documents client's `/api` base is kept. The environment-dependent base URL of the reports and upload clients is dropped from their paths.
- Ingestion log polling, completion detection and "skip if already ingested" are left out. The client only exposes the raw calls, and those are modelled.
- Timers are left out. The toast's five-second removal is a flag saying whether it was scheduled. The typewriter's `setInterval` is a sequence of ticks, and the `speed` parameter is dropped.
- React effect scheduling is left out. Each setter and the persist effect it triggers form one step. The order of re-renders and any stale closures are not modelled.
- Floating-point and locale formatting are left out. This covers `formatFileSize` in `DocumentSidebar.jsx:38-43` and `ReportModal.jsx:113-118`, `formatDate` in `ReportModal.jsx:105-111` and `DocumentList.jsx:27-38`, and message timestamps.
- Whole-number rounding is still modelled. `Math.round` and `toFixed(0)` on non-negative integers divided by powers of two are exact with `RoundDiv`.
- The HTML and markdown substitutions in `Typewriter.jsx:48-54` are left out as HTML output.
- Static content and presentational components are left out.
- `app/page.js` is left out. It only calls `clearSelection` and redirects.
- Console logging is left out. This includes `ReportModal.jsx:55-59`, which logs the seed URL by `status` while the download chooses by id.
- `UploadClient.getStorageInfo` and `UploadClient.deleteUploadedDocument` are left out. They only read `detail` or a fallback, like the modelled calls.
- Of the reports client, `getReportInfo`, `getSchedulerStatus`, `getAvailableIndustries` and `cleanupOrphanedReports` keep only their error handling (`ReportsClient.Complete`). Their paths are not modelled.
- `DataSources.handleBack` is left out. It calls `onBack` or navigates to `/use-case`, and the sources page always passes `onBack`.
- `JsonStrings.Parse`: `JSON.parse` is modelled only on the canonical text `JSON.stringify` writes for an array of strings. Other valid JSON (whitespace, other value types) reads as a parse failure.
- Percent-encoding of query strings is left out. Parameters are modelled before encoding.
- JSON bodies with `undefined` members are left out. `GenerateBody` covers two strings. When the dialog generates without an industry or use case, `JSON.stringify` drops the member, and that case is not modelled.
- `AppHeader.Capitalize`, `AppHeader.TitleAt` and `AppHeader.FormatUseCase` upper-case ASCII letters only. `toUpperCase` on other characters is not modelled: `é` becoming `É` is missed, and `ß` becoming `SS`, which lengthens the label, is not represented. `ReportModal.CapitalizeWords` is exact, because `/\b\w/g` matches ASCII word characters only.
- `ReportModal.Subtitle` upper-cases the industry on ASCII letters only. `toUpperCase` on other characters is not modelled.
- `ReportModal.ReportFilename`, and with it `ReportModal.HandleDownload` and `ReportModal.ReportFilenameFields`, requires a four-digit UTC year. `toISOString` zero-pads years below 1000 and uses the six-digit form beyond 9999, and neither is modelled.
- `DocumentAssistant.SessionIdLayout` and `DocumentAssistant.SessionIdInjective` are stated for four-digit years only. `getFullYear()` is not padded, so other years shift the layout.
- `Typewriter` does not model the `onComplete` ref or a change of `text` while typing. A change simply starts a new run.
- `Typewriter.Tick` counts UTF-16 code units as `slice` and `length` do, but the display is kept as code units: how a browser draws a lone surrogate is not modelled.
- `Http.Body` holds `detail` only as an optional string. A non-string `detail` (such as a list of validation errors) is thrown as its `String(…)` rendering, such as `[object Object]`, and that is not modelled. A JSON `null` body, which makes `error.detail` or `response.documents` throw a `TypeError`, is not modelled either. This affects `Http.TolerantFailure`, `Http.StrictFailure`, `DocumentAssistant.Reply`, `DocumentIntelligencePage.Fetched` and `ReportModal.GenerateAdhoc`. It also affects `ReportsClient.GetLatestReport` and `ReportsClient.NoReportOnlyOn404`: an OK answer with a `null` body returns `null`, which the dialog reads as "no report", so "no report only on 404" holds only for the bodies the model represents.
- `SourcesPage.FormatSource` passes every other id through. For an id that names a member inherited from `Object.prototype` (`toString`, `constructor`, `hasOwnProperty` and so on), `sourceMap[source] || source` yields that function instead. The model's string result cannot hold it. The connector ids the picker offers are never such names.
- `PreCannedQuestions.GetCategoryColor` gives `#666` to every other category. For a category that names a member inherited from `Object.prototype`, `colors[category] || "#666"` yields that function instead. The categories of the offered questions are never such names.
- `ReportModal.Interpolate` takes `Option`, which does not separate `undefined` from `null`. It writes both as `undefined`, while a template literal writes `null` as `null`, as in `null_report_….pdf`.
- `ReportModal.Panels` treats an empty error string as no error, as `{error && …}` does. `FetchLatest` still records it.

## Findings

| source | as written | input that shows it | evidently intended | confidence | as-written member | corrected member |
|---|---|---|---|---|---|---|
| frontend/components/assistant/ThinkingProcess.jsx:40 | the alternatives of the emoji-stripping regex are the emoji's UTF-8 bytes read as Windows-1252 text (`ðŸ¤–` for 🤖, and so on), so the characters removed are these byte-lookalike sequences | the log message `🤖 Analyzing query` is returned unchanged, emoji included | remove the emoji 🤖 🎯 🎭 📋 🧠 🔍 📊 ✅ ❌ ✏️ 📝 themselves and trim | medium (a backend that sends mis-decoded text would need the listed sequences); not executed | ThinkingProcess.RobotEmojiSurvives | ThinkingProcess.IntendedEmojiRemoved |
