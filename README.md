# NLP client core in Dafny

This project models the logic inside a small React client for a remote NLP
(sentiment, keywords) service, and proves properties of it. It leaves out the
rendering. It covers:

- **Input security helpers.**
  - `sanitizeInput` strips four dangerous patterns, one pass each, then
    entity-encodes six characters.
  - The three validators check text length, file type and file size.
  - The sliding-window rate limiter (module `Security`).
- **API layer.**
  - The request interceptor: correlation header, start time, rate gate and
    sanitising of `texts`.
  - The response and error interceptors: correlation update and error
    normalisation.
  - The bodies built by the four exported calls (module `Api`).
- **Logger buffer** (module `Logging`):
  - level filtering;
  - appending to the batch, with errors also sent at once;
  - flushing at 50 entries;
  - `_extractData`;
  - the correlation id.
- **Analysis history.**
  - The store and its persisted copy (module `History`).
  - The history page: newest-first numbering, text-count label, and selection
    upkeep on delete and clear (module `HistoryView`).
- **Form and page state machines.**
  - The text form (module `TextInputForm`).
  - The file form (module `FileUploadForm`).
  - The analysis page (module `AnalyzeView`).
- **Dashboard aggregation.** Label counts, chart rows, keyword flattening and
  truncation, headline numbers, the overall-sentiment insight and the selected
  tab (module `Dashboard`).
- **Theme provider.** Initial resolution, toggle, and the effect on the root
  class and storage (module `Theme`).
- **Dev-server `spa-fallback` rewrite** (module `DevServer`).
- **Constants** the validators and interceptors rely on (module `Constants`).

Shared JavaScript behaviour lives in `JsText`: truthiness, ASCII case mapping,
`trim`, `split`/`join`, decimal rendering and `reverse`. The records the
service returns live in `Analysis`.

How the source is modelled:

- Each part of the source that changes state in place is a class whose methods
  state the new state. These are the logger, the rate-limit window, the history
  store and page, the forms and pages, the theme provider and the dev-server
  request.
- The pure parts are functions with lemmas.
- Regular expressions are written as explicit left-to-right scanners with the
  leftmost, non-overlapping semantics of a global `replace`.

The centrepiece is `Security.SanitizeFixpointIff`. `sanitizeInput` leaves a
string unchanged exactly when the string has none of `& < > " ' /` and no match
of any strip pattern anywhere. This is the check the file form uses to reject
file names.

Clock, storage, JSON, `matchMedia`, `window.confirm` and network outcomes are
parameters of the operations that use them.

## Model

| member | source | states |
|---|---|---|
| Constants.FileTypesShape | src/utils/constants.js:23-29 | the five allowed extensions, each dot-prefixed and already lower-case, so lower-casing a name's extension can match them |
| Constants.EndpointsShape | src/utils/constants.js:3-8 | the four endpoints are distinct and all under `/api/v1/` |
| Constants.LimitValues | src/utils/constants.js:32-36 | the file limit is 10485760 bytes, the text limit 100000, and the rate limit 10 requests per 60000 ms |
| Security.Encode | src/utils/security.js:22-32 | the encoded text has no raw `< > " ' /`, and every `&` in it begins one of the six entities |
| Security.EncodeAppend | src/utils/security.js:32 | the replacement works character by character: encoding distributes over concatenation |
| Security.EncodeSingle | src/utils/security.js:22-32 | a single character becomes its entity, and any character other than `& < > " ' /` is kept as it is |
| Security.SanitizeInput | src/utils/security.js:6-33 | a non-string argument comes back unchanged; a string comes back entity-encoded |
| Security.StripIdentityIff | src/utils/security.js:17-20 | a global replace of one pattern leaves a string unchanged iff no match of the pattern starts anywhere in it |
| Security.StripShortens | src/utils/security.js:17-20 | a replace that changes the string makes it strictly shorter |
| Security.SanitizeFixpointIff | src/utils/security.js:10-32 | `sanitizeInput` leaves a string unchanged iff it has no `& < > " ' /` and no strip-pattern match |
| Security.CleanIsFixpoint | src/utils/security.js:10-32 | a clean string passes through unchanged |
| Security.FixpointIsClean | src/utils/security.js:10-32 | a string that passes through unchanged is clean |
| Security.StripsInert | src/utils/security.js:10-20 | text with no `<`, `j` or `o` (in either case) survives all four strips |
| Security.AmpersandReencoded | src/utils/security.js:23-32 | not idempotent: `&` gives `&amp;`, and that gives `&amp;amp;` |
| Security.SinglePassLeavesUri | src/utils/security.js:13-20 | one pass only: stripping `javajavascript:script:` rejoins into `javascript:`, which is itself a full match left in place |
| Security.SanitizedUriSurvives | src/utils/security.js:6-33 | `sanitizeInput('javajavascript:script:')` is `javascript:` |
| Security.HandlerEatsProse | src/utils/security.js:14-20 | the event-handler pattern turns `condition = 1` into `c 1` |
| Security.UriAlone | src/utils/security.js:6-33 | a bare `javascript:`, in any case mix, sanitises to the empty string |
| Security.ValidateTextLength | src/utils/security.js:36-39 | true iff the value is a non-empty string whose length in UTF-16 code units is at most maxLength; false for non-strings and for `''` |
| JsText.Utf16Length | src/utils/security.js:38 | `.length` counts UTF-16 code units: between the number of characters and twice it, and equal to it iff no character lies outside the Basic Multilingual Plane |
| JsText.Utf16LengthAppend | src/utils/security.js:38 | the length of a concatenation is the sum of the lengths |
| Security.SupplementaryCountsTwice | src/utils/security.js:36-39 | two emoji are four code units: refused under a limit of 3, accepted under 4 |
| Security.LastSegmentSpec | src/utils/security.js:44 | `split('.').pop()` is the text after the last dot, or the whole name when it has none |
| Security.ExtensionStartUnique | src/utils/security.js:44 | that position is unique, so the file-type condition names one extension |
| Security.ValidateFileType | src/utils/security.js:42-46 | false for a missing or empty name; otherwise true iff `.` + the lower-cased text after the last dot is allowed |
| Security.UpperCaseExtensionPasses | src/utils/security.js:42-46 | `A.TXT` passes the default list |
| Security.TrailingDotFails | src/utils/security.js:42-46 | `file.` fails the default list |
| Security.DotlessNamePasses | src/utils/security.js:42-46 | a dotless `txt` passes as `.txt` |
| Security.ValidateFileSize | src/utils/security.js:49-51 | true iff size ≤ max, inclusive at the limit |
| Security.ValidatorDefaults | src/utils/security.js:36-51 | the validators' defaults agree with the constants: size limit 10485760, text limit 100000, default types a subset of the allowed ones |
| Security.Recent | src/utils/security.js:59 | a timestamp is kept iff it was there and is younger than the window |
| Security.RecentAppend | src/utils/security.js:59 | the filter goes element by element, keeping order and duplicates: it distributes over concatenation |
| Security.RecentSingle | src/utils/security.js:59 | one timestamp is kept exactly when `now - t < windowMs` |
| Security.RateStepSpec | src/utils/security.js:56-67 | after pruning: at or over the limit, deny and record nothing; otherwise allow and append `now` |
| Security.RateWindowBounded | src/utils/security.js:59-66 | with a fixed limit the window never grows beyond it |
| Security.ZeroLimitDenies | src/utils/security.js:61-63 | a limit of 0 denies every request |
| Security.BurstDecisions | src/utils/security.js:56-67 | in a burst at one instant, the k-th call is allowed iff the live requests plus k are below the limit |
| Security.WindowExpires | src/utils/security.js:59-66 | once every stored request is a full window old, the window empties and any positive limit allows |
| Security.RateLimiter.constructor | src/utils/security.js:54 | the window starts empty |
| Security.RateLimiter.CheckRateLimit | src/utils/security.js:56-67 | the answer and the new window are exactly one rate step from the old window |
| Logging.RankOrder | src/utils/logger.js:6-11 | DEBUG < INFO < WARN < ERROR, and distinct levels have distinct values |
| Logging.ConsoleLevelSpec | src/utils/logger.js:65-79 | `console.log` and `console.debug` map to debug; the others map to their own level |
| Logging.FormatArgs | src/utils/logger.js:118 | one formatted string per argument, in order |
| Logging.Objects | src/utils/logger.js:152-153 | keeps exactly the non-null object arguments |
| Logging.ExtractData | src/utils/logger.js:151-158 | the i-th kept object is stored under `arg<i>`, in the original order |
| Logging.ExtractDataKeysDistinct | src/utils/logger.js:151-158 | no two extracted entries share a key, so none is overwritten |
| Logging.FlushSpec | src/utils/logger.js:207-214 | a flush empties the batch and ships it as one request, losing nothing; on an empty batch it does nothing |
| Logging.LoggedSpec | src/utils/logger.js:109-137 | `_log` accepts an entry exactly when its level reaches the threshold, appending it to everything accepted so far, and the batch stays below 50 |
| Logging.PushSpec | src/utils/logger.js:126-137 | an accepted entry is appended to everything accepted so far; the batch stays below 50; earlier shipments are kept |
| Logging.PushSendsErrorsAtOnce | src/utils/logger.js:129-132 | the entry is shipped on its own at once iff it is an error |
| Logging.PushBelowLimit | src/utils/logger.js:126-132 | below the limit the entry is appended at the end of the batch |
| Logging.PushAtLimit | src/utils/logger.js:134-137 | the 50th entry triggers a flush that ships the full batch, the entry included |
| Logging.Logger.constructor | src/utils/logger.js:14-21 | empty batch, given threshold and correlation id |
| Logging.Logger.FlushBatch | src/utils/logger.js:207-214 | the buffer becomes its flush |
| Logging.Logger.Log | src/utils/logger.js:109-138 | below the threshold nothing changes; otherwise the buffer becomes the push of the built entry |
| Logging.Logger.Emit | src/utils/logger.js:160-186 | `debug`/`info`/`warn`/`error` act only when the threshold is at or below their level |
| Logging.Logger.Intercept | src/utils/logger.js:65-80 | a console call is logged at its mapped level |
| Logging.Logger.SetCorrelationId | src/utils/logger.js:244-246 | the id is replaced; nothing else changes |
| Logging.Logger.GetCorrelationId | src/utils/logger.js:248-250 | returns the current id |
| Api.SanitizeAll | src/services/api.js:47 | the same number of texts, each replaced by its sanitised form in place |
| Api.SanitizeBodySpec | src/services/api.js:43-49 | for post/put/patch with a `texts` array, each string text is encoded and everything else is kept; any other body is untouched |
| Api.OnRequest | src/services/api.js:16-51 | sets the correlation header and start time and logs the start at `info`; a denial is logged at `warn` and rejects with 429 and the fixed message before any sanitising; otherwise forwards the sanitised body; the log buffer changes exactly by those `Logged` steps |
| Api.DurationSpec | src/services/api.js:66-68 | now − start when a (non-zero) start was recorded, otherwise 0 |
| Api.ResponseCorrelation | src/services/api.js:86 | the response's `x-correlation-id` when present and non-empty |
| Api.CorrelationAfterSpec | src/services/api.js:85-88 | the logger takes the response's id when there is one and keeps its own otherwise; applying it twice changes nothing more |
| Api.OnResponse | src/services/api.js:64-91 | the response is logged at `info` under the id held before it, then the logger's id is updated as above; the response is returned unchanged |
| Api.NormalizeErrorSpec | src/services/api.js:92-145 | response errors keep their status with detail, else message, else the default text; a network failure gives 0 and the network message; anything else gives 0 and its message or the fallback |
| Api.AnalyzeTextsSanitised | src/services/api.js:149-155 | `analyzeTexts` posts `{texts, tasks}`, and the interceptor turns each text into its sanitised form |
| Api.AnalyzeFileTasks | src/services/api.js:157-170 | the form carries the file, plus a `tasks` field iff tasks were given; `[]` gives `''`; comma-free task names split back out |
| Api.OtherCallsUntouched | src/services/api.js:157-180 | the file upload and the two GETs are not changed by sanitising |
| History.InitialHistory | src/context/HistoryContext.jsx:14-25 | the parsed stored list when something non-empty is stored and parses, otherwise `[]` |
| History.UseHistory | src/context/HistoryContext.jsx:5-11 | outside a provider it throws the fixed message; inside, it returns the history |
| History.Without | src/context/HistoryContext.jsx:40-42 | keeps exactly the entries whose id differs |
| History.WithoutAppend | src/context/HistoryContext.jsx:40-42 | removal distributes over concatenation, so the order of kept entries is preserved |
| History.WithoutAbsent | src/context/HistoryContext.jsx:40-42 | removing an absent id changes nothing |
| History.WithoutRemovesAll | src/context/HistoryContext.jsx:40-42 | every entry with the id is gone, and removing again changes nothing |
| History.AddThenRemove | src/context/HistoryContext.jsx:32-42 | adding an entry with a fresh id and then removing that id restores the history |
| History.HistoryStore.constructor | src/context/HistoryContext.jsx:14-30 | starts from the initial history, stored copy in step |
| History.HistoryStore.AddToHistory | src/context/HistoryContext.jsx:28-34 | appends at the end; the stored copy follows |
| History.HistoryStore.ClearHistory | src/context/HistoryContext.jsx:28-38 | the history becomes `[]`; the stored copy follows |
| History.HistoryStore.RemoveFromHistory | src/context/HistoryContext.jsx:28-42 | the history loses every entry with the id; the stored copy follows |
| HistoryView.DisplayNumbering | src/pages/HistoryPage.jsx:72-89 | display index i shows stored entry n−1−i labelled n−i: labels run from n down to 1, newest first |
| HistoryView.TextCount | src/pages/HistoryPage.jsx:97 | `textCount` unless it is missing or 0, else the number of results, else 0 |
| HistoryView.CountLabelPlural | src/pages/HistoryPage.jsx:97 | the label ends in `s` iff the count exceeds 1 |
| HistoryView.SelectionAfterDelete | src/pages/HistoryPage.jsx:28-30 | the selection is dropped iff it has the deleted id |
| HistoryView.HistoryPage.constructor | src/pages/HistoryPage.jsx:7-8 | nothing selected |
| HistoryView.HistoryPage.ViewItem | src/pages/HistoryPage.jsx:11-12 | the item becomes the selection |
| HistoryView.HistoryPage.HandleClearHistory | src/pages/HistoryPage.jsx:18-23 | a confirmed clear empties the history and the selection and hides "Clear All"; a declined one changes nothing |
| HistoryView.HistoryPage.HandleDeleteItem | src/pages/HistoryPage.jsx:25-32 | a confirmed delete removes the id and updates the selection as above; a declined one changes nothing |
| TextInputForm.SubmitDisabledSpec | src/components/analysis/TextInput.jsx:63 | submit is disabled iff the prop is set or the text is all whitespace |
| TextInputForm.SubmissionSpec | src/components/analysis/TextInput.jsx:25-38 | something is sent iff the text is not blank and does not sanitise to nothing; it is then the one-element list of the sanitised trimmed text |
| TextInputForm.ClearingIsRefused | src/components/analysis/TextInput.jsx:13-16 | an edit to the empty string fails the length check |
| TextInputForm.UriOnlyTextIsInvalid | src/components/analysis/TextInput.jsx:31-36 | `javascript:` is not blank but sends nothing |
| TextInputForm.TextInput.constructor | src/components/analysis/TextInput.jsx:6-7 | empty text and error |
| TextInputForm.TextInput.HandleChange | src/components/analysis/TextInput.jsx:9-20 | an edit is taken iff it passes the length check; otherwise the text stays and the too-long error is set; the text never exceeds 100000 UTF-16 code units |
| TextInputForm.TextInput.HandleSubmit | src/components/analysis/TextInput.jsx:22-41 | the blank-text and invalid-text errors with nothing sent; on success the sanitised list is sent and text and error are cleared |
| FileUploadForm.CheckSpec | src/components/analysis/FileUpload.jsx:19-38 | a file is acceptable iff its type is listed, its size is at most 10 MiB and its name is clean |
| FileUploadForm.SlashInNameRefused | src/components/analysis/FileUpload.jsx:31-36 | a name containing `/` is refused by the name check |
| FileUploadForm.FileUpload.constructor | src/components/analysis/FileUpload.jsx:8-10 | no file, no error, not loading |
| FileUploadForm.FileUpload.HandleFileChange | src/components/analysis/FileUpload.jsx:13-39 | the error is cleared; checks run in the order type, size, name, and the first failure sets its message and keeps the old file; a file is stored iff all pass |
| FileUploadForm.FileUpload.HandleUpload | src/components/analysis/FileUpload.jsx:41-57 | no file: nothing happens; success hands over the results and clears the file; failure keeps the file and sets the message; loading is off afterwards |
| AnalyzeView.AnalyzePage.constructor | src/pages/AnalyzePage.jsx:10-12 | no results, not loading, no error |
| AnalyzeView.AnalyzePage.BeginAnalyze | src/pages/AnalyzePage.jsx:14-20 | loading on, error and results cleared, texts sent through `analyzeTexts` |
| AnalyzeView.AnalyzePage.FinishAnalyze | src/pages/AnalyzePage.jsx:19-26 | success stores `response.results`; failure sets the message or the fallback; loading off either way |
| AnalyzeView.AnalyzePage.HandleAnalyze | src/pages/AnalyzePage.jsx:14-27 | the whole handler: after a failure results stay empty and are not shown, and inputs are enabled again |
| AnalyzeView.AnalyzePage.HandleFileResults | src/pages/AnalyzePage.jsx:29-32 | results replaced, error cleared, loading untouched |
| Dashboard.Labels | src/components/dashboard/Dashboard.jsx:25-29 | a label is counted iff some result has that sentiment label |
| Dashboard.LabelsAppend | src/components/dashboard/Dashboard.jsx:25-29 | labels are collected result by result, in order and with repeats: the list distributes over concatenation |
| Dashboard.LabelsSingle | src/components/dashboard/Dashboard.jsx:26-27 | one result contributes its label when it has a sentiment and nothing otherwise |
| Dashboard.BumpSpec | src/components/dashboard/Dashboard.jsx:28 | bumping adds one to that key only, and appends the key if it was new |
| Dashboard.DedupSpec | src/components/dashboard/Dashboard.jsx:25-33 | the distinct labels, without repeats, in order of first appearance |
| Dashboard.TallySpec | src/components/dashboard/Dashboard.jsx:25-31 | the counter's keys are the distinct labels in first-appearance order, each holds its number of occurrences, and the counts sum to the number of labels |
| Dashboard.SentimentDataSpec | src/components/dashboard/Dashboard.jsx:25-31 | one entry per distinct label, holding that label's count; the counts sum to the results that have a sentiment |
| Dashboard.Capitalize | src/components/dashboard/Dashboard.jsx:34 | first character upper-cased, the rest unchanged |
| Dashboard.ChartData | src/components/dashboard/Dashboard.jsx:33-37 | one chart row per counter entry, same order and count, name capitalised |
| Dashboard.AllKeywordsAppend | src/components/dashboard/Dashboard.jsx:46 | the flattened keywords of joined result lists are the joined flattenings, in result order |
| Dashboard.AllKeywordsSingle | src/components/dashboard/Dashboard.jsx:46 | one result contributes its own list, and nothing when it has none |
| Dashboard.TopKeywordsSpec | src/components/dashboard/Dashboard.jsx:47-52 | the first min(10, n) keywords, in order, unsorted |
| Dashboard.OverallSentimentSpec | src/components/dashboard/Dashboard.jsx:348 | the insight names the first labelled result's label, capitalised, not the most frequent; `balanced` when there is none |
| Dashboard.DashboardViewSpec | src/components/dashboard/Dashboard.jsx:15-82 | missing or empty results give the empty state; otherwise the totals are the number of results and of keywords, and there is one chart row per distinct label |
| Dashboard.DashboardTabs.constructor | src/components/dashboard/Dashboard.jsx:13 | the tab starts as `overview` |
| Dashboard.DashboardTabs.SelectTab | src/components/dashboard/Dashboard.jsx:141-147 | the tab is always one of the four names |
| Theme.InitialThemeSpec | src/context/ThemeContext.jsx:14-33 | a saved non-empty theme wins; else `dark` iff storage did not throw and the media query answers dark; `light` otherwise |
| Theme.ToggleSpec | src/context/ThemeContext.jsx:53-55 | `light` becomes `dark` and everything else `light`; two toggles restore `light`/`dark`; any other text goes to `light` then `dark` |
| Theme.UseTheme | src/context/ThemeContext.jsx:5-11 | outside a provider it throws the fixed message |
| Theme.ThemeProvider.constructor | src/context/ThemeContext.jsx:13-51 | the theme is the initial resolution, and after the first effect the root class and storage agree with it |
| Theme.ThemeProvider.ApplyTheme | src/context/ThemeContext.jsx:35-51 | root has `dark` iff the theme is `dark`; storage holds the theme when it exists |
| Theme.ThemeProvider.ToggleTheme | src/context/ThemeContext.jsx:53-55 | the theme toggles and the root class and storage follow |
| DevServer.RewrittenSpec | vite.config.js:11-22 | a URL is unchanged or becomes `/index.html`, the latter iff it is not internal, has no dot anywhere and does not start with `/api/`; rewriting is idempotent |
| DevServer.FallbackEdges | vite.config.js:13-20 | `/api` is rewritten, `/api/analyze` is not, a dotted query blocks the rewrite, and `/srcview` bypasses it |
| DevServer.DevRequest.SpaFallback | vite.config.js:11-22 | the URL becomes its rewrite and `next()` is called exactly once |

## Left out

- Rendering, layout, animation, charts and icons are not modelled, and neither are the presentation-only components.
- I/O is replaced by inputs or fields:
  - `fetch`, `localStorage`, `JSON.parse`/`JSON.stringify`, `matchMedia`, `document.classList`, `window.confirm`, `setTimeout`, refs and scrolling;
  - network outcomes are parameters;
  - the stored history copy is the list itself, not its serialisation.
- Clock: `Date.now()` and `new Date().toISOString()` are parameters (`now`, `Ambient`).
- Floating point is not modelled:
  - average confidence, percentages and `toFixed`;
  - keyword scores and the radar chart.
- Locale formatting: the too-long message uses the English rendering `100,000`, and `formatFileSize(MAX_FILE_SIZE)` is an opaque constructor argument. `helpers.js` is not part of this model.
- Case mapping is ASCII only: `toLowerCase`/`toUpperCase` on non-ASCII letters and full Unicode whitespace beyond the ECMAScript set are not modelled.
- Regular-expression `\w` is ASCII word characters, as in JavaScript without the `u` flag; `.*?` in the tag patterns does not cross line terminators.
- The logger's own I/O is not modelled:
  - console echoing and the `window` error and unload listeners;
  - the 5-second flush timer and fetch failures;
  - generating the correlation id with `Math.random`.
  Shipments are recorded as a trace instead.
- `Logging.FormatArg`: `JSON.stringify` of an object is an opaque string carried by the argument, and a value that fails to serialise is not distinguished.
- The environment-dependent logger threshold and the DEV-only `data` field of normalised errors are not modelled; the threshold is a constructor parameter.
- `Api.OnRequest` and `Api.OnResponse` take the objects passed to their `logger.info`/`warn` calls as opaque serialised strings, and both log calls of one request share one `Ambient` (one clock reading). In `Api.OnRequest` the recorded start time and the rate limiter's `Date.now()` are also one reading, `now`, where the source reads the clock twice. The error interceptor's `logger.error` calls are not modelled, because error normalisation is modelled as the function `Api.NormalizeError`.
- `Api.NormalizeErrorSpec`: a non-string `detail` or `message` in the error body is not modelled; both are strings, with `""` standing for missing.
- `Api.SanitizeBodySpec`: a truthy non-array `texts` value (which would make `.map` throw) is not modelled; `texts` is an optional list of JSON values.
- What a caller finally sees for a rate-limit rejection (429 or 0) depends on axios chaining, which is not modelled. So are the 30-second timeout, base URL and default headers.
- `MAX_BATCH_SIZE` is declared but never enforced, so it appears only as a constant.
- Object key order: the counter keeps insertion order. Integer-like labels, which JavaScript would list first, are not modelled.
- Dashboard.TallySpec and Dashboard.SentimentDataSpec hold for labels that are plain own keys, such as the `positive`, `negative` and `neutral` the analysis service sends. The counter is modelled as a list of (label, count) pairs, not as a `{}` that inherits from `Object.prototype`. A label naming an inherited property is therefore not modelled. For `constructor`, `toString`, `valueOf` or `hasOwnProperty`, `acc[label] || 0` reads the inherited function and the count becomes a string. For `__proto__`, the assignment goes to the prototype setter and no chart row appears.
- A result whose `sentiment` object lacks a `label` is not modelled; a present sentiment always has a label string.
- The effect's `try`/`catch` around storage writes is not modelled: a storage write is assumed to succeed when storage exists. A storage read or media query that throws is modelled by `StorageThrows` and `MediaThrows`.
- History entry construction and id generation are not part of the shown code.
- `History.InitialHistory`: a stored value that parses to something other than an array (`null`, a number, an object) is not modelled; the source would make it the history and the first `.filter` or `.length` on it would throw.
- The proxy, headers, preview and build settings of the dev server are not modelled, only its `spa-fallback` middleware.
- Asynchronous interleaving is not modelled: each async handler is modelled as its synchronous start followed by its settlement, with no other event in between.
