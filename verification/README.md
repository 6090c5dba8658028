# insta-sum in Dafny

insta-sum is a browser extension plus a small AWS Lambda backend. The user
selects text on a page and picks "Summarize selected text" from the context
menu. The extension's background script then reads `config.json` and posts
the text to three backend routes: `/summary`, `/key-highlights` and
`/important-words`. It stores the three answers and sends them to the page's
content script. The content script opens a sliding popup, formats the
summary with an HTML template and bolds the important words.

This project models the logic of both halves as pure functions over
immutable values:

- **`JsText`, `JsValues`**: the JavaScript string primitives the extension
  relies on, and JavaScript values and parsed JSON.
  - The string primitives are `split`, `join`, `trim`, `indexOf` and
    `replace` with its `$`-patterns.
  - Values are reduced to what the code inspects: strings, truthiness,
    `undefined`/`null`, and thrown errors.
- **`Formatter`**: `formatContentWithTemplate`.
  - Every regular expression it uses is written out as the left-to-right
    scan the JavaScript engine performs: `\*\*(.*?)\*\*`, `^- (.*)$` with
    flag `m`, `\n\s*\n`, `^- `, and `\b<word>\b` with flags `g` and `i`.
  - Case-insensitivity is ASCII folding. Word characters are
    `[A-Za-z0-9_]`.
- **`ContentScript`**: the template cache, and the page.
  - The cache takes every body the fetch resolves with, the empty string
    included. Once it holds a non-empty template it is never written again.
  - The page is a body of element handles plus an element table, listeners
    and pending timers. It covers the popup and overlay lifecycle, the
    10 ms slide-in and 500 ms removal timers, `updatePopupContent`, and the
    `displaySummary` message filter.
- **`Background`**: the context menu, the click filter, the config/three
  endpoints/storage/outbox run, and the `saveSummary`/`requestSummary`
  handler over the three storage keys.
  - The context menu is a list of calls to the menu API.
  - The run is all-or-nothing, like `Promise.all`.
- **`DotNet`, `ErrorHandler`, `LambdaHandler`, `EntryPoint`**: the C#
  Lambda.
  - Request validation, then the method check before routing.
  - `TryExtractText`, the three route handlers with their prompts, the
    error handler's fixed 500 response, and the entry point's
    `{summary: <inner response>}` envelope with outer status 200.
  - The OpenAI service, the JSON deserializer and the logger are
    parameters.
- **`Wire`, `EndToEnd`**: what the extension receives from the Lambda, and
  properties of the two halves composed.

Several behaviours of the code are modelled as written, even where they
look unintended:

- An empty important-words string gives the single keyword `""`. Bolding
  it inserts `<strong></strong>` at every word boundary.
- The keyword `li` rewrites the `<li>` markup that the earlier passes wrote.
- `fetchTemplate` caches the body of any fetch that resolves, whatever its
  status.
- A second popup/overlay pair is never prevented.
- The background's failure message has no `importantWords`, so
  `updatePopupContent` throws inside `split`. The popup keeps showing
  "Loading summary...".
- The backend's 400/404/405 answers travel inside an outer 200 envelope.
  The extension unwraps them to `undefined`, so no popup appears and the
  stored summary keeps its old value.
- The entry point's catch branch is reachable only when no handler was
  registered. With no logger it throws again from `LogError`.

## Model

| member | source | states |
|---|---|---|
| JsValues.Or | insta-sum-fronted/src/background.js:175-179 | `v \|\| fallback` is `v` exactly when `v` is truthy, otherwise the fallback |
| JsValues.ToValue | insta-sum-fronted/src/background.js:99-100 | a parsed JSON value is a string exactly when it was a JSON string; it is falsy exactly for null, `""` and false |
| JsValues.Member | insta-sum-fronted/src/background.js:99-100 | reading a property throws exactly on `undefined`/`null`; otherwise it yields the field when present and `undefined` when absent |
| JsValues.Property | insta-sum-fronted/src/background.js:99-100 | a property of parsed JSON throws exactly on null, is the field's value when present and `undefined` when not |
| JsValues.Parse | insta-sum-fronted/src/background.js:99 | `JSON.parse` gives back the value whose serialization it reads and keeps null, numbers and booleans; it throws exactly on `undefined`, a plain string, an object and an array |
| JsText.AsciiLower | insta-sum-fronted/src/content-script.js:62 | case folding keeps word-ness and ASCII-ness and leaves no upper-case letter |
| JsText.IndexOf | insta-sum-fronted/src/content-script.js:69 | the first occurrence of the pattern, or -1 exactly when there is none |
| JsText.ReplaceFirst | insta-sum-fronted/src/content-script.js:69-74 | `replace` with a string pattern changes only the first occurrence, and leaves a string without the pattern unchanged |
| JsText.ExpandWithoutDollar | insta-sum-fronted/src/content-script.js:64 | a replacement text without `$` is inserted verbatim |
| JsText.TrimStart | insta-sum-fronted/src/content-script.js:58 | removes exactly the leading white space: the result is a suffix, what was removed is all white space, and the result starts with non-white space |
| JsText.TrimEnd | insta-sum-fronted/src/content-script.js:58 | removes exactly the trailing white space, symmetrically |
| JsText.Trim | insta-sum-fronted/src/content-script.js:58 | the result occurs in the input with only white space around it, and neither begins nor ends with white space |
| JsText.TrimPadded | insta-sum-fronted/src/content-script.js:58 | trimming white-space padding off a trimmed string gives that string back |
| JsText.JoinSplit | insta-sum-fronted/src/content-script.js:58 | joining the pieces of a split with its separator restores the input |
| JsText.SplitJoin | insta-sum-fronted/src/content-script.js:58 | splitting a join of separator-free pieces on an unbordered separator gives the pieces back |
| JsText.SplitCount | insta-sum-fronted/src/content-script.js:75 | splitting on one character gives one more piece than there are occurrences of it |
| JsText.ReplaceFirstAfter | insta-sum-fronted/src/content-script.js:69-74 | with no earlier occurrence and an unbordered pattern, `replace` substitutes exactly the occurrence that follows the prefix |
| JsText.FirstAfter | insta-sum-fronted/src/content-script.js:69-74 | when the pattern cannot overlap itself and is absent from `a`, its first occurrence in `a + pat + b` starts right after `a` |
| JsText.ExpandMatchPattern | insta-sum-fronted/src/content-script.js:69 | in a replacement text `x + "$&" + y` with no other `$`, `$&` stands for the matched text and the rest is copied |
| JsText.ReplaceFirstMatchPattern | insta-sum-fronted/src/content-script.js:69 | a replacement holding `$&` writes the first occurrence of the pattern back in its place, between the replacement's own text |
| Formatter.Keywords | insta-sum-fronted/src/content-script.js:58 | one keyword per `", "`-separated piece, at least one, none starting or ending with white space |
| Formatter.CloseAt | insta-sum-fronted/src/content-script.js:71 | the lazy `(.*?)\*\*` finds the first `**` on the same line, or reports that there is none |
| Formatter.LineEnd | insta-sum-fronted/src/content-script.js:72 | `(.*)$` in multi-line mode stops at the first line terminator or the end |
| Formatter.SpaceRun | insta-sum-fronted/src/content-script.js:73 | the greedy `\s*` takes the whole white-space run and stops at the first non-space |
| Formatter.LastNewline | insta-sum-fronted/src/content-script.js:73 | backtracking to the last `\n` of the run: the index holds `\n` and nothing after it in range does |
| Formatter.StripBullet | insta-sum-fronted/src/content-script.js:77 | at most one leading `- ` is removed from a highlight line |
| Formatter.Format | insta-sum-fronted/src/content-script.js:56-81 | formatting completes exactly when all three inputs are strings, and throws a TypeError otherwise |
| Formatter.MarkdownBold | insta-sum-fronted/src/content-script.js:71 | no contract of its own; FormatterProofs.MarkdownBoldPair, MarkdownBoldSkips and MarkdownBoldLines state it: each line is rewritten on its own, a closed `**x**` becomes `<strong>x</strong>`, and text with no `**` is copied |
| Formatter.ListItems | insta-sum-fronted/src/content-script.js:72 | no contract of its own; FormatterProofs.ListItemsFirstLine and ListItemsLastLine state it: a line that starts with `- ` becomes `<li>rest</li>`, every other line is kept |
| Formatter.Paragraphs | insta-sum-fronted/src/content-script.js:73 | no contract of its own; FormatterProofs.ParagraphsBlankRun and ParagraphsSingleBreak state it: a white-space run with two or more newlines becomes `</p><p>`, a single newline stays |
| Formatter.BoldWord | insta-sum-fronted/src/content-script.js:62-65 | no contract of its own; FormatterProofs.BoldWordMatchesReference states it against a word-by-word reference, and BoldAbsentKeyword and KeywordSpellingWins add the absent-keyword and spelling cases |
| Formatter.BoldAll | insta-sum-fronted/src/content-script.js:61-66 | no contract of its own; FormatterProofs.BoldAllAppend states the left fold over the keywords in list order |
| Formatter.SummaryHtml | insta-sum-fronted/src/content-script.js:70-73 | no contract of its own; the three passes run in source order, and FormatterProofs.FormatFillsTemplate places their bolded result at `{{summary}}` |
| Formatter.HighlightsHtml | insta-sum-fronted/src/content-script.js:74-80 | no contract of its own; FormatterProofs.HighlightsOneItemPerLine and HighlightsOfBulletList state it: one `<li>` per newline-separated line, with one leading `- ` removed |
| FormatterProofs.KeywordsRoundTrip | insta-sum-fronted/src/content-script.js:58 | trimmed words free of `", "` are recovered exactly from their `", "`-joined list |
| FormatterProofs.KeywordsAreTrimmedPieces | insta-sum-fronted/src/content-script.js:58 | the keywords are the trimmed `", "` pieces of the input, and the pieces rejoin to the input |
| FormatterProofs.EmptyWordsGiveEmptyKeyword | insta-sum-fronted/src/content-script.js:58 | an empty important-words string yields the single keyword `""` |
| FormatterProofs.BoldAllAppend | insta-sum-fronted/src/content-script.js:61-66 | bolding is a left fold: one more keyword bolds the previous result once more |
| FormatterProofs.BoldWordMatchesReference | insta-sum-fronted/src/content-script.js:62-65 | for a word-character keyword, the regex scan equals a word-by-word definition that replaces each whole word equal to the keyword up to case with the keyword's bold spelling |
| FormatterProofs.BoldWordsConcat | insta-sum-fronted/src/content-script.js:62-65 | the word-by-word reference splits at any seam that does not cut a word: bolding `a + b` is bolding `a`, then bolding `b` |
| FormatterProofs.EmptyKeywordScan | insta-sum-fronted/src/content-script.js:58-65 | the scan with the empty keyword equals `MarkBoundaries` from any starting word-ness |
| FormatterProofs.BoldAbsentKeyword | insta-sum-fronted/src/content-script.js:62-65 | text that does not contain the keyword, up to case, is left unchanged |
| FormatterProofs.KeywordSpellingWins | insta-sum-fronted/src/content-script.js:64 | for every text `a + u + b` where `u` is a whole word equal to the keyword up to ASCII case: the result is `a` bolded, then the keyword's own spelling (not `u`) in `<strong>`, then `b` bolded |
| FormatterProofs.KeywordRewritesMarkup | insta-sum-fronted/src/content-script.js:61-66 | for every list item `<li>x</li>` the earlier passes wrote, the keyword `li` bolds both tag names, and `x` is bolded on its own |
| FormatterProofs.EmptyKeywordMarksBoundaries | insta-sum-fronted/src/content-script.js:58-65 | for every text, the empty keyword gives `MarkBoundaries`: each character kept, with `<strong></strong>` at every position where word-ness changes, the two ends included |
| FormatterProofs.MarkdownBoldPair | insta-sum-fronted/src/content-script.js:71 | `**x**` on one line becomes `<strong>x</strong>`, closed at the first `**` |
| FormatterProofs.MarkdownBoldStaysOnItsLine | insta-sum-fronted/src/content-script.js:71 | example: `**a\nb**`, a `**` pair split by a newline, is not bolded |
| FormatterProofs.MarkdownBoldSkips | insta-sum-fronted/src/content-script.js:71 | text in which no `**` starts is copied unchanged, whatever follows it |
| FormatterProofs.CloseAtStopsAtLineEnd | insta-sum-fronted/src/content-script.js:71 | `.` does not match a line terminator: the closing `**` is searched for only up to the end of the line |
| FormatterProofs.MarkdownBoldLines | insta-sum-fronted/src/content-script.js:71 | for any line terminator, the text before it and the text after it are rewritten independently, so no pair ever spans lines |
| FormatterProofs.MarkdownBoldWithoutStars | insta-sum-fronted/src/content-script.js:71 | text without `**` is unchanged |
| FormatterProofs.ListItemsFirstLine | insta-sum-fronted/src/content-script.js:72 | a first line starting with `- ` becomes `<li>rest</li>`, other first lines are kept, and the next line starts afresh |
| FormatterProofs.ListItemsLastLine | insta-sum-fronted/src/content-script.js:72 | the same for a final line without a terminator |
| FormatterProofs.ParagraphsBlankRun | insta-sum-fronted/src/content-script.js:73 | a white-space run holding two or more newlines becomes a single `</p><p>`, and the white space after its last newline is kept |
| FormatterProofs.ParagraphsSingleBreak | insta-sum-fronted/src/content-script.js:73 | a run holding only one newline is left unchanged |
| FormatterProofs.HighlightsOneItemPerLine | insta-sum-fronted/src/content-script.js:74-80 | the highlights are cut into newline count + 1 lines, which rejoin to the input, and each line becomes one item |
| FormatterProofs.HighlightsOfBulletList | insta-sum-fronted/src/content-script.js:74-80 | a list of `- x` lines becomes exactly `<li>x</li>` per line, joined with no separator |
| FormatterProofs.PlaceholdersHaveNoBorder | insta-sum-fronted/src/content-script.js:69-74 | neither placeholder can overlap a shifted copy of itself |
| FormatterProofs.FormatWithoutPlaceholders | insta-sum-fronted/src/content-script.js:69-74 | a template without either placeholder is returned unchanged |
| FormatterProofs.FormatSubstitutesInOrder | insta-sum-fronted/src/content-script.js:69-74 | the first `{{summary}}` is replaced first, and `{{keyHighlights}}` is searched in the result |
| FormatterProofs.FormatFillsTemplate | insta-sum-fronted/src/content-script.js:56-81 | a template `a{{summary}}b{{keyHighlights}}c` becomes `a` + bolded summary + `b` + bolded highlights + `c` |
| FormatterProofs.DollarPatternRestoresPlaceholder | insta-sum-fronted/src/content-script.js:69 | for every summary `x + "$&" + y` with no other `$`, and every template whose first `{{summary}}` follows `a`: the result is `a + x + "{{summary}}" + y` followed by the rest of the template |
| ContentScript.EmptyPage | insta-sum-fronted/src/content-script.js:84-114 | the initial document satisfies the page invariant |
| ContentScript.Without | insta-sum-fronted/src/content-script.js:158-160 | `removeChild` leaves exactly the other children |
| ContentScript.Earliest | insta-sum-fronted/src/content-script.js:102-105 | the timer that fires next is due no later than any other, and is the first of those due soonest |
| ContentScript.RemoveAt | insta-sum-fronted/src/content-script.js:158-160 | a fired timer leaves the queue and the other timers keep their order |
| ContentScript.Show | insta-sum-fronted/src/content-script.js:124-137 | writing the popup's content creates and removes no element, leaves the body as it was and schedules nothing |
| ContentScript.UpdatePopupContent | insta-sum-fronted/src/content-script.js:117-139 | filling a popup creates and removes no element, leaves the body as it was and schedules nothing |
| ContentScript.FetchTemplate | insta-sum-fronted/src/content-script.js:26-53 | no contract of its own; ContentScriptProofs.FetchOutcomes and CachedTemplateIsFinal state it: a non-empty cache is returned without fetching, a failed fetch gives `''`, and a resolved fetch is cached and returned |
| ContentScript.DisplayEmptyPopup | insta-sum-fronted/src/content-script.js:84-114 | no contract of its own; ContentScriptProofs.DisplayEmptyPopupAppends states it: a fresh overlay and popup are appended, with the slide-in timer and the overlay's click listener |
| ContentScript.ClosePopup | insta-sum-fronted/src/content-script.js:150-175 | no contract of its own; ContentScriptProofs.ClosePopupEffect and CloseThenWaitRemovesPair state it: the overlay leaves at once, the popup slides out and leaves 500 ms later |
| ContentScript.DisplaySummaryPopup | insta-sum-fronted/src/content-script.js:142-147 | no contract of its own; ContentScriptProofs.DisplaySummaryPopupAppendsFilledPair states it, and UpdatePopupContentWrites says what the popup shows |
| ContentScript.OnMessage | insta-sum-fronted/src/content-script.js:6-20 | no contract of its own; ContentScriptProofs.OnMessageShowsPopupIffAccepted states it: a popup pair is appended exactly for an accepted message |
| ContentScriptProofs.WaitRemoves | insta-sum-fronted/src/content-script.js:158-160 | once a removal is due, running the clock leaves its element out of the document, keeps removed elements out and adds nothing |
| ContentScript.FireKeepsValid | insta-sum-fronted/src/content-script.js:102-105 | a timer callback keeps the page invariant |
| ContentScriptProofs.CachedTemplateIsFinal | insta-sum-fronted/src/content-script.js:30-33 | with a non-empty cached template, every later call returns it and fetches nothing |
| ContentScriptProofs.CacheSettlesOnFirstTemplate | insta-sum-fronted/src/content-script.js:26-53 | the first fetch that delivers a non-empty body fixes the cache, and every later call returns that body |
| ContentScriptProofs.NoTemplateMeansEveryCallFetches | insta-sum-fronted/src/content-script.js:26-53 | while no call delivers a template, every call fetches and returns `''` |
| ContentScriptProofs.FetchOutcomes | insta-sum-fronted/src/content-script.js:36-52 | a failed fetch returns `''` and keeps the cache; a resolved fetch caches and returns its body, whatever its status |
| ContentScriptProofs.DisplayEmptyPopupAppends | insta-sum-fronted/src/content-script.js:84-114 | one fresh overlay and then one fresh popup reading "Loading summary..." are appended, a 10 ms slide-in is scheduled, a click listener is added to the overlay, and nothing else changes |
| ContentScriptProofs.SecondPopupIsNotPrevented | insta-sum-fronted/src/content-script.js:84-114 | a second call appends a second overlay/popup pair |
| ContentScriptProofs.ClosePopupEffect | insta-sum-fronted/src/content-script.js:150-175 | a present overlay is removed at once; a present popup slides out and its removal is scheduled in 500 ms; an absent popup changes nothing |
| ContentScriptProofs.CloseAbsentChangesNothing | insta-sum-fronted/src/content-script.js:150-175 | closing elements that are not in the document leaves it unchanged |
| ContentScriptProofs.TimersOnlyMoveAndRemove | insta-sum-fronted/src/content-script.js:102-105 | running due timers only slides elements and removes children, and keeps the page invariant |
| ContentScriptProofs.DueRemovalHappens | insta-sum-fronted/src/content-script.js:158-160 | a removal timer that is due has removed its element |
| ContentScriptProofs.RemovingAbsentChildIsHarmless | insta-sum-fronted/src/content-script.js:158-160 | a removal whose element is already gone changes nothing |
| ContentScriptProofs.CloseThenWaitRemovesPair | insta-sum-fronted/src/content-script.js:150-175 | 500 ms after closing, neither popup nor overlay is in the document, and nothing was added |
| ContentScriptProofs.ClickThenWaitRemovesPair | insta-sum-fronted/src/content-script.js:108-111 | a click on the overlay closes this pair: the overlay goes at once, the popup stays, and 500 ms later both are gone and the document holds only what it held before the popup was shown |
| ContentScriptProofs.DoubleCloseIsHarmless | insta-sum-fronted/src/content-script.js:150-175 | closing twice schedules two removals and still leaves both elements gone |
| ContentScriptProofs.EarlyCloseSlidesBackIn | insta-sum-fronted/src/content-script.js:102-105 | a close before the 10 ms slide-in is undone by the slide-in, and the popup is still removed at 500 ms |
| ContentScriptProofs.UpdateWithoutPopupChangesNothing | insta-sum-fronted/src/content-script.js:118-121 | a null popup returns with no change |
| ContentScriptProofs.ShowWrites | insta-sum-fronted/src/content-script.js:124-137 | an empty template writes the load failure; an empty formatted text writes the format failure; otherwise the formatted text is written; only this popup's content changes |
| ContentScriptProofs.UpdatePopupContentFrame | insta-sum-fronted/src/content-script.js:117-139 | updating touches only the template cache and this popup's content |
| ContentScriptProofs.UpdatePopupContentWrites | insta-sum-fronted/src/content-script.js:117-139 | the popup shows the load failure, the format failure or the formatted template, and keeps its content when formatting throws |
| ContentScriptProofs.MissingWordsKeepPopupContent | insta-sum-fronted/src/content-script.js:58 | undefined important words make formatting throw, so the popup keeps its content |
| ContentScriptProofs.OnMessageShowsPopupIffAccepted | insta-sum-fronted/src/content-script.js:6-20 | a popup pair is appended exactly when the message is `displaySummary` with a truthy summary; any other message changes nothing |
| ContentScriptProofs.DisplaySummaryPopupAppendsFilledPair | insta-sum-fronted/src/content-script.js:142-147 | a fresh overlay and popup are appended and the slide-in is scheduled; everything already on the page keeps its place and content, and only the template cache may change |
| Background.ApplyCall | insta-sum-fronted/src/background.js:5-25 | `removeAll` empties the menu; `create` adds a new id and fails on a duplicate id |
| Background.OnClicked | insta-sum-fronted/src/background.js:31-40 | only a `summarize` click starts a job, with the selection text and the tab id |
| Background.JsonOf | insta-sum-fronted/src/background.js:92-98 | a reply is usable exactly when it arrived, was ok and held JSON |
| Background.Endpoint | insta-sum-fronted/src/background.js:44-55 | the config yields an endpoint exactly when it loaded ok and has a truthy `apiEndpoint`, and that endpoint is the value; a non-ok config rejects with `Error: Error loading config: ` followed by the reply's status text |
| Background.Unwrap | insta-sum-fronted/src/background.js:99-100 | unwrapping null data throws; it succeeds only when `summary` is an object whose `body` is JSON text, a number or a boolean; for JSON text it reads the field of the parsed value; a `body` that is an array, a plain string, an object or null throws; the guarded variant also needs a truthy `summary.body` |
| Background.Process | insta-sum-fronted/src/background.js:43-81 | a run sends exactly one message to its tab, and posts nothing exactly when the config fails |
| Background.CreateContextMenu | insta-sum-fronted/src/background.js:5-25 | no contract of its own; BackgroundProofs.CreateContextMenuLeavesOneItem and CreateContextMenuIsIdempotent state it: the menu ends with exactly the `summarize` item, however often it runs |
| Background.FetchSummary | insta-sum-fronted/src/background.js:84-106 | the call resolves only for an ok reply holding JSON; a non-ok reply rejects with `Error: Error fetching summary: ` followed by the reply's status text |
| Background.FetchKeyHighlights | insta-sum-fronted/src/background.js:109-131 | the call resolves only for an ok reply holding JSON; a non-ok reply rejects with `Error: Error fetching key highlights: ` followed by the reply's status text |
| Background.FetchImportantWords | insta-sum-fronted/src/background.js:134-160 | the call resolves only for an ok reply holding JSON; a non-ok reply rejects with `Error: Error fetching important words: ` followed by the reply's status text |
| Background.Store | insta-sum-fronted/src/background.js:65 | storing keeps every key, adds none but the three result keys, and keeps the rule that no stored value is `undefined` |
| Background.HandleClick | insta-sum-fronted/src/background.js:31-40 | other menu items do nothing |
| Background.OnRuntimeMessage | insta-sum-fronted/src/background.js:163-183 | only `saveSummary` and `requestSummary` are answered, and only `saveSummary` changes storage |
| BackgroundProofs.LastRemoveAllDecides | insta-sum-fronted/src/background.js:5-25 | after the last `removeAll`, repeated creates leave exactly one `summarize` item, and each duplicate create counts one error |
| BackgroundProofs.CreateContextMenuLeavesOneItem | insta-sum-fronted/src/background.js:5-25 | the menu ends with exactly the `summarize` item, titled "Summarize selected text", for selections |
| BackgroundProofs.CreateContextMenuIsIdempotent | insta-sum-fronted/src/background.js:5-25 | calling it twice gives the same menu as calling it once |
| BackgroundProofs.OverlappingRunsLeaveOneItem | insta-sum-fronted/src/background.js:5-25 | two interleaved calls still leave one item and report one duplicate error |
| BackgroundProofs.OnlySummarizeClicksStartWork | insta-sum-fronted/src/background.js:31-40 | a `summarize` click with a tab runs the job; anything else does nothing |
| BackgroundProofs.RequestsFollowConfiguration | insta-sum-fronted/src/background.js:43-61 | a failing config sends only the failure message; otherwise there are three JSON POSTs, to the summary, key-highlights and important-words paths of the endpoint, with the text |
| BackgroundProofs.BadConfigFails | insta-sum-fronted/src/background.js:44-55 | a non-ok, non-JSON or failed config, or one with a missing or empty `apiEndpoint`, takes the failure path; the non-ok and empty-endpoint rejections carry the source's messages, the former with the status text |
| BackgroundProofs.UnwrapReadsInnerField | insta-sum-fronted/src/background.js:99-100 | from `{summary: {body: <json>}}` the unwrap yields the named field of the inner JSON, or `undefined` |
| BackgroundProofs.GuardOnlyRejectsMore | insta-sum-fronted/src/background.js:149-154 | the important-words guard never changes a result that it lets through |
| BackgroundProofs.GuardRejectsFalsyBody | insta-sum-fronted/src/background.js:149-154 | a falsy `summary.body` gives "Invalid response format" under the guard, and `undefined` without it |
| BackgroundProofs.ArrayBodyFails | insta-sum-fronted/src/background.js:99-100 | a `summary.body` that is an array makes every call throw, guarded or not, so the run stores nothing and sends only the failure message |
| BackgroundProofs.MissingEnvelopeFails | insta-sum-fronted/src/background.js:149-154 | a reply without `summary` fails in both variants, with the guard's message when guarded |
| BackgroundProofs.StoreSetsEachKey | insta-sum-fronted/src/background.js:63-67 | the three keys get the three values (an `undefined` value is not stored), and other keys are untouched |
| BackgroundProofs.ProcessIsAllOrNothing | insta-sum-fronted/src/background.js:57-80 | if the config and all three fetches succeed, all three values are stored and one `displaySummary` message carries them; otherwise storage is untouched and only the failure message is sent |
| BackgroundProofs.OneFailureSpoilsTheRun | insta-sum-fronted/src/background.js:74-80 | one failing fetch is enough: storage is untouched and the message is "Failed to fetch data." alone |
| BackgroundProofs.RequestAnswersStoredOrDefault | insta-sum-fronted/src/background.js:173-181 | each stored field is returned if truthy, and otherwise its own "No … available" default |
| BackgroundProofs.SaveThenRequestRoundTrips | insta-sum-fronted/src/background.js:164-181 | saving answers `{status: 'success'}`, and a later request returns the saved non-empty strings |
| BackgroundProofs.EmptySavedSummaryReadsAsDefault | insta-sum-fronted/src/background.js:164-181 | a saved empty summary is stored but read back as the default |
| BackgroundProofs.SuccessfulRunCanBeRequested | insta-sum-fronted/src/background.js:63-73 | after a successful run, a request returns every truthy value the run sent |
| BackgroundProofs.OtherMessagesAreIgnored | insta-sum-fronted/src/background.js:163-183 | other actions get no reply and change nothing |
| DotNet.ArgumentNullFor | insta-sum-cdk/lambda/SummarizeLambdaHandler/SummarizeLambdaHandler.cs:23 | a null argument raises `ArgumentNullException` |
| DotNet.LogLine | insta-sum-cdk/lambda/SummarizeLambdaHandler/SummarizeLambdaHandler.cs:38-39 | logging throws exactly when the logger does, logs the line with a working logger, and logs nothing without a logger |
| ErrorHandler.LogException | insta-sum-cdk/lambda/SummarizeLambdaHandler/utils/ErrorHandler.cs:16-26 | logs the exception's message or nothing, and never throws |
| ErrorHandler.HandleException | insta-sum-cdk/lambda/SummarizeLambdaHandler/utils/ErrorHandler.cs:10-14 | always 500 with body `{"message":"Internal Server Error"}`, and the exception reaches only the log |
| ErrorHandler.CreateResponse | insta-sum-cdk/lambda/SummarizeLambdaHandler/utils/ErrorHandler.cs:28-35 | no contract of its own; Wire.ErrorResponseOnTheWire states it: the given status and the body `{"message": <message>}` |
| LambdaHandler.NewHandler | insta-sum-cdk/lambda/SummarizeLambdaHandler/SummarizeLambdaHandler.cs:21-24 | the constructor throws `ArgumentNullException` exactly for a null service |
| LambdaHandler.TryExtractText | insta-sum-cdk/lambda/SummarizeLambdaHandler/SummarizeLambdaHandler.cs:137-158 | a malformed body gives "Invalid JSON format"; missing, empty or white-space text gives "Text parameter is missing"; otherwise the text |
| LambdaHandler.RouteOf | insta-sum-cdk/lambda/SummarizeLambdaHandler/SummarizeLambdaHandler.cs:46-52 | exactly the three paths select routes |
| LambdaHandler.HandleRoute | insta-sum-cdk/lambda/SummarizeLambdaHandler/SummarizeLambdaHandler.cs:77-128 | the service is called at most once, exactly when text was extracted, with that route's prompt |
| LambdaHandler.Try | insta-sum-cdk/lambda/SummarizeLambdaHandler/SummarizeLambdaHandler.cs:65-69 | a null request or context throws `ArgumentNullException` before anything else |
| LambdaHandler.HandleAsync | insta-sum-cdk/lambda/SummarizeLambdaHandler/SummarizeLambdaHandler.cs:32-58 | any exception becomes the error handler's 500 response |
| LambdaHandler.CreateResponse | insta-sum-cdk/lambda/SummarizeLambdaHandler/utils/Utilities.cs:14-21 | no contract of its own; Wire.HandlerResponseOnTheWire states it: the given status and the serialized body object |
| LambdaProofs.RejectedBeforeRouting | insta-sum-cdk/lambda/SummarizeLambdaHandler/SummarizeLambdaHandler.cs:34-36 | a null request or context, or a throwing logger, gives 500 and no service call |
| LambdaProofs.MethodCheckedBeforePath | insta-sum-cdk/lambda/SummarizeLambdaHandler/SummarizeLambdaHandler.cs:41-44 | any method other than POST gives 405 "Method Not Allowed", whatever the path |
| LambdaProofs.UnknownPathIsNotFound | insta-sum-cdk/lambda/SummarizeLambdaHandler/SummarizeLambdaHandler.cs:46-52 | a POST to an unknown path gives 404 "Not Found" without calling the service |
| LambdaProofs.ExtractionFailuresSkipService | insta-sum-cdk/lambda/SummarizeLambdaHandler/SummarizeLambdaHandler.cs:137-158 | extraction failures give 400 with their message and call no service |
| LambdaProofs.RouteAnswers | insta-sum-cdk/lambda/SummarizeLambdaHandler/SummarizeLambdaHandler.cs:77-128 | the service gets the text and the route's prompt; a throw gives 500; an empty summary gives 400 "Empty response from service"; otherwise 200 with the route's field |
| LambdaProofs.PromptsIdentifyRoutes | insta-sum-cdk/lambda/SummarizeLambdaHandler/SummarizeLambdaHandler.cs:84-125 | the three routes pass three different prompts |
| LambdaProofs.ResponseShape | insta-sum-cdk/lambda/SummarizeLambdaHandler/SummarizeLambdaHandler.cs:32-158 | every response is 200, 400, 404, 405 or 500, with one of the fixed messages or one of the three fields |
| LambdaProofs.ErrorResponseIsFixed | insta-sum-cdk/lambda/SummarizeLambdaHandler/utils/ErrorHandler.cs:10-35 | the error response does not depend on the exception or the context; a throwing logger is swallowed |
| LambdaProofs.EnvelopeIsAlways200 | insta-sum-cdk/lambda/SummarizeLambdaHandler/LambdaEntryPoint.cs:67-75 | whatever the inner status, the outer response is 200 with JSON headers and `{summary: <inner response>}` |
| LambdaProofs.ConstructedEntryAlwaysAnswers200 | insta-sum-cdk/lambda/SummarizeLambdaHandler/LambdaEntryPoint.cs:36-75 | an entry point the constructor accepted always answers 200 with the envelope |
| LambdaProofs.CatchBranchExposesMessage | insta-sum-cdk/lambda/SummarizeLambdaHandler/LambdaEntryPoint.cs:77-89 | the catch answers 500 with "Internal server error" and the exception's message; without a logger, the logging call throws again |
| EntryPoint.NewEntryPoint | insta-sum-cdk/lambda/SummarizeLambdaHandler/LambdaEntryPoint.cs:36-41 | a null provider throws `ArgumentNullException`; an unregistered handler throws `InvalidOperationException` |
| EntryPoint.FunctionHandler | insta-sum-cdk/lambda/SummarizeLambdaHandler/LambdaEntryPoint.cs:62-90 | with a handler the status is always 200, and every response carries `Content-Type: application/json` |
| Wire.BodyJson | insta-sum-cdk/lambda/SummarizeLambdaHandler/utils/Utilities.cs:14-21 | a plain-message body serializes to a JSON string, every other body to an object |
| Wire.ResponseJson | insta-sum-cdk/lambda/SummarizeLambdaHandler/LambdaEntryPoint.cs:67-75 | a serialized response carries its body as encoded JSON text under `body` |
| Wire.Delivered | insta-sum-cdk/lambda/SummarizeLambdaHandler/LambdaEntryPoint.cs:67-75 | the extension sees the response's status and its body as JSON |
| Wire.ErrorResponseOnTheWire | insta-sum-cdk/lambda/SummarizeLambdaHandler/utils/ErrorHandler.cs:28-35 | the error handler's response arrives with its status, no headers and the body `{"message": <message>}` |
| Wire.HandlerResponseOnTheWire | insta-sum-cdk/lambda/SummarizeLambdaHandler/utils/Utilities.cs:14-21 | a handler response arrives with its status, no headers and the serialization of its body object |
| EndToEnd.UnwrapOfEnvelope | insta-sum-fronted/src/background.js:92-100 | unwrapping an enveloped answer yields the named field, `null` for a null field, and `undefined` for any other body |
| EndToEnd.BackendErrorsUnwrapToUndefined | insta-sum-cdk/lambda/SummarizeLambdaHandler/LambdaEntryPoint.cs:67-75 | backend 400/404/405/500 answers arrive as 200 and all three fetches yield `undefined` instead of failing |
| EndToEnd.SummaryArrives | insta-sum-fronted/src/background.js:84-106 | a valid `/summary` POST with a non-empty answer reaches the extension as that summary string |
| EndToEnd.BackendErrorShowsNoPopup | insta-sum-fronted/src/content-script.js:12 | a backend error for the summary leaves the stored summary unchanged and shows no popup |
| EndToEnd.FailureMessageLeavesLoading | insta-sum-fronted/src/content-script.js:117-139 | the failure message opens a popup that keeps "Loading summary..." when there is a template |

## Left out

- Formatter.Format: requires every keyword to be empty or to consist of
  ASCII characters other than `^$\.*+?()[{|`. The code passes keywords
  unescaped into `new RegExp` and into the replacement text. A keyword
  holding one of those characters would be a different pattern, a syntax
  error or a `$` substitution. A keyword holding a non-ASCII character
  would be matched with Unicode case folding, which is not modelled.
- ContentScript.UpdatePopupContent, ContentScript.DisplaySummaryPopup and
  ContentScript.OnMessage: carry the same keyword restriction.
- JsText.ReplaceFirst: the contract describes the result only for
  replacement text without `$`. The body expands `$$`, `$&`, `` $` `` and
  `$'`; `JsText.ReplaceFirstMatchPattern` states the `$&` case on its own.
- JsValues.Parse: a plain JSON string is always treated as text that is not
  JSON. Only values that the model itself serialized parse back. Every
  array is treated as text that is not JSON. In JavaScript, an array whose
  elements joined by commas form JSON text still parses, for example `[1]`
  or `[true]`.
- JSON text is not modelled. Serialized JSON is a value carrying what it
  encodes, and `JSON.parse` of it gives that value back. Newtonsoft's
  deserializer is a parameter that reports a reader error or the `text`
  field.
- Wire.Delivered: gives the extension an empty status text. The entry
  point always answers 200, so the extension never reads it. The status
  text of a non-ok reply from any other server is a free parameter.
- A rejected call is the text `String(error)` would print, the error's
  name, a colon and its message, for example
  `Error: Error fetching summary: Not Found`. Stack traces and the error
  object itself are not modelled.
- Numbers and booleans inside JSON are kept only by truthiness, and arrays
  only as arrays, because the code inspects nothing else.
- Case-insensitive matching folds ASCII letters only. Unicode case folding
  is not modelled.
- `chrome.*` APIs, `fetch` and the DOM are replaced by the menu call list,
  fetch outcomes, a storage map, a message outbox and the page value.
- CSS classes and styles are not modelled, except the popup's `right`
  offset, which carries the slide.
- Console logging in the extension is not modelled.
- Concurrency is modelled only as the all-or-nothing aggregate of the three
  requests and as interleaved menu calls. Races between overlapping runs
  are not modelled.
- The three fetches of a run are all posted. Which ones the browser actually
  finishes before a rejection is not modelled.
- A timer callback whose element is already gone is treated as changing
  nothing. In the browser, `removeChild` throws inside the callback, which
  has the same effect on the page.
- `OpenAIService.cs` and `AwsSecretsManagerUtils.cs` are not part of this
  model. The service is a parameter that answers or throws.
- `Startup.cs`, the interfaces and the default `LambdaEntryPoint()`
  constructor are DI wiring and are not part of this model.
- The Lambda's log lines are kept as strings. Log levels and the Lambda
  runtime are not modelled.
- Async/await is treated as sequential, because each handler awaits one
  call at a time.
- The Vue popup UI, the store, the build configuration and the CDK
  infrastructure stack are not part of this model.
