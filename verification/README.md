# AI Text Rewriter, modelled in Dafny

AI Text Rewriter is a browser extension. It rewrites or translates the text a user
selects on a web page. The translation goes to a free Google Translate endpoint or to
a language model (OpenRouter, OpenAI, Groq or Gemini), and the extension keeps a
history of its results. This project models the extension's core as pure Dafny
functions and a few methods, and proves properties of them:

- **The prompt builder** (`PromptUtils`). It picks the system prompt's template and
  the sampling temperature.
- **The backend client** (`Llm`). It resolves the provider, checks the key, and builds
  each provider's URL, headers and body.
- **The two wire parsers.**
  - `SseParser` reads the chat providers' server-sent events line by line.
  - `GeminiParser` applies Gemini's regular-expression scan, and `JsonString`
    decodes the captured text.
  - Both are proved to produce, for any division of the body into reads, what one
    scan of the whole text produces.
- **The translation gateway** (`Gateway`). It routes rewrites to the language model
  and translations to the free endpoint or the model. It also maps language names to
  codes.
- **The free-translate handler** (`FreeTranslate`, with `Uri` for
  `encodeURIComponent`).
- **The streaming hook** (`StreamSession`). A state machine over idle, streaming,
  complete and error, including what it saves to history.
- **The error panel** (`ErrorState`) and **the model pickers** (`Models`).
- **The options page's settings** (`OptionsSettings`). Keys, the active provider and
  its model, and auto-selection.
- **The history store** (`History`) and **the history page** (`HistoryTable`).
- **The content script's overlay** (`Overlay`, with `Layout` for the editable-element
  rule and the button and modal geometry).

I/O is never performed:

- **Storage** is a map from keys to strings (`Storage`).
- **`fetch`, `sendToBackground` and the response bodies** are function parameters or
  values.
- **Time** (`Date.now()`) is a parameter.
- **`JSON.parse` of an event-stream payload** is the parameter `deltaContent`.

`Strings`, `Seqs`, `Sorting`, `Streams` and `Wrappers` hold the shared definitions:

- JavaScript's `trim`, `split`, `includes`, `join` and truthiness (`||`);
- a stable insertion sort;
- filtering.

The model stands in for JavaScript's `toLowerCase` and `localeCompare` with ASCII
case mapping and code-point order; see "Left out".

## Model

| member | source | states |
|---|---|---|
| Storage.ActiveProvider | src/services/llm.ts:153 | the provider used is the stored `active_provider` when it is truthy and "openrouter" otherwise; it is never empty |
| Strings.TrimStart | src/services/llm.ts:26 | leading trim drops exactly the white space before the first other character |
| Strings.TrimEnd | src/services/llm.ts:26 | trailing trim drops exactly the white space after the last other character |
| Strings.Split | src/services/llm.ts:22 | `split("\n")` gives at least one segment and no segment holds a newline |
| Strings.JoinSplit | src/services/llm.ts:22 | joining the segments of `split("\n")` with newlines gives the string back, so splitting loses and reorders nothing |
| Strings.SplitAppend | src/services/llm.ts:21-23 | splitting the buffer after a read gives the complete lines of the old buffer, then the split of its pending tail plus the read; so keeping only the last segment between reads loses no line |
| Strings.ConcatAppend | src/background/messages/free-translate.ts:33 | `join("")` distributes over concatenating lists of parts |
| Strings.ConcatEmpty | src/background/messages/free-translate.ts:33 | `join("")` gives the empty string exactly when every part is empty |
| Strings.ReplaceFirstAt | src/hooks/use-models.ts:144 | `replace` with a string pattern splices the replacement in at the first occurrence, wherever it stands |
| Sorting.SortBy | src/hooks/use-models.ts:100-118 | sorting by a total preorder gives an ordered permutation of the input |
| PromptUtils.ToneOf | src/lib/prompt-utils.ts:24 | the tone is the given one when truthy, otherwise "Professional"; never empty |
| PromptUtils.Temperature | src/lib/prompt-utils.ts:46-49 | rewriting samples at 0.3 and translating at 0.1 |
| PromptUtils.ConstraintsEnds | src/lib/prompt-utils.ts:9-19 | the constraints block starts with "Constraints:" and ends with a full stop |
| PromptUtils.ConstraintsNameDelimiter | src/lib/prompt-utils.ts:15-18 | the constraints name the `<input>...</input>` delimiter and both of its tags |
| PromptUtils.PromptShape | src/lib/prompt-utils.ts:43 | the final `trim` changes nothing: the prompt is the role-and-task paragraph, a newline, then the constraints |
| PromptUtils.ModeIgnored | src/lib/prompt-utils.ts:23-41 | the system prompt never depends on the mode, only on the target language and tone |
| PromptUtils.SystemPrompt | src/lib/prompt-utils.ts:7-44 | `getSystemPrompt`: a truthy target language other than "Keep Original" selects the translate template, and anything else the rewrite template; either is followed by a newline and the constraints block, with nothing trimmed |
| PromptUtils.TemplateOpening | src/lib/prompt-utils.ts:26-41 | the prompt opens as the linguist exactly for a translation and as the copy editor exactly otherwise |
| PromptUtils.OpeningsExclusive | src/lib/prompt-utils.ts:28-35 | no prompt opens both ways |
| PromptUtils.TranslatePromptNames | src/lib/prompt-utils.ts:27-32 | a translation prompt names the tone and the target language |
| PromptUtils.RewritePromptNames | src/lib/prompt-utils.ts:34-40 | a rewrite prompt names the tone and tells the model to keep the original language |
| PromptUtils.RewriteIgnoresTarget | src/lib/prompt-utils.ts:23 | changing the target language between values that are not a translation leaves the rewrite prompt unchanged |
| PromptUtils.PromptCarriesConstraints | src/lib/prompt-utils.ts:43 | every prompt ends with the same constraints block, which names the delimiter |
| Llm.Lookup | src/services/llm.ts:158-159 | the strategy table knows exactly the four provider names; any other name is unsupported |
| Llm.LookupId | src/services/llm.ts:94-147 | every provider is found under its own name |
| Llm.Headers | src/services/llm.ts:97-141 | every request declares JSON content; the bearer-token providers send `Bearer <key>` first, and Gemini sends no Authorization header |
| Llm.Body | src/services/llm.ts:103-144 | the chat providers send a streaming body with the model, the temperature and exactly a system and a user message; Gemini sends its `contents` shape |
| Llm.RequestFor | src/services/llm.ts:94-147 | every request declares JSON content; a chat provider streams the model with the system prompt and the user's text as its two messages, at 0.3 exactly for a rewrite; Gemini gets the system prompt, a blank line, "User Input: " and the text |
| Llm.ChatUrlFixed | src/services/llm.ts:96-126 | the chat providers post to a fixed endpoint whatever the model and key |
| Llm.Url | src/services/llm.ts:96-140 | OpenRouter, OpenAI and Groq each post to their own fixed chat-completions endpoint. Gemini's URL is the base, the model and ":streamGenerateContent?key=" followed by the key and nothing more |
| Llm.ChatBodiesAgree | src/services/llm.ts:103-136 | the three chat providers send identical bodies |
| Llm.GeminiBodyShape | src/services/llm.ts:142-144 | Gemini's body ignores the model and the temperature and carries the system prompt, a blank line, "User Input: " and the prompt |
| Llm.ModelFor | src/services/llm.ts:161-162 | the model is the stored one when truthy, otherwise the provider's default |
| Llm.OutcomeSent | src/services/llm.ts:152-172 | a request is sent exactly when the active provider has a key and is known, and it is the one built from the stored model and key |
| Llm.GenerateText | src/services/llm.ts:152-176 | the key is checked before the provider, and the provider before anything is sent. Then a rejected fetch, a non-ok status ("<PROVIDER> Error: ...") or the provider parser's output is what the call yields |
| SseParser.Classify | src/services/llm.ts:25-42 | a line ends the stream exactly when trimmed it is `data: [DONE]`; it yields exactly when it is another `data: ` line whose payload has non-empty content; every other line is ignored |
| SseParser.ScanAppend | src/services/llm.ts:25-43 | handling two batches of lines in turn is handling their concatenation, and nothing after the sentinel counts |
| SseParser.ReferenceExtend | src/services/llm.ts:17-44 | reading more text extends the outcome by the complete lines the pending tail and the new text form |
| SseParser.HandleLines | src/services/llm.ts:25-43 | the per-read loop handles the complete lines until the sentinel, as the reference scan does |
| SseParser.ReadStep | src/services/llm.ts:18-23 | one read keeps the parser in step with the reference scan of all text read so far, and keeps the right pending tail |
| SseParser.Stream | src/services/llm.ts:10-49 | for any division of the body into reads, the yields are the reference scan of the whole text. The stream fails with the body's fault unless the sentinel was seen, and the reader is released exactly once |
| SseParser.SentinelEndsOutput | src/services/llm.ts:30-32 | nothing after the `[DONE]` line is yielded, in the same read or a later one |
| SseParser.IgnoredLineIsInert | src/services/llm.ts:26-42 | a blank, non-data, malformed or content-less line can be dropped without changing the output |
| SseParser.DataLineYieldsContent | src/services/llm.ts:34-38 | a `data: ` line whose payload has non-empty content appends exactly that content, unless the sentinel came first |
| SseParser.PendingTailDiscarded | src/services/llm.ts:19-23 | text after the last newline is never handled: a stream that ends mid-line drops it |
| GeminiParser.SkipSpace | src/services/llm.ts:56 | `\s*` stops at the first character that is not white space |
| GeminiParser.ContentEnd | src/services/llm.ts:56 | the captured content ends at an unescaped closing quote |
| GeminiParser.QuoteInsideContentIsEscaped | src/services/llm.ts:56 | inside the captured content every quote is escaped by a backslash |
| GeminiParser.MatchHead | src/services/llm.ts:56 | a match opens with `"text":` and ends with its closing quote |
| GeminiParser.Find | src/services/llm.ts:67 | a match found lies within the text |
| GeminiParser.FindSound | src/services/llm.ts:67 | what the search reports is a match of the pattern at the reported offset |
| GeminiParser.FindLeftmost | src/services/llm.ts:67 | the search finds the leftmost match, and nothing only when no position matches |
| GeminiParser.NoKeyInsideOpenMatch | src/services/llm.ts:56 | no match can start inside a match that is still open |
| GeminiParser.FindExtend | src/services/llm.ts:63-67 | a match found in the buffer is still the leftmost one when more text arrives |
| GeminiParser.Pass | src/services/llm.ts:64-77 | the scan of one buffer cuts nothing unless a match parsed, and then yields only parsed matches' non-empty text |
| GeminiParser.PassExtend | src/services/llm.ts:63-77 | scanning a buffer, cutting it at `lastIndex` and scanning the rest with more text yields what scanning the whole text yields |
| GeminiParser.PassTail | src/services/llm.ts:77 | what is left after the cut holds no match whose content parses |
| GeminiParser.ScanBuffer | src/services/llm.ts:64-75 | the inner `exec` loop yields the scan's deltas and leaves `lastIndex` at the end of the last parsed match |
| GeminiParser.StreamWith | src/services/llm.ts:58-82 | for any division of the body into reads, the yields are the scan of the whole text; the reader is released exactly once |
| GeminiParser.Stream | src/services/llm.ts:51-83 | with the regular expression and `JSON.parse`: a field split between reads is yielded once, after its closing quote arrives |
| GeminiParser.ExtractField | src/services/llm.ts:56-71 | a `"text": "..."` field yields its decoded value when non-empty, and the scan resumes after it |
| GeminiParser.ExtractFields | src/services/llm.ts:51-83 | a response made of fields yields exactly their non-empty values, in order |
| JsonString.Unescape | src/services/llm.ts:69 | decoding never lengthens the content |
| JsonString.UnescapeDefinedExactly | src/services/llm.ts:69 | decoding succeeds exactly on the content the string grammar of section 7 of RFC 8259 admits: unescaped characters, the eight two-character escapes and `\u` with four hexadecimal digits |
| JsonString.Escape | src/services/llm.ts:69 | the escaping `JSON.stringify` applies to a string's content, the partner of decoding |
| JsonString.EscapeRoundTrip | src/services/llm.ts:69 | decoding what `JSON.stringify` wrote gives back the original string |
| Uri.Utf8 | src/background/messages/free-translate.ts:19 | each character encodes to one to four bytes |
| Uri.Encode | src/background/messages/free-translate.ts:19 | `encodeURIComponent` never shortens its input |
| Uri.DecodeEncode | src/background/messages/free-translate.ts:19 | `decodeURIComponent(encodeURIComponent(s)) == s` for every string |
| Uri.EncodeIsSafe | src/background/messages/free-translate.ts:19 | the encoding holds only unreserved characters and `%XX` escapes |
| FreeTranslate.QueryCarriesText | src/background/messages/free-translate.ts:19 | the text reaches the endpoint intact: the `q` parameter decodes back to it and holds no `&`, `=` or `#` |
| FreeTranslate.Url | src/background/messages/free-translate.ts:19 | the URL is the fixed query naming the target language, and its `q` parameter decodes back to the text |
| FreeTranslate.Texts | src/background/messages/free-translate.ts:33 | each segment contributes its first item, a missing one reading as "" |
| FreeTranslate.SegmentsOfTexts | src/background/messages/free-translate.ts:32-34 | present segments are joined in order |
| FreeTranslate.SegmentsSkipMissing | src/background/messages/free-translate.ts:33 | a `null` segment contributes nothing |
| FreeTranslate.Handle | src/background/messages/free-translate.ts:7-46 | missing text or language gives the parameters error. A thrown fetch or unparsable body gives its message, or "Translation failed" when that is empty. A response that is not ok gives "Translation API error: " and its status text. Otherwise the joined segments are the translation, or the original text when they join to nothing. Every error is non-empty, and so is every translation |
| FreeTranslate.EmptyReplyKeepsText | src/background/messages/free-translate.ts:31-39 | a reply with no rows, or whose rows are all missing or empty, gives the original text back |
| FreeTranslate.BlankSegments | src/background/messages/free-translate.ts:31-34 | the segments join to nothing exactly when every row's first item is missing or empty |
| FreeTranslate.ReplyTranslates | src/background/messages/free-translate.ts:31-39 | a reply whose segments join to something non-empty gives that translation |
| Gateway.LangCode | src/services/translation-gateway.ts:94-119 | each supported language gets its own code from the table; any other name gets "en"; never empty |
| Gateway.CodesDistinct | src/services/translation-gateway.ts:94-117 | no two languages share a code |
| Gateway.LangCodeInjective | src/services/translation-gateway.ts:94-119 | the code identifies the supported language, so the endpoint is never asked for a language the user did not pick |
| Gateway.KeepOriginalIsAuto | src/services/translation-gateway.ts:95 | "Keep Original" leaves the language to the endpoint's detection |
| Gateway.Preference | src/services/translation-gateway.ts:45 | the preference is the stored one when truthy, otherwise "free" |
| Gateway.RouteFor | src/services/translation-gateway.ts:38-68 | rewrite always goes to the model. Translate goes to the free endpoint exactly when "free" is preferred, and to the model exactly when another preference has a key; otherwise it falls back |
| Gateway.FreeByDefault | src/services/translation-gateway.ts:45-47 | with no stored preference, translation takes the free endpoint |
| Gateway.SecurePrompt | src/services/translation-gateway.ts:78 | the prompt is the user's text, unchanged, between `<input>` and `</input>` |
| Gateway.FreePath | src/services/translation-gateway.ts:91-137 | the free path yields exactly one chunk or fails, and every failure is prefixed "Free translation failed: ". A thrown relay fails with its message. An answer with a non-empty error fails with that error. Any other answer yields its translation when non-empty, else the original text |
| Gateway.FreePathThroughHandler | src/services/translation-gateway.ts:121-133 | through the background handler: empty text is refused; otherwise the endpoint is asked for the chosen language's code and the handler's translation is yielded |
| Gateway.TranslateText | src/services/translation-gateway.ts:32-69 | on the model route the call is the client's `generateText` of the delimited text; otherwise it is the free path's single chunk and nothing reaches the model |
| Gateway.TranslateNeverMissesKey | src/services/translation-gateway.ts:54-68 | a translation on the model route always has a key, so a request goes out whenever the provider is known |
| Gateway.RewriteNeedsKey | src/services/translation-gateway.ts:38-42 | a rewrite without a key fails with `MISSING_API_KEY` and sends nothing |
| Gateway.AiRequestDelimitsText | src/services/translation-gateway.ts:74-86 | on the model route to a chat provider, the user message is exactly the delimited text and the system message names the delimiter |
| History.Lookup | src/services/history.ts:37-45 | a key finds a record exactly when one is stored under it |
| History.EmptyValid | src/services/history.ts:37-45 | a fresh store keeps records in key order, below the next key to issue |
| History.Add | src/services/history.ts:37-54 | `add` stores the item with its timestamp under a positive key above every key stored or issued before, advances the key generator past it, and changes no other record |
| History.ByDateTotal | src/services/history.ts:43 | the "by-date" index order, with ties broken by key, is a total preorder |
| History.GetAll | src/services/history.ts:56-59 | `getAll` lists every record once, in index order |
| History.Clear | src/services/history.ts:61-64 | `clear` removes every record but does not reset the key generator |
| History.KeysNotReused | src/services/history.ts:61-64 | a record added after a clear gets a key above every key used before |
| History.DeleteOlderThan | src/services/history.ts:66-83 | the records kept are exactly those newer than `now - maxAge`, in order. The count is the number deleted, and the store stays valid |
| History.DeleteEach | src/services/history.ts:74-80 | the cursor loop deletes each record of the range and counts one per step |
| History.DeletedAll | src/services/history.ts:69-80 | after walking the whole range, what remains is exactly the newer records |
| History.RangeIsOlder | src/services/history.ts:68-74 | the keys the range visits are exactly the keys of the records at or before the cutoff |
| HistoryTable.Load | src/features/history-table.tsx:18-29 | the page holds the records reversed, or none when reading fails |
| HistoryTable.NewestFirst | src/features/history-table.tsx:21-22 | the page lists every stored record, newest first |
| HistoryTable.Visible | src/features/history-table.tsx:52-59 | a record is shown exactly when the term occurs in its original or result, ignoring case, and it belongs to the tab; no record is shown more often than it is held |
| Seqs.FilterKeepsOrder | src/features/history-table.tsx:52 | `filter` keeps order: whatever holds between every earlier and later element holds between the kept ones |
| HistoryTable.VisibleNewestFirst | src/features/history-table.tsx:21-59 | narrowing the newest-first page by search and tab keeps it newest first |
| HistoryTable.EmptySearchShowsAll | src/features/history-table.tsx:52-59 | with no term the "all" tab shows every record in order |
| HistoryTable.TabsPartition | src/features/history-table.tsx:56 | the rewrite and translate tabs split what the "all" tab shows |
| HistoryTable.SearchIgnoresCase | src/features/history-table.tsx:53-54 | the search ignores the case of the term |
| HistoryTable.LongerTermNarrows | src/features/history-table.tsx:53-54 | typing more of a term only narrows the list |
| HistoryTable.Toggle | src/features/history-table.tsx:40-46 | toggling adds an absent member, removes a present one, and leaves the others |
| HistoryTable.ToggleTwice | src/features/history-table.tsx:39-46 | expanding and collapsing a row restores the set |
| HistoryTable.ToggleRowAsWritten | src/features/history-table.tsx:39-46 | the page's own toggle flips the row position, not the record |
| HistoryTable.ExpansionFollowsRowAsWritten | src/features/history-table.tsx:61-67 | with the page's own toggle, expanding "apple" and then searching "ban" draws "banana" expanded, at the expanded height of 300 |
| HistoryTable.ToggleRow | src/features/history-table.tsx:39-50 | the corrected toggle flips the record shown at that row; a row past the end changes nothing |
| HistoryTable.ItemSizeAsWritten | src/features/history-table.tsx:61-63 | the page's own height is 300 exactly when the row position is in the expanded set, and 100 otherwise |
| HistoryTable.ItemSize | src/features/history-table.tsx:61-63 | corrected: a row is 300 high exactly when the record shown there is expanded, and 100 otherwise |
| HistoryTable.ExpansionFollowsRecord | src/features/history-table.tsx:61-67 | with the corrected toggle, a record keeps its expansion when the search or tab moves it to another row |
| HistoryTable.ClearPage | src/features/history-table.tsx:31-37 | a confirmed clear empties the store, the list and the expansions, keeping the search and tab; a refused one changes nothing |
| StreamSession.Data | src/hooks/use-stream.ts:167 | the views read "" while idle and the state's text otherwise |
| StreamSession.Error | src/hooks/use-stream.ts:168 | an error message is read exactly in the error state |
| StreamSession.FlagsExclusive | src/hooks/use-stream.ts:164-166 | at most one of loading, complete and error holds, and none holds exactly when idle |
| Wrappers.MessageOr | src/hooks/use-stream.ts:140 | an error's message falls back to the default when empty ("An error occurred" here, "Translation failed" at src/background/messages/free-translate.ts:43), so an error never reads as empty, and a non-empty message is kept |
| StreamSession.Finish | src/hooks/use-stream.ts:121-127 | the end of the loop completes with the run's text, and saves it exactly when asked to and the text is non-empty |
| StreamSession.UserStep | src/hooks/use-stream.ts:87-98 | `generate` starts a fresh streaming run. `stop` (lines 27-39) completes a streaming state with its data and aborts the run. `reset` (lines 150-156) goes idle and aborts the run. None of them saves |
| StreamSession.StepAsWritten | src/hooks/use-stream.ts:100-143 | the hook as written: the user's steps are as above and a run's events do nothing without a run. What the run's events do after a stop or reset is pinned by the two findings below |
| StreamSession.Step | src/hooks/use-stream.ts:100-143 | the corrected hook: after a stop or reset the run's events leave the display alone; otherwise it is the hook as written; saving is unchanged |
| StreamSession.InitialValid | src/hooks/use-stream.ts:15 | the initial idle state meets the session invariant |
| StreamSession.StepsPreserveValid | src/hooks/use-stream.ts:87-156 | both versions keep the invariant: a streaming state shows a live run's text, and a live run is always shown |
| StreamSession.PlayPreservesValid | src/hooks/use-stream.ts:87-156 | the invariant holds along any sequence of events |
| StreamSession.StopIdempotent | src/hooks/use-stream.ts:27-39 | stopping twice is stopping once |
| StreamSession.AbortedRunIsInert | src/hooks/use-stream.ts:110-114 | corrected: once stopped or reset, a run's chunk, end or error does not change what is shown, and nothing is loading |
| StreamSession.DeliverAll | src/hooks/use-stream.ts:109-119 | the chunks of a live run accumulate: the display shows their concatenation |
| StreamSession.Consume | src/hooks/use-stream.ts:87-143 | a generate followed by a stream's events shows the stream's text, or its error with the text so far. It is saved exactly when it ends cleanly with text and saving was asked for |
| StreamSession.Attribution | src/hooks/use-stream.ts:41-65 | a translation is recorded as Google Translate with model "free" when the stored preference (default "free") is "free", or is "ai" while the active provider has no key; every other record, and every rewrite, names the active provider and its stored model, or "default" |
| StreamSession.Record | src/hooks/use-stream.ts:67-84 | the saved record carries the mode, prompt and text, the tone only for a rewrite, and the target language only for a translation. Its provider and model are the attribution of the run's route |
| StreamSession.AttributionMatchesRoute | src/hooks/use-stream.ts:47-60 | for the preferences the settings page writes, the record names Google Translate exactly when the gateway took the free route |
| StreamSession.StopThenAbortAsWritten | src/hooks/use-stream.ts:128-135 | as written, generate, a chunk "Hi", stop and then an `AbortError` end "complete" with "" |
| StreamSession.ResetThenAbortAsWritten | src/hooks/use-stream.ts:128-135 | as written, generate, a chunk "Hi", reset and then the `AbortError` of the pending read end "complete" with "", not idle |
| StreamSession.StopKeepsOutput | src/hooks/use-stream.ts:27-39 | corrected: stopping keeps what was shown, whatever the run does afterwards |
| StreamSession.ResetStaysIdle | src/hooks/use-stream.ts:150-156 | corrected: a reset session stays idle, whatever the run does afterwards |
| StreamSession.InertRun | src/hooks/use-stream.ts:110-114 | corrected: a run's events on a session whose run was aborted change nothing shown |
| ErrorState.Classify | src/features/components/error-state.tsx:4-43 | "MISSING_API_KEY" offers the settings, "OPENROUTER_DATA_POLICY" offers the privacy settings, and every other error offers a retry, each under its own heading |
| ErrorState.HeadingDeterminesAction | src/features/components/error-state.tsx:7-43 | the heading decides the action |
| ErrorState.MissingKeyOpensSettings | src/features/components/error-state.tsx:20-25 | a rewrite with no key ends in the error state with "MISSING_API_KEY" and the panel sends the user to the settings |
| Models.RequestHeaders | src/hooks/use-models.ts:31-34 | a truthy key adds `Bearer <key>` as Authorization, and the other headers pass unchanged |
| Models.FetchModels | src/hooks/use-models.ts:21-40 | an empty URL lists nothing. A rejected fetch, or a body `res.json()` cannot parse, fails with its own message. A response that is not ok fails with "Failed to fetch models from <url>". Otherwise the list is the transform of the data |
| Models.Rank | src/hooks/use-models.ts:110 | a champion's rank is the position of its first occurrence in the curated list |
| Models.LocaleCompare | src/hooks/use-models.ts:117 | the comparison is zero exactly for equal strings, and its sign agrees with the order in both directions |
| Models.BeforeTotalPreorder | src/hooks/use-models.ts:102-118 | the comparator orders every pair of models and is transitive |
| Models.Ranked | src/hooks/use-models.ts:66-118 | the sorted list is a permutation of the text-only models, ordered by the comparator |
| Models.Decorate | src/hooks/use-models.ts:119-126 | a champion's name gains " ⭐" and everything else is kept |
| Models.OpenRouterModels | src/hooks/use-models.ts:58-131 | the OpenRouter list is the ranked text models, each marked |
| Models.OpenRouterKeepsTextModels | src/hooks/use-models.ts:66-84 | the list holds exactly the text-only models |
| Models.OpenRouterOrder | src/hooks/use-models.ts:100-118 | champions come first in the curated order, then free models, then the others by name |
| Models.OpenRouterStars | src/hooks/use-models.ts:121 | only champions carry the star, and every id is the listing's own |
| Models.ById | src/hooks/use-models.ts:50-51 | ids sorted by `localeCompare`, each named by itself, none lost or added |
| Models.OpenAIModels | src/hooks/use-models.ts:42-56 | the OpenAI list is the ids mentioning "gpt", sorted, named by themselves |
| Models.OpenAIKeepsGpt | src/hooks/use-models.ts:49 | an id is listed exactly when it is in the answer and mentions "gpt" |
| Models.GroqModels | src/hooks/use-models.ts:153-166 | the Groq list is every id, sorted, named by itself |
| Models.GeminiModel | src/hooks/use-models.ts:143-146 | the id drops the first "models/" wherever it stands, so a leading one goes, and a name without it stays whole. The display name is the name |
| Models.Removal | src/hooks/use-models.ts:144 | removing the first occurrence drops a leading pattern, leaves a string without one unchanged, and otherwise cuts out the first occurrence |
| Models.GeminiModels | src/hooks/use-models.ts:133-151 | no key lists nothing. A rejected fetch, or a body `res.json()` cannot parse, fails with its own message. A response that is not ok fails with "Failed to fetch Gemini models". Otherwise the list is the Gemini models of the answer, in order |
| OptionsSettings.Set | src/features/options/use-options-settings.ts:79 | storing a value sets that key alone; storing `undefined` removes it |
| OptionsSettings.Load | src/features/options/use-options-settings.ts:24-59 | loading takes the stored provider (default "openrouter"), exactly the truthy stored keys, and the stored model or the provider's default |
| OptionsSettings.LoadInSync | src/features/options/use-options-settings.ts:38-49 | after loading, the page agrees with the store about which keys exist |
| OptionsSettings.ChangeProvider | src/features/options/use-options-settings.ts:65-70 | choosing a provider stores it and shows its stored model or its default |
| OptionsSettings.ChangeKey | src/features/options/use-options-settings.ts:72-75 | typing a key changes only that key and clears its saved mark |
| OptionsSettings.ChangeModel | src/features/options/use-options-settings.ts:120-123 | choosing a model stores it under the active provider |
| OptionsSettings.ChangesPersist | src/features/options/use-options-settings.ts:65-70 | a chosen provider and its model, and a chosen model (lines 120-123), are what a reload of the page would show |
| OptionsSettings.NextWithKey | src/features/options/use-options-settings.ts:101 | the fallback is the first other provider in list order with a key, or none when there is none |
| OptionsSettings.SaveKey | src/features/options/use-options-settings.ts:77-118 | saving stores the typed key (or removes it), records whether it exists, and marks it saved |
| OptionsSettings.SaveKeySelects | src/features/options/use-options-settings.ts:84-98 | saving a key makes its provider active with its default model, and the first key sets the preference to "ai" |
| OptionsSettings.ClearKeyFallsBack | src/features/options/use-options-settings.ts:100-112 | clearing the active provider's key moves to the next provider with a key, or to "openrouter"; clearing another's leaves the choice |
| OptionsSettings.FirstKeyRoutesToAi | src/features/options/use-options-settings.ts:85-97 | after the first key is saved, translation takes the model route |
| OptionsSettings.CurrentModels | src/features/options/use-options-settings.ts:125-133 | the picker shows the active provider's list, or nothing for an unknown provider or a list not yet loaded |
| OptionsSettings.AutoSelect | src/features/options/use-options-settings.ts:147-160 | with the list loaded and the model missing from it, the first listed model is chosen and stored; otherwise nothing changes |
| OptionsSettings.AutoSelectSettles | src/features/options/use-options-settings.ts:147-160 | after auto-selection the model is in the list, and selecting again changes nothing |
| OptionsSettings.AutoSelectKeepsModel | src/features/options/use-options-settings.ts:151 | a chosen model is kept while the list is loading or empty |
| Layout.EditableIgnoresTagCase | src/features/content/constants.ts:7-8 | whether an element is editable does not depend on the case of its tag name |
| Layout.EditableFields | src/features/content/constants.ts:5-17 | a text field is editable unless read-only or disabled, whatever `contentEditable` says; any other element is editable exactly when content-editable; with no element, nothing is editable |
| Layout.IsEditable | src/features/content/constants.ts:5-17 | only an element is editable; a text field exactly when neither read-only nor disabled, any other element exactly when content-editable |
| Layout.Clamp | src/features/content/use-floating-position.ts:9-17 | the clamped centre keeps its height, stays within the margins when the window is wide enough, is unchanged when already inside, and sits at the left margin in a narrow window |
| Layout.ClampIdempotent | src/features/content/use-floating-position.ts:9-17 | clamping twice is clamping once |
| Layout.ClampIsNearest | src/features/content/use-floating-position.ts:9-17 | in a wide enough window the clamped centre is the allowed position nearest the anchor |
| Layout.Anchor | src/features/content/use-floating-position.ts:23-25 | the button sits over the middle of the selection's top edge, raised by the offset |
| Layout.PlacementFor | src/features/content/use-floating-position.ts:29-34 | the modal opens above exactly when there is more room above the anchor than below it |
| Overlay.Substring | src/content.tsx:181 | `substring` between bounds inside the string is the slice between them |
| Overlay.Select | src/content.tsx:161-239 | while the modal is open nothing changes; with nothing selected the button hides and the next hover may prefetch; with a selection the text and the mode (rewrite exactly over editable elements) follow it, a field selection targets the field, and the button shows over the field or the selected range, with the modal opening towards the larger part of the window |
| Overlay.Splice | src/content.tsx:250 | the replacement keeps the text before the selection, puts the new text in the selection's place, and keeps the text after it |
| Overlay.SpliceSelectionBack | src/content.tsx:250 | putting back the selected text restores the field |
| Overlay.SpliceTwice | src/content.tsx:250 | replacing the new text again is replacing the original selection once |
| Overlay.OpenModalIgnoresSelection | src/content.tsx:162 | while the modal is open, selection changes are ignored |
| Overlay.NoSelectionHides | src/content.tsx:189-193 | with nothing selected the button hides, the next hover may prefetch again, and the remembered text stays |
| Overlay.SelectionSetsMode | src/content.tsx:195-203 | with a selection, rewrite is offered exactly over editable elements; a new text clears the prefetch mark and the same text keeps it |
| Overlay.FieldSelectionTargetsField | src/content.tsx:177-183 | a selection inside a field is the field's value between the selection bounds, and the result goes back into that field |
| Overlay.Prefetch | src/content.tsx:148-159 | hovering the translate button starts exactly one translation of the selected text, and only when none is prefetched and the modal is closed. The translation is saved and targets a truthy language |
| Overlay.PrefetchOnce | src/content.tsx:149-155 | hovering again starts nothing new |
| Overlay.PrefetchLanguage | src/content.tsx:151 | the prefetch asks for the stored default language, or English |
| Overlay.ModalPrefetch | src/content.tsx:323-324 | the modal receives the prefetched text and loading state only for a translation |
| Overlay.CloseModal | src/content.tsx:304-308 | closing hides the modal and the button and clears the prefetch mark, keeping the selection |
| Overlay.Replace | src/content.tsx:241-283 | without a target nothing happens. With one the overlay closes, and a text field receives the splice |
| Overlay.ReplaceKeepsSurroundings | src/content.tsx:241-256 | a field's selection, rewritten and replaced, becomes the result and the text around it is kept |

## Left out

- **I/O.** Browser storage, IndexedDB, `fetch`, `sendToBackground`, `TextDecoder` and
  the clock are values or parameters. The background relay (src/background/index.ts,
  save-history.ts) is the identity from a draft to `History.Add`.
- **The provider data.** src/services/llm.ts:4 and
  src/features/options/use-options-settings.ts:4 import `DEFAULTS` and `PROVIDERS`
  from `~lib/constants`. The version of src/lib/constants.ts this model follows
  defines neither. It exports `SUPPORTED_LANGUAGES`, which is
  `Gateway.SupportedLanguages` here, and `API_ENDPOINTS`, which is the endpoint
  constants of `Llm` and `Models`. Its `TONES` only fills the rewrite view's picker,
  which is not modelled. So the default models and the provider list are parameters.
- **React.** Rendering, effects, the `isLoading` flags of the settings and history
  pages, `isLoadingModels`, and the two-second `savedStatus` timer are left out. The
  model handles one `generate` at a time: a second `generate` while a run is live
  replaces the session, and the abandoned run's later events are not modelled.
- **The content script's DOM work.** The 150 ms debounce timer, `execCommand`,
  range replacement in content-editable elements, and the unused `hasApiKey` check
  (src/content.tsx:129-142) are left out.
- **The request signal on the free path.** The gateway does not pass the signal to
  `sendToBackground`. An abort there is not modelled.
- **Models.LocaleCompare:** compares by code point. It does not model the locale
  collation of `localeCompare`, because that depends on the browser's ICU data.
  Models.Ranked, Models.ById and Models.OpenRouterOrder inherit this.
- **Strings.Lower:** maps only the ASCII letters. Unicode case mapping is not
  modelled. HistoryTable.SearchIgnoresCase, HistoryTable.Visible and
  Layout.EditableIgnoresTagCase inherit this.
- **Sorting.SortBy:** is a stable insertion sort. Stability is not stated, because
  no property here needs it. Its contract states only order and permutation.
- **JsonString.Unescape:** a lone UTF-16 surrogate from a `\uXXXX` escape cannot be
  a Dafny character, so it decodes to U+FFFD. Paired surrogates decode exactly.
- **Uri.Encode:** a Dafny string holds no lone surrogates, so the `URIError`
  `encodeURIComponent` throws for one never arises.
- **Layout.Clamp:** works over real numbers. NaN and infinities are not modelled.
- **History.Add:** the key generator never overflows. IndexedDB's limit of 2^53 keys
  is not modelled.
- **StreamSession.StepAsWritten:** its contract states only the user steps and the
  no-run case. Its behaviour on a run's events is stated by
  StreamSession.StopThenAbortAsWritten and StreamSession.ResetThenAbortAsWritten, and
  through StreamSession.Step, which agrees with it except on an aborted run's events.
- **OptionsSettings.AutoSelect:** when the first listed id is empty, auto-selection
  leaves the model missing, as the source does. AutoSelectSettles assumes a non-empty
  first id.
- **Storage.** `storage.set(key, undefined)` is modelled as removing the key
  (OptionsSettings.Set). Object keys such as `__proto__` get no special treatment.
- Llm.Lookup: treats every name other than the four providers as unsupported. The
  source's strategy table is a plain object, so a stored provider named after an
  inherited property such as "constructor" passes the lookup and fails later with a
  `TypeError`. Inherited object properties are not modelled.
- Gateway.LangCode: gives "en" for every name outside the table. In the source,
  `langCodeMap["constructor"] || "en"` yields the inherited `Object` function
  instead. Inherited object properties are not modelled.
- **The data-policy panel.** No modelled operation produces the error text
  "OPENROUTER_DATA_POLICY". The panel's branch for it is modelled, but nothing here
  reaches it.
- **Two attribution rules.** `saveHistory` and the gateway decide the free route by
  different rules. They disagree only for stored preferences other than "free" and
  "ai", which the settings page never writes.
  StreamSession.AttributionMatchesRoute states this.
- **Tag-name case in the overlay.** The selection handler compares tag names in
  upper case (src/content.tsx:177). `isEditableElement` compares them in lower case.
  The model keeps both rules as written.

## Findings

| source | as written | input that shows it | evidently intended | confidence | as-written member | corrected member |
|---|---|---|---|---|---|---|
| src/hooks/use-stream.ts:128-135 | `stop()` has already made the state "complete". The `AbortError` the aborted read then throws sets "complete" with `prev.data` only when `prev` is streaming, so it sets "". | generate "p", receive "Hi", stop, then the read rejects with `AbortError` | the text shown when the user stopped stays shown | medium, not executed | StreamSession.StopThenAbortAsWritten | StreamSession.StopKeepsOutput |
| src/hooks/use-stream.ts:128-135 | `reset()` (lines 150-156) aborts the run and sets idle. The pending read then rejects with `AbortError`, and the handler sets "complete" with "" because the state is not streaming. So a reset session leaves idle and shows an empty result. | generate "p", receive "Hi", reset, then the pending read rejects with `AbortError` | a reset session stays idle | medium, not executed | StreamSession.ResetThenAbortAsWritten | StreamSession.ResetStaysIdle |
| src/features/history-table.tsx:39-46 | `expandedIds` holds row positions in the filtered list. When the search changes, the expansion moves to whichever record takes that row. | records "apple" and "banana"; expand row 0; search "ban" | the expansion belongs to the record that was clicked | high, not executed | HistoryTable.ExpansionFollowsRowAsWritten | HistoryTable.ExpansionFollowsRecord |
