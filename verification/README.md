# better-lyrics: a Dafny model of the providers' slot contract and the theme editor's helpers

This project models, in Dafny, a set of self-contained pieces of the
better-lyrics browser extension and proves properties about them:

- the **custom-lyrics provider**, which fills the `custom-lyrics` slot of the
  shared source map from the user's stored lyrics records (video-id match
  first, then song/artist/album/duration within two seconds);
- the **rich-sync provider**, which queries the rich-sync service with a
  per-install device id and fills the `unison-richsynced` slot from the
  response and the TTML filler's outcome;
- the options page's **custom-lyrics store** (list, fetch by index, create);
- the **theme-store client**: theme-id and rating validation, and the
  signed POST flow that decides whether the public key is sent, whether the
  request is retried once, and when the key is marked registered;
- the theme editor's **CSS storage**: the choice between synced and local
  storage by the UTF-8 size of the CSS (RFC 3629, section 3), the save with
  its quota fallback, the load, and the status messages;
- **rainbow brackets**: the stack walk that marks matched bracket pairs
  with their nesting level, the ordering of the marks, and the
  level-to-colour theme;
- the **CSS linter adapter**: 1-based (line, column) to document offset,
  range clamping, message cleaning, and which warnings become diagnostics;
- the editor's **shared state** with its saturating save counter;
- the **default export file name** built from an ISO time stamp.

Every foreign call is an input of the model: what storage holds and which
storage calls fail, HTTP responses, the TTML filler's outcome, the
signing and key-registration calls, the linter's warnings, the generated
UUID and the clock. A call that throws is an explicit `Throws`/`Threw`
value. Strings are sequences of Unicode scalar values.

Files: `wrappers.dfy` (Option and thrown values), `text.dfy` (JavaScript
string helpers: `\s`, `trim`, `includes`, `split`/`join`, `String(n)`),
`seqs.dfy` (`find` and `filter`), `lyrics.dfy` (the shared provider
records), `custom_lyrics_provider.dfy`, `unison_provider.dfy`,
`clyrics_manager.dfy`, `custom_lyrics_flow.dfy` (the store and the
provider together), `theme_store_api.dfy`, `utf8.dfy`, `editor_config.dfy`
(the constants `SYNC_STORAGE_LIMIT = 7000`, `MAX_RETRY_ATTEMPTS = 3`,
`BRACKET_NESTING_LEVELS = 7`), `css_storage.dfy`, `rainbow_brackets.dfy`,
`linting.dfy`, `editor_state.dfy`, `file_operations.dfy`.

## Model

| member | source | states |
|---|---|---|
| Lyrics.FillSlot | src/modules/lyrics/providers/clyrics.ts:10-11 | A slot write leaves every other slot and the key set unchanged and ends with the slot filled with the given result. |
| Seqs.FindAfterFilter | src/modules/lyrics/providers/clyrics.ts:18-28 | Searching the album-filtered list is the same as searching the whole list for the first record passing both the filter and the match. |
| CustomLyricsProvider.StoredRecords | src/modules/lyrics/providers/clyrics.ts:5-7 | A stored value that is missing or not an array, truthy or not, is the empty list; an array is used as is. |
| CustomLyricsProvider.Select | src/modules/lyrics/providers/clyrics.ts:15-29 | The chosen record is the first with the query's video id, or, when none has it, the first passing the album filter with equal song and artist and duration within 2; nothing is chosen exactly when no record matches either way. |
| CustomLyricsProvider.MetadataSearch | src/modules/lyrics/providers/clyrics.ts:18-28 | The record found is one of the stored records that passes the album filter and matches song, artist and duration; nothing is found exactly when no stored record does. |
| CustomLyricsProvider.ChoiceUnique | src/modules/lyrics/providers/clyrics.ts:15-29 | The choice rule picks at most one index. |
| CustomLyricsProvider.ResultFor | src/modules/lyrics/providers/clyrics.ts:31-38 | The result carries the record's lines verbatim, source "Custom Lyrics", empty source link, not music-video-synced and not cacheable. |
| CustomLyricsProvider.CustomLyrics | src/modules/lyrics/providers/clyrics.ts:4-44 | The provider throws, leaving the source map as it was, exactly when the storage read rejects or the source map has no "custom-lyrics" slot; otherwise only that slot changes, it ends filled, and it holds the selected record's result or a miss. |
| CustomLyricsProvider.EmptyStoreFillsMiss | src/modules/lyrics/providers/clyrics.ts:6-13 | A missing, non-array or empty store fills the slot with a miss. |
| CustomLyricsProvider.VideoIdWins | src/modules/lyrics/providers/clyrics.ts:15-17 | The first record with the query's video id is served, whatever the album filter or metadata of other records. |
| CustomLyricsProvider.MetadataFallback | src/modules/lyrics/providers/clyrics.ts:17-29 | Without a video-id match, the first record in stored order that passes the album filter and the metadata match is served. |
| CustomLyricsProvider.DurationToleranceIsInclusive | src/modules/lyrics/providers/clyrics.ts:27 | A duration 2 seconds off matches and one 3 seconds off does not, in both directions. |
| CustomLyricsProvider.AbsentVideoIdsMatch | src/modules/lyrics/providers/clyrics.ts:15 | The loose comparison makes a record without a video id match a query without one. |
| CustomLyricsProvider.EmptyAlbumDisablesFilter | src/modules/lyrics/providers/clyrics.ts:20-22 | An absent or empty query album admits every record. |
| ClyricsManager.ListCustomLyrics | src/options/clyrics/clyricsManager.ts:7-10 | A rejected read rejects with the same value; a falsy stored value (nothing, or a falsy non-array) lists as the empty array; every truthy value, array or not, is passed on unchanged, so the listed value is always truthy. |
| ClyricsManager.GetCustomLyrics | src/options/clyrics/clyricsManager.ts:16-19 | A rejected read rejects; on a listed array a record is returned exactly for an index inside it, and it is the element at that index, `undefined` otherwise; on a listed non-array the value is foreign, never a record of the list. |
| ClyricsManager.CreateCustomLyrics | src/options/clyrics/clyricsManager.ts:21-36 | The call rejects exactly when the read rejects, the listed value is not an array, or the write rejects: with the read's value, with the TypeError of `push` whatever the write would do, or with the write's value, and then nothing is stored; otherwise the saved list is the old list plus one record at the end, and the record copies song, artist, album and duration, takes the given video id and clock, has no lines, and is the one returned. |
| ClyricsManager.FalsyStoreIsEmpty | src/options/clyrics/clyricsManager.ts:9 | Any falsy stored value lists as the empty array, and every index fetches `undefined`. |
| ClyricsManager.NonArrayRejectsCreate | src/options/clyrics/clyricsManager.ts:21-34 | A truthy non-array is listed as it is, and creating a record rejects with the TypeError of `push`, before any write. |
| ClyricsManager.CreateKeepsIndices | src/options/clyrics/clyricsManager.ts:21-36 | Every record present before a creation is fetched at the same index afterwards. |
| ClyricsManager.CreateThenGet | src/options/clyrics/clyricsManager.ts:33-35 | The created record is what the old length's index fetches afterwards. |
| ClyricsManager.CreateTwiceKeepsBoth | src/options/clyrics/clyricsManager.ts:33-34 | Creating twice with identical metadata stores two identical records. |
| CustomLyricsFlow.CreatedRecordIsServed | src/modules/lyrics/providers/clyrics.ts:15-38 | A record created for a video id no earlier record has is served, with its empty lines, when that video is next looked up. |
| UnisonProvider.ObtainDeviceId | src/modules/lyrics/providers/unison.ts:7-14 | A truthy persisted id is reused and nothing is written; otherwise the new id is returned and persisted. |
| UnisonProvider.QueryParams | src/modules/lyrics/providers/unison.ts:16-23 | The query is song, artist and the decimal duration, then one album parameter when the album is neither null nor undefined, and nothing else: three parameters without an album, four with one. |
| UnisonProvider.QueryParamsRoundTrip | src/modules/lyrics/providers/unison.ts:16-23 | Reading the URL back by name gives the song, the artist and the duration text, and the album exactly when one was given. |
| UnisonProvider.Unison | src/modules/lyrics/providers/unison.ts:6-49 | A throw leaves the map untouched; a return changes only "unison-richsynced" and fills it; a request is sent exactly when the device id could be read, with the query above. |
| UnisonProvider.NotOkFillsMiss | src/modules/lyrics/providers/unison.ts:32-36 | A non-ok response fills the slot with a miss, independently of the body and the TTML filler. |
| UnisonProvider.FillOutcomeDecidesSlot | src/modules/lyrics/providers/unison.ts:38-48 | After an ok response, a falsy fill outcome fills a miss and a truthy one fills the result it carries. |
| UnisonProvider.ThrowLeavesSlotUnfilled | src/modules/lyrics/providers/unison.ts:25-39 | A rejected fetch, an unreadable body, a throwing filler or a failed id read makes the provider throw with the slot still unfilled. |
| UnisonProvider.DeviceIdHeader | src/modules/lyrics/providers/unison.ts:25-28 | The device-id header is the persisted id when truthy, else the new id, which is then persisted. |
| UnisonProvider.DeviceIdStable | src/modules/lyrics/providers/unison.ts:8-13 | A second call that reads back what the first persisted sends the same device id. |
| ThemeStoreApi.IsValidThemeId | src/options/store/themeStoreApi.ts:6-16 | A valid id has 1 to 128 characters, all ASCII and none escaped by `encodeURIComponent`, so it goes into the request path unchanged (themeStoreApi.ts:56). |
| ThemeStoreApi.ThemeIdExamples | src/options/store/themeStoreApi.ts:6-16 | The empty id, an id with a space and every 129-character id are refused; "dark_mode-2" is accepted. |
| ThemeStoreApi.ValidThemeIdIsPattern | src/options/store/themeStoreApi.ts:6-16 | An id is valid exactly when it matches `^[a-zA-Z0-9_-]+$`, read as a character-by-character recogniser, and has at most 128 characters. |
| ThemeStoreApi.AppendThemeIdChar | src/options/store/themeStoreApi.ts:6-16 | A valid id grown by one character stays valid exactly when the character is from the pattern and the id was shorter than 128 characters. |
| ThemeStoreApi.IsValidRating | src/options/store/themeStoreApi.ts:18-20 | A rating is valid exactly when it is one of 1, 2, 3, 4, 5. |
| ThemeStoreApi.Caught | src/options/store/themeStoreApi.ts:87-91 | A caught error fails the call with no data; the error text is the message of an `Error`, and "Network error" for any other thrown value. |
| ThemeStoreApi.SignedPost | src/options/store/themeStoreApi.ts:43-91 | At most two bodies are sent; the first carries the public key exactly when the key is not registered; a second, identical but with the key, is sent exactly when the server answers 400 PUBLIC_KEY_REQUIRED to a registered key; the key is marked exactly when the last body carried it and the final response is ok; success exactly when the final response is ok, its JSON reads and, if the key went along, marking it did not throw, with that JSON as data, and no data otherwise. On failure the error is pinned: a thrown signing, registration check, fetch, retry, marking or JSON read gives the caught text (the message, or "Network error"), and a non-ok final response gives the failure prefix followed by its status. |
| ThemeStoreApi.Conclude | src/options/store/themeStoreApi.ts:75-86 | A non-ok final response fails with the status appended to the message; otherwise registration is marked when needed and success needs the JSON body. |
| ThemeStoreApi.TrackInstall | src/options/store/themeStoreApi.ts:38-92 | An invalid id fails with "Invalid theme ID" and no request; otherwise the signed POST decides, and the data is the body's count; every failure carries no data. |
| ThemeStoreApi.SubmitRating | src/options/store/themeStoreApi.ts:94-151 | The id is checked, then the rating, each failing with its own message and no request; otherwise the signed POST decides. |
| ThemeStoreApi.RegisteredKeyStaysHome | src/options/store/themeStoreApi.ts:45-54 | A registered key that the server does not ask for is never sent nor marked. |
| ThemeStoreApi.RetryRegistersKey | src/options/store/themeStoreApi.ts:62-83 | When asked for the key, the retry carries it and a successful retry marks it registered. |
| ThemeStoreApi.OtherBadRequestIsFinal | src/options/store/themeStoreApi.ts:62-79 | A 400 with another error code is not retried and fails with "Failed to track install: 400". |
| ThemeStoreApi.SubmitRatingChecksIdFirst | src/options/store/themeStoreApi.ts:95-101 | With both id and rating invalid, the id error is reported. |
| Utf8.ByteSize | src/options/editor/storage.ts:6 | The size in bytes lies between one and four per character. |
| Utf8.EncodeCharRoundTrip | src/options/editor/storage.ts:6 | Each character's UTF-8 octets decode back to it and the lead octet announces the width. |
| Utf8.EncodeLength | src/options/editor/storage.ts:6 | The measured size is the length of the UTF-8 encoding. |
| Utf8.AsciiByteSize | src/options/editor/storage.ts:6 | ASCII text measures one byte per character. |
| Utf8.ByteSizeAppend | src/options/editor/storage.ts:6 | The size of a concatenation is the sum of the sizes. |
| CssStorage.GetStorageStrategy | src/options/editor/storage.ts:5-8 | Local storage exactly when the UTF-8 size exceeds 7000 bytes. |
| CssStorage.LocalWrites | src/options/editor/storage.ts:14-17 | Three writes, each touching only the CSS key, or in synced storage the CSS and type keys. |
| CssStorage.SyncWrites | src/options/editor/storage.ts:18-21 | Two writes, each touching only the CSS and type keys. |
| CssStorage.StrategyThreshold | src/options/editor/storage.ts:5-8 | 7000 bytes stay in synced storage; 7001 go to local. |
| CssStorage.SaveToStorageWithFallback | src/options/editor/storage.ts:10-41 | A success has placed the CSS in exactly one area with the type key naming it; a first-attempt success uses the size strategy; a retry is always local and successful; a failure carries an error and no strategy; without storage failures the save succeeds; keys other than the editor's two never change. |
| CssStorage.SaveOutcome | src/options/editor/storage.ts:10-41 | For any set of failing calls: with no failing write of the chosen strategy the save succeeds there; after a first failing write whose message mentions "quota", with retries left, it is a retried local save unless one of the fallback's three calls fails, in which case the first of those is the reported error; after any other first failing write, its error is reported. |
| CssStorage.StrategyAttempt | src/options/editor/storage.ts:12-21 | The chosen strategy's writes place the CSS when none fails, and otherwise stop right after the first failing call, with its error; no other key changes. |
| CssStorage.LocalFallback | src/options/editor/storage.ts:27-36 | The fallback succeeds as a retried local save, with the CSS placed locally, exactly when none of its writes fails, and otherwise fails with the first failing call's error; no other key changes. |
| CssStorage.RunStopsAtFirstFault | src/options/editor/storage.ts:14-21 | A run of writes stops right after its first failing call, with that call's error, and without one makes every call. |
| CssStorage.WritesEffect | src/options/editor/storage.ts:14-21 | Each strategy's writes, when none fails, leave the CSS in that area only with the type key set; partial runs touch no other key. |
| CssStorage.RunKeepsOthers | src/options/editor/storage.ts:14-21 | Runs of the editor's writes keep every other key's value. |
| CssStorage.LoadFallback | src/options/editor/storage.ts:54-66 | The value is the CSS read so far, the local CSS or the synced CSS; from nothing read so far it yields nothing if its local read throws, the local CSS if only its synced read throws, and the synced CSS otherwise. |
| CssStorage.LoadCustomCss | src/options/editor/storage.ts:43-69 | Without a failing first read, the CSS comes from local storage when the type key says "local" and the local read succeeds, and from synced storage otherwise; when the first read (or the local read) throws, the fallback gives nothing if its local read throws, the local CSS if only its synced read throws, and otherwise the synced CSS; absent values load as "". |
| CssStorage.SaveLoadRoundTrip | src/options/editor/storage.ts:10-69 | Whatever path a successful save took, a load without failures returns the saved CSS. |
| CssStorage.QuotaFallsBackToLocal | src/options/editor/storage.ts:14-33 | A quota error on any one write of the chosen strategy, with retries left, falls back to local and reports a successful retried local save. |
| CssStorage.OtherErrorFails | src/options/editor/storage.ts:14-39 | Any other error on any one write of the chosen strategy, or a quota error with no retries left, fails the save with that very error. |
| CssStorage.FallbackFailureIsFinal | src/options/editor/storage.ts:14-36 | After a quota error on any write of the strategy, a failure of any of the fallback's writes is not retried; the save fails with the fallback's error. |
| CssStorage.LoadNothing | src/options/editor/storage.ts:43-69 | Empty storage loads as the empty string, whichever reads fail. |
| CssStorage.LoadFallbackPrefersSync | src/options/editor/storage.ts:54-63 | For every store, when the first read throws and both fallback reads succeed, the load returns the synced CSS, overwriting the local one, and "" when synced storage holds none. |
| CssStorage.LoadFallbackKeepsLocal | src/options/editor/storage.ts:54-66 | For every store, when the first read and the fallback's synced read throw, the local CSS is returned. |
| CssStorage.SyncSuccessMessage | src/options/editor/storage.ts:71-74 | "Saved!" for synced storage, "Saved (Large CSS - Local)" after a retry, "Saved (Local)" otherwise. |
| CssStorage.SyncErrorMessage | src/options/editor/storage.ts:83-87 | "CSS too large for storage!" exactly for quota errors, "Something went wrong!" exactly for the others. |
| CssStorage.QuotaFallbackMessage | src/options/editor/storage.ts:71-73 | A quota fallback after any one failing write is announced as a large local save. |
| RainbowBrackets.MatchingBracket | src/options/editor/rainbow-brackets.ts:50-61 | Exactly the closers have a match, and it is an opener. |
| RainbowBrackets.MatchingBracketInverse | src/options/editor/rainbow-brackets.ts:50-61 | The match is a bijection between `)]}` and `([{`. |
| RainbowBrackets.Step | src/options/editor/rainbow-brackets.ts:30-42 | An opener is pushed with its position; a closer pops the top entry, and the marks grow, by the opener's and the closer's positions at the remaining depth mod 7, exactly when the popped opener matches; any other character, or a closer on an empty stack, changes nothing; marks are only ever appended. |
| RainbowBrackets.Scan | src/options/editor/rainbow-brackets.ts:29-43 | After n characters the marks come in an even number, and open brackets plus marks never exceed n. |
| RainbowBrackets.WalkDocument | src/options/editor/rainbow-brackets.ts:25-43 | The loop over the document yields exactly the marks of the walk over every character. |
| RainbowBrackets.ScanWellFormed | src/options/editor/rainbow-brackets.ts:29-43 | After any prefix the stack holds the document's unmatched openers in position order, and the marks come in pairs of an opener and its matching closer that was on top of the stack, both at the level given by the brackets open before the opener, modulo 7, with all mark positions distinct and none on an open bracket. |
| RainbowBrackets.MarkLevels | src/options/editor/rainbow-brackets.ts:36 | Every level lies in 0..6. |
| RainbowBrackets.MatchedCloserMarked | src/options/editor/rainbow-brackets.ts:33-41 | A closer whose popped opener matches produces marks for both, at the depth left after the pop, modulo 7. |
| RainbowBrackets.MarkedPositions | src/options/editor/rainbow-brackets.ts:29-43 | Only brackets are marked, and a marked closer met a matching opener on the stack: non-brackets, closers on an empty stack and mismatched closers get no marks. |
| RainbowBrackets.LeftoverOpenersUnmarked | src/options/editor/rainbow-brackets.ts:29-43 | Openers still open at the end have no marks. |
| RainbowBrackets.OutermostLevelZero | src/options/editor/rainbow-brackets.ts:34-36 | A pair opened with nothing open is at level 0. |
| RainbowBrackets.SortByPosition | src/options/editor/rainbow-brackets.ts:45 | Marks with distinct positions come out strictly increasing by position, the same marks and as many. |
| RainbowBrackets.GetBracketDecorations | src/options/editor/rainbow-brackets.ts:24-48 | The output holds exactly the walk's marks, as many of them, strictly increasing by position, each level below 7. |
| RainbowBrackets.SelectorsDistinct | src/options/editor/rainbow-brackets.ts:73-74 | Different levels have different selectors, and no level selector is a span selector. |
| RainbowBrackets.ThemeStyles | src/options/editor/rainbow-brackets.ts:71-75 | Every rule's colour is an entry of the seven-colour table. |
| RainbowBrackets.ThemeStylesColour | src/options/editor/rainbow-brackets.ts:71-75 | Level l's class and its inner spans are coloured with table entry l mod 7, never overwritten by another level. |
| RainbowBrackets.ThemeStylesKeys | src/options/editor/rainbow-brackets.ts:71-75 | The theme has rules for these selectors only. |
| RainbowBrackets.MarksAreColoured | src/options/editor/rainbow-brackets.ts:8 | Every mark's class has a rule in the theme, coloured by its level's table entry. |
| Text.JoinSplit | src/options/editor/linting.ts:11 | Joining the lines on the newline gives back the document. |
| Text.Trim | src/options/editor/linting.ts:32 | The result has no white space at either end and is what remains of the input after removing only white space from both ends. |
| Text.Contains | src/options/editor/storage.ts:27 | True exactly when the text occurs at some index. |
| Linting.GetPosition | src/options/editor/linting.ts:10-17 | The position throws exactly when the line is more than one past the last line; on the first line it is the column minus one; from line 1 on it is the sum, over the earlier lines, of each line's length plus one for its newline, plus the column minus one. |
| Linting.PositionIsCharacter | src/options/editor/linting.ts:10-17 | For a column inside a line, the position is the offset of that very character of the document. |
| Linting.PositionAtLineEnd | src/options/editor/linting.ts:10-17 | The column just past a line, where an exclusive end column lands, is the offset of the newline ending that line, or the end of the document on the last line. |
| Linting.PositionPastLastLine | src/options/editor/linting.ts:10-17 | One line past the last, the position is the document's length plus the column, as if a newline followed the document. |
| Linting.FirstMatch | src/options/editor/linting.ts:32 | The result is the leftmost position where the trailing-group pattern matches, or none. |
| Linting.CleanMessage | src/options/editor/linting.ts:32 | The message is cut at the leftmost match of the trailing-group pattern, if any, and trimmed. |
| Linting.CleanRuleSuffix | src/options/editor/linting.ts:32 | A trimmed message without `(` followed by " (rule)" cleans back to the message. |
| Linting.CleanWithoutGroup | src/options/editor/linting.ts:32 | A message without `)` is only trimmed. |
| Linting.ToDiagnostic | src/options/editor/linting.ts:29-39 | It throws exactly when either position throws; the start is the position clamped at 0; the end is one past the unclamped start when either end field is missing or zero, and otherwise the end position raised to at least one past the unclamped start; the severity is the warning's and the message is the cleaned text. |
| Linting.DiagnosticCoversWarnedCharacter | src/options/editor/linting.ts:10-39 | A warning at a character of the document gives a non-empty range that starts at that very character. |
| Linting.Convert | src/options/editor/linting.ts:28-40 | Diagnostics follow the warnings in order, one each, up to the first warning that throws; with no throwing warning every warning becomes a diagnostic. |
| Seqs.MapUntilNone | src/options/editor/linting.ts:28-44 | The output is the mapped prefix of the input up to, and not including, the first element that maps to nothing. |
| Linting.CssLinter | src/options/editor/linting.ts:6-47 | A throwing linter or no results give no diagnostics; otherwise they come from the first result's warnings in order, stopping exactly at the first warning that throws, and covering every warning when none throws. |
| Linting.LaterResultsIgnored | src/options/editor/linting.ts:25-26 | Results after the first do not matter. |
| EditorState.Apply | src/options/editor/state.ts:11-41 | Each setter stores its argument in its own variable and changes nothing else; increment adds exactly one and decrement subtracts one, stopping at zero. |
| EditorState.RunFrame | src/options/editor/state.ts:11-41 | A variable no operation targets keeps its value across any run. |
| EditorState.NeverNegative | src/options/editor/state.ts:27-33 | From a non-negative count, no sequence of operations makes it negative. |
| EditorState.InitialNeverNegative | src/options/editor/state.ts:7-33 | From the initial state the save count is never negative. |
| EditorState.DecrementUndoesIncrement | src/options/editor/state.ts:27-33 | A decrement right after an increment restores the state. |
| EditorState.DecrementSaturates | src/options/editor/state.ts:31-33 | Decrement removes one from a positive count and leaves zero otherwise. |
| EditorState.Increments | src/options/editor/state.ts:27-29 | n increments add n. |
| EditorState.Decrements | src/options/editor/state.ts:31-33 | n decrements from a non-negative count remove n, stopping at zero. |
| FileOperations.ReplaceSeparators | src/options/editor/file-operations.ts:5 | The length is kept; each `:` and `.` becomes `-` and every other character stays in place. |
| FileOperations.DropLastFive | src/options/editor/file-operations.ts:5 | All but the last five characters, or nothing for shorter strings, always a prefix. |
| FileOperations.DefaultFilename | src/options/editor/file-operations.ts:3-7 | The name starts with "blyrics-theme-" and ends with ".css". |
| FileOperations.StampShape | src/options/editor/file-operations.ts:5-6 | The stamp holds no `:` or `.`: each one of the ISO string became `-`, every other kept character stays at its position, and the length drops by five. |
| FileOperations.IsoLength | src/options/editor/file-operations.ts:5-6 | A 24-character ISO string gives a 19-character stamp and a 37-character name. |
| FileOperations.Example | src/options/editor/file-operations.ts:3-7 | 2024-01-15T10:30:45.123Z gives blyrics-theme-2024-01-15T10-30-45.css. |

## Left out

- The LRC parser, timing fixers, request sniffer, source-racing coordinator, translation, core storage and the lrclib and YouTube providers are outside this model, which covers the providers' slot contract and the theme editor's helpers.
- `src/modules/lyrics/providers/customLrc.ts`: a divergent copy of the custom-lyrics provider whose search callback never returns a value, superseded by `clyrics.ts`.
- `src/options/clyrics/customLyricsManager.ts`: an unfinished stub.
- DOM and UI code (the options pages, modals, alerts, navigation, the lyrics editor pages), the CodeMirror wiring, and the plugin's `update` hook in `rainbow-brackets.ts`: no logic beyond calling the modelled functions.
- `fetchAllStats` in `themeStoreApi.ts`: a plain GET whose result is passed through, with no guard or retry logic.
- `sendUpdateMessage` in `storage.ts`: a fire-and-forget message with no effect on the modelled state.
- The timers and CSS classes of `showSyncSuccess` and `showSyncError`: only the text is modelled.
- `saveCSSToFile` and the download, permission and file-reader flows of `file-operations.ts`: browser APIs with no computed result.
- Cancellation and concurrency: the abort signal and the 10-second timeout race in `unison.ts` appear only as a thrown fetch, and the read-modify-write of the custom-lyrics list is modelled as one atomic step.
- `fillTtml` receives the provider parameters and could itself write the slot; the model takes only its outcome.
- JavaScript numbers: durations, statuses, lines, columns and counts are unbounded integers; NaN, infinities, non-integer durations and the 2^53 limit are not modelled. Ratings are reals, so `Number.isInteger` is modelled.
- Strings are sequences of Unicode scalar values: lone UTF-16 surrogates cannot be represented, and CodeMirror and JavaScript offsets count UTF-16 units, which agrees with the model's positions only for text inside the Basic Multilingual Plane.
- CssStorage.SaveToStorageWithFallback: a storage error whose value is null or undefined makes `error.message` itself throw inside the `catch`; the model's errors are always objects, with an optional message.
- CssStorage.SaveToStorageWithFallback: a storage call that fails is assumed to change nothing.
- ThemeStoreApi.TrackInstall: a JSON body of `null` on success, where reading `count` throws, is not modelled; the body is an object with an optional count.
- GetCustomLyrics: what indexing a truthy non-array yields (a character of a string, a property of an object, or `undefined`) is not modelled; it is the single value `Foreign`.
- CreateCustomLyrics: the TypeError's message is V8's wording, "clyrics.push is not a function"; other engines word it differently.
- UnisonProvider.Unison: the non-awaited write of the new device id is modelled as done, whatever its outcome.
- RainbowBrackets.SortByPosition: the marks are ordered by a sweep over positions rather than by the comparison sort itself; with distinct positions there is only one order.
- Linting.CssLinter: a linter result without `results` is modelled as an empty result list, which gives the same diagnostics.
