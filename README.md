# im-insight message-to-signal pipeline, modelled in Dafny

im-insight watches chat groups and turns trade messages into market signals.
This project models the path from a chat message to a stored signal, and the
CSV files written along the way. It covers seven source files:

- **Deduplicator and chat client** (`src/core/monitor.py`). A bounded window
  of message keys is a `deque(maxlen=1000)`. A key is the digest of the ISO
  timestamp, the sender and the content. `get_recent_messages` walks the
  client's batch in order. It drops duplicates first and only then applies
  the group filter.
- **Relevance filter and processor** (`src/engine/processor.py`). The
  blacklist is tried before the whitelist. Then comes the choice between a
  manual-check signal, the LLM's fields and the keyword fallback extractor.
- **LLM gateway** (`src/engine/llm_gateway.py`). The 60-requests-per-60-second
  sliding-window throttle, `_call_api` over an abstract HTTP outcome, and the
  normalisation of its result into a list.
- **SQLite store** (`src/action/storage.py`). `INSERT OR IGNORE` of raw
  messages and of signal batches, keyed by a content hash, with the foreign
  key from signals to raw messages. The retention sweep.
- **Reports** (`src/action/report.py`). The query with its goods filter and
  its `ORDER BY price DESC, timestamp DESC`. The aggregate, per-group and
  temporary-goods CSV reports, and file-name sanitising.
- **Recorder** (`src/action/recorder.py`). The same flattened row is appended
  to a session log and to a monthly history log.
- **Daily exporter** (`src/action/exporter.py`). One unsanitised row per
  signal goes to `market_log_{date}.csv`, behind a header written once.

The model is organised as follows:

- One module per source file: `Monitor`, `Processor`, `LlmGateway`,
  `Storage`, `Report`, `Recorder`, `Exporter`.
- Shared modules:
  - `Wrappers`: `Option`.
  - `Strings`: Python `str` helpers, with `isspace` over the characters
    Python counts as whitespace.
  - `DateTimes`: `isoformat` and the `strftime` formats used.
  - `Types`: `RawMessage` and `MarketSignal`.
  - `Json`: decoded JSON values.
  - `Csv`: a directory is a map from file name to rows.
- Objects whose fields the source updates are classes:
  - `Deduplicator`, `WeChatClient`, `Gateway`, `SqliteStore`,
    `ReportGenerator`, `DualTableRecorder`, `CsvExporter`.
  - Each method is proved against a specification function of the old state.
  - The properties are lemmas about those functions.
- Loops of the source are loops here, with their invariants:
  - the loops of `get_recent_messages`;
  - `is_relevant`;
  - the word loop of `_extract_basic_info`;
  - the pruning loops of `_throttle`;
  - the row loop of `save_signals`;
  - the two loops of `generate_group_reports`.

These things become parameters:

- Digests: SHA-256 is `digest: string -> string`.
- Regex: `re.search` is `matches(pattern, text)`, and a `\w` test is
  `isWord: char -> bool`.
- `str(float)`: `floatRepr`.
- Clock readings: `time.monotonic()` gives the `t1`, `t2`, `t3` readings, and
  `datetime.now()` is a `now`/`today` parameter.
- The LLM output and the HTTP outcome.
- Database errors: a `fault` flag; the exceptions `CsvExporter.save` catches: a `SaveFault`.

## Model

| member | source | states |
|---|---|---|
| Strings.Lower | src/engine/processor.py:132 | `str.lower` keeps the length of the text |
| Strings.Upper | src/engine/processor.py:146 | `str.upper` keeps the length of the text |
| Strings.TrimStart | src/action/recorder.py:32 | the result is a suffix starting with a non-space; everything removed was whitespace |
| Strings.TrimEnd | src/action/recorder.py:32 | the result is a prefix ending with a non-space; everything removed was whitespace |
| Strings.Strip | src/action/recorder.py:32 | `strip()` gives no whitespace at either end and no character that was not in the input |
| Strings.StripTrimsEdges | src/action/recorder.py:32 | `strip()` gives the piece of the input left after dropping its leading and trailing whitespace: everything dropped is whitespace |
| Strings.StripKeeps | src/action/recorder.py:32 | a text with no whitespace at either end is left as it is by `strip()` |
| Strings.StripIdempotent | src/action/recorder.py:32 | stripping twice is stripping once |
| Strings.ReplaceChar | src/action/recorder.py:32 | after `replace(c, rep)` with `c` not in `rep`, no `c` is left and no new character appears; a text without `c` is unchanged |
| Strings.ReplaceCharAppend | src/action/recorder.py:32 | `replace` on a concatenation is the concatenation of the two replacements |
| Strings.ReplaceCharSingle | src/action/recorder.py:32 | on one character, `replace` gives `rep` for `c` and keeps any other character |
| Strings.Word | src/engine/processor.py:143 | a word is the longest whitespace-free prefix, non-empty when the text starts with a non-space |
| Strings.Split | src/engine/processor.py:143 | `split()` yields at most as many words as there are characters |
| Strings.LexLessIrreflexive | src/action/report.py:60 | text ordering is irreflexive |
| Strings.LexLessTransitive | src/action/report.py:60 | text ordering is transitive |
| Strings.LexLessTotal | src/action/report.py:60 | any two different texts are ordered one way or the other |
| DateTimes.DateFormat | src/action/exporter.py:31 | `%Y-%m-%d` is ten characters with dashes at positions 4 and 7 |
| DateTimes.MonthFormat | src/action/recorder.py:46 | `%Y-%m` is the first seven characters of the date |
| DateTimes.SqlFormat | src/action/storage.py:71 | `%Y-%m-%d %H:%M:%S` is the date, a space and the time, 19 characters |
| DateTimes.IsoFormat | src/core/monitor.py:41 | `isoformat()` is the date, `T` and the time, with microseconds only when they are non-zero |
| Json.StrField | src/engine/processor.py:105-106 | a field reads as a text exactly when it is present and a JSON string |
| Json.NumField | src/engine/processor.py:107 | a field reads as a number exactly when it is present and a JSON number |
| Monitor.SplitPointIsInvisible | src/core/monitor.py:39-42 | any two (sender, content) pairs that concatenate to the same text hash to the same key at the same time, whatever the digest |
| Monitor.DifferentSendersCollide | src/core/monitor.py:39-42 | ("ab", "c") and ("a", "bc") are different messages with the same key |
| Monitor.Last | src/core/monitor.py:37 | the last `n` elements, or all when there are fewer |
| Monitor.BoundedAppend | src/core/monitor.py:37 | `deque(maxlen)` append: the key goes at the back, the front is dropped at capacity, and the length stays within the bound |
| Monitor.UnseenThenDuplicate | src/core/monitor.py:44-51 | an unseen key is recorded, so asking again at once reports a duplicate and changes nothing |
| Monitor.AppendAllKeepsNewest | src/core/monitor.py:36-37 | a bounded window always holds exactly the newest `maxlen` keys appended so far |
| Monitor.EvictedAfterMaxlenAppends | src/core/monitor.py:36-37 | after `maxlen` appends of other keys, a key has left the window |
| Monitor.AppendAllFrom | src/core/monitor.py:50 | every key in the window was there at the start or was appended |
| Monitor.FreshObservationsAppend | src/core/monitor.py:44-51 | observing keys that are all new is appending them |
| Monitor.ForgottenAfterMaxlenNewKeys | src/core/monitor.py:36-51 | a key seen once is reported as new again after `maxlen` distinct newer keys |
| Monitor.Deduplicator.constructor | src/core/monitor.py:36-37 | the window starts empty with the given capacity |
| Monitor.Deduplicator.IsDuplicate | src/core/monitor.py:44-51 | true exactly when the key is in the window; otherwise the key is appended; a duplicate leaves the window alone |
| Monitor.Deduplicator.AddMessage | src/core/monitor.py:53-57 | returns the key and appends it even when it is already present |
| Monitor.Convert | src/core/monitor.py:103-125 | the message id is the key of its own timestamp, sender and content; the room is the chat name exactly when it differs from the sender; missing attributes default to "" and the clock |
| Monitor.IngestAllBounded | src/core/monitor.py:100-133 | the window stays within its bound across a whole batch |
| Monitor.IngestedMessagesPassFilter | src/core/monitor.py:119-133 | every message passed on comes from an entry of the batch, with that entry's key as id, and passes the group filter |
| Monitor.GroupFilterAfterDedup | src/core/monitor.py:111-131 | the window does not depend on the monitored groups, and the messages are those of an unfiltered run, filtered |
| Monitor.MonitorAllKeepsEverything | src/core/monitor.py:91 | with an "all" group (any case), nothing is filtered out |
| Monitor.DirectMessagesDroppedUnlessAll | src/core/monitor.py:123-131 | without "all", a message with no room never passes |
| Monitor.ReplayIsDropped | src/core/monitor.py:112-113 | the same message delivered again in the next batch yields nothing and leaves the window unchanged |
| Monitor.IngestOneRecords | src/core/monitor.py:112-116 | after one entry its key is in the window, whether or not it was a duplicate |
| Monitor.WeChatClient.constructor | src/core/monitor.py:63-64 | the client starts with an empty window of 1000 keys |
| Monitor.WeChatClient.IngestEntry | src/core/monitor.py:103-133 | one pass of the inner loop: duplicate check, then id, then group filter |
| Monitor.WeChatClient.IngestChat | src/core/monitor.py:100-136 | the inner loop over one chat extends the result and the window as the specification of the batch does |
| Monitor.WeChatClient.IngestValue | src/core/monitor.py:96-98 | a chat value that is not a list contributes nothing |
| Monitor.WeChatClient.GetRecentMessages | src/core/monitor.py:77-138 | the messages returned and the new window are those of the batch's specification, in visiting order; a non-dict batch gives nothing |
| Processor.DefaultSettings | src/engine/processor.py:15-26 | three whitelist patterns, two blacklist patterns, intelligence enabled |
| Processor.IsRelevant | src/engine/processor.py:43-72 | relevant exactly when no blacklist pattern matches and some whitelist pattern does |
| Processor.BlacklistVetoes | src/engine/processor.py:62-65 | any blacklist match rejects, whatever the whitelist says |
| Processor.EmptyWhitelistRejects | src/engine/processor.py:67-72 | with no whitelist patterns nothing is relevant |
| Processor.FirstKeywordFrom | src/engine/processor.py:144-147 | a found index has a successor word |
| Processor.FirstKeywordFromSpec | src/engine/processor.py:144-147 | the search finds the first "buy"/"sell" that has a successor, and finds none only when there is none |
| Processor.BasicInfoIntent | src/engine/processor.py:132-154 | the fallback always yields a signal with confidence 0.5 and no price; "buy" in the text wins over "sell"; "unknown" exactly when neither occurs |
| Processor.ItemOfSpec | src/engine/processor.py:141-147 | the item is present exactly when a keyword has a successor, and is then the upper-cased successor of the first one |
| Processor.ExtractBasicInfo | src/engine/processor.py:120-154 | `_extract_basic_info` computes the fallback signal |
| Processor.ExtractItem | src/engine/processor.py:142-147 | the word loop with its `break` computes the item of the specification |
| Processor.FromLlm | src/engine/processor.py:102-109 | the LLM branch takes intent (default "unknown"), item and price from the result, with confidence 0.9 |
| Processor.Process | src/engine/processor.py:74-118 | manual check when irrelevant or intelligence is off; the LLM's fields when its result is truthy; the fallback otherwise |
| Processor.LlmConsultedOnlyWhenRelevantAndEnabled | src/engine/processor.py:85-118 | the LLM output cannot change the signal of an irrelevant message or with intelligence off |
| Processor.ConfidenceIdentifiesBranch | src/engine/processor.py:88-112 | the confidence tells the three outcomes apart, in both directions |
| Processor.EmptyLlmResultFallsBack | src/engine/processor.py:102-112 | an absent or empty LLM result still yields the fallback signal |
| Processor.ProcessAsWritten | src/engine/processor.py:97-99 | as written, a returned signal is always a manual check |
| Processor.AsWrittenRaisesOnEveryRelevantMessage | src/engine/processor.py:97-99 | as written, `process` raises exactly for relevant messages with intelligence on, and agrees with `Process` elsewhere |
| Processor.AsWrittenRaisesOnDocstringExample | src/engine/processor.py:55 | the docstring's own "Buy 100 shares of AAPL at $150" raises |
| LlmGateway.Prune | src/engine/llm_gateway.py:181-182 | the pruning loop keeps a suffix whose oldest reading is within the window, and drops only stale readings |
| LlmGateway.PruneBound | src/engine/llm_gateway.py:179-182 | with sorted readings, no kept reading is older than the window |
| LlmGateway.Delay | src/engine/llm_gateway.py:183-187 | the sleep is never negative and is zero below capacity |
| LlmGateway.DelayAtCapacity | src/engine/llm_gateway.py:183-187 | at capacity the sleep is what remains of the oldest reading's window, when positive |
| LlmGateway.Kept | src/engine/llm_gateway.py:181-190 | the kept readings are a suffix of the window |
| LlmGateway.ThrottleAppendsOne | src/engine/llm_gateway.py:178-191 | every call appends exactly one reading at the back and otherwise only drops old readings |
| LlmGateway.ThrottlePreservesSorted | src/engine/llm_gateway.py:178-191 | readings stay sorted and none is after the last clock reading |
| LlmGateway.ThrottleBoundedOnOvershoot | src/engine/llm_gateway.py:183-191 | when the sleep overshoots the oldest reading's window, the window never exceeds 60 readings |
| LlmGateway.ExactWakeKeepsLimitPlusOne | src/engine/llm_gateway.py:189 | pruning is strict, so waking exactly on time leaves 61 readings in the window |
| LlmGateway.Gateway.constructor | src/engine/llm_gateway.py:55-56 | the rate window starts empty |
| LlmGateway.Gateway.Throttle | src/engine/llm_gateway.py:178-191 | `_throttle` sleeps for the specified delay and leaves the specified window, sorted; a request is delayed, never refused |
| LlmGateway.Gateway.Analyze | src/engine/llm_gateway.py:126-176 | every call takes a slot in the window first; the result is the normalised API result, or empty when the event loop fails |
| LlmGateway.ContentOf | src/engine/llm_gateway.py:106 | there is a content exactly when `choices[0].message.content` exists and is a JSON string, and then it is that string |
| LlmGateway.CallApi | src/engine/llm_gateway.py:58-124 | a result exactly for a 200 response whose content is present and parses; nothing for any other status or error |
| LlmGateway.Normalize | src/engine/llm_gateway.py:161-173 | nothing gives `[]`, an object a one-element list, a list itself, anything else `[]` |
| LlmGateway.NormalizeIdempotent | src/engine/llm_gateway.py:161-169 | normalising a returned list again changes nothing |
| LlmGateway.FailedCallIsEmpty | src/engine/llm_gateway.py:96-100 | a failed call looks like a reply with no trading intent |
| Storage.SignalIdIgnoresOtherFields | src/action/storage.py:155-158 | the signal id depends only on raw id, intent, item, price and specs |
| Storage.NoneAndEmptyItemDiffer | src/action/storage.py:109 | an absent and an empty item are stored alike, but the hash inputs differ |
| Storage.NoneItemTextCollides | src/action/storage.py:157 | an absent item and the item text "None" hash alike but are stored differently |
| Storage.RawRowOf | src/action/storage.py:70-90 | the raw row copies content, sender and room, flags a trade as 1 and otherwise 0, and stores the message time and the ingestion time, each as `%Y-%m-%d %H:%M:%S`, in their own columns |
| Storage.ParamsOf | src/action/storage.py:97-119 | the tuple carries the signal id, the raw id, a falsy item as "" and the formatted time |
| Storage.InsertAll | src/action/storage.py:122-132 | a batch whose raw ids all exist succeeds; stored rows are never changed; the foreign key keeps holding |
| Storage.InsertAllNewRows | src/action/storage.py:124-132 | each new row comes from a non-NULL tuple of the batch with that id |
| Storage.InsertAllStoresEach | src/action/storage.py:124-132 | after success every non-NULL tuple's id is stored |
| Storage.InsertPresentIsNoOp | src/action/storage.py:126 | tuples whose ids are already stored change nothing |
| Storage.InsertAllIdempotent | src/action/storage.py:122-132 | saving a batch again changes nothing |
| Storage.RepeatedRowStoredOnce | src/action/storage.py:126 | a batch holding one tuple twice stores what the tuple alone stores |
| Storage.UnknownRawIdFailsBatch | src/action/storage.py:122-134 | a new tuple with an unknown raw id fails the whole batch |
| Storage.InsertSomeRowsHaveRaw | src/action/storage.py:59 | every row a batch adds references a raw row |
| Storage.ParamsAll | src/action/storage.py:96-119 | one tuple per signal |
| Storage.Sweep | src/action/storage.py:136-147 | the delete fails when an expired row is still referenced; otherwise exactly the expired rows go, the others unchanged, and the foreign key keeps holding |
| Storage.SqliteStore.constructor | src/action/storage.py:20-27 | opening keeps the existing contents |
| Storage.SqliteStore.SaveRawMessage | src/action/storage.py:70-92 | inserts only an absent id; an existing row is never modified; signals are untouched |
| Storage.SqliteStore.SaveSignals | src/action/storage.py:94-134 | an empty batch returns at once; otherwise the batch is one transaction, kept whole or not at all |
| Storage.SqliteStore.CleanupRawMessages | src/action/storage.py:136-147 | only raw rows are deleted, as the sweep says, and not at all on an error |
| Report.Select | src/action/report.py:49-52 | one report row per stored signal |
| Report.Where | src/action/report.py:53-59 | the rows kept are exactly the table's rows that pass the filter, each as often as in the table |
| Report.Needles | src/action/report.py:56-58 | one lower-cased needle per whitelist entry |
| Report.KeepSpec | src/action/report.py:47-59 | an empty whitelist keeps every row; otherwise some entry must occur in the item, ignoring case |
| Report.BeforeTotal | src/action/report.py:60 | any two rows are ordered one way or the other |
| Report.BeforeTransitive | src/action/report.py:60 | the report order is transitive |
| Report.Insert | src/action/report.py:60 | inserting adds exactly the one row |
| Report.InsertOrdered | src/action/report.py:60 | inserting into an ordered list keeps it ordered |
| Report.Sort | src/action/report.py:60 | sorting is a permutation |
| Report.TiesComeOutReversed | src/action/report.py:60 | two rows equal on both keys come out in reverse table order |
| Report.SortOrdered | src/action/report.py:60 | the sorted rows are ordered by price descending, then time descending |
| Report.FetchedSpec | src/action/report.py:47-68 | the fetched rows are in report order and are exactly the kept rows, each as often as in the table |
| Report.OrderedPricesDescend | src/action/report.py:60 | a report never lists a lower price before a higher one |
| Report.Cells | src/action/report.py:76 | five cells per row |
| Report.ReportFile | src/action/report.py:70-77 | the header, then one line per row in order |
| Report.DatedFilename | src/action/report.py:92-94 | `report_{type}_{date}.csv` carries the type verbatim and the date of `today` |
| Report.DatedFilenameInjective | src/action/report.py:92-94 | on one day, different report types get different files |
| Report.DatedFilenameSameDay | src/action/report.py:92-94 | two report files of one type share a name exactly when they are dated on the same day |
| Report.CollapseSpace | src/action/report.py:98 | no whitespace is left; a text without whitespace is unchanged |
| Report.CollapseSpaceKeepsWord | src/action/report.py:98 | a piece without whitespace is kept as it is, whatever follows |
| Report.CollapseSpaceRun | src/action/report.py:98 | a maximal run of whitespace becomes one "_" |
| Report.CollapseSpaceStep | src/action/report.py:98 | a word, a whitespace run and a rest give the word, "_" and the collapsed rest |
| Report.KeepWordChars | src/action/report.py:99 | only word characters and hyphens are left; a text of those is unchanged |
| Report.KeepWordCharsAppend | src/action/report.py:99 | the filter on a concatenation is the concatenation of the two filtered parts |
| Report.KeepWordCharsSingle | src/action/report.py:99 | one character is kept exactly when it is a word character or a hyphen |
| Report.Sanitize | src/action/report.py:96-100 | the name is never empty, and is "Unknown" or only word characters and hyphens |
| Report.SanitizeTwoWords | src/action/report.py:96-100 | two words separated by any whitespace become the words joined by "_" |
| Report.SanitizeIdempotent | src/action/report.py:96-100 | the result has no whitespace, and sanitising it again changes nothing |
| Report.WordCharsAreKept | src/action/report.py:98-100 | every character of the result is a word character or hyphen, and not whitespace |
| Report.SanitizeClean | src/action/report.py:97-100 | a non-empty text of word characters and hyphens is left as it is |
| Report.GroupNamesCanCollide | src/action/report.py:36 | "A B" and "A_B" share a report file |
| Report.SpaceBecomesUnderscore | src/action/report.py:98 | the space of "A B" becomes "_" |
| Report.GroupOrder | src/action/report.py:30-35 | the dict's keys are exactly the rows' keys, each once |
| Report.RowsOf | src/action/report.py:33 | a group's list holds exactly the rows with that key |
| Report.BucketsAreRowsOf | src/action/report.py:30-33 | the dict has one entry per key, holding exactly that key's rows in order |
| Report.BucketsCount | src/action/report.py:30-33 | the lists together hold every row exactly once |
| Report.MapSeq | src/action/report.py:34-37 | one path per group, in order |
| Report.WriteAllContent | src/action/report.py:35-37 | distinct names each get their own content, and other files are untouched |
| Report.WriteAllLastWins | src/action/report.py:35-37 | a name written again later holds the later content |
| Report.GroupReportsContent | src/action/report.py:29-38 | every row is reported under its own group ("Direct_Message" for none); with distinct file names each group's file holds exactly its rows |
| Report.CollidingGroupsLastWins | src/action/report.py:35-37 | when group names collide on one file, it holds the report of the last of them |
| Report.ReportGenerator.constructor | src/action/report.py:18-22 | the generator keeps the directory it is given |
| Report.ReportGenerator.FetchSignals | src/action/report.py:47-68 | `_fetch_signals` returns the specified rows, and nothing on a database error |
| Report.ReportGenerator.WriteReport | src/action/report.py:70-80 | the file is replaced by the header and the rows |
| Report.ReportGenerator.GenerateAggregateReport | src/action/report.py:24-27 | writes all rows, in report order, to the dated aggregate file |
| Report.ReportGenerator.GenerateGroupReports | src/action/report.py:29-38 | one path per group in first-seen order, and the specified files |
| Report.ReportGenerator.WriteGroups | src/action/report.py:34-38 | the second loop writes each group's report in order |
| Report.ReportGenerator.BucketRows | src/action/report.py:30-33 | the first loop builds the specified dict and key order |
| Report.ReportGenerator.GenerateTemporaryGoodsReport | src/action/report.py:40-45 | writes the filtered rows to the dated temp-goods file |
| Recorder.HistoryFile | src/action/recorder.py:45-47 | the history file is monthly and never the session file |
| Recorder.SanitizeText | src/action/recorder.py:28-32 | `None` gives ""; the result is one line with no surrounding whitespace; a clean text is unchanged |
| Recorder.LineFeedBecomesSeparator | src/action/recorder.py:28-32 | between two non-empty clean texts, a line feed becomes the separator (space, vertical bar, space) |
| Recorder.CrLfBecomesTwoSeparators | src/action/recorder.py:28-32 | between two non-empty clean texts, a CR LF pair becomes two such separators |
| Recorder.SanitizeTextIdempotent | src/action/recorder.py:28-32 | sanitising twice is sanitising once |
| Recorder.GroupText | src/action/recorder.py:94 | a falsy group gives "Direct Message"; a truthy group gives its sanitised text, so a clean group is kept; the cell is always clean |
| Recorder.ItemText | src/action/recorder.py:97 | the item cell is the sanitised item |
| Recorder.RecordRow | src/action/recorder.py:91-101 | one cell per header |
| Recorder.RecordedTextCellsAreClean | src/action/recorder.py:91-101 | every text cell of a recorded row is a single clean line |
| Recorder.DirectMessageIsClean | src/action/recorder.py:94 | the default group text needs no sanitising |
| Recorder.BlankGroupGivesEmptyCell | src/action/recorder.py:94 | a group of blanks is truthy, so its cell is "" rather than "Direct Message" |
| Recorder.ItemCellIsSanitisedItem | src/action/recorder.py:97 | the Item fallback never fires |
| Recorder.PriceCellEmptyOnlyWhenMissing | src/action/recorder.py:98 | the Price cell is empty only for a missing price; 0 is written |
| Recorder.DualTableRecorder.constructor | src/action/recorder.py:34-77 | the session log is reset to the header; the history log gets a header only when absent |
| Recorder.DualTableRecorder.Save | src/action/recorder.py:79-105 | the same row is appended to both logs |
| Recorder.DualTableRecorder.WriteBoth | src/action/recorder.py:104-105 | both logs grow by the row; the session log stays header plus logged rows |
| Exporter.DailyFilename | src/action/exporter.py:31-32 | `market_log_{date}.csv` carries the date |
| Exporter.DailyFilenameSameDay | src/action/exporter.py:31-33 | two saves share a file exactly when they fall on the same day |
| Exporter.ExportRow | src/action/exporter.py:50-58 | one cell per column |
| Exporter.ExportDefaults | src/action/exporter.py:50-57 | the Group, Item and Price defaults apply exactly when the field is falsy or missing; content is written as is |
| Exporter.AgreesWithRecorderOnCleanFields | src/action/exporter.py:50-58 | on clean fields the daily log and the recorder write the same row |
| Exporter.LineBreakOnlyInDailyLog | src/action/exporter.py:57 | a line break in the content reaches the daily log but never the recorder's |
| Exporter.ExportRows | src/action/exporter.py:50-60 | one row per save, in order |
| Exporter.SameDaySaves | src/action/exporter.py:31-60 | same-day saves give the old content (or one header) followed by one row per save; other files are untouched |
| Exporter.HeaderOnce | src/action/exporter.py:42-43 | starting without the day's file, the header is written exactly once, at the top |
| Exporter.FailedSaveAddsNoRow | src/action/exporter.py:37-67 | a failed save adds no row; the only possible new file is the day's, holding just the header |
| Exporter.HeaderAfterFailureIsReused | src/action/exporter.py:37-67 | after a save that failed once the file was open, the next same-day save gives the directory it would have given anyway |
| Exporter.CsvExporter.constructor | src/action/exporter.py:17-22 | the exporter keeps the directory it is given |
| Exporter.CsvExporter.Save | src/action/exporter.py:24-60 | the header goes first only when the day's file did not exist; the row is appended; on `PermissionError` nothing is written, and on a later exception only the header |

## Left out

- Case mapping: `str.lower`/`str.upper` are modelled for ASCII letters only. Other letters are unchanged.
- SHA-256, regular-expression search, the `\w` class and `str(float)` are function parameters (`digest`, `matches`, `isWord`, `floatRepr`), not implementations.
- Json.NumField: a JSON integer and a JSON float of the same value are one `JNum` real, where `json.loads` gives an `int` for `2810` and a `float` for `2810.0`. So a signal's price, which `process` takes unchanged from the LLM reply (src/engine/processor.py:107), does not record which of the two it was.
- Storage.SignalPayload: because the price is one real, prices that Python prints differently ("2810" and "2810.0") get one payload, one signal id and one price text here. Python hashes two payloads and stores two rows (src/action/storage.py:157), and the recorder and the daily log write two different Price cells (src/action/recorder.py:98, src/action/exporter.py:56). Storage.SignalIdIgnoresOtherFields and Storage.InsertPresentIsNoOp are stated over this merged price.
- Clocks: `datetime.now()` and `time.monotonic()` are parameters. `time.sleep` is the gap between the `t1` and `t2` readings; `Throttle` requires that gap to be at least the delay. `generate_group_reports` reads the clock once per file, so a run across midnight can date its files on two days; the model uses one `today` for all of them.
- I/O, encodings, CSV: files are maps from name to rows. UTF-8 with BOM, CSV quoting, flushing, `mkdir` and `close()` are not modelled.
- Random jitter, the UI library, logging and `print` are not modelled. The decorator `apply_jitter` only sleeps.
- `asyncio` and `httpx` are not modelled: `_call_api` is a function of an abstract HTTP outcome. The system prompt text is not modelled.
- Configuration: `get_settings()` is a `monitorGroups` parameter, and the processor's `Settings` is a value.
- Sender timestamps that are not datetimes: `getattr(msg, 'time', datetime.now())` is modelled as an optional time with the clock as default. A present value that is not a `datetime` is not told apart from a missing one.
- Wrong-typed JSON: a field of the wrong JSON type reads as absent in `FromLlm`.
- SQLite `LIKE`: `%` and `_` inside a whitelist entry are taken literally, and `LOWER` is the ASCII lower case of the model.
- Rows equal on both sort keys: the model puts them in reverse table order (Report.TiesComeOutReversed). SQLite leaves their order unspecified.
- Time cells: a signal timestamp that is not a datetime is written as its `str` text, given by the `Stamp.Other` case.
- Non-string values: `str(text)` on a value that is not a string is not modelled, because all fields are typed.
- Database errors: SQLite errors beyond the foreign-key check are a `fault` flag.
- Report.ReportGenerator.WriteReport: an `OSError` while writing a report is not modelled; the file is always written.
- Partial writes: the recorder's `try/except` around its two `writerow` calls is not modelled, so a write that fails halfway is not represented.
- Storage.SqliteStore.CleanupRawMessages: the cutoff is given as text. SQLite's `datetime('now', '-N days')` is not modelled.
- Report.ReportGenerator.GenerateTemporaryGoodsReport: `_cleanup_temp_reports` (deleting old temp reports by file mtime) is not modelled, because file times are outside the model.
- Storage.UnknownRawIdFailsBatch: requires the batch's ids to be distinct and new, so that the failing tuple is reached rather than ignored.
- Strings.Split: states only a length bound. That each word is non-empty and free of whitespace is not stated.
- Report.Sanitize: its own contract states only the shape of the name. The rule is stated on its steps: Strings.StripTrimsEdges, Report.CollapseSpaceStep, Report.KeepWordCharsAppend and Report.KeepWordCharsSingle, and for two words by Report.SanitizeTwoWords.
- Undeclared signal attributes: the `MarketSignal` dataclass declares only `raw_msg_id`, `intent`, `item`, `price` and `confidence_score`; the model's record also has `specs`, `timestamp`, `group`, `sender` and `raw_content`, read as `None` when unset. In Python, a signal built only by `process` has none of them, so `save_signals` raises `AttributeError` in `_signal_id` (src/action/storage.py:157, outside its `try`), `DualTableRecorder.save` logs the error and writes nothing, and `CsvExporter.save` writes the header of a new day's file and then logs the error. The model assumes the caller has set these attributes.
- `SqliteStore.close` and `DualTableRecorder.close` are not modelled, because they only release handles.
- Behaviour of the code that the model keeps as it is:
  - an empty whitelist rejects every message, because `is_relevant` returns `True` only from its whitelist loop (src/engine/processor.py:67-72; Processor.EmptyWhitelistRejects);
  - with intelligence off, a relevant message gives a `manual_check` signal (src/engine/processor.py:114-118);
  - the keyword fallback always returns a signal, with intent "unknown" and possibly no item (src/engine/processor.py:149-154);
  - `process` returns one signal (src/engine/processor.py:74);
  - `analyze` makes one attempt, with no retry or backoff (src/engine/llm_gateway.py:126-176).

## Findings

| source | as written | input that shows it | evidently intended | confidence | as-written member | corrected member |
|---|---|---|---|---|---|---|
| src/engine/processor.py:99 | `self.llm_gateway.analyze(message.content)` passes one argument, but `analyze` also requires `api_key`, `endpoint_url` and `model` (src/engine/llm_gateway.py:126), so the call raises `TypeError` | any relevant message under the default settings, e.g. "Buy 100 shares of AAPL at $150" | pass the endpoint settings, so that the LLM result, or the fallback when it is empty, decides the signal | not executed | Processor.AsWrittenRaisesOnEveryRelevantMessage | Processor.Process |
