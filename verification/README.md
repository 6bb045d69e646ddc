# yt-monitor in Dafny

yt-monitor watches YouTube channels through their RSS feeds. For each new
video it fetches a transcript, has it summarised, and publishes the summary
as a Trello card or a dashboard row. A startup backfill ("seeder") publishes
the few most recent videos of every channel that have no card on the board
yet. This project models the program's decision logic as pure functions over
immutable values and proves what that logic promises:

- `Store` (database.py) models the SQLite database.
  - The `videos` table is a map from video id to row, plus the rowid order; the `channels` table is a map.
  - Each statement is one function from store to store.
  - The three queries are filters followed by a stable sort on `published_at`, with NULL first ascending and last descending.
- `Channels` (channels.py) models feed scanning.
  - Scanning covers the age filter, storing too-old entries as `skipped`, the error counter for unusable feeds, and the poll over every channel.
  - It also covers the ISO 8601 duration reader.
- `Transcripts` (transcripts.py) models caption fetching.
  - The caption API is called a bounded number of times, with exponential backoff and jitter.
  - Proxies rotate: ones already tried are avoided until the pool is used up.
  - The proxy-list text is parsed into URLs.
- `TrelloBackend` (output/trello_backend.py) covers:
  - the left-to-right scan that pulls 11-character video ids out of card text;
  - the board-wide id set;
  - the configuration check;
  - the card name and description.
- `Output` (output/__init__.py) chooses the backend from its configured name.
- `Seeder` (seeder.py) models the startup backfill.
  - It selects the recent entries and derives each entry's id and URL.
  - It skips videos the board already links or this run already seeded; the local store is never consulted.
  - Each entry runs transcript, summary, publish and store write, in that order.
- `Monitor` (monitor.py) models orchestration:
  - the startup configuration check;
  - `process_video` as status transitions on the store;
  - `run_once` with its shutdown check;
  - when the main loop continues.
- `Text` and `Common` hold the Python string operations and the option and result types the modules share.

Every collaborator is a function-typed parameter that either returns a value or raises with a message. The collaborators are:

- the feed fetch;
- the caption API;
- the summarizer;
- the publish call;
- the board lookup.

Times are integers (seconds). The random draws and the shutdown flag are parameters as well.

## Model

| member | source | states |
|---|---|---|
| Store.EmptyDb | database.py:83-140 | A freshly created database has no videos and no channels and satisfies the table invariants (every row stored under its own id, each id once in the rowid order). |
| Store.UpsertChannel | database.py:148-158 | A new channel gets a row with its name, no check time, error count 0 and enabled. A known channel only has its name replaced. Every other channel row and the whole videos table are unchanged. |
| Store.MarkChannelChecked | database.py:161-166 | The channel's error count becomes 0 and its check time becomes `now`, with its other columns kept. An unknown channel id changes nothing, and no other row changes. |
| Store.IncrementChannelError | database.py:169-174 | The channel's error count grows by exactly one, with its other columns kept. An unknown channel id changes nothing, and no other row changes. |
| Store.IsVideoKnown | database.py:181-187 | A video is known iff its id is among the ids `get_all_video_ids` returns. |
| Store.InsertVideo | database.py:190-208 | Insert-if-absent. A known id leaves the store exactly as it was. A new id adds exactly one row, last in rowid order: the given identity columns, no transcript, summary and output pending, all other columns NULL. The table invariants are kept. |
| Store.UpdateTranscript | database.py:211-224 | Only the tier and text of that row change, to the given values. An unknown id changes nothing. |
| Store.UpdateSummary | database.py:227-244 | Status, text, error and both token counts are overwritten together, with omitted arguments written as NULL. No other column or row changes, and an unknown id changes nothing. |
| Store.UpdateOutput | database.py:247-261 | Status, reference and error are overwritten together. No other column or row changes, and an unknown id changes nothing. |
| Store.MarkVideoSeen | database.py:315-343 | Insert-or-ignore of a finished row: summary done with the text, output done, tier defaulting to 3. An existing row is left alone whatever its state. |
| Store.Query | database.py:266-274 | The rows returned are exactly the stored rows that pass the filter, each once, sorted on publication time. |
| Store.InsertSorted | database.py:272 | Inserting into a sorted list keeps it sorted and adds exactly the new row. |
| Store.SortRows | database.py:272 | The result is sorted, has the same length and the same members, and keeps rows distinct. |
| Store.GetPendingVideos | database.py:264-274 | Exactly the rows whose summary is pending and whose transcript is present, each once, oldest first. |
| Store.GetPendingOutputVideos | database.py:277-287 | Exactly the rows whose summary is done and whose output is pending, each once, oldest first. |
| Store.GetRecentSummaries | database.py:290-301 | At most `limit` summarised rows, each once, newest first. A summarised row is left out only when the limit is reached, and then it is no newer than any row returned. |
| Store.LimitOfSorted | database.py:297-298 | Cutting a newest-first list keeps it sorted and distinct and keeps at most `limit` rows. Whatever is cut comes after everything kept. |
| Store.GetAllVideoIds | database.py:308-312 | Every stored id, each exactly once. |
| Store.InsertIsIdempotent | database.py:199-204 | Inserting an id a second time, with any other column values, changes nothing. |
| Store.KnownAfterInsert | database.py:181-207 | After `insert_video` or `mark_video_seen` the id is known. |
| Store.DeliveredIsNeverPendingOutput | database.py:277-287 | A row whose output is done or failed never appears among the rows pending output. |
| Channels.AgeFilterCutoff | channels.py:73-78 | `IsTooOld`, the model of `_is_too_old`: the filter is off when the limit is 0 or the time is unknown. Otherwise a video is too old iff it was published strictly before `now` minus the limit in days. |
| Channels.TooOldStaysTooOld | channels.py:73-78 | A video too old now is too old at every later time. |
| Channels.ScanEntries | channels.py:117-154 | Entries without an id or with a known id yield nothing and change nothing. Every row added is a skipped row of a feed entry. Every candidate is new, not too old, and read from the feed with title "Untitled" and description "" as defaults. Afterwards every id of the feed is stored or a candidate. |
| Channels.OldEntriesStored | channels.py:129-143 | The scan adds exactly the ids of the unknown entries the age filter rejects, so each is known on every later poll. |
| Channels.ScanSnoc | channels.py:119-154 | Scanning one more entry is one more turn of the loop over the scan so far: the scan reads the feed left to right. |
| Channels.FreshCandidatesMembers | channels.py:119-154 | An entry is among the reference candidates iff it has an id that is not stored, not rejected earlier in the same feed, and not too old. |
| Channels.ScanEmitsFresh | channels.py:119-154 | The candidates the scan returns are exactly the fresh entries of the feed, in feed order, read as candidates. |
| Channels.RescanFindsNothing | channels.py:119-125 | A feed whose ids are all known yields no candidate and leaves the store unchanged. |
| Channels.FetchNewVideos | channels.py:81-162 | A parse exception, or a malformed feed with HTTP status 400 or more, only adds one to the channel's error count and yields nothing. Any other feed is scanned and the channel is marked checked. |
| Channels.FetchOutcome | channels.py:94-161 | A failed fetch leaves the videos and the check time alone and adds one to the error count. A usable fetch resets the count to 0 and records the check time. |
| Channels.InsertCandidates | channels.py:251-259 | Every candidate ends up stored, and only candidates are added, each as a newly discovered row. Existing rows are untouched. |
| Channels.PollOne | channels.py:247-265 | The channel gets a row. Every candidate returned belongs to the channel, was not stored before and is stored afterwards. Every id of a usable feed is stored, and existing rows are untouched. |
| Channels.PollOneEmits | channels.py:247-265 | A failed fetch yields nothing and leaves the videos alone. A usable feed yields exactly its fresh entries in feed order. The store gains exactly the rejected ids and the candidates' ids, and every new id that was not rejected is a newly discovered row of a candidate. |
| Channels.PollChannels | channels.py:247-269 | Every candidate is new to the store and stored afterwards. Existing rows are untouched, and no channel row is lost. |
| Channels.PollChannelsSnoc | channels.py:247-269 | Polling one more channel polls it against the store the earlier channels left, and appends its candidates after theirs. |
| Channels.PollAppendsFresh | channels.py:247-269 | The candidates of a poll are those of the channels before, then the fresh entries of the last channel's usable feed, or nothing when its fetch failed. |
| Channels.PollAllChannels | channels.py:234-275 | No configured channels means no change and no candidates. Otherwise every configured channel has a row, every id of a usable feed is stored, and every candidate is new and stored. |
| Channels.PollFoundChannels | channels.py:247-265 | Every candidate belongs to one of the configured channels. |
| Channels.PollCovers | channels.py:247-259 | After a poll every configured channel has a row, and every id of its usable feed is stored. |
| Channels.PollKeepsValid | channels.py:234-275 | A poll keeps the table invariants. |
| Channels.ScanAsWritten | channels.py:119-143 | The loop as written: when it finishes, the result is the scan's. It always finishes when every entry has a title, and it raises only at an unknown too-old entry without a title. |
| Channels.PollAsWritten | channels.py:234-275 | The poll as written. It aborts only when some usable feed holds a too-old entry with an id and no title, and it always completes when none does. A completed poll's result is the poll's. |
| Channels.TitleLessOldEntryStallsPolls | channels.py:129-133 | As written, a recent titled video then a ten-day-old title-less one abort the poll. The first video is stored as pending but never returned, the old one is never stored, and the next poll aborts again. |
| Channels.TitleLessOldEntryStored | channels.py:129-143 | With the title defaulted, the same feeds return the recent video once, store the old one as skipped, and then return nothing. |
| Channels.SecondPollFindsNothing | channels.py:119-143 | Polling the same feeds again, at any later time, finds no candidate: no video is emitted twice. |
| Channels.RepollFindsNothing | channels.py:247-265 | When every id of every usable feed is already stored, a poll finds nothing and leaves the videos table unchanged. |
| Channels.DigitRun | channels.py:222 | The length of the leading run of digits: all digits before it, and a non-digit (or the end) after it. |
| Channels.ParseIso8601Duration | channels.py:217-227 | None exactly for the empty string or text that does not start with "PT". |
| Channels.DurationRoundTrip | channels.py:217-227 | "PT" followed by optional hours, minutes and seconds, written in that order, reads back as their weighted total, with missing parts counted as 0. |
| Channels.ReadSpelled | channels.py:222-227 | Reading the optional groups of components written in unit order gives the weighted sum of the components. |
| Channels.ComponentHit | channels.py:222 | A digit run followed by the group's unit is consumed and read as its number. |
| Channels.ComponentMiss | channels.py:222 | A digit run followed by another unit is left for a later group. |
| Channels.TotalHms | channels.py:226-227 | The total is hours·3600 + minutes·60 + seconds, with missing parts counted as 0. |
| Transcripts.Untried | transcripts.py:133 | The available proxies are exactly the pool entries not yet attempted. |
| Transcripts.PickProxy | transcripts.py:125-140 | With proxying off or an empty pool there is no proxy and the attempted set is unchanged. Otherwise the pick is a pool entry, used for both http and https, and recorded as attempted. It is untried when any entry is untried; when every entry was tried, the attempted set restarts from the pick alone. |
| Transcripts.AnyUntriedCanBePicked | transcripts.py:133-138 | Every untried pool entry is the pick for some random draw. |
| Transcripts.BackoffsBounded | transcripts.py:114 | With jitter in [0, 1), the wait after 0-based attempt `i` is at least `backoff_base ** i` and less than one second more. |
| Transcripts.GetTranscript | transcripts.py:66-122 | At most `max_retries` calls, with proxies following the rotation. There is one wait after each transient failure, including the last. Captions end the loop and are returned. A permanent error ends it with None and no further wait. If every call fails transiently the result is None and the last error is remembered. |
| Transcripts.NextWait | transcripts.py:114-119 | The wait after one more failed attempt is appended to the waits so far. |
| Transcripts.CallOnce | transcripts.py:91-98 | One attempt picks the next proxy of the rotation and calls the caption API through it. |
| Transcripts.ScheduleUsesPool | transcripts.py:125-140 | Every call goes direct when proxying is off or the pool is empty, and otherwise goes through a pool entry. |
| Transcripts.ScheduleRotates | transcripts.py:133-139 | Until every distinct pool entry has been used, no proxy is used twice. |
| Transcripts.RotationStep | transcripts.py:133-139 | Before the pool is used up, a pick adds a new distinct proxy to those used since the last reset. |
| Transcripts.LineProxy | transcripts.py:39-46 | A line yields a URL iff, once stripped, it is non-empty and splits into exactly four ':' fields. |
| Transcripts.LineProxies | transcripts.py:39-46 | At most one URL per line. |
| Transcripts.LineProxiesConcat | transcripts.py:39-46 | The URLs of a text's lines are those of each line in turn, in input order: one for a line that yields a URL, none otherwise. |
| Transcripts.ParseProxyList | transcripts.py:38-49 | The URLs of the stripped text's lines in order, or the "no proxies" error exactly when no line yields one. |
| Transcripts.ProxyListRoundTrip | transcripts.py:38-49 | A list written one `ip:port:username:password` entry per line reads back as `http://username:password@ip:port` for each entry, in order. An empty list is an error. |
| Transcripts.LineProxyOfEntry | transcripts.py:43-46 | A line written from plain fields is read back as its proxy URL. |
| Transcripts.ReadLines | transcripts.py:39-46 | The lines of plain entries yield exactly those entries' URLs. |
| TrelloBackend.MatchAt | output/trello_backend.py:25-28 | A match at the start of the text exists iff one of the three URL forms, tried in order, is followed by eleven id characters. Its length ends right after those eleven characters. |
| TrelloBackend.ScanIds | output/trello_backend.py:111-112 | Every id the scan reports is exactly eleven characters from `[A-Za-z0-9_-]`. |
| TrelloBackend.ScannedIdsAreLinked | output/trello_backend.py:111-112 | Every reported id is captured by a match starting somewhere in the text. |
| TrelloBackend.SkipWithoutY | output/trello_backend.py:25-28 | Text without a 'y' contributes no id, since every URL form starts with 'y'. |
| TrelloBackend.ScanAfterPrefix | output/trello_backend.py:25-28 | A URL form followed by an id yields that id, and the scan resumes right after it. |
| TrelloBackend.FirstElevenOnly | output/trello_backend.py:26-27 | Only the first eleven id characters after a URL form are taken, however many follow. |
| TrelloBackend.CardIds | output/trello_backend.py:110-112 | A card's ids are those of its name, then those of its description, a missing field scanned as "". |
| TrelloBackend.ExistingVideoIds | output/trello_backend.py:107-112 | Every id in the board set is exactly eleven characters from `[A-Za-z0-9_-]`. |
| TrelloBackend.ExistingVideoIdsMembers | output/trello_backend.py:108-112 | An id is in the board set `ExistingVideoIds` iff some listed card, active or archived, links it in its name or description. |
| TrelloBackend.MissingKeys | output/trello_backend.py:39-42 | The list is empty iff all three settings are set, and names exactly the empty ones. |
| TrelloBackend.ValidateConfig | output/trello_backend.py:38-46 | Success iff all three settings are non-empty. Otherwise the error is the fixed prefix followed by the missing names joined by ", ". |
| TrelloBackend.CardName | output/trello_backend.py:136 | The card name is '[', the channel name, "] ", then the title. |
| TrelloBackend.CardNameInjective | output/trello_backend.py:136 | When channel names contain no ']', the card name determines both the channel and the title. |
| TrelloBackend.TierLabel | output/trello_backend.py:158-164 | Tiers "1", "2", "3" and "unknown" get their labels, and any other value is shown unchanged. |
| TrelloBackend.FormatDescription | output/trello_backend.py:157-171 | The description opens with the source line carrying the URL and ends with the summary verbatim. |
| TrelloBackend.DescriptionLines | output/trello_backend.py:157-171 | When the URL and tier have no line break, the description's lines are the source line, the quality line with the tier's label, a blank line, the rule, a blank line, and then the summary's lines. |
| Output.GetBackend | output/__init__.py:13-34 | "trello" selects Trello and "dashboard" selects Dashboard, after lower-casing and stripping (`Normalise`). Any other name is an error quoting the name as configured. |
| Output.PaddingIgnored | output/__init__.py:20 | Whitespace around the configured name never changes the backend chosen. |
| Output.CaseIgnored | output/__init__.py:20 | Upper-case letters in the configured name never change the backend chosen. |
| Output.PaddedNormalForm | output/__init__.py:20 | Whitespace around a name does not change its normal form. |
| Output.SameNormalFormSameBackend | output/__init__.py:20-34 | Names with the same normal form select the same backend. |
| Seeder.SliceLength | seeder.py:57 | The length of `entries[:depth]`, with Python's rule for a negative stop. |
| Seeder.AtomIdFallback | seeder.py:60 | `SeedId`, the entry's video id: without `yt_videoid`, an entry whose id is `yt:video:<v>` gets video id `v`. |
| Seeder.SeedEntryOf | seeder.py:60-69 | An entry yields a seed entry iff its derived id is non-empty. The seed entry carries that id, the watch URL for it, the title defaulting to "Untitled" and the channel. |
| Seeder.SeedEntries | seeder.py:59-69 | Every entry with an id is kept, as its seed entry; every kept entry has a non-empty id, its watch URL and the channel, and there are no more of them than entries. |
| Seeder.FetchRecentEntries | seeder.py:52-73 | A failed fetch gives []. Otherwise the result holds at most `depth` entries, taken from the front of the feed, each with a non-empty id and its watch URL. |
| Seeder.IdPositions | seeder.py:59-62 | The positions, from a given one on, of the entries with an id: increasing, and every such entry included. |
| Seeder.SeedEntriesInOrder | seeder.py:59-69 | The seed entries are one per entry with an id, in feed order: the k-th is the seed entry of the k-th such entry. |
| Seeder.RecentEntriesInOrder | seeder.py:52-73 | For a usable fetch, the result is one seed entry per entry with an id among the first `depth` entries, in feed order. |
| Seeder.BoardVideoIds | seeder.py:80-95 | The board's id set for the Trello backend. The empty set when the backend has no board lookup or the lookup fails. |
| Seeder.ProcessSeedEntry | seeder.py:178-212 | Transcript, summary, publish and store write, each reached only when the earlier ones returned. A failure leaves the store unchanged. The publish call carries the entry's id, title, channel name and URL, the summary text and the transcript's tier. A seeded video that was not stored before gets a row with that title, channel, summary text and tier, done and delivered. |
| Seeder.SeededRowIsDelivered | seeder.py:204-212 | A newly seeded video is stored with summary and output done, so the polling loop never processes it. The row holds the entry's title and channel, the summary text and the transcript's tier. |
| Seeder.SeedWork | seeder.py:130-136 | Every queued entry has a non-empty id and its watch URL. |
| Seeder.DecideSeenSet | seeder.py:155-158 | The ids seeded this run are exactly those of the entries decided `Seeded`. |
| Seeder.DecideStable | seeder.py:130-169 | A decision depends only on the entries queued before it and on itself. |
| Seeder.DecideSkipRule | seeder.py:139-166 | `Decide`, the skip loop of `run_seed`: an entry is skipped iff the board links its video or an earlier entry of this run seeded it. Otherwise it is seeded iff every step succeeds. |
| Seeder.SeededOnce | seeder.py:124-157 | No video is seeded twice in one run. |
| Seeder.RunSeed | seeder.py:102-175 | No channels means nothing happens. The decisions are those of the skip rule. The publish calls are `Attempts`: one per processed entry whose transcript and summary returned, in queue order. None is for a video the board already links, and every seeded video was published. Existing rows are untouched, and exactly the seeded videos are added. |
| Seeder.SeedLoop | seeder.py:130-169 | The loop over the queued entries makes the skip rule's decisions, makes exactly the publish calls of `Attempts`, and stores exactly the seeded videos. |
| Seeder.AttemptsProcessed | seeder.py:136-162 | Every publish call of a run is for a queued entry the run processed rather than skipped, so never for a video the board links. |
| Seeder.SeededWasPublished | seeder.py:155-158 | Every video the run seeds was published by it. |
| Seeder.PublishedCardIsRecognised | output/trello_backend.py:125-171 | The card published for a seeded video links that video, so the next board lookup finds it. |
| Seeder.LinkInDescription | output/trello_backend.py:166-171 | A description opening with the source line of a watch URL links that video. |
| Monitor.StartupErrors | monitor.py:58-86 | No error iff the Anthropic key is set, some channel is configured, the backend's check passes, the YouTube API is off or has a key, and the proxy is off or has both credentials. Each error is present iff its condition holds. The line logged for each is `ErrorMessage`, the fixed text of monitor.py:62-81 or the backend's own message. |
| Monitor.RecordPublish | monitor.py:152-157 | Success writes output done with the returned reference and no error. Failure writes output failed with the message and no reference. The row's identity, transcript and summary columns and every other row are unchanged, and an unknown id changes nothing. |
| Monitor.PublishRows | monitor.py:148-157 | Only rows with the video's id are published, and only that row of the store changes. |
| Monitor.PublishOnce | monitor.py:148-157 | Among rows with distinct ids, the loop publishes at most once, and exactly when a row has the video's id. |
| Monitor.SingleMatch | monitor.py:149-157 | A single matching row leaves the store with that row's publish outcome written back. |
| Monitor.PublishStep | monitor.py:147-157 | The video is published iff it is stored with summary done and output pending, and then exactly once. Success writes output done with the returned reference, failure writes output failed with the message. Otherwise nothing changes. |
| Monitor.PublishStepFacts | monitor.py:148-157 | The loop over the pending-output rows publishes the video's row at most once, and iff it is among them. |
| Monitor.SummariseAndPublish | monitor.py:122-157 | The summarizer sees the row as `processing`. A failure writes status failed with the message and publishes nothing. Success writes done with the text and both token counts, then publishes iff the output was pending. |
| Monitor.ProcessVideo | monitor.py:93-157 | Only the video's row changes, and it is published at most once. A published row had its output pending and leaves it done or failed. When nothing is published, the output columns are unchanged. |
| Monitor.TranscriptFailure | monitor.py:102-120 | A failed transcript writes summary failed with "Transcript error: " and the message. The summarizer is not called and nothing is published. |
| Monitor.SummaryStep | monitor.py:108-145 | The transcript's tier and text are stored and the row is `processing` when the summarizer is called. A failed summary is recorded and publishing is skipped. |
| Monitor.Delivery | monitor.py:131-157 | A successful summary is stored with its token counts. The row is published iff its output was pending, and the publish outcome is written. |
| Monitor.ProcessAll | monitor.py:173-177 | Processing videos one after another keeps the table invariants and the set of stored ids. |
| Monitor.ProcessAllStep | monitor.py:173-177 | Processing one more video extends the run over the earlier ones. |
| Monitor.PublishedAtMostOnce | monitor.py:164-182 | Across a cycle no video is published twice, and each published video had its output pending and is left done or failed. An output already done or failed before the cycle is never touched. |
| Monitor.CycleStep | monitor.py:173-177 | Processing one more video keeps the at-most-once invariant. |
| Monitor.RunOnce | monitor.py:164-182 | All channels are polled, then the new videos are processed in order. Processing stops before the first video at which shutdown was requested, and runs to the end otherwise. |
| Monitor.ProcessFound | monitor.py:173-177 | The videos before the stop point are processed in order, exactly as `process_video` does one after another. |
| Monitor.ProcessNext | monitor.py:177 | One `process_video` call extends the processed prefix by one video. |
| Monitor.MainLoop | monitor.py:219-238 | A cycle that raises does not stop the loop. The loop stops only on the shutdown flag, read before or after a cycle, or on a keyboard interrupt, and the stop reason says which. |
| Text.Strip | transcripts.py:39-40 | The result has no whitespace at either end. It is empty iff the text is all whitespace, and text already without outer whitespace is unchanged. |
| Text.StripPaddedFront | output/__init__.py:20 | Whitespace added in front does not change the stripped text. |
| Text.StripPaddedBack | output/__init__.py:20 | Whitespace added at the end does not change the stripped text. |
| Text.LowerConcat | output/__init__.py:20 | Lower-casing distributes over concatenation. |
| Text.SplitJoin | transcripts.py:43 | Joining separator-free pieces with ':' and splitting again gives the pieces back. |
| Text.JoinSplit | transcripts.py:43 | Splitting on ':' and joining back with ':' gives the text back. |
| Text.LastFieldAfter | seeder.py:60 | The last ':' field of a text is what follows its last ':'. |
| Text.DecimalValue | channels.py:226 | Reading back the decimal spelling of a number gives the number. |

## Left out

- SQLite mechanics: connections, WAL and pragmas, commit and rollback, the schema script, `migrate`, the `updated_at` trigger and the timestamp converter. The store is a pure value; `created_at`/`updated_at` are not modelled.
- Network I/O is replaced by parameters that return an outcome:
  - the feed fetch;
  - the caption API;
  - the Webshare download;
  - the Trello HTTP calls;
  - the summarizer.
- The optional YouTube Data API enrichment (channels.py:169-214) is left out, and so is `_parse_published`. A feed entry carries its publication time already parsed. Only the duration reader of the enrichment is modelled.
- `time.sleep`:
  - the retry waits are recorded, not slept;
  - the 0.5-second pause between channels is left out;
  - the 10-second seeder delay is left out;
  - the one-second sleep loop of `main` is left out.
- `random.uniform` and `random.choice` are parameters (`jitters`, `choices`). A choice is taken modulo the number of available proxies, so any available proxy can be the pick.
- Signal handling: the SIGTERM flag is a parameter read at each check (`shutdown`, `before`, `after`).
- Logging and `sys.exit`: the startup check returns the list of errors, and the program exits iff that list is non-empty.
- summarizer.py, config.py, dashboard/app.py, output/dashboard_backend.py and output/base.py are not part of this model. Their values are parameters, and the backends appear only as the abstract publish collaborator.
- Monitor.MainLoop: looks at a bounded number of cycles (`limit`), because the source loop runs forever. `CycleLimit` only marks that the bound was reached.
- The transcript call in monitor.py:103-107 passes `title` and `description`, which `get_transcript` (transcripts.py:66-71) does not accept. The call in seeder.py:184 passes the title as `languages` and then reads `.tier` from the result. Both modules model "get transcript" as an abstract collaborator that returns text and tier or raises, so the model does not reproduce these mismatches.
- The publish call in monitor.py:153 passes the row positionally, while the Trello backend takes keyword arguments only and returns None. Publish is modelled as an abstract call that returns a reference or raises.
- Lower-casing covers ASCII letters only. That is enough for the backend names, since no other character lower-cases to a letter of "trello" or "dashboard". Digits are ASCII digits only.
- Transcripts.LineProxies: Python's `splitlines` also breaks at "\r\n" as one break, while the model splits at each line-break character. The extra empty line this produces is dropped like any blank line, so the URLs are the same.
- Caption timings and waits are reals, not floats.
- Channels.DurationRoundTrip: states the round trip for durations written as `PT[<h>H][<m>M][<s>S]` with decimal numbers. Text with leading zeros or trailing characters is covered only by `ParseIso8601Duration`'s own contract (None iff empty or not starting with "PT").
- TrelloBackend.MissingKeys: states which names are listed, not their order. The order (API key, token, list id) is fixed by the definition.
- Monitor.StartupErrors: states which errors are collected, not their order. The order is fixed by the definition, and the logged lines are `ErrorMessage` of each.
- Channels.ScanEntries: reads a missing title as "Untitled" on the too-old path as well. The source evaluates `entry.title` for its debug line first and raises there (see Findings); `ScanAsWritten` and `PollAsWritten` model that.
- Channels.PollOne: states that a new row is a discovered row of a candidate only for ids no too-old entry of the same feed carries. A feed listing an id first as recent and later as too old returns it as a candidate but stores the skipped row, since candidates are stored only after the scan.
- Clock: one `now` is passed to a whole poll. The source reads `datetime.now` afresh in each `_is_too_old` call and again in `mark_channel_checked`; by `TooOldStaysTooOld` a later reading only rejects more videos.
- Seeder: `_get_trello_video_ids` catching the missing method is modelled as the Dashboard backend, which has no board lookup.

## Findings

| source | as written | input that shows it | evidently intended | confidence | as-written member | corrected member |
|---|---|---|---|---|---|---|
| channels.py:129-133 | The debug line for a too-old video reads `entry.title`, which raises AttributeError for an entry without a title. Neither `poll_all_channels` nor `run_once` catches it; `main` (monitor.py:225-227) logs it and starts the next cycle. | Two channels: the first lists a recent titled video, the second one video ten days old without a title; age limit one day. | Read the title with the "Untitled" default, as the insert right below does, so the old video is stored as skipped and the poll returns the recent one. | medium, not executed | Channels.TitleLessOldEntryStallsPolls | Channels.TitleLessOldEntryStored |
