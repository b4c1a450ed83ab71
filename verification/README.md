# EGG-API: paging, harvesting, formats and time, verified

EGG-API is a facade over a search index. It pages through the index with cursors, serves it as an OAI-PMH
provider, harvests other providers, imports catalogue files (ISO 2709, EAD), caches searches by an index epoch,
and keeps sessions, one-time tokens, schedules and rate limits. This project models that logic in Dafny and proves
what it guarantees over whole runs, with everything outside (network, clocks, randomness, the search engine) as
parameters. `dafny verify dfyconfig.toml` checks it all.

How the modules build on each other:

- **Harvest.** `Json`, `Base64Url` and `Cursor` are the codecs; `SearchEngine` is the index with its total order;
  `Adapter` translates queries; `PublicSearch` is numbered and cursor paging of `/v1/search`, `ChangingSearch` the
  cursors while the index changes; `OaiProvider` and `OaiHarvest` are the two ends of the OAI-PMH protocol.
  `HarvestWalk` proves the protocol from what one page promises, `HarvestProtocol` shows that the provider's pages
  promise it. `Batching`, `Ingest` and `BulkIndex` are the way into the backend. `Gathering` says what it is for one list to
  be made of the pieces of many items, one behind the other.
- **ISO 2709.** `Marc` is the parser, `MarcMeaning` tells on the bytes alone what it makes of them, `MarcRoundTrip` is the
  printer and the round trip.
- **Time as text.** `IsoTime` is the calendar and `isoformat`; `UiSessions`, `SetupOtps` and `Scheduler` decide by
  comparing text and are proved against instants; `SchedulerRuns` is the scheduler over whole runs of ticks. They use
  `isoformat` only through `Format.OrdersByTime`, which `IsoTime.IsoOrdersByTime` proves of it.
- **Cache.** `QueryPolicy` admits a query and `QueryMeaning` tells on the parameters alone what it says; `CanonicalJson` and
  `CacheKey` give its key; `HttpCache` is the conditional
  request; `EpochProtocol` is the interleaving of searches and ingests.
- **Limits.** `Windows`, `SlidingWindow`, `FixedWindow`, `Lockout` and `Retry`.
- **EAD.** `Ead` is the walk, `EadContent` tells on the elements what its documents say, `EadTree` is the way back to the tree, `EadIndex` what the index keeps of it, `EadPromises`
  what the importer's description adds.

Code that updates state is a class or a method, proved against a function of the old state; the theorems about whole
runs are about that function. What each of these functions computes is stated a second time without it, on the input
alone: on the records of the replies, the elements, the bytes, the parameters, the clock. `Wrappers`, `Text`, `Decimal` and `Query` are shared.

## Where the code does not do what its documentation says

Each line names the lemma with the exact condition, and one with an input that fails where there is one.

- `_request` is documented to raise once the retries are exhausted. A 5xx on the last allowed call is returned
  instead, and a 5xx past the deadline raises although the comment there says it is surfaced
  (`Retry.KeptFailingRaisesIff`, `Retry.ExhaustionReturns500`, `Retry.DeadlineRaises`).
- `ingest` of OAI-PMH promises that the remaining pages keep streaming when a chunk fails. An exception from
  `bulk_index` ends the run: everything is sent exactly when it raises on no chunk but possibly the last
  (`Batching.KeepsStreamingIff`, `Batching.RaiseLosesRest`).
- The scheduler is documented to ignore a source with no schedule or no `next_run_at`. Only the second matters: a source
  without a schedule runs at the first tick that reaches its slot and is then wiped
  (`SchedulerRuns.UnscheduledRunsExactly`, `SchedulerRuns.IgnoredIff`, `SchedulerRuns.UnscheduledDoesRun`). Both routes
  that add sources set a slot only with a schedule (app/admin_api/imports.py:109, app/admin_ui/routes.py:662-667), so
  only a direct caller of `add_import_source` or `set_import_source_schedule` can make such a row.
- Ticks that run a source are a cadence apart; the recorded `started_at` times need not be
  (`SchedulerRuns.RecordedStartsApartIff`, `SchedulerRuns.RecordedHalfAnHourApart`).
- The epoch is documented to move with every committed write. When the bulk call raises after the backend has
  committed, it does not, and a 304 can confirm a body without that batch: exactly when such a raise came between the
  body and its confirmation (`EpochProtocol.ReflectsEndedIff`, `EpochProtocol.StaleAfterRaise`).
- The lockout counts a 401 when it is answered, so requests in flight together can exceed the threshold
  (`Lockout.ThresholdHoldsIff`).
- `handle` of the OAI provider promises to put every error into its envelope. Two kinds of request make it raise, and
  with a backend that is up no others do: a list request with a token of the provider's form around text that is no
  position, and a request for one record whose lookup raises (`OaiProvider.RaisesIff`, `OaiProvider.ForeignCursorRaises`).
  What counts as a token and as a position is left to Python and the search engine, which must only take back what they
  have handed out.
- The changelog takes the repository id of OAI identifiers from the configuration (CHANGELOG.md:267-268). There is no
  such field, and unknown ones are forbidden (app/config/models.py:42), so the id is always `egg-api`. It has no colon,
  which is exactly what an identifier needs to lead back to its record (`OaiProvider.OwnIdentifierIff`); a host with a
  port would have one.
- The EAD importer says clients can rebuild the hierarchy from the parent ids. What they find is the index, where a
  document replaces an earlier one of the same id, so they can exactly when all ids of the finding aid differ
  (`EadIndex.IndexRebuildsIff`, `EadIndex.TwinsLost`). The list of documents as the importer yields it gives a little more:
  it rebuilds the tree exactly when every document after the first has one earlier document with its parent id and no
  more (`EadTree.FlatteningRebuildsIff`); two finding aids can even have the same list (`EadPromises.SameDocsOtherTree`).
- The EAD importer says every component becomes a document, and comments that it never skips the root. There is one
  document for the archdesc and one for each component exactly when the archdesc has a `did` and every component lies in
  the first `dsc`, has a `did` and is reached through components only (`EadPromises.OneDocPerComponentIff`); without a
  `did` of the archdesc there is none at all (`EadPromises.NothingWithoutRootDid`).
- `_best_id` says it falls back to the `@id` of the component. It reads the `did` instead, and the attributes of the
  component never matter (`EadPromises.ComponentIdIgnored`, `EadPromises.ComponentIdLost`).

## Model

| member | source | states |
|---|---|---|
| `Cursor.CursorRoundTrip` | app/adapters/elasticsearch/adapter.py:34-58 | decoding the cursor of any list of JSON sort values gives back that list, through escaping, UTF-8 and unpadded base64url |
| `Cursor.TokenRoundTrip` | app/oai_provider.py:81-98 | decoding the resumption token of any cursor and prefix gives back both, and the token is plain URL-safe text |
| `Cursor.NestedRoundTrip` | app/oai_provider.py:81-98 | the two codecs nest: a token built around a cursor leads back to the sort values |
| `Cursor.CursorText` | app/adapters/elasticsearch/adapter.py:34-43 | inside a cursor is the JSON list of the sort values, without blanks |
| `Cursor.TokenText` | app/oai_provider.py:81-98 | inside a token is the JSON dict of cursor and prefix under `c` and `m` |
| `Cursor.StrictIsFaithful` | app/oai_provider.py:81-98 | reading exactly what the encoders write is one of the readings all results about foreign tokens hold for: what was encoded is read back, and alphabet characters that are not base64 are refused |
| `Json.LoadsDumps` | app/adapters/elasticsearch/adapter.py:34-58 | every JSON value, printed compactly or spaced, is read back as itself: escapes, surrogate pairs, numbers, nesting |
| `Json.DumpsAscii` | app/adapters/elasticsearch/adapter.py:34-43 | the printed text is printable ASCII, so its UTF-8 is one byte a character |
| `Base64Url.TokenRoundTrip` | app/adapters/elasticsearch/adapter.py:34-58 | every byte string survives encoding with its padding stripped, since the padding is restored from the length |
| `Base64Url.GroupMeans` | app/adapters/elasticsearch/adapter.py:34-43 | the four characters of a group and its three bytes spell the same 24 bits |
| `Base64Url.SextetMeans` | app/adapters/elasticsearch/adapter.py:34-43 | the alphabet is the URL-safe one of RFC 4648, section 5, in its order |
| `SearchEngine.Engine.RankedSorted` | app/adapters/elasticsearch/adapter.py:329-353 | with the id behind every sort clause the ranking of an index with distinct ids is strictly ordered |
| `SearchEngine.Engine.RankedMeans` | app/adapters/elasticsearch/adapter.py:329-353 | an earlier hit has the smaller value of the sort field, or the larger one descending, and of equal values the smaller id |
| `SearchEngine.Engine.BeyondSorted` | app/adapters/elasticsearch/adapter.py:401-404 | behind the position of the k-th hit lie exactly the hits ranked after it |
| `Adapter.ParseSortNames` | app/adapters/elasticsearch/adapter.py:329-353 | a field with `_desc` or `_asc` appended sorts by that field in that direction, whatever the field is called |
| `Adapter.ParseSortPlain` | app/adapters/elasticsearch/adapter.py:329-353 | no name, and `relevance`, sort by score from the best down; a name without a suffix is a field going up |
| `Adapter.QuerySelects` | app/adapters/elasticsearch/adapter.py:366-396 | on any record, the clauses of a query hold exactly when it answers the text if there is one, has one of the values of each filter, agrees with each flag, starts no later than `date_to` and ends no earlier than `date_from` |
| `Adapter.BodyMeans` | app/adapters/elasticsearch/adapter.py:355-411 | the body selects what the query asks for, sorts by its field with the id behind it, and starts at the page offset or behind the position its cursor is read as; it fails exactly where the cursor cannot be read |
| `Adapter.BoundsOverlap` | app/adapters/elasticsearch/adapter.py:377-390 | the two date bounds together ask that some time lies both in the record's interval and in the caller's |
| `Adapter.CollectClauses` | app/adapters/elasticsearch/adapter.py:366-396 | the two clause lists, built step by step; `QuerySelects` says what they select |
| `Adapter.TranslateQuery` | app/adapters/elasticsearch/adapter.py:355-411 | the body `BodyMeans` describes, with size and facets as the caller overrides them; a cursor that cannot be read is refused |
| `Adapter.NumberedPage` | app/adapters/elasticsearch/adapter.py:405-406 | page p is window number p of the ranking |
| `Adapter.CursorPage` | app/adapters/elasticsearch/adapter.py:401-404 | the cursor of a ranked hit yields the window right behind that hit |
| `PublicSearch.NumberedMeans` | app/public_api/routes.py:133-165 | the response to a page reports the number of all hits, the page and its size, the hits that stand in its place of the ranking, and a cursor for the last of them exactly when the page is full |
| `PublicSearch.CursorsFollowPages` | app/public_api/routes.py:155-165 | on an unchanging index the k-th page reached by `next_cursor` is the numbered page k + 1; the chain gets there exactly when the pages before are full, and beyond it numbered pages are empty |
| `PublicSearch.ChainReadsRanking` | app/public_api/routes.py:155-165 | on an unchanging index following `next_cursor` reads the whole ranking in order, every hit once; the chain ends with the first response that is not full |
| `ChangingSearch.ChainDeliversOnce` | app/public_api/routes.py:155-165 | while documents come and go between the requests but none moves within the sort, the `next_cursor` chain delivers no id twice, in sort order, nothing that was not there and matching, and once it has ended everything that was there and matching at each request |
| `ChangingSearch.PageKeepsLaw` | app/adapters/elasticsearch/adapter.py:401-404 | a page behind any position holds matching documents behind it, in sort order, and leaves one out only when it is full and ends before that document |
| `OaiProvider.FirstPage` | app/oai_provider.py:343-407 | a first request with either list verb is answered with the first hundred records, a token exactly when the page is full, and noRecordsMatch on an empty index |
| `OaiProvider.ResumedPage` | app/oai_provider.py:343-407 | with either list verb a token resumes right behind the position it was made from, whatever the index is by then |
| `OaiProvider.FirstRequestAnswered` | app/oai_provider.py:343-407 | every list request without a token gets the error for its fault or the first page: its records, headers only for ListIdentifiers, and a token around the position of the hundredth exactly when there are a hundred |
| `OaiProvider.ResumedRequestAnswered` | app/oai_provider.py:351-407 | whatever the text of its token, a list request with one gets badResumptionToken, cannotDisseminateFormat, the page from the position the token stands for with the token behind it, or an exception when it stands for none |
| `OaiProvider.OtherRequestAnswered` | app/oai_provider.py:410-517 | every request that is no list request gets badVerb, noSetHierarchy, or for GetRecord the error for its fault or the record under the id its identifier stands for |
| `OaiProvider.RaisesIff` | app/oai_provider.py:463-517 | over all requests, the handler raises exactly on a list request whose token is well formed around text that is no position, and where the lookup of one record raises |
| `OaiProvider.ForeignCursorRaises` | app/oai_provider.py:463-517 | a token around alphabet characters that are not base64 makes it raise, however leniently other text is read |
| `OaiProvider.OwnIdentifierIff` | app/oai_provider.py:101-111 | the identifier written for a record is normalized back to its id exactly when the repository id has no colon |
| `OaiProvider.OwnRecordServed` | app/oai_provider.py:410-445 | GetRecord with an identifier the provider has written answers with what the index has under that id |
| `OaiHarvest.IterRecords` | app/importers/oaipmh.py:291-343 | the token loop yields what following the server page by page yields, with the same ending and number of requests; `CrawlIsHarvest` says what that is |
| `OaiHarvest.CrawlIsHarvest` | app/importers/oaipmh.py:291-343 | each request after the first sends back the token of the reply before it; the last reply tells the ending; and the documents are all documents the parser makes of each record of each reply, in order |
| `OaiHarvest.CrawlTerminates` | app/importers/oaipmh.py:295-343 | whatever the server does at most `max_pages` requests are made, and the ceiling is hit exactly when tokens keep coming that long |
| `HarvestWalk.CrawlIsWalk` | app/importers/oaipmh.py:291-343 | a harvest over HTTP delivers what reading the pages by position delivers, tokens and all |
| `HarvestWalk.WalkAscends` | app/importers/oaipmh.py:291-343 | the pages of one harvest together ascend strictly, although the index changes between them |
| `HarvestWalk.WalkComplete` | app/importers/oaipmh.py:291-343 | a record present at every page read and not yet passed is delivered when the harvest completes |
| `HarvestProtocol.PageServed` | app/oai_provider.py:375-407 | each request of the harvester is answered with the page that starts at its position, and the token of its last hit when it is full |
| `HarvestProtocol.PageKeepsLaw` | app/oai_provider.py:242-263 | a page holds records of the index behind its start by ascending id, and what it leaves out comes after a full page |
| `HarvestProtocol.ExactlyOnce` | app/oai_provider.py:343-407 | with arbitrary changes between pages, what is delivered is all documents of each of some records with different ids, each of which was in the index at some request; and every record that stayed is among them if the harvest ends without error |
| `HarvestProtocol.IdentifiersOnce` | app/oai_provider.py:343-407 | the same of following the tokens of ListIdentifiers |
| `HarvestProtocol.FrozenHarvest` | app/oai_provider.py:375-406 | on an unchanging index of n records: all documents of all records in order of their ids, n/100 + 1 pages, success exactly when n < 100 * max_pages, noRecordsMatch when n = 0 |
| `HarvestProtocol.FrozenIdentifiers` | app/oai_provider.py:375-406 | on an unchanging index following the tokens of ListIdentifiers lists every record once, in the same pages |
| `Batching.Run` | app/importers/oaipmh.py:368-396 | the chunks sent are non-empty, full but for the last, and conserve the stream; a failing stream leaves its longest whole-chunk prefix; a raising chunk is full or the leftover and the last one sent; totals are sums |
| `Batching.Determined` | app/importers/oaipmh.py:368-396 | these promises determine the outcome: what is sent, what is counted and the error |
| `Batching.SentAreChunks` | app/importers/oaipmh.py:368-396 | the k-th chunk sent is the k-th slice of the stream of the chunk size |
| `Batching.TotalsCountDocs` | app/importers/oaipmh.py:368-396 | with a backend that stores some documents and counts the others as failed, the totals are how many of each the stream has, whatever the chunk size |
| `Batching.KeepsStreamingIff` | app/importers/oaipmh.py:349-396 | every document is sent exactly when no chunk but possibly the last raises, and no error is reported exactly when none does |
| `Batching.RaiseLosesRest` | app/importers/oaipmh.py:349-396 | a stream of two chunks whose first one raises |
| `Ingest.IngestOai` | app/importers/oaipmh.py:349-396 | an OAI run batches exactly the documents its harvest yields and carries the harvest's ending; it requests every page of the harvest unless a full chunk raises, and then none behind the page that completed that chunk |
| `Ingest.CollectionMoves` | app/importers/oaipmh.py:349-396 | harvesting an unchanging index into a backend that answers reports no error exactly when it holds 1 to 999 999 records, and then all documents of all of them have been sent in order of their ids |
| `Ingest.IngestMarcFile` | app/importers/marc.py:418-457 | a missing or unreadable file is reported; otherwise one document for each parsed record that maps to one is batched, in order |
| `Ingest.CatalogueMoves` | app/importers/marc.py:418-457 | the documents of all printed records of a file are sent, whatever refused chunks lie between them |
| `BulkIndex.Tally` | app/adapters/elasticsearch/adapter.py:523-571 | succeeded and failed items add up to the batch; no items count as all ingested; the count that moves the epoch is positive exactly when some item succeeded or there are none |
| `Marc.SplitRecords` | app/importers/marc.py:118-131 | the chunks, found in one pass; `ChunksMean` says where they are |
| `Marc.ParseRecord` | app/importers/marc.py:149-233 | a chunk yields its record or the error; `ParsedMeans` says which |
| `Marc.IterRecords` | app/importers/marc.py:236-249 | the records of the chunks that parse, in order; the others are passed over |
| `Marc.GetSubfield` | app/importers/marc.py:87-104 | the value of the first subfield of the tag and code that is not empty, field by field, or nothing when there is none |
| `Marc.GetControl` | app/importers/marc.py:106-110 | the value of the first matching field without subfields, or nothing when there is none |
| `MarcMeaning.ChunksMean` | app/importers/marc.py:118-131 | what stands between two terminators is a chunk unless it is empty, and what stands behind the last one unless it is padding |
| `MarcMeaning.ParsedMeans` | app/importers/marc.py:149-233 | a chunk is a record exactly when its leader names a base address in digits and a directory of whole twelve-byte entries ends at the first field terminator, no later than there; its fields are those its entries cut out of the data, in order |
| `MarcMeaning.FieldMeans` | app/importers/marc.py:190-231 | a tag that starts with 00 makes a field of text; any other two indicators and, behind each delimiter, a code and a value |
| `MarcMeaning.RecordsMean` | app/importers/marc.py:236-249 | the records of any bytes are those of its chunks that can be read, in order |
| `MarcRoundTrip.FileRoundTrip` | tests/security/test_sprint25_marc_csv.py:44-79 | a file of printed records with terminated unparseable chunks among them is read back as exactly those records |
| `MarcRoundTrip.UnterminatedRoundTrip` | app/importers/marc.py:118-131 | the same when the last record lacks its terminator |
| `MarcRoundTrip.RecordsAppend` | app/importers/marc.py:118-131 | cutting any file behind a terminator cuts its records there |
| `IsoTime.WrittenOrder` | app/storage/sqlite_store.py:327-334 | `isoformat` texts compare as the instants do, fraction printed or not, for all years 1 to 9999 |
| `IsoTime.IsoOrdersByTime` | app/scheduler.py:58-68 | so `isoformat` is a format on which comparing text is comparing time |
| `IsoTime.DateMeans` | app/storage/sqlite_store.py:327-334 | where year, month and day stand in the text, padded with zeros |
| `IsoTime.TimeMeans` | app/storage/sqlite_store.py:327-334 | where hour, minute and second stand, and the fraction in six digits, left out when it is zero |
| `IsoTime.CalendarMeans` | app/storage/sqlite_store.py:327-334 | the lengths of the months, and four days on both sides of century leap days under their numbers |
| `UiSessions.UiSessionStore.Create` | app/storage/sqlite_store.py:291-302 | adds the row with expiry and activity, as the runs below do; at least one hour |
| `UiSessions.UiSessionStore.GetKeyId` | app/storage/sqlite_store.py:304-343 | answers by TTL and idle limit, deletes a refused row and touches a served one |
| `UiSessions.UiSessionStore.Invalidate` | app/storage/sqlite_store.py:345-348 | deletes exactly the sessions of the key and counts them |
| `UiSessions.UiSessionStore.Delete` | app/storage/sqlite_store.py:350-355 | deletes exactly that session |
| `UiSessions.UiSessionStore.Purge` | app/storage/sqlite_store.py:357-365 | deletes exactly the sessions past their TTL and counts them |
| `UiSessions.LookupMeans` | app/storage/sqlite_store.py:304-343 | on the columns, which may be NULL or empty: past its expiry, or without activity for the idle minutes, a row is refused and deleted; otherwise it is served and touched |
| `UiSessions.RemovalMeans` | app/storage/sqlite_store.py:345-365 | which rows are deleted for a key and by a purge |
| `UiSessions.SessionLifetime` | app/storage/sqlite_store.py:291-364 | in every run a lookup succeeds exactly when the session was minted, never ended, is younger than its hours (at least one), and no gap between lookups reached the idle minutes |
| `UiSessions.RefusedForGood` | app/storage/sqlite_store.py:304-343 | once refused, a session is refused ever after |
| `SetupOtps.SetupOtpStore.Create` | app/storage/sqlite_store.py:407-426 | adds an unspent token with its expiry; at least thirty seconds |
| `SetupOtps.SetupOtpStore.Consume` | app/storage/sqlite_store.py:428-458 | redeems an unspent, unexpired token and marks it spent; any other attempt changes nothing |
| `SetupOtps.SetupOtpStore.Purge` | app/storage/sqlite_store.py:460-467 | deletes exactly the spent and the expired tokens |
| `SetupOtps.ConsumeMeans` | app/storage/sqlite_store.py:428-467 | on the columns: which attempt succeeds and what it writes, and which rows a purge deletes |
| `SetupOtps.RedeemedOnce` | app/storage/sqlite_store.py:407-458 | in every run a redemption succeeds exactly when it is the first attempt and comes before the seconds of the token (at least thirty) are over |
| `Scheduler.ImportStore.ListDue` | app/storage/sqlite_store.py:544-559 | every source due by text comparison, once, the longest due first |
| `Scheduler.DueListMeans` | app/storage/sqlite_store.py:544-559 | each source whose slot text is not behind the instant's, once, in the order of their slots |
| `Scheduler.ImportStore.SetSchedule` | app/storage/sqlite_store.py:561-576 | sets both columns of the row and tells whether it existed |
| `Scheduler.ImportStore.StartRun` | app/storage/sqlite_store.py:583-595 | adds one running row under a fresh id |
| `Scheduler.ImportStore.FinishRun` | app/storage/sqlite_store.py:597-631 | closes that run and stamps its source, and changes nothing else; an unknown run changes nothing |
| `Scheduler.Scheduler.Reschedule` | app/scheduler.py:182-191 | moves the slot one cadence past the tick, or wipes it when there is no cadence |
| `Scheduler.Scheduler.RunOne` | app/scheduler.py:143-180 | whatever the import does its run is closed, and the source as it is by then gets the next slot of the source as listed, if it is still there |
| `Scheduler.Scheduler.RunPending` | app/scheduler.py:126-141 | exactly the due sources run, once each; all others are untouched |
| `Scheduler.NoneLeftRunning` | app/scheduler.py:143-180 | no run a tick starts stays running, even when the import raises |
| `Scheduler.Cadences` | app/scheduler.py:43-51 | an hour, six, a day or a week; any other schedule has no cadence |
| `Scheduler.NextSlot` | app/scheduler.py:182-191 | the next slot is one cadence past the tick, and without a cadence schedule and slot are wiped |
| `Scheduler.RunClosed` | app/scheduler.py:143-180 | a closed run failed exactly when its import raised or returned an error, and records the counts and the message |
| `SchedulerRuns.TickClearsDue` | app/scheduler.py:126-141 | after a tick nothing is due at its instant |
| `SchedulerRuns.RunsExactlyWhenDue` | app/scheduler.py:126-191 | in every run of ticks a scheduled source runs exactly at the first tick of each slot: its first slot has come and every earlier run is a cadence ago |
| `SchedulerRuns.TicksApart` | app/scheduler.py:126-191 | two ticks that run one source are at least its cadence apart |
| `SchedulerRuns.ManualNeverRuns` | app/scheduler.py:126-141 | a source added without a slot is never run |
| `SchedulerRuns.UnscheduledRunsOnce` | app/scheduler.py:182-187 | a source without a cadence runs at most once, even when it was added with a slot |
| `SchedulerRuns.UnscheduledRunsExactly` | app/scheduler.py:126-187 | it runs exactly at the first tick that reaches its slot |
| `SchedulerRuns.UnscheduledDoesRun` | app/scheduler.py:126-187 | a run in which that happens |
| `SchedulerRuns.IgnoredIff` | app/scheduler.py:23-25 | a source is ignored for good exactly when it has no slot, whatever its schedule |
| `SchedulerRuns.StartRecorded` | app/storage/sqlite_store.py:583-595 | the row of each source a tick runs records when its import started |
| `SchedulerRuns.RecordedStartsApartIff` | app/scheduler.py:126-150 | over whole runs, the next recorded start of a source is a cadence later, whatever tick comes next, exactly when this one was not delayed within its tick |
| `SchedulerRuns.RecordedHalfAnHourApart` | app/scheduler.py:126-150 | a run of two hourly sources, one of them recorded as started twice within half an hour |
| `QueryPolicy.CollectFilters` | app/query_policy/engine.py:142-167 | the filters admitted are those within the caps, collected in any order of the parameter set |
| `QueryPolicy.Parse` | app/query_policy/engine.py:62-182 | a request is admitted exactly when every condition on its parameters holds; each error code tells which kind failed while those checked before it held |
| `QueryPolicy.AdmittedIffWithinCaps` | app/query_policy/engine.py:62-182 | a request whose names, numbers and flags can be read is admitted exactly when its query is within every cap of the profile |
| `QueryPolicy.DepthBound` | app/query_policy/engine.py:98-108 | without a cursor from + size never exceeds the depth limit |
| `QueryMeaning.QueryMeans` | app/query_policy/engine.py:62-182 | each field of the query says what its own parameter says: the last value of a repeated one, all values of a facet or filter, numbers and flags as read, the default without one; an empty cursor is none |
| `QueryMeaning.ReadableMeans` | app/query_policy/engine.py:62-88 | a request can be read exactly when every name is one of the route's seventeen, page and size are integers, and both flags are words for yes or no |
| `QueryMeaning.ParseIntMeans` | app/query_policy/engine.py:80-89 | text is an integer exactly when it is digits with one sign or none and blanks around, and then that one |
| `QueryMeaning.ParseBoolMeans` | app/query_policy/engine.py:196-205 | a flag is one of four words for yes or four for no, blanks and case aside, or refused |
| `CanonicalJson.CanonicalDumpsInjective` | app/query_policy/engine.py:184-188 | sorted-key JSON texts are equal exactly when Python finds the values equal: lists item by item, dicts by their members in any order, all the way down |
| `CacheKey.PayloadCanonical` | app/query_policy/engine.py:184-188 | two queries have one payload exactly when they are equal with the filters read as a map |
| `CacheKey.DumpMeans` | app/query_policy/engine.py:184-188 | the dump holds each of the twelve fields of the query once, under its own name |
| `CacheKey.PayloadIgnoresFilterOrder` | app/query_policy/engine.py:142-188 | the order the parameter set is visited in never shows in the payload |
| `HttpCache.MatchesIffHeld` | app/http_cache.py:41-56 | an If-None-Match list matches exactly when it holds the tag, weak prefixes aside |
| `HttpCache.WildcardMatches` | app/http_cache.py:46-56 | `*` matches every tag |
| `HttpCache.EtagMatchesMeans` | app/http_cache.py:41-56 | a header of any text matches exactly when a piece between its commas, blanks aside, is `*` or names what the tag names |
| `HttpCache.DirectiveMeans` | app/http_cache.py:59-62 | shared caches may keep a response only of an open API; a negative age counts as none |
| `HttpCache.SearchTagWeakly` | app/public_api/routes.py:129 | a search tag names one format, one query key and one epoch, also when compared weakly |
| `HttpCache.SearchTagMeans` | app/public_api/routes.py:129 | the tag is weak and holds format, key and epoch between colons |
| `HttpCache.ApplyCacheHeaders` | app/http_cache.py:65-90 | sets both headers and answers 304 exactly on a match; does nothing when caching is off |
| `EpochProtocol.Container.Ingest` | app/dependencies.py:145-160 | commits, then bumps the epoch exactly when something was ingested and nothing raised |
| `EpochProtocol.IngestTakesSteps` | app/dependencies.py:145-160 | run alone it does to epoch and index what the protocol's steps for one ingest do |
| `EpochProtocol.RunKeeps` | app/dependencies.py:131-160 | in every interleaving, replies under the present epoch were made after every bump so far |
| `EpochProtocol.Answers304Iff` | app/public_api/routes.py:125-132 | a search is answered 304 exactly when the client offers a reply to the same query and format made under the present epoch |
| `EpochProtocol.FreshWhenNotModified` | app/public_api/routes.py:125-134 | what a 304 confirms shows every indexed batch whose ingest had returned when the epoch was read |
| `EpochProtocol.BumpRetiresAll` | app/dependencies.py:131-160 | after a bump no reply given before it is ever confirmed again |
| `EpochProtocol.MissedOnlyUnbumped` | app/dependencies.py:145-160 | a confirmed body misses only batches between commit and bump, or whose ingest raised |
| `EpochProtocol.EveryReplyMade` | app/public_api/routes.py:125-134 | every reply a client holds was made by some query of the backend |
| `EpochProtocol.ReplyMeans` | app/public_api/routes.py:125-134 | every reply a client can hold was asked for by a handler that was not answered 304 and got later by the same handler; its epoch counts the bumps before the first of these steps, its body shows the landings before the second |
| `EpochProtocol.UnchangedIs304` | app/public_api/routes.py:125-132 | a client that offers a reply to the same search is answered 304 as long as nothing has been bumped since that reply was asked for |
| `EpochProtocol.ReflectsEndedIff` | app/dependencies.py:145-160 | a confirmed body shows every ended batch exactly when no bulk call raised after committing between its making and its confirmation |
| `EpochProtocol.StaleAfterRaise` | app/dependencies.py:145-160 | a run in which that happens |
| `Windows.DropOldIsKeep` | app/rate_limit/limiter.py:35-36 | popping outdated times off an ordered queue removes all of them and nothing else |
| `SlidingWindow.InMemoryRateLimiter.Allow` | app/rate_limit/limiter.py:32-40 | prunes and decides one subject's queue and leaves the others alone |
| `SlidingWindow.NextMeans` | app/rate_limit/limiter.py:32-40 | what is stored of an ordered queue: its times in the closed window, and the request behind them exactly when they are fewer than the limit |
| `SlidingWindow.AcceptedExactly` | app/rate_limit/limiter.py:32-40 | accepted exactly when fewer than the limit of all acceptances ever made, counted one by one, lie in the closed last window |
| `SlidingWindow.NeverAboveLimit` | app/rate_limit/limiter.py:32-40 | no closed interval of the window's length ever holds more acceptances than the limit |
| `FixedWindow.RedisRateLimiter.Allow` | app/rate_limit/redis_limiter.py:52-72 | one INCR and EXPIRE on the key of the subject's aligned window |
| `FixedWindow.NextMeans` | app/rate_limit/redis_limiter.py:52-72 | the counter of the aligned window goes up by one from what is still alive, dies a window's length from now, and decides by the limit |
| `FixedWindow.KeyInjective` | app/rate_limit/redis_limiter.py:54-55 | one key serves one subject in one window, whatever the subject contains |
| `FixedWindow.CountersTell` | app/rate_limit/redis_limiter.py:52-63 | a counter never dies inside its own window and counts its requests |
| `FixedWindow.WindowAcceptsMin` | app/rate_limit/redis_limiter.py:52-72 | each aligned window accepts exactly the lesser of its requests and the limit |
| `FixedWindow.AtMostTwice` | app/rate_limit/redis_limiter.py:52-72 | any half-open interval of the window's length accepts at most twice the limit |
| `Lockout.PublicAuthLockout.RecordFailure` | app/rate_limit/lockout.py:31-39 | prunes the subject's queue and appends the failure, unless the threshold is 0 |
| `Lockout.PublicAuthLockout.IsLocked` | app/rate_limit/lockout.py:41-51 | locked exactly when the pruned queue reaches the threshold |
| `Lockout.RecordMeans` | app/rate_limit/lockout.py:31-39 | what is stored after a failure: the times of the subject in the half-open window and this one, and the others as they were |
| `Lockout.CheckMeans` | app/rate_limit/lockout.py:41-60 | what is stored after a check: the times of the subject in the half-open window, and the others as they were |
| `Lockout.PublicAuthLockout.Evict` | app/rate_limit/lockout.py:57-60 | drops what is at or before the cutoff |
| `Lockout.PublicAuthLockout.Reset` | app/rate_limit/lockout.py:53-55 | forgets one subject |
| `Lockout.LockedExactly` | app/rate_limit/lockout.py:31-60 | locked exactly when the threshold is not 0 and so many of all failures since the last reset, counted one by one, lie in the half-open last window |
| `Lockout.RefusedExactly` | app/main.py:258-286 | a public request is refused exactly when the last window holds `threshold` 401s of its address |
| `Lockout.OnlyPublicCounts` | app/main.py:258-286 | a path that does not start with /v1/ is never refused and its 401s are never counted |
| `Lockout.FailuresBounded` | app/main.py:258-286 | with c requests of an address at once no half-open window holds more than threshold - 1 + c of its 401s |
| `Lockout.ThresholdHoldsIff` | app/main.py:258-286 | the threshold bounds every window in every run exactly when the address has one request at a time |
| `Lockout.LockEnds` | app/rate_limit/lockout.py:41-60 | a lock ends within one window of the last 401 |
| `Retry.ElasticsearchAdapter.Request` | app/adapters/elasticsearch/adapter.py:206-269 | at most max_retries + 1 calls, ending at the first that must end the loop, with its verdict, the time slept and the time it ended; the rows below say which call that is and what the caller gets |
| `Retry.SleepRange` | app/adapters/elasticsearch/adapter.py:190-204 | a sleep stays within a quarter of the capped backoff |
| `Retry.SleptBound` | app/adapters/elasticsearch/adapter.py:190-204 | r sleeps take at most 1.25 times base * (2^r - 1), and at most 1.25 times r * cap |
| `Retry.EndBound` | app/adapters/elasticsearch/adapter.py:206-269 | with a deadline the loop ends within deadline + 1.25 * cap + the longest call |
| `Retry.LastCallUnique` | app/adapters/elasticsearch/adapter.py:220-262 | the loop has one place to end |
| `Retry.CallMadeIff` | app/adapters/elasticsearch/adapter.py:215-262 | a call is made exactly when the retries allow it and every call before it failed in transport or with a 5xx and ended before the deadline, on the clock of the calls and the sleeps between them |
| `Retry.AnsweredBy` | app/adapters/elasticsearch/adapter.py:223-269 | the last call made decides: its response unless it is a 5xx with retries left, its transport error, its exception, or the reason of the latest transport error before it |
| `Retry.FirstGoodReturned` | app/adapters/elasticsearch/adapter.py:250-262 | the first good response is returned, after retryable failures only |
| `Retry.KeptFailingRaisesIff` | app/adapters/elasticsearch/adapter.py:206-269 | when every call fails it raises exactly if the last allowed call fails in transport or a call before it ends at the deadline or later |
| `Retry.ExhaustionReturns500` | app/adapters/elasticsearch/adapter.py:246-262 | without a deadline a backend that always answers 500 has its last 500 returned |
| `Retry.DeadlineRaises` | app/adapters/elasticsearch/adapter.py:246-269 | past the deadline it raises instead, while calls are left |
| `Ead.ComponentRead` | app/importers/ead.py:126-159 | the reading the walk works with yields a document exactly where `_component_to_doc` does, and the same one |
| `Ead.ComponentTags` | app/importers/ead.py:116 | a component is a `c`, or a `c` with its depth from 01 to 12 |
| `EadContent.ComponentContent` | app/importers/ead.py:126-164 | a component has a document exactly when it has a `did`; its level is its level attribute without blanks around it and `component` only where nothing is left; its title is the text of the first `unittitle` in the first `did`; its id is the unitid, else an attribute of the `did`, else the generated one |
| `EadContent.RootContent` | app/importers/ead.py:246-262 | the root has its level attribute as it stands or `fonds`, no parent, and `archdesc-root` where it has no id |
| `EadContent.RootsFound` | app/importers/ead.py:233-275 | the archdesc is the first child of an `ead` with that name, or the first in reading order of anything else; the walk starts with the children of its first `dsc` |
| `EadContent.WalkDocs` | app/importers/ead.py:267-286 | the walk yields one document for each described component it visits, in order, and a generated id carries its number among all those visited |
| `Ead.Walk` | app/importers/ead.py:267-286 | the recursive walk with its shared counter yields the documents of the described components and counts every component visited, on any reading of components that is `_component_to_doc`'s |
| `Ead.IterEadDocs` | app/importers/ead.py:223-295 | the root document, then the walk of the first `dsc` |
| `Ead.ParentComesFirst` | app/importers/ead.py:267-295 | every document but the first has the id of an earlier one as its parent |
| `Ead.GeneratedIdsDistinct` | app/importers/ead.py:273-279 | all ids generated in one finding aid differ |
| `EadTree.WalkIsPreorder` | app/importers/ead.py:267-286 | the documents are the walked tree in preorder |
| `EadTree.FlatteningRebuildsIff` | app/importers/ead.py:223-295 | in the list as yielded, following the parent ids gives back exactly the walked tree of described components if and only if every later document has exactly one earlier document with its parent id |
| `EadTree.DistinctIdsRebuild` | app/importers/ead.py:223-295 | in particular when all ids differ |
| `EadIndex.IndexedIsStored` | app/adapters/elasticsearch/adapter.py:531-541 | the documents kept are, for each id, the one written last under it |
| `EadIndex.IndexRebuildsIff` | app/importers/ead.py:19-24 | the index gives back the walked tree if and only if no two documents of the finding aid have the same id |
| `EadIndex.TwinsLost` | app/importers/ead.py:19-24 | two siblings with one unitid: the list rebuilds them, the index has lost one |
| `EadPromises.SameDocsOtherTree` | app/importers/ead.py:19-24 | two finding aids with a repeated unitid that differ and flatten to the same documents |
| `EadPromises.OneDocPerComponentIff` | app/importers/ead.py:19-24 | one document for the archdesc and each component below it exactly when the archdesc has a `did` and every component lies in the first `dsc`, has a `did`, and is reached through components only |
| `EadPromises.NothingWithoutRootDid` | app/importers/ead.py:249-262 | without a `did` of the archdesc no document is yielded at all |
| `EadPromises.ComponentIdIgnored` | app/importers/ead.py:126-137 | the id attributes of a component never matter |
| `EadPromises.ComponentIdLost` | app/importers/ead.py:126-137 | a component with an `@id` indexed under a generated id |

## Left out

- XML, HTTP, FastAPI, SQL and the search engine themselves: an OAI page is its records and a token, an EAD document a tree of elements with their trimmed text, the index a finite set of documents with a total order on sort values, tables are maps.
- SHA-256 is a collision-free function with hex output; a session or setup token stands for its digest.
- Cursor decoding of text no encoder produced: how Python reads it (UTF-8 beyond ASCII, characters outside the alphabet, members that are not strings) is a parameter, `Cursor.Readers`, and so is what the search engine accepts as a position (`Engine.place`); `DecodeCursor` and `DecodeToken` are the strict instance.
- Sort tails that are not lists of JSON values.
- MARC text decoding (UTF-8 with a latin-1 fallback) works on one character a byte; a directory number that is not all digits is malformed, where Python's `int` would accept signs, blanks and underscores.
- Record-to-document mapping (Dublin Core, MARC21, UNIMARC, LIDO, CSV) is a function parameter.
- `Ingest.IngestMarcFile`: a raising chunk stands for the exceptions the function catches; any other would leave it.
- `Batching.Run`: the backend's replies are a function of the call number and the chunk.
- `OaiProvider.RaisesIff`: mapping and writing a record is taken not to raise, and a search with a proper position to be answered.
- `QueryPolicy.Parse`: the values in error details are not modelled, and numbers are ASCII digits with a sign and latin-1 blanks around them, where Python's `int` also takes underscores and the digits of other scripts (`page=1_0`).
- `Adapter.TranslateQuery`: the bucket size of the facets is not modelled, because nothing here depends on it.
- `Json.LoadsDumps`: floats are carried as the literals Python prints, so that printing and reading a double gives it back is taken from Python.
- `Marc.ParseRecord`: directory numbers that Python's `int` accepts with signs, blanks or underscores count as malformed, because no writer of the format makes them.
- The engine's result-window limit, shard failures and backend aggregations.
- `Scheduler.Scheduler.RunPending`: admin changes to the tables during a tick are not modelled, and a clock in the last week of year 9999, where Python overflows, is excluded.
- The admin UI's own import run calls `bulk_index` directly and so never moves the epoch; the epoch protocol covers writers that go through `Container.ingest`.
- `EpochProtocol.FreshWhenNotModified`: for one configuration and one process lifetime; a client that sends `*` instead of tags is answered 304 unconditionally. A committed batch is visible to the next search at once; the refresh delay of a real search engine is excluded from the result.
- `FixedWindow.RedisRateLimiter.Allow`: INCR and EXPIRE run at the instant the clock was read, and the fail-open path on Redis errors is left out.
- `Retry.ElasticsearchAdapter.Request`: times are reals, a sleep lasts exactly as long as asked, and reading the clock takes no time.
- `EadIndex.IndexRebuildsIff`: the index is read in the order of writing; no document records its place among its siblings, so a client that sees them in another order gets the tree up to that order.
- `ChangingSearch.ChainDeliversOnce`: a document whose sort value changes between two requests may be missed or repeated, as with any cursor; relevance scores may move when the index changes.
- `Ead.ComponentRead`: of the descriptive fields only level and title are carried.
- API keys, usage events, setup drafts, migrations, configuration, templates, metrics and the command line.
