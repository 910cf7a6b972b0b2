# The run database: queue, stored bodies, walkers and encoders

jkent keeps a scrape in one SQLite file.  Workers claim request rows from it, run
a step on each response, and write back results and new requests in one
transaction; a compactor re-compresses stored bodies in place while they do.  This
project models that database as tables and transitions, together with the
functions its rows depend on, and proves what the code promises about them over
every input, every interleaving and every run, crashes included.

How the source's parts appear here:

- **A table** is the sequence of its rows and an id is a position; captures, whose
  rows are deleted, carry their autoincremented ids.
- **Classes whose methods change fields** are classes whose methods are proved
  against functions of the old state; the theorems are about those functions.
- **A write transaction** is one step.  In `Protocol` and `Compaction` every await
  between transactions is a point where any other worker or task may act.
- **The claim-holder rule.**  The status UPDATEs carry no status guard, so
  `Protocol` makes the rule that keeps them safe part of each step: only the worker
  that holds a live claim settles or retries a row, and rows are released only
  while nobody holds a claim.
- **Outside functions are parameters**: zstd (with `decompress(d, compress(d, x)) ==
  x` and None for an exception), MD5, the key hash, splitting and joining a URL and
  `quote_plus`, the body text, the via text and `str.lower`.  Jitter is any real in
  the drawn interval; clocks are integer milliseconds.

Where the code does not do what its documentation says, the code is modelled and
the difference is a lemma:

- The guard on a recompressed row compares its stamp and its compressed size, and
  `_PendingUpdate` says the size covers two stores within one millisecond unless
  both compress to one length.  It does not: another pass can bring the second body
  to the size the first was read at (`CompactionLimits.SharedStampLosesABody`).
  Bodies are kept exactly when every guarded write that goes through brings the body
  its row holds (`CompactionBodies.BodiesAreKeptIffWritesCarryThem`); that is so when
  stamp and size together never stand for two bodies of a row
  (`CompactionBodies.EveryBodyDecodes`), and so when no two stores of a row share a
  stamp (`CompactionBodies.FreshStampsKeepEveryBody`).
- `RecompressStats.skipped_count` is documented as the rows the pass selected but
  did not rewrite.  It is one page of those left behind, and one more for each time
  a page that moved a row held one (`Recompression.SkipsAreLeftAndRecounts`): with
  less than a page stuck it is the number left exactly when the stuck rows come last,
  behind a whole number of pages (`Recompression.SkippedCountIsWhatIsLeft`), and with
  a page or more stuck it can fall short
  (`Recompression.FullPageCountsOnlyItself`).  One table for either case:
  `Recompression.StuckOnALaterPageOvercounts`, `Recompression.FullStuckPageUndercounts`.
- `CompressionDictCache.latest` is documented to map a step to its newest
  dictionary.  It does exactly while no dictionary of the step has been minted since
  the entry was chosen (`Compaction.LatestIsNewestUnlessMinted`); a lookup overtaken
  by a training, or two trainings that seed in the other order, leave an older one
  (`CompactionLimits.LatestCanBeStale`, `CompactionLimits.CrossedTrainingsCacheTheOlder`).
  That is harmless (`Compaction.CacheIsHarmless`).
- `_row_round_trips` holds of a row exactly when none of its dictionaries spells two
  keys alike, as 1 and "1" are (`RequestRows.RowIsFixedPoint`); after one trip it
  always holds.
- A header spelled twice reaches the wire twice when nothing in the chain is
  permanent, for then nothing is merged (`Headers.ResolvedDistinct`).
- A model or data class referenced twice is elided as a cycle by `_bytes_to_repr`
  (`ReprRewrite.SharedDataClassIsElided`).  It must not fail on what it records, and
  does, exactly when a dictionary with a container for a key is reachable
  (`ReprKeys.FailsIffContainerKeyIsReachable`); of a data class used as a key an
  earlier meeting decides (`ReprKeys.DataClassKeyDependsOnOrder`).
- Lane codes are stable from resume to resume if each resume stores the list it built
  (`Lanes.CodesAreStable`).  Two resumes over one stored list agree exactly when one
  adds what the other adds first (`Lanes.ResumesAgreeIff`); who stores the list is not
  part of this model.

## Modules

| file | what it holds |
|---|---|
| Protocol, Commits, Budgets, Runs, Settlements, Progress | the queue protocol as a transition system; what its log commits; what its retries cost; the theorems over whole runs; what rows owe to a run's events; what every state can still come to |
| Requests, Staging, Retry, RequestQueue | the requests table in place; one step's staged writes; the backoff; handing requests over |
| Bodies, Recompression, BodyStore | stored bodies and dictionaries; the compaction pass alone; the store in place |
| Compaction, CompactionAlone, CompactionBodies, CompactionLimits | stores, lookups, trainings and passes interleaved; each of them uninterrupted; when bodies are kept; the runs that fall short |
| Graphs, Storable, ReprRewrite, ReprParts, ReprKeys | value graphs; the refusing walk; the rewriting walk; what comes back holds; when its keys make it fail |
| PercentEncoding, UrlParams, Headers | URL and query encoding; parameters folded into a URL; header and cookie layering |
| JsonText, Lanes, RequestRows | JSON text; rate-limit lanes; a request and its row |
| Incidentals | the content-addressed store of captured sub-requests |
| QueryForest, SelectorObserver | what the selector log aggregates to; the observer's linked objects |

## Model

| member | source | states |
|---|---|---|
| CompactionBodies.BodiesAreKeptIffWritesCarryThem | jkent/driver/database_engine/sql_manager/_compression.py:611-688 | Over every interleaving of stores, lookups, trainings, passes and crashes, whatever the stamps, every row decodes to its last stored body throughout if and only if every guarded write that goes through brings the body its row holds |
| CompactionBodies.EveryBodyDecodes | jkent/driver/database_engine/sql_manager/_compression.py:640-667 | Given that no row's stamp and compressed size - what the guard compares - together ever stand for two bodies, each row decodes under the dictionary it records to exactly the body last stored on it |
| CompactionBodies.FreshStampsKeepEveryBody | jkent/driver/database_engine/compression.py:249-261 | In particular when no two stores of one row share a stamp |
| CompactionBodies.VersionsCarry | jkent/driver/database_engine/sql_manager/_compression.py:640-667 | With one body to a stamp and size, whatever passes the guard was read from the body its row holds, however stale its page |
| Compaction.StepKeepsSane | jkent/driver/database_engine/sql_manager/_compression.py:611-688 | Every step, whatever the stamps, keeps every row, page read, pending update and prepared body decodable under a stored dictionary, and every cached entry one that was its step's newest when it was chosen |
| CompactionBodies.WriteKeepsBodiesIffCarries | jkent/driver/database_engine/sql_manager/_compression.py:640-667 | A page of guarded writes keeps every body if and only if each that goes through brings the body its row holds |
| CompactionBodies.BodiesAreWhatWasStored | jkent/driver/database_engine/sql_manager/_responses.py:43-53 | The body recorded for a row changes only by a store of that row or a pre-resolved insert: passes, lookups, trainings and crashes never set one |
| CompactionBodies.RowsAreWhatWasWritten | jkent/driver/database_engine/sql_manager/_compression.py:640-667 | Column by column: a store sets every response column of its row and the stamp, a page of writes puts changed rows on the target and keeps step, response and stamp, and nothing else writes a row |
| CompactionAlone.UndisturbedPage | jkent/driver/database_engine/sql_manager/_compression.py:611-688 | From every state, a page that nothing comes between is read, recompressed and written exactly as the pass alone writes it |
| CompactionAlone.UndisturbedPass | jkent/driver/database_engine/sql_manager/_compression.py:586-699 | From every state a pass on any stored dictionary can be run to the table it settles in, and leaves all else as it was |
| CompactionAlone.UndisturbedCurrentPass | jkent/driver/database_engine/sql_manager/_compression.py:599-605 | Without a dictionary given, onto the step's current one |
| CompactionAlone.UndisturbedStore | jkent/driver/database_engine/storage.py:324-348 | From every sane state a body that zstd compresses can be stored on any row, which then decodes to it, no other row changing |
| CompactionAlone.UndisturbedRows | jkent/driver/database_engine/staging.py:164-171 | Or come with a new row; and a row can be added and stored on empty |
| CompactionAlone.UndisturbedTraining | jkent/driver/database_engine/sql_manager/_compression.py:441-490 | A training that nothing comes between leaves its dictionary the step's newest, and cached |
| CompactionAlone.CrashForgetsTheCache | jkent/driver/database_engine/sql_manager/_compression.py:126-140 | A crash ends every task and forgets the cache, so that each lookup after it finds the newest; the tables stay |
| Compaction.CacheIsHarmless | jkent/driver/database_engine/sql_manager/_compression.py:126-140 | Over every run, whatever the cache holds as a step's latest, newest or not, is a stored dictionary of that step, and what is compressed with it decodes |
| Compaction.LatestIsNewestUnlessMinted | jkent/driver/database_engine/sql_manager/_compression.py:126-140 | Over every run a step's cached entry is its newest dictionary if and only if none of the step has been minted since the entry was chosen |
| Compaction.CachedLookupIsNewestUnlessMinted | jkent/driver/database_engine/sql_manager/_compression.py:126-140 | The entry a lookup writes is the newest if and only if no dictionary of the step was minted since its read |
| Compaction.SeededEntryIsNewestUnlessMinted | jkent/driver/database_engine/sql_manager/_compression.py:484-490 | The entry a training seeds is the newest if and only if no dictionary of the step was minted after its own |
| CompactionLimits.LatestCanBeStale | jkent/driver/database_engine/sql_manager/_compression.py:126-140 | From any database, a lookup whose read is overtaken by a training leaves the older dictionary cached as latest |
| CompactionLimits.CrossedTrainingsCacheTheOlder | jkent/driver/database_engine/sql_manager/_compression.py:484-490 | From any database, two trainings of a step that seed in the other order leave the older dictionary cached as latest |
| CompactionLimits.SharedStampLosesABody | jkent/driver/database_engine/compression.py:249-261 | A run in which a second store lands under the first's stamp at another compressed size, 3 bytes against 2, and the row ends decoding to the first body: the size in the guard is not enough |
| BodyStores.BodyStore.RecompressResponses | jkent/driver/database_engine/sql_manager/_compression.py:558-707 | With whatever the cache holds, the pass ends for every page size; it fails, touching no row, exactly when it has no target; it changes only rows of its step with a response and a body off the target, each by recompressing that body and nothing else; with nothing skipped every body of the step ends on the target; it leaves exactly the settled table, and its counters count what left the off-target set, with its sizes, and every skip |
| BodyStores.BodyStore.CompactPage | jkent/driver/database_engine/sql_manager/_compression.py:611-688 | With nothing else writing, one page's transaction moves exactly the rows on the page that can be moved - each selected, and recompressed - and skips the rest |
| BodyStores.PassTakesAStep | jkent/driver/database_engine/sql_manager/_compression.py:611-699 | A page on which a row moved leaves strictly fewer rows off the target and heads for the same end; one on which none did is the end |
| Recompression.PassOnlyRecompresses | jkent/driver/database_engine/stored_body.py:34-38 | A pass changes a row only if it is of the pass's step, has a response and a body, and records no dictionary or another one; and then decompresses the body under the dictionary recorded, compresses it under the target, measures both, and keeps step, response and stamp |
| Recompression.NothingSkippedAllOnTarget | jkent/driver/database_engine/sql_manager/_compression.py:611-699 | With nothing skipped every body of the step ends on the target |
| Recompression.NothingSkippedIfAllProcess | jkent/driver/database_engine/sql_manager/_compression.py:634-634 | Nothing is skipped if zstd processes every body selected |
| Recompression.CountOffIsSelected | jkent/driver/database_engine/sql_manager/_compression.py:498-514 | `count_off_dictionary` is the number of rows selected |
| Recompression.OtherStepsDoNotCount | jkent/driver/database_engine/sql_manager/_compression.py:75-97 | It does not change when rows of other steps are added |
| Recompression.PageIsTheFirstSelected | jkent/driver/database_engine/sql_manager/_compression.py:516-556 | A page is the selected rows with the least ids, in order, as many as there is room for, each with its columns |
| Recompression.CountersStep | jkent/driver/database_engine/sql_manager/_compression.py:685-688 | Row by row the counters add one, the length of the body and that of its compressed form for each row changed, and nothing for the others |
| Recompression.PageKeepsSettled | jkent/driver/database_engine/sql_manager/_compression.py:611-699 | The rows a pass reaches are the movable ones with less than a page of stuck bodies before them, and every page leaves that set of outcomes unchanged |
| Recompression.NoProgressIsSettled | jkent/driver/database_engine/sql_manager/_compression.py:690-699 | A page of which nothing could be rewritten means that nothing the pass could still reach is left |
| Recompression.SettledKeepsBodies | jkent/driver/database_engine/sql_manager/_compression.py:611-688 | No pass changes what any row decodes to, nor its stamp or step |
| Recompression.FewStuckAreAllLeft | jkent/driver/database_engine/sql_manager/_compression.py:611-699 | If fewer than one page of bodies cannot be processed, a row ends off the target exactly when it cannot be processed |
| Recompression.StuckPageShieldsTheRest | jkent/driver/database_engine/sql_manager/_compression.py:690-699 | Behind a full page of bodies that cannot be processed no row is touched |
| Recompression.NothingSkipped | jkent/driver/database_engine/sql_manager/_compression.py:634-634 | `skipped_count` is 0 exactly when no selected body fails to process, or the page size is 0 |
| Recompression.NothingSkippedNothingLeft | jkent/driver/database_engine/sql_manager/_compression.py:498-514 | With a page size other than 0, `skipped_count == 0` exactly when `count_off_dictionary` is 0 afterwards |
| Recompression.SettledCount | jkent/driver/database_engine/sql_manager/_compression.py:498-514 | `recompressed_count` is the drop in `count_off_dictionary` |
| Recompression.SkipsAreLeftAndRecounts | jkent/driver/database_engine/sql_manager/_compression.py:634-634 | For every table and page size `skipped_count` is one page, or less, of the rows left behind, plus the skips of the pages that moved a row |
| Recompression.SkippedCountIsWhatIsLeft | jkent/driver/database_engine/sql_manager/_compression.py:634-634 | With less than a page of bodies stuck it is the number left behind if and only if those come last, behind a whole number of pages; otherwise it is more |
| Recompression.FullPageCountsOnlyItself | jkent/driver/database_engine/sql_manager/_compression.py:690-699 | With a page or more stuck at least a page is left, of which the last page counts one: exactly when `skipped_count` falls short, and by how much |
| Recompression.StuckOnALaterPageOvercounts | jkent/driver/database_engine/sql_manager/_compression.py:634-634 | A table of four, by pages of two: one row is left and more than one is counted |
| Recompression.FullStuckPageUndercounts | jkent/driver/database_engine/sql_manager/_compression.py:690-699 | A table of two, by pages of one: two rows are left and one is counted |
| Recompression.RecompressChunk | jkent/driver/database_engine/compression.py:285-343 | The chunk loop yields one update for each row that decompresses and recompresses, in order, and counts the others as skipped |
| Recompression.DecompressSamples | jkent/driver/database_engine/compression.py:161-216 | Samples are taken in order, failures skipped, up to exactly the first row with which a taken sample fills the budget |
| Recompression.UpdatesWriteThePage | jkent/driver/database_engine/sql_manager/_compression.py:640-688 | With nothing else writing, no update of a page is lost to the guard, and the totals are those of the rows written |
| BodyStores.BodyStore.WriteUpdates | jkent/driver/database_engine/sql_manager/_compression.py:640-688 | The write loop applies each update whose row still has the stamp and size read, and counts each other as skipped |
| BodyStores.BodyStore.TargetDictionary | jkent/driver/database_engine/sql_manager/_compression.py:586-605 | The dictionary asked for, or the step's current one: cached if it was looked up, else the newest; errors for an unknown id, another step's dictionary, and none |
| BodyStores.BodyStore.GetCompressionDict | jkent/driver/database_engine/sql_manager/_compression.py:102-141 | The lookup answers the entry cached for the step if there is one, stale or negative as it may be, and else the newest stored, which it caches; nothing overtaken, that is the newest |
| BodyStores.BodyStore.GetDictEntryById | jkent/driver/database_engine/sql_manager/_compression.py:143-177 | The dictionary with that id as stored, or None, cached or not |
| BodyStores.BodyStore.CompressResponse | jkent/driver/database_engine/sql_manager/_compression.py:196-247 | What is compressed decompresses to the content under the dictionary id returned, which is the step's current one |
| BodyStores.BodyStore.DecompressResponse | jkent/driver/database_engine/sql_manager/_compression.py:249-289 | An error for a recorded dictionary that is not stored; otherwise zstd's answer under the stored one |
| BodyStores.BodyStore.TrainCompressionDict | jkent/driver/database_engine/sql_manager/_compression.py:441-490 | Training mints the next version - 1, or one more than another of the step, above all of them - which is the step's newest, and caches it, whatever was cached; a failed training leaves everything |
| BodyStores.TrainedIsNewest | jkent/driver/database_engine/sql_manager/_compression.py:441-462 | A minted version is the step's newest, and no other step's newest changes |
| BodyStores.BodyStore.StoreContent | jkent/driver/database_engine/storage.py:324-348 | A stored body reads back as itself, an empty or on-disk one as empty; both sizes are those of what is stored, it is restamped, and no other row changes |
| BodyStores.BodyStore.StoreResponse | jkent/driver/database_engine/sql_manager/_responses.py:28-53 | One UPDATE writes the response columns and the stamp of the row with that id, if there is one |
| BodyStores.BodyStore.LoadContent | jkent/driver/database_engine/storage.py:146-185 | Reads what is stored: nothing without a status, empty for NULL or an empty body, else the body decompressed under the dictionary recorded, and a missing one is undecodable |
| Runs.WritesAreOneAttempts | jkent/driver/database_engine/staging.py:144-179 | Over every run, a request has results or children only once COMPLETED, and they are exactly the results and the new requests of the one buffer committed for it, in order, none partial and none twice |
| Runs.CallbacksRunAfterTheCommit | jkent/driver/database_engine/staging.py:181-192 | Over every run, what has run of an attempt's callbacks is a first part, in order, of those its committed buffer staged |
| Commits.StepReplays | jkent/driver/database_engine/staging.py:144-179 | Every step keeps the tables equal to the replay of the committed buffers and single inserts, one after another |
| Commits.StepKeepsCommits | jkent/driver/database_engine/staging.py:172-179 | Every step keeps committed requests COMPLETED, and no request and no attempt commits twice |
| Commits.StepKeepsAttempts | jkent/driver/database_engine/queue.py:388-425 | Every step keeps attempts apart: each is one worker's, and no live claim's attempt has committed |
| Commits.StepKeepsCallbacks | jkent/driver/database_engine/staging.py:181-192 | Every step keeps: the callbacks run and those still owed make up what was committed |
| Protocol.StepKeepsClaimsExclusive | jkent/driver/database_engine/sql_manager/_requests.py:221-253 | Every step keeps live claims on rows in progress, at most one to a row |
| Protocol.StepCountsBusy | jkent/driver/database_engine/queue.py:388-425 | Every step keeps `in_flight_count` equal to the dequeue calls begun and not returned plus the requests handed over and not done |
| Protocol.StepKeepsAccounts | jkent/driver/database_engine/sql_manager/_requests.py:221-290 | Every step keeps, row by row: claims are retries plus releases plus one if not pending |
| Budgets.StepKeepsBudget | jkent/driver/database_engine/storage.py:262-286 | Every step keeps each row's cumulative backoff within the largest budget of any session so far, sessions opening with parameters of their own |
| Budgets.RetriesAreShares | jkent/driver/database_engine/storage.py:229-286 | Over every run, if every delay of every session from the n-th retry on is at least a share, no row is retried more often than n times and once for each share of the largest budget |
| Budgets.RetriesAreSeconds | jkent/driver/database_engine/storage.py:246-249 | Over every run, with no assumption on the sessions, no row is retried more often than the largest budget has whole seconds |
| Budgets.RetriesAreCapped | jkent/driver/database_engine/storage.py:229-286 | Over every run with one configuration no row is retried more often than n0 + 4 / (1 - jitter) times |
| Runs.RunHolds | jkent/driver/database_engine/queue.py:388-425 | All of these hold in every state of every run, with any number of crashes, restarts and changes of the retry parameters |
| Runs.ZeroCountIsFinal | jkent/driver/database_engine/queue.py:179-197 | A state with no PENDING row and a zero count is final: whatever the pool does, short of a restart or a new seed, no row, result or callback changes again |
| Runs.ClaimsAreConserved | jkent/driver/database_engine/sql_manager/_requests.py:221-290 | Over every run, claims made equal completions plus failures plus retries plus releases plus claims held plus rows stranded |
| Settlements.StatusIsTheEvents | jkent/driver/database_engine/sql_manager/_requests.py:40-58 | Over every run, told by its events, a row is COMPLETED exactly when an event completed it and FAILED exactly when one failed it, never both and neither twice, and its retry count is the number of its retries |
| Settlements.EveryClaimIsSettledOnce | jkent/driver/database_engine/sql_manager/_requests.py:221-290 | Over every run the dequeues that claimed are the completions, failures and retries that happened, the rows releases recovered, the claims held and the rows stranded; as many rows are COMPLETED and FAILED as were completed and failed |
| Progress.NoDeadEnd | jkent/driver/database_engine/sql_manager/_run_metadata.py:186-212 | From every state of every run - after a crash, a release and a worker's start - everything left can be completed, and what was settled stays as it was: no row is ever lost to the queue |
| Progress.CanDrain | jkent/driver/database_engine/queue.py:388-425 | With nothing in progress, an idle worker that waits as long as `seconds_until_next_pending` says can complete whatever is pending |
| Progress.NextCanCommit | jkent/driver/database_engine/staging.py:144-192 | From every reachable state the next request can be committed with whatever its step stages: it is COMPLETED, its results are stored, its new children inserted and all its callbacks run |
| Progress.NextCanSettle | jkent/driver/database_engine/sql_manager/_requests.py:279-389 | It can be completed, failed, or - the budget permitting - put off, and the count comes back to what it was |
| Progress.NextCanBeUnreadable | jkent/driver/database_engine/queue.py:406-440 | One that cannot be read back can be marked FAILED or stay in progress; one that fails validation stays in progress; the count comes back |
| Progress.HolderMay | jkent/driver/database_engine/sql_manager/_requests.py:447-463 | A holder can add to what it has staged or start over, and restamp its row's start and nothing else of it |
| Progress.HolderMayGo | jkent/driver/database_engine/queue.py:239-262 | It can insert a probe by itself, and give up, which strands its row |
| Progress.CanComeBackEmpty | jkent/driver/database_engine/queue.py:388-425 | With nothing ready, or a dequeue that fails, the worker is idle again and nothing has changed |
| Progress.CanReopen | jkent/driver/database_engine/storage.py:114-126 | After a crash the run can be opened again with parameters of its own and seeded |
| Runs.DequeuesAreBounded | jkent/driver/database_engine/storage.py:262-286 | Over every run, beyond the releases each row inserted is dequeued at most once, and once more for each retry the largest budget leaves room for |
| Runs.DequeuesAreSeconds | jkent/driver/database_engine/sql_manager/_run_metadata.py:90-104 | Whatever parameters the sessions ran with: once, and once for each whole second of the largest budget |
| Runs.DequeuesAreCapped | jkent/driver/database_engine/storage.py:229-286 | With one configuration: once, and n0 + 4 / (1 - jitter) times more |
| Runs.RowInvalidStrands | jkent/driver/database_engine/sql_manager/_requests.py:252-253 | A row whose validation fails after the dequeue committed is left in progress with no claim on it |
| Runs.StrandedStays | jkent/driver/database_engine/sql_manager/_requests.py:252-253 | No step but a release takes a row out of that state |
| Runs.ReleaseRecovers | jkent/driver/database_engine/sql_manager/_run_metadata.py:186-212 | A release makes exactly the stranded rows pending and changes nothing else |
| Requests.WaitAgreesWithDequeue | jkent/driver/database_engine/sql_manager/_requests.py:405-445 | At every table and clock the wait is None exactly when nothing is PENDING, 0 exactly when a dequeue would claim, and otherwise the first time at which a dequeue succeeds |
| Requests.NextPending | jkent/driver/database_engine/sql_manager/_requests.py:61-81 | The row claimed is ready, and before every other ready row by priority and then id; None means no row is ready |
| Requests.RequestTable.Dequeue | jkent/driver/database_engine/sql_manager/_requests.py:221-253 | Claims that row - pending, its wait passed, and before all other such rows by priority and then id - which is then in progress from now with all else it had; nothing when no row is ready; no other row changes |
| Requests.RequestTable.Insert | jkent/driver/database_engine/sql_manager/_requests.py:136-219 | Inserts, as a pending row with nothing recorded yet, unless the key is held; resolves to the holder's id otherwise, keeps keys unique, and never reaches the "ignored but no row holds" error |
| Requests.RequestTable.ScheduleRetry | jkent/driver/database_engine/sql_manager/_requests.py:323-389 | Refuses a negative delay and writes nothing; otherwise that row is pending again from now plus the delay, to half a millisecond, with one retry more, the backoff and error given, and all else it had |
| Requests.RetriedRowWaitsItsDelay | jkent/driver/database_engine/sql_manager/_requests.py:323-389 | A retried row is ready exactly from its delay on, to the nearest millisecond |
| Requests.RequestTable.MarkCompleted | jkent/driver/database_engine/sql_manager/_requests.py:279-290 | The row with that id, whatever its status, is COMPLETED now and keeps every other column; no other row changes, and nothing for an unknown id |
| Requests.RequestTable.MarkFailed | jkent/driver/database_engine/sql_manager/_requests.py:40-58 | The row with that id, whatever its status, is FAILED now with that error and keeps every other column; no other row changes, and nothing for an unknown id |
| Requests.RequestTable.RestampRequestStart | jkent/driver/database_engine/sql_manager/_requests.py:447-463 | Only the start of that row moves |
| Requests.RequestTable.SecondsUntilNextPending | jkent/driver/database_engine/sql_manager/_requests.py:405-445 | Nothing exactly when nothing is PENDING, 0 exactly when a dequeue would claim, and otherwise the seconds until the first time at which one does |
| Requests.RequestTable.RestoreQueue | jkent/driver/database_engine/sql_manager/_run_metadata.py:195-212 | Rows in progress are pending again with all they had, the rest is as it was, and the count is the number of rows that were pending or in progress |
| Requests.RunDatabase.Close | jkent/driver/database_engine/sql_manager/_run_metadata.py:214-252 | A close that commits releases, and ends a running run as interrupted now; one that does not leaves a database that the next restore brings to the same rows |
| Requests.FirstEndStands | jkent/driver/database_engine/sql_manager/_run_metadata.py:225-230 | However often the file is closed later, the first end is kept |
| Staging.StagedWrites.Flush | jkent/driver/database_engine/staging.py:144-194 | One transaction adds the results, then exactly the new requests in order, completes the parent, reports the events of the new requests only, and keeps keys unique |
| Staging.InsertedIffNew | jkent/driver/database_engine/sql_manager/_requests.py:136-219 | Within a flush an insert goes through exactly when its key is NULL or occurs neither in the table nor earlier in the buffer |
| Staging.NewIffNoneHasTheKey | jkent/driver/database_engine/sql_manager/_requests.py:136-219 | A staged request is new exactly when its key is NULL, or no row and no earlier staged request has it |
| Staging.FlushedInColumns | jkent/driver/database_engine/staging.py:158-175 | After a flush the parent is COMPLETED now, each added row is pending with nothing recorded yet, and every other row is as it was |
| Staging.InsertAllAppendsTheNew | jkent/driver/database_engine/staging.py:164-173 | Inserting one by one comes to appending the new requests, in order |
| Staging.InsertAllResults | jkent/driver/database_engine/sql_manager/_requests.py:189-219 | Each insert reports whether it was new, and the id of its own row or of a row holding its key |
| Staging.IgnoredResolvesToTheOneRow | jkent/driver/database_engine/sql_manager/_requests.py:94-108 | An ignored insert resolves to the only row with its key |
| Staging.StagedWrites.Reset | jkent/driver/database_engine/staging.py:94-105 | All three buffers are empty, as the protocol allows a claim's holder |
| Staging.StagedWrites.StageRequest | jkent/driver/database_engine/staging.py:115-138 | One request more at the end of its buffer, the others left: what the protocol allows a claim's holder |
| Staging.StagedWrites.StageResult | jkent/driver/database_engine/staging.py:107-109 | One result more at the end of its buffer, the others left |
| Staging.StagedWrites.StageCallback | jkent/driver/database_engine/staging.py:111-113 | One callback more at the end of its buffer, the others left |
| Retry.RetryStore.HandleRetry | jkent/driver/database_engine/storage.py:198-286 | Schedules exactly when the row exists and its backoff and the wait fit the budget, and writes back that total and one retry more: the wait is the base doubled once for each earlier retry, cut to a quarter of the budget, moved by the drawn jitter, at least 1 second and at least the Retry-After |
| Retry.DoubledIsPower | jkent/driver/database_engine/storage.py:236-236 | The base doubled n times is `base * 2**n` |
| Retry.WaitsDouble | jkent/driver/database_engine/storage.py:236-249 | With no jitter drawn and no Retry-After the first wait is the base delay and each above the floor is followed by one twice as long, all between 1 second and a quarter of the budget |
| Retry.ExtremeDraws | jkent/driver/database_engine/storage.py:242-249 | Above the floor the extreme draws give exactly the undrawn wait times 1 + jitter and 1 - jitter |
| Retry.SpreadIsLinear | jkent/driver/database_engine/storage.py:242-249 | A draw in between moves the wait in proportion |
| Retry.FiveRetriesOn | jkent/driver/database_engine/storage.py:236-240 | With a base of 1 second and an hour's budget: 32 seconds after five retries, 15 minutes after ten |
| Retry.CheckedConfig | jkent/driver/database_engine/storage.py:114-126 | The constructor accepts exactly positive bounds and a jitter in [0, 1) |
| Retry.ScheduledIsSumOfDelays | jkent/driver/database_engine/storage.py:229-286 | After any failures the cumulative backoff is the sum of the delays, within the budget, each delay at least 1 second and at least its Retry-After |
| Retry.ScheduledIffDelaysFit | jkent/driver/database_engine/storage.py:262-271 | Failures are retried exactly as long as their delays together fit the budget |
| Retry.RetriesAreBounded | jkent/driver/database_engine/storage.py:229-286 | Retries are at most n0 + 4 / (1 - jitter), n0 the first retry whose uncapped delay reaches a quarter of the budget, and at most the budget's whole seconds |
| Retry.FirstCappedExists | jkent/driver/database_engine/storage.py:236-240 | Such an n0 exists for every allowed configuration |
| Retry.FullBudgetIsWithinIt | jkent/driver/database_engine/storage.py:262-271 | A Retry-After equal to the whole budget still gets its one retry, exactly when the drawn wait alone would |
| RequestQueues.RequestQueue.GetNextRequest | jkent/driver/database_engine/queue.py:388-440 | The least ready row is claimed, in progress from now, and the count rises only if it is handed over; a row that fails validation stays in progress, one that cannot be read back is FAILED now with the message if it can be marked and stays in progress otherwise; no other row changes |
| RequestQueues.RequestQueue.RequestDone | jkent/driver/database_engine/queue.py:188-197 | The count falls by one, and never below zero |
| RequestQueues.RequestQueue.InsertRootRequest | jkent/driver/database_engine/queue.py:239-287 | Refused exactly when the payload is; without deduplication it always inserts; what is read back of its row is the request as stored |
| RequestRows.FixedPointAfterOneTrip | jkent/driver/database_engine/queue.py:118-144 | Read back and written again, the row of every request reaches a fixed point after one trip |
| RequestRows.RowIsFixedPoint | jkent/driver/database_engine/queue.py:118-144 | The row is a fixed point from the start if and only if no dictionary the request carries spells two keys alike |
| RequestRows.TripParsesTheRow | jkent/driver/database_engine/queue.py:264-386 | One trip fails exactly for an empty step name, and otherwise changes a row only by reading its JSON text once: URL, body, headers, cookies, permanent layer, priority, key, lane and flags stay |
| RequestRows.RequestComesBack | jkent/driver/database_engine/queue.py:458-539 | A worker gets back the request enqueued: the parameters in the URL's query after the one it had, a stream as its bytes, an empty form as none, the priority or 9, the key asked for or the hash, NULL as the opt-out, one type flag, the default lane unset, all else its own |
| RequestRows.RowTells | jkent/driver/database_engine/queue.py:270-386 | What every column of a row says of the request it was written from: type, URL with its parameters, body and form flag, lane code, priority, key and the rest |
| UrlParams.FoldedCarries | jkent/common/request.py:227-254 | Folding leaves a URL without parameters as it is, and else joins it again from its own parts with the query it had, an ampersand, and the raw bytes made sendable or the pairs encoded |
| UrlParams.EncodedInOrder | jkent/common/request.py:227-254 | Fields are encoded in the order given, joined by one ampersand, whatever empty lists stand among them |
| UrlParams.ListsAreRepeated | jkent/common/request.py:230-232 | A list is its name repeated with each of its values |
| UrlParams.EmptyListsAddAnAmpersand | jkent/common/request.py:243-254 | A mapping of nothing but empty lists is still folded in: it leaves the URL an ampersand, if it had a query |
| RequestRows.RefusedAtEnqueue | jkent/driver/database_engine/queue.py:264-386 | Enqueue fails exactly for a nameless step, a body stream that cannot be read again, an undeclared lane or a key of another type |
| RequestRows.BodyAgain | jkent/driver/database_engine/queue.py:541-574 | Whatever the body was, it decodes, and encodes again to what one reading makes of its text, with the same form flag |
| RequestRows.PairsAreUnpacked | jkent/driver/database_engine/queue.py:541-574 | A stored list is decoded item by item as Python unpacks a pair - a list of two, a text of two characters, an object of two names - or not at all |
| RequestRows.FormComesBack | jkent/driver/database_engine/queue.py:541-574 | A form or pair list comes back as itself, read once, and non-empty still |
| RequestRows.ConstructedAgain | jkent/common/request.py:551-582 | Building a request from its own parts merges nothing more |
| RequestRows.OwnWinsOverPermanent | jkent/common/request.py:627-658 | A request's own headers and cookies win over the permanent ones, name by name, and without permanent ones are left as they are |
| RequestRows.BuiltRequestsWrite | jkent/common/request.py:551-582 | Every request, once built, is one whose row these theorems are about, with the priority asked for, or 1 for an archive request, or 9 |
| RequestQueues.KeyedComesBack | jkent/driver/database_engine/queue.py:239-262 | A row whose key was cleared reads back as the request that opts out |
| JsonText.ParsedFixedPoint | jkent/common/serialization.py:227-244 | Text read back is the text written exactly when no object in it names a member twice |
| JsonText.ParsedTwice | jkent/common/serialization.py:227-244 | Reading what was read changes nothing more |
| JsonText.GatheredInOrder | jkent/common/serialization.py:227-244 | An object that names members twice is read as one with each name once, where it first appears, with its last value |
| JsonText.IntAndStringKeyCollide | jkent/common/serialization.py:169-192 | The keys 1 and "1" write one name twice, and the first value is lost |
| Lanes.DecodeEncode | jkent/common/rate_limits.py:272-326 | A lane is refused exactly when undeclared, and its code decodes to it, the default lane to unset |
| Lanes.EncodeDecode | jkent/common/rate_limits.py:272-326 | A code decodes exactly when it is in the table, and what it decodes to encodes to it |
| Lanes.FreshTable | jkent/common/rate_limits.py:106-107 | Without a stored list the codes are 0 for the default, 1 for no limit, and then the lanes in the order declared |
| Lanes.TableRefuses | jkent/common/rate_limits.py:108-125 | A stored list that does not start with the reserved pair is refused as none; otherwise exactly one that holds a lane no longer declared, naming those |
| Lanes.ResumeKeepsCodes | jkent/common/rate_limits.py:80-125 | A resume keeps every stored lane at its code whatever the order declared now, adds the new ones, and is refused exactly when a stored lane is no longer declared |
| Lanes.CodesAreStable | jkent/common/rate_limits.py:214-257 | Over any number of resumes, each storing its list, a code written earlier decodes to the lane it was written for |
| Lanes.ResumesAgreeIff | jkent/common/rate_limits.py:80-125 | Two resumes over one stored list give the first's codes the same lanes if and only if the lanes the first adds are, in order, the first ones the second adds |
| Lanes.UnstoredCodesMove | jkent/common/rate_limits.py:80-125 | Over a stored list without lanes, two lanes declared later trade codes when declared in the other order |
| Headers.MergeHeaders | jkent/common/headers.py:10-34 | The nested loop and the second dictionary come to the merge function the laws below are about |
| Headers.MergeLookup | jkent/common/headers.py:30-34 | The explicit side wins, name by name, with its own spelling |
| Headers.MergeAssociative | jkent/common/headers.py:30-34 | Merging is associative: names, order, spelling and values |
| Headers.MergeAbsorbs | jkent/common/headers.py:30-34 | `merge(p, merge(p, h)) = merge(p, h)`, order and spelling included |
| Headers.MergeIsNormalizedConcatenation | jkent/common/headers.py:30-34 | A merge is the concatenation with one entry per name, and has at most one entry per name |
| Headers.NormalizedInOrder | jkent/common/headers.py:30-34 | Each name stands once, where it first appears, with its last spelling and value |
| Headers.ConstructedTwice | jkent/common/request.py:551-582 | A request built again from its own parts carries the same headers |
| Headers.ResolvedOwn | jkent/common/request.py:713-753 | Along any chain of `resolve_from` the headers are one merge of every permanent layer in chain order and the request's own |
| Headers.ResolvedLookup | jkent/common/request.py:713-753 | A name has its own explicit value, else that of the nearest request in the chain that set it permanently |
| Headers.ResolvedDistinct | jkent/common/request.py:627-658 | There is at most one value per case-insensitive name if and only if something in the chain is permanent, or the request itself spells each name once |
| Headers.TwoSpellingsSurvive | jkent/common/request.py:578-582 | A request with two spellings and no permanent layer carries both |
| Headers.CookiesMergeLikeHeaders | jkent/common/request.py:646-656 | Cookie layering is the same merge without case folding, so the laws above hold of cookies |
| PercentEncoding.RequoteUri | jkent/common/request.py:399-435 | The index-driven loop and the final quoting come to one pass over escapes and characters |
| PercentEncoding.TwoPassesAreOne | jkent/common/request.py:414-435 | Unescaping the unreserved and then quoting is one pass |
| PercentEncoding.RequotedMeansTheSame | jkent/common/request.py:399-435 | The same bytes after percent-decoding and the same raw delimiters in the same order: an escaped delimiter never becomes live; what comes out is canonical |
| PercentEncoding.RequotedFixedPoint | jkent/common/request.py:399-435 | The fixed points are exactly the texts with no stray percent sign, no escaped unreserved character and nothing to quote; so requoting is idempotent |
| PercentEncoding.EscapeCaseIsKept | jkent/common/request.py:421-425 | The case of an escape is kept, so equal URLs can stay apart (section 6.2.2.1 of RFC 3986 is not applied) |
| PercentEncoding.CharacterClasses | jkent/common/request.py:387-396 | The character classes are the source's tables, character by character |
| PercentEncoding.HexDigits | jkent/common/request.py:177-179 | And the hexadecimal digits, each at its value |
| PercentEncoding.Utf8IsTheCharacter | jkent/common/request.py:435-435 | What `quote` escapes of a character is the shortest sequence whose bits are the character, as long as its lead byte says |
| PercentEncoding.AccentIsEscaped | jkent/common/request.py:435-435 | A letter outside ASCII goes out as the escapes of its two bytes |
| PercentEncoding.EncodeQueryBytes | jkent/common/request.py:182-224 | The loop over bytes comes to the encoder the laws below are about |
| PercentEncoding.EncodedQueryMeansTheSame | jkent/common/request.py:182-224 | Any byte string becomes sendable and keeps its lenient percent-decoding |
| PercentEncoding.EncodedQueryFixedPoint | jkent/common/request.py:182-224 | The fixed points are exactly the sendable queries, so a second encoding changes nothing |
| PercentEncoding.SendableBytes | jkent/common/request.py:182-224 | Sendable means printable ASCII without space or #, and every percent sign starts a valid escape |
| Storable.RefuseUnstorable | jkent/common/serialization.py:52-117 | On every finite graph, shared or cyclic, the walk ends and refuses exactly when raw bytes, a raw-bytes key or a non-finite float is reachable along the edges it walks - of a model exactly through its extra fields and those not excluded - naming a path that leads to one |
| Storable.ReachesThrough | jkent/common/serialization.py:93-117 | Object by object: a list or set reaches one through an element, a dictionary by a raw-bytes key or through a value, a data class through a field, a model through an extra field or one not excluded, and nothing else does |
| Storable.ReachesAtOnce | jkent/common/serialization.py:77-89 | Of immediate values exactly raw bytes and non-finite floats are refused |
| Graphs.ModelInOrder | jkent/common/serialization.py:104-110 | Both walks take from a model its fields that are not excluded, in order and then its extra ones, and no other; the rewriting walk with their names |
| Graphs.ModelWalks | jkent/common/serialization.py:104-110 | A model is walked to a value exactly when a field not excluded, or an extra one, holds it |
| Graphs.DataClassInOrder | jkent/common/serialization.py:111-117 | A data class gives all its fields, in order |
| Graphs.DictWalks | jkent/common/serialization.py:93-97 | A dictionary is walked to its values and its raw-bytes keys, and to nothing else |
| Graphs.DictWalksInOrder | jkent/common/serialization.py:93-97 | Item by item, a raw-bytes key before its value |
| Graphs.DictInOrder | jkent/common/serialization.py:157-161 | The rewriting walk takes keys and values, alternating, in order |
| Storable.Walker.Refuse | jkent/common/serialization.py:52-117 | Nothing leaves the visited set, no container is entered twice, and an object newly entered is walked whole unless something is refused |
| Storable.ClearedLeadsToCleared | jkent/common/serialization.py:52-117 | What a finished walk has cleared leads only to what it has cleared |
| Storable.NonFiniteKeyIsNotRefused | jkent/common/serialization.py:87-99 | A non-finite float used as a key passes: only raw-bytes keys are looked at |
| ReprKeys.BytesToRepr | jkent/common/serialization.py:120-166 | The rewriting ends on every graph with the walk's tree, equal keys merged; with no model or data class for a key it fails if and only if a dictionary with a container for a key is reachable |
| ReprKeys.FailsIffContainerKeyIsReachable | jkent/common/serialization.py:157-161 | That, on every graph, models and data classes elsewhere included |
| ReprKeys.WalkEntersWhatIsReachable | jkent/common/serialization.py:137-166 | From the top the walk rewrites at least once exactly what is reachable, for all its elisions |
| ReprKeys.KeyIsHashableIfMet | jkent/common/serialization.py:142-145 | Where a container key is met it can be a key exactly when it was met before and is still in the path set |
| ReprKeys.DataClassKeyDependsOnOrder | jkent/common/serialization.py:146-166 | A list of a data class and a dictionary with it for a key is rewritten, and in the other order fails |
| ReprRewrite.WalkHasNoRawBytes | jkent/common/serialization.py:120-166 | Every value graph comes back as a finite tree without raw bytes |
| ReprRewrite.PlainWalk | jkent/common/serialization.py:120-166 | Over dicts, lists, tuples and sets exactly the references back into the current path are elided, and the path set is left as it was |
| ReprRewrite.PlainIsWholeUnlessCyclic | jkent/common/serialization.py:120-166 | Over those, a value comes back whole exactly when it reaches no cycle, sharing notwithstanding |
| ReprRewrite.NothingIsLost | jkent/common/serialization.py:146-166 | In general, exactly when it reaches no cycle and meets no model or data class twice; what comes back is then the full unfolding, whose parts are the rows below |
| ReprParts.UnfoldingHoldsParts | jkent/common/serialization.py:146-166 | What comes back whole holds, in order, every element of a list or set, every key and value, every field of a data class with its name, and of a model every field not excluded and every extra one, and nothing else |
| ReprParts.WholeHoldsParts | jkent/common/serialization.py:146-166 | So the walk of an object from the top either elides something or holds every part of it |
| ReprRewrite.SharedDataClassIsElided | jkent/common/serialization.py:146-166 | A data class referenced twice is elided the second time though there is no cycle |
| ReprRewrite.CollapseLosesNothing | jkent/common/serialization.py:120-166 | Rewritten keys merge nothing exactly when no two keys of a dictionary share a rewritten form |
| ReprRewrite.FormTellsApart | jkent/common/serialization.py:142-161 | Two rewritten keys are equal only if they are the same, or one is an elided reference and the other the text that stands for it |
| ReprRewrite.PutEntryOverwrites | jkent/common/serialization.py:157-161 | Where two keys share a form the entry keeps its place and first spelling and takes the last value |
| ReprRewrite.ScalarKeysNeverFail | jkent/common/serialization.py:120-166 | With scalar or bytes keys the rewriting never fails |
| ReprRewrite.TupleKeyFails | jkent/common/serialization.py:120-166 | A tuple used as a key makes it fail |
| ReprRewrite.Writer.Rewrite | jkent/common/serialization.py:120-166 | The walk with its set mutated in place, and discarded by the rebound value's identity, comes to the threaded walk |
| Incidentals.RefinesNaiveStore | jkent/driver/database_engine/sql_manager/_incidental_requests.py:65-191 | After any history of batches every capture of a parent's latest batch reads back with its own fetch and its own body, given a digest that tells the stored bodies apart |
| Incidentals.CollidingBodyReadsBackWrong | jkent/driver/database_engine/sql_manager/_incidental_requests.py:171-184 | Two bodies with one digest: the second to arrive reads back as the first |
| Incidentals.HistoryStands | jkent/driver/database_engine/sql_manager/_incidental_requests.py:65-191 | After any history digests are unique, and each parent holds exactly its latest storable batch, in order, each capture on a row with its own digest exactly when it has a body |
| Incidentals.IncidentalStore.ReplaceIncidentalRequests | jkent/driver/database_engine/sql_manager/_incidental_requests.py:122-135 | One transaction replaces the parent's captures by one for each record, in order, with the ids returned, and leaves every other parent's; payloads stored before stay; a body without a digest undoes it, named by the first such record |
| Incidentals.BatchReplaces | jkent/driver/database_engine/sql_manager/_incidental_requests.py:122-135 | That, for any tables: ids, fetches and parents record by record, and the captures of no other parent touched |
| Incidentals.IncidentalStore.Insert | jkent/driver/database_engine/sql_manager/_incidental_requests.py:137-191 | Refused exactly for a body without a digest, before anything is written; otherwise one capture with its own fetch, on a row with its digest exactly when it has a body, and a storage row - its payload and response headers - only for a new digest |
| QueryForest.OneQueryPerKey | jkent/common/selector_observer.py:159-250 | After any calls, two share a query exactly when they ran the same selector under the same parent query |
| QueryForest.AfterPlaces | jkent/common/selector_observer.py:159-250 | Every query is some call's, with the grammar, description and bounds of the first call that made it |
| QueryForest.QueryOfACall | jkent/common/selector_observer.py:189-201 | A query's parent is the query that last returned the element it ran on, and was created before it |
| QueryForest.OwnersAreLast | jkent/common/selector_observer.py:211-217 | An element belongs to the query of the last call whose results include it |
| QueryForest.QueryAggregates | jkent/common/selector_observer.py:203-250 | A query's match count is the total of its calls' results, and its samples are the first `max_samples` of them in order - under a negative limit, its first call's but for the last so many |
| QueryForest.AfterIsRooted | jkent/common/selector_observer.py:246-250 | Each query stands under its parent, or among the roots, in order of creation and so once |
| QueryForest.ChildrenAreListed | jkent/common/selector_observer.py:246-250 | That list names exactly the queries with that parent |
| SelectorObservers.SelectorObserver.RecordQuery | jkent/common/selector_observer.py:159-250 | The linked objects, the counter and both indexes go on being the forest of the calls recorded |
| SelectorObservers.SelectorObserver.ComposeAbsoluteSelector | jkent/common/selector_observer.py:378-424 | The walk up the parents ends, and gives a root's own selector, None for mixed or unknown grammars, and else the path from the root composed in its grammar |
| QueryForest.CssPathsJoin | jkent/common/selectors.py:318-320 | CSS paths compose with a space between them, wherever the path is cut |
| QueryForest.XPathPathsGoOn | jkent/common/selectors.py:518-529 | An XPath path goes on with what follows the dot of a relative selector, and anywhere below for one without a dot |
| QueryForest.TableCells | jkent/common/selector_observer.py:390-394 | `.//tr` under `//table`, and `./td` under that, is `//table//tr/td` |
| QueryForest.AbsoluteIfOneGrammar | jkent/common/selector_observer.py:396-424 | There is none exactly for a chain that mixes grammars, or whose grammar is neither |
| SelectorObservers.SelectorObserver.ParentChain | jkent/common/selector_observer.py:400-409 | Collecting upwards and reversing gives the path from the root |

## Left out

- SQLite, SQLAlchemy, sessions, WAL: a transaction is one step, and one that fails leaves the tables as they were.
- zstd, MD5, SHA-256 and how a dictionary is trained: parameters, with the hypotheses stated above; sampling ids and batching the samples are left out with it.
- Requests.RetriedRowWaitsItsDelay: a delay is a finite real; how SQLite renders a NaN or an infinite one (it makes the start NULL) is not modelled.
- Retry.RetriesAreBounded: delays are reals, so float rounding in the running total is not modelled.
- The worker loop, transports, the circuit breaker, the rate limiter and the speculation engine: represented by the claim-holder rule, and by single inserts for seeds and probes.
- Runs.DequeuesAreBounded: bounds the dequeues by the rows inserted so far; that steps yield finitely many requests is the scraper's affair.
- ReprKeys.FailsIffContainerKeyIsReachable: assumes that no key is a model or a data class - for those the order of meetings decides, which is stated key by key - and that no container is a key of a dictionary it reaches, a dictionary not being hashable.
- Identity reuse: a Python `id` stands for one object throughout a walk or an observation.
- Storable.RefuseUnstorable: the path is a sequence of edges; how it is spelled as text is left out.
- Pydantic coercion and JSON syntax: values are typed as they come out of validation, and text is the tree it spells.
- RequestRows.RequestComesBack: the permanent dictionary's known members and the rest are kept apart, so the order among them is not modelled; `incidental` and `parent_request`, which no row stores, are left out.
- PercentEncoding.RequoteUri: `urljoin` and `urlparse` around it are left out.
- UrlParams.FoldedCarries: parameters are texts, so what `urlencode` makes of a number is left out; that a joined URL splits into its parts again is not assumed.
- QueryForest.QueryAggregates: samples are taken as formatted.
- Archived files on disk, error rows, observability, progress events beyond their order, stubbed requests, run metadata other than status and end.
