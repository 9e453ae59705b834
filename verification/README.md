# Verified model of the DeepSee synchronizer and the durable context runtime

This project models the stateful core of a context control plane and proves what it keeps:

- **The DeepSee synchronization protocol.** A source keeps a membership (entity id to score) and an append-only
  log of changes. It serves paged snapshots and a paged change feed that may double, reverse or redeliver events,
  and it may fail any call. A retrying client reads it. The synchronizer bootstraps a membership store from a
  snapshot, then repeatedly fetches, deduplicates, checks the boundary, sorts, folds, publishes, commits its progress
  durably and remembers it. Any of these may die, and the process may restart.
- **The durable snapshot repository.** Promotion, pruning and hydration over four tables in transactions, and the
  versioned context definitions with the three queries that look for the latest version.
- **The refresh scheduler**, the **MCP provider** with its top-k cut, and the **texts** that cross a boundary: SQL
  literal lists and zero-padded numbers, with their scanners.

Code that changes state step by step is modelled as classes and methods with loops (`DeepSeeService`, `Client`,
`StateRepository`, `Store`, `DeepSeeSynchronizer`, `SnapshotRepository`, `ContextCatalog`, `Scheduler`, `Provider`,
`FoldEvents`, `FilterEvents`); each is proved to compute a function of the old state, and the theorems are about
those functions and about whole runs.

## The main results

1. **Sessions refine the log** (`SyncSessions.Session`, `SyncProtocol.RunFaithful`). For every sequence of source
   changes, bootstraps, syncs and restarts, with a fault at any step of any call and with other threads changing the
   source in the middle of a sync, the published store is always the replay of a prefix of the source's log, and
   neither the durable nor the remembered watermark passes that prefix. One more undisturbed sync leaves exactly the
   source's own membership (`SyncSessions.Settle`), and any completed sync what a clean rebuild would
   (`SyncProtocol.CleanRebuild`). Much of this needs no discipline on the log: in every run the members are those of a
   prefix, and so are the scores of all entities whose own events are disciplined (`SyncEntities.RunMembers`).
2. **The stated goal holds exactly under a log discipline.** The synchronizer's module comment promises that an
   incremental sync leaves the store equal to a clean rebuild (`app/connectors/deepsee/synchronizer.py:12-13`). The code
   does not keep that promise for every log: `event.score or 1.0` turns an added score of zero into one, and an `added`
   event does not clear a pending score change, which then overrides the addition when the two are merged.
   `LogDiscipline.UndisciplinedLogs` shows both with concrete logs that the source can emit. `LogDiscipline.DisciplineExact`
   gives the exact condition, over all ways of cutting the log into batches and all prefixes a crash can leave behind,
   and `SyncProtocol.DisciplineNecessary` shows that every log outside it has a run that ends with a wrong store.
   The condition is slightly weaker than asking for a removal between a score change and a later addition: re-adding
   a member is harmless as long as its score stays what it was until it is removed.
3. **No gap** (`ChangeFeed.NoGap`). While events are appended between feed pages, in any delivery order and for any
   page size, what is collected above the boundary is a log prefix that includes all that was there at the first page.
4. **Retries are invisible exactly within the budget** (`DeepSeeClient.RetryTolerated`), which failures are retried, what
   a call costs and how long it sleeps (`DeepSeeClient.CallsByKind`, `DeepSeeClient.PausesExact`), and what a report counts
   (`Delivery.FilterCounts`, `Delivery.QuietCounts`).
5. **Promotion safety, tiling, as-of answers and round trip over all runs** (`SnapshotPruning.RunSound`,
   `SnapshotRuns.RunTiles`, `SnapshotRuns.RunAnswers`, `SnapshotRuns.PromoteThenHydrate`), no event lost from the history
   (`MembershipHistory.NoEventLost`, `SnapshotRuns.RunHistory`), and the exact conditions: `SnapshotTables.IncreasingExact` for versions, `SnapshotPruning.PruneKeepsAnswersExact` for pruning,
   `SnapshotHydration.HydrateExact` for hydration.
6. **When the latest-version queries agree** (`CatalogQueries.QueriesAgreeExact`), for any table that obeys the two
   unique indexes, and for every run of saves and drops (`CatalogQueries.RunAgrees`); when they find
   what was saved (`CatalogQueries.SaveThenFind`); and when the pages of the list
   add up to it (`CatalogPaging.PagesExact`). The latter is about what SQL allows: it leaves the order among equal
   names open for each query, and nothing here says that SQLite makes use of that on rows that did not change.
7. **Scheduler spacing and lateness** (`RefreshScheduler.SpacingExact`, `RefreshScheduler.Lateness`), **the unique best
   k from the provider** (`McpProvider.Provider.Resolve` with `McpProvider.OfMembersBest`), and **round trips of the
   texts** (`WireText.LiteralExact`, `WireText.TagsRoundTrip`, `WireText.PaddedRoundTrip`).

## Reading the model

`World` in `SyncProtocol.dfy` is the protocol state: the source's log, the published store, the durable progress and
the progress in memory. `Syncs` and `Bootstraps` are the steps; `Updated` says what a call that got as far as `Reached`
has changed. The class methods in `Synchronizer.dfy` are proved to take exactly these steps, `SyncSessions.dfy` chains
them into runs. A paged read is a `History`: what the source held when each page was served. `interference` lists what
others do to the source before each coming wire call. A `Fault` names the step at which a call dies, and `failAt` the
statement at which a transaction fails.

Watermarks and event ids are numbers here; `WireText` proves that the padded texts of the wire stand for them
faithfully. Scores are reals. Hashes, score encodings, bitmaps, UUIDs and the clock are values or functions about
which nothing else is assumed; `SnapshotHydration.PromoteHydrate` assumes that decoding gives back the scores of the
promotions at hand, and `Backfill` that new ids are unused and distinct. The membership store comes from a library that is not part of this
model; `MembershipStore` states the contract taken for granted: a delta removes, adds and re-scores, and staging is
invisible until it is committed. `HydrateRow` takes for granted that the store numbers the snapshots it restores into a
context from one on, which is what the version check of hydration meets.

## Model

| member | source | states |
|---|---|---|
| FoldedDelta.FoldEvents | app/connectors/deepsee/synchronizer.py:295-320 | The fold succeeds exactly when no re-score event lacks a score, names the first such event otherwise, and computes the step-by-step `Fold` |
| FoldedDelta.NoneScoreless | app/connectors/deepsee/mock_service.py:139-159 | No event of a log this source can emit is refused by the fold |
| FoldedDelta.FoldShape | app/connectors/deepsee/synchronizer.py:300-317 | The three folded parts read off, entity by entity, from the events since its last removal in the batch |
| FoldedDelta.ReplayShape | app/connectors/deepsee/mock_service.py:139-159 | The source's membership after a batch read off from the same events |
| FoldedDelta.BatchExactAt | app/connectors/deepsee/synchronizer.py:207-235 | The exact condition for one entity, for any store that is right about that entity at the prefix it holds |
| FoldedDelta.BatchMembersAt | app/connectors/deepsee/synchronizer.py:207-235 | Whether an entity is a member comes out right for every legal batch, over any prefix of it |
| FoldedDelta.BatchExact | app/connectors/deepsee/synchronizer.py:207-235 | The delta of a whole batch, applied to a store that already holds any prefix of it, gives the membership after the batch if and only if the batch is foldable |
| FoldedDelta.AdditionsAndRemovals | app/connectors/deepsee/synchronizer.py:300-317 | For any events, additions and removals never overlap; exactly when the other parts do |
| FoldedDelta.PartsDisjoint | app/connectors/deepsee/synchronizer.py:300-317 | In a legal batch removals and score changes do not overlap either |
| FoldedDelta.FoldComposesExact | app/connectors/deepsee/synchronizer.py:295-320 | For any store and any two batches, one delta for both and one for each give the same store if and only if, for each entity that the second does not remove, a score change that sticks in the first is the score that sticks or is last in the second, and one that sticks in the second after an addition in the first is its last |
| LogDiscipline.BatchOfLog | app/connectors/deepsee/synchronizer.py:207-235 | A batch (w, n] brings every prefix between w and n to prefix n if and only if it is foldable |
| LogDiscipline.DisciplineExact | app/connectors/deepsee/synchronizer.py:207-235 | Every batch of a log, over every prefix a crash can leave, synchronizes faithfully if and only if the log is disciplined |
| LogDiscipline.DisciplineExactFor | app/connectors/deepsee/synchronizer.py:207-235 | The same for each entity on its own, whatever happens to the others |
| LogDiscipline.DisciplinedComposes | app/connectors/deepsee/synchronizer.py:295-320 | In a disciplined log folding both halves at once, one after the other, and event by event leave the same store |
| LogDiscipline.UndisciplinedLogs | app/connectors/deepsee/synchronizer.py:302-314 | Two logs the source can emit whose sync leaves a wrong score: an addition with score zero, and a re-scored member added again |
| ChangeFeed.AfterNumbered | app/connectors/deepsee/mock_service.py:194-198 | The feed's watermark filter is the log suffix above the boundary |
| ChangeFeed.PendingGrows | app/connectors/deepsee/mock_service.py:195-202 | Appended events join a forward feed at its end and a reversed feed at its front |
| ChangeFeed.PagesCover | app/connectors/deepsee/synchronizer.py:255-273 | The paging invariant while the source appends: what was collected is everything from some position on, and nothing present at the first page is lost |
| ChangeFeed.SuffixOfArranged | app/connectors/deepsee/mock_service.py:199-202 | A suffix of the delivered order holds exactly the oldest events selected |
| ChangeFeed.PendingAt | app/connectors/deepsee/mock_service.py:194-202 | The feed position by position: all events or those past the boundary, newest first if reversed, each twice in a row if doubled |
| ChangeFeed.QuietFeed | app/connectors/deepsee/synchronizer.py:255-273 | If nothing is appended meanwhile, the pages add up to the feed, in its order |
| ChangeFeed.NoGap | app/connectors/deepsee/synchronizer.py:255-273 | With appends between pages, for every delivery option and page size, the events collected above the boundary are exactly those of a log prefix that includes all present at the first page |
| Delivery.FilterEvents | app/connectors/deepsee/synchronizer.py:275-292 | The filter loop with its set of ids met in the batch computes `Filter`, whose parts `FilterAccounts` and `FilterCounts` say position by position |
| Delivery.FilterAccounts | app/connectors/deepsee/synchronizer.py:275-292 | Delivered = applied + duplicates + out of order; applied ids are distinct, unseen and above the boundary, and no such id is dropped |
| Delivery.FilterCounts | app/connectors/deepsee/synchronizer.py:275-292 | Duplicates are the positions whose id was seen before or taken at an earlier position; out of order are the others at or before the boundary |
| Delivery.SteadyCounts | app/connectors/deepsee/synchronizer.py:284-288 | Once every id up to the boundary was seen, nothing is out of order, and all that is not applied is a duplicate |
| Delivery.BootstrapCounts | app/connectors/deepsee/synchronizer.py:284-288 | With nothing seen, as after a bootstrap, exactly the deliveries at or before the boundary are out of order, redelivered or repeated, and only newer ones count as duplicates |
| Delivery.QuietCounts | app/connectors/deepsee/synchronizer.py:195-209 | When nothing is appended meanwhile, both counts in numbers, from the size of the log, the boundary and the delivery options, for both cases |
| Delivery.SortSorts | app/connectors/deepsee/synchronizer.py:207-207 | The stable sort is ascending and a permutation |
| Delivery.OrderedBatch | app/connectors/deepsee/synchronizer.py:195-209 | Whatever the delivery, the filtered and sorted batch is the log between the boundary and the collected prefix, each event once, in order |
| Delivery.DeliveryIndependent | app/connectors/deepsee/synchronizer.py:195-207 | With the log fixed during the fetch, every delivery option and page size gives the same batch: the log suffix above the boundary |
| SnapshotPaging.SortedIdsList | app/connectors/deepsee/mock_service.py:172-172 | The sorted members are strictly ascending and exactly the members |
| SnapshotPaging.QuietReassembly | app/connectors/deepsee/synchronizer.py:161-183 | From a quiet source, following the cursors yields every member once, in order, with its score |
| SnapshotPaging.QuietPageCount | app/connectors/deepsee/mock_service.py:172-184 | That takes the least number of pages, at least one, that covers the members |
| DeepSeeSource.ActKeeps | app/connectors/deepsee/mock_service.py:139-159 | Every mutation keeps the log numbered and legal, the membership its replay, and only appends |
| DeepSeeSource.ActAllKeeps | app/connectors/deepsee/mock_service.py:139-159 | So does any sequence of mutations |
| DeepSeeSource.LastWord | app/connectors/deepsee/mock_service.py:139-159 | After any turns an entity is a member if the last turn that placed it added it, or it was one and none did; its score is the one last given, by a re-score since, else by that addition, else the one it had |
| DeepSeeSource.EvidenceExact | app/connectors/deepsee/mock_service.py:352-353 | A reference leads back to its entity |
| DeepSeeSource.QueuesAct | app/connectors/deepsee/mock_service.py:126-133 | Queueing failures changes the failure queue, in order, and nothing else |
| DeepSeeSource.DeepSeeService.constructor | app/connectors/deepsee/mock_service.py:89-120 | A new source has its members, an empty log and no failures |
| DeepSeeSource.DeepSeeService.RecordEvent | app/connectors/deepsee/mock_service.py:305-320 | The next number is both id and watermark, and the event is appended |
| DeepSeeSource.DeepSeeService.Add | app/connectors/deepsee/mock_service.py:139-143 | The member gets the given score, and one event says so: its entity, kind and score |
| DeepSeeSource.DeepSeeService.Remove | app/connectors/deepsee/mock_service.py:145-149 | The entity is no member and no other changes, also when it was none; one event without a score says so |
| DeepSeeSource.DeepSeeService.Rescore | app/connectors/deepsee/mock_service.py:151-159 | The member gets the given score, and one event says so; refused without effect exactly for a non-member |
| DeepSeeSource.DeepSeeService.Enqueue | app/connectors/deepsee/mock_service.py:126-133 | The queue is longer by the given count of failures, all of the given kind, at its end |
| DeepSeeSource.DeepSeeService.EnterCall | app/connectors/deepsee/mock_service.py:294-303 | A call is counted, meets the queued failure first, then the missing credential |
| DeepSeeSource.DeepSeeService.Call | app/connectors/deepsee/mock_service.py:165-211 | The answer comes from the state the call meets; a failed call only shortens the queue |
| DeepSeeClient.Retry | app/connectors/deepsee/client.py:166-175 | At most one call and the retries allowed; one delay between calls; a retryable error is only given up on when the retries are spent |
| DeepSeeClient.RetryKeeps | app/connectors/deepsee/client.py:166-175 | Through all retries the source stays consistent and append-only, and a success is served from the state it leaves |
| DeepSeeClient.RetryAlone | app/connectors/deepsee/client.py:166-175 | A call leaves members and log as they were when only failures befall the source |
| DeepSeeClient.RetryInvisible | app/connectors/deepsee/client.py:166-175 | Left alone, a call succeeds if and only if the queued failures are retryable (`CallsByKind` says which are) and within the retries and the call is authorized; it then answers as if none had been queued, for one call more than failures |
| DeepSeeClient.CallsByKind | app/connectors/deepsee/client.py:166-175 | By the kinds of the queued failures: outages, timeouts and rate limits are met one call each until the retries are spent; a rejected credential or an internal error ends the call where it stands; what the call costs and what it answers in each case |
| DeepSeeClient.PausesExact | app/connectors/deepsee/client.py:177-185 | One sleep between two attempts: the 100 ms a rate limit asks for, or the base times two to the attempt number, cut to the cap |
| DeepSeeClient.PausesDouble | app/connectors/deepsee/client.py:177-185 | So sleeps start at the base and double up to the cap, unless a rate limit sets them |
| DeepSeeClient.RetryTolerated | app/connectors/deepsee/client.py:166-175 | Over whole runs: a fetch succeeds and leaves a tolerable course of failures to the later ones if and only if it met a tolerable course itself; for which kinds, see `CallsByKind` |
| DeepSeeClient.RetryDelaysCapped | app/connectors/deepsee/client.py:177-185 | Every delay of a call is within the cap, whatever was slept before |
| DeepSeeClient.RetrySleepBound | app/connectors/deepsee/client.py:166-185 | Whatever was slept before, one fetch adds at most the retries allowed times the cap |
| DeepSeeClient.BackoffDoubles | app/connectors/deepsee/client.py:166-185 | When no queued or coming failure is a rate limit, a call that takes n attempts in all adds, from attempt a on, at most base times (2^(n-1) - 2^a) |
| DeepSeeClient.CheckSnapshot | app/connectors/deepsee/client.py:95-102 | Refused as stale exactly when its data is older than the limit allows; what each other refusal says of the page; a page that passes has the supported key type, and a payload within the size limit and of the supported encoding, or valid ids |
| DeepSeeClient.FirstInvalid | app/connectors/deepsee/client.py:210-220 | Ids pass exactly when none is negative; otherwise the first negative one is named |
| DeepSeeClient.Client.constructor | app/connectors/deepsee/client.py:62-83 | A new client has slept for nothing and counts from now |
| DeepSeeClient.Client.Attempt | app/connectors/deepsee/client.py:168-175 | One attempt moves the call one step along its course |
| DeepSeeClient.Client.CallWithRetry | app/connectors/deepsee/client.py:166-175 | The retry loop leaves exactly the state, the calls, the sleeps and the answer of its course |
| DeepSeeClient.Client.Fetch | app/connectors/deepsee/client.py:166-185 | With tolerable failures only, every fetch succeeds and still leaves tolerable failures; it sleeps within the cap bound, and within the doubling bound for the calls it took |
| DeepSeeClient.Client.FetchSnapshot | app/connectors/deepsee/client.py:89-103 | A returned page is the source's, passed the checks, and is recent enough by the number of events or the fixed stale date; refused as stale only when it is not; undisturbed, it is refused exactly when the checks refuse it |
| DeepSeeClient.Client.FetchChanges | app/connectors/deepsee/client.py:105-116 | A returned batch is the source's page and recent enough, and it is refused as stale only when it is not; undisturbed, it is always returned |
| DeepSeeClient.CallsBounded | app/connectors/deepsee/client.py:166-175 | n fetches cost at most n times (retries + 1) calls |
| SyncState.InsertedSeen | app/repositories/synchronizer_state.py:42-50 | Insert-or-ignore adds exactly the given ids to the context, keeps every recorded watermark, and touches no other context |
| SyncState.InsertedRows | app/repositories/synchronizer_state.py:42-50 | Every event has its row, and a row that was not there before records what one of the events gives for it |
| SyncState.StateRepository.Load | app/repositories/synchronizer_state.py:13-31 | Loads what was saved for the context |
| SyncState.StateRepository.Commit | app/repositories/synchronizer_state.py:33-66 | All or nothing: a failure at any statement leaves both tables as they were, success saves the watermark and adds the ids, each with the watermark of its event |
| MembershipStore.Store.CommitSnapshot | app/connectors/deepsee/synchronizer.py:234-235 | Publishing replaces the context's membership and no other |
| SyncProtocol.AppliedSyncs | app/connectors/deepsee/synchronizer.py:189-253 | Pulling the log between watermark and m and applying it is a sync step, whichever point it reached |
| SyncProtocol.SnapshotBootstraps | app/connectors/deepsee/synchronizer.py:113-159 | Publishing what was read is a bootstrap step when it was read from a quiet source; progress stays covered in any case |
| SyncProtocol.SyncPublishes | app/connectors/deepsee/synchronizer.py:207-235 | Whatever prefix was published before, a sync publishes the replay of all it collected |
| SyncProtocol.StepKeeps | app/connectors/deepsee/synchronizer.py:113-253 | Every step, dying at any point, keeps the store a replayed prefix with both watermarks at or before it |
| SyncProtocol.RunFaithful | app/connectors/deepsee/synchronizer.py:113-253 | So does every run of source changes, bootstraps, syncs, failures and restarts |
| SyncProtocol.IdleComplete | app/connectors/deepsee/synchronizer.py:195-205 | A sync that found nothing proves the store complete |
| SyncProtocol.SyncRepairs | app/connectors/deepsee/synchronizer.py:189-253 | One completed sync repairs any history of failures: the store is the replay of what it collected, the clean rebuild if no change overtook it, and memory and repository agree again |
| SyncProtocol.RefinedRepairs | app/connectors/deepsee/synchronizer.py:189-253 | The same from any state that refines the log |
| SyncProtocol.CleanRebuild | app/connectors/deepsee/synchronizer.py:113-253 | The module's goal: after any history that refines the log, a completed sync leaves the same members, scores and watermark as any completed bootstrap from a source that holds just the events the sync collected |
| SyncProtocol.WatermarkAdvances | app/connectors/deepsee/synchronizer.py:236-245 | A sync that reaches the repository commits a watermark strictly past the remembered one, one that completes remembers it too, and no id is forgotten |
| SyncProtocol.SeenGrows | app/connectors/deepsee/synchronizer.py:236-253 | A completed sync has seen just what was seen before and the ids of the log between the two watermarks, in memory and in the repository; a completed bootstrap sees no new id and moves both watermarks to the end of the log |
| SyncProtocol.DurableAdvances | app/connectors/deepsee/synchronizer.py:113-253 | Whatever a step does or dies of, durable progress never goes back and stays covered by the log |
| SyncProtocol.RunAdvances | app/connectors/deepsee/synchronizer.py:113-253 | Over every run, disciplined or not, the durable watermark never goes back and no durable id is forgotten |
| SyncProtocol.AgreementKept | app/connectors/deepsee/synchronizer.py:236-245 | Memory and repository only part when a call dies between the two |
| SyncProtocol.ShortRun | app/connectors/deepsee/synchronizer.py:113-253 | Bootstrap, changes, sync is a run, and what it publishes |
| SyncProtocol.DisciplineNecessary | app/connectors/deepsee/synchronizer.py:295-320 | Every undisciplined log has a run that ends with a completed sync of all there is and a store that differs from the clean rebuild |
| SnapshotReading.PageServed | app/connectors/deepsee/mock_service.py:165-184 | A served page is the slice of the sorted members at its offset, with scores, evidence, watermark and next cursor |
| SnapshotReading.ReadingNext | app/connectors/deepsee/synchronizer.py:175-182 | One more page extends the reassembly by what the source held at that moment |
| SnapshotReading.FirstPageRead | app/connectors/deepsee/synchronizer.py:164-170 | The first page starts it |
| SnapshotReading.TornExact | app/connectors/deepsee/mock_service.py:145-184 | When the source removes a member in the middle of a paged read, the read gives the remaining members if and only if its cursor had not passed that member; otherwise it keeps the removed one and misses one that never left |
| SnapshotReading.AcceptablePasses | app/connectors/deepsee/client.py:89-103 | Snapshots of a membership without negative ids, or ids beyond 64 bits, and with a payload within the size limit, pass the client's checks |
| Synchronizer.FetchingNext | app/connectors/deepsee/synchronizer.py:267-273 | One more feed page extends the collection, and its cursor says whether more was pending |
| Synchronizer.CapMeansOverlong | app/connectors/deepsee/synchronizer.py:263-266 | The page cap is only met when more is pending than ten thousand pages hold |
| Synchronizer.QuietScored | app/connectors/deepsee/synchronizer.py:161-183 | Pages read from a quiet source give back its membership, scores included |
| Synchronizer.ScoredExact | app/connectors/deepsee/synchronizer.py:126-150 | Of the ids and scores that are published, a member without a score counts 1.0 |
| Synchronizer.DeepSeeSynchronizer.constructor | app/connectors/deepsee/synchronizer.py:82-102 | A new synchronizer remembers what the repository kept, or nothing |
| Synchronizer.DeepSeeSynchronizer.PublishAndRemember | app/connectors/deepsee/synchronizer.py:221-245 | Publish, then commit, then remember: a fault leaves exactly the parts before it changed, and which fault stops where |
| Synchronizer.DeepSeeSynchronizer.FetchChangesPage | app/connectors/deepsee/synchronizer.py:268-273 | One page more, served from the log as it is then |
| Synchronizer.DeepSeeSynchronizer.FetchAllChanges | app/connectors/deepsee/synchronizer.py:255-273 | What is returned was fully served while the log only grew; undisturbed it fails only beyond the page cap |
| Synchronizer.DeepSeeSynchronizer.FetchSnapshotPage | app/connectors/deepsee/synchronizer.py:175-182 | One snapshot page more, served from the membership as it is then |
| Synchronizer.DeepSeeSynchronizer.FollowCursors | app/connectors/deepsee/synchronizer.py:166-182 | The reassembly of all pages with the last page's watermark; quiet when no one else changes the source |
| Synchronizer.DeepSeeSynchronizer.CollectIdPages | app/connectors/deepsee/synchronizer.py:161-183 | The same from the first page on |
| Synchronizer.DeepSeeSynchronizer.ReadSnapshot | app/connectors/deepsee/synchronizer.py:115-125 | The bitmap path and the paged path give the same membership from a quiet source, with its watermark; nothing stale, malformed or of another key type is returned |
| Synchronizer.DeepSeeSynchronizer.Bootstrap | app/connectors/deepsee/synchronizer.py:113-159 | A bootstrap from a source no one else changes is a protocol step for every fault, publishes nothing stale, malformed or of another key type, costs at most MAX_PAGES times (retries + 1) calls, and succeeds when nothing is wrong |
| Synchronizer.DeepSeeSynchronizer.PullBatch | app/connectors/deepsee/synchronizer.py:195-207 | Fetched, filtered and sorted, the batch is the log from the watermark to some m that covers all present at the start; both counts are those of the repeated and the late positions of what was delivered |
| Synchronizer.DeepSeeSynchronizer.PublishDelta | app/connectors/deepsee/synchronizer.py:209-245 | The folded batch is published over the store's content as far as the fault lets it |
| Synchronizer.DeepSeeSynchronizer.ApplyBatch | app/connectors/deepsee/synchronizer.py:197-253 | An empty batch changes nothing; the report counts the folded parts and the filter's counts |
| Synchronizer.DeepSeeSynchronizer.ApplyPulled | app/connectors/deepsee/synchronizer.py:197-253 | What was pulled by a sync makes its step complete, and this source never makes the fold fail |
| Synchronizer.DeepSeeSynchronizer.SyncOnce | app/connectors/deepsee/synchronizer.py:189-253 | Every call is a protocol sync step or leaves all but the log alone, whatever the source does meanwhile and whichever fault strikes; the report counts the folded parts of the log between the watermarks and the repeated and late positions of the delivery, in numbers when the source is left alone; the call bound; success when nothing is wrong |
| SyncEntities.BatchRight | app/connectors/deepsee/synchronizer.py:207-235 | Applying a batch to a store that is right at a prefix of it, in members and in the scores of entities with disciplined events, leaves it right after the batch |
| SyncEntities.StepKeepsMembers | app/connectors/deepsee/synchronizer.py:113-253 | Every step keeps this, with no discipline on the log |
| SyncEntities.RunMembers | app/connectors/deepsee/synchronizer.py:113-253 | In every run, whatever the log, the published members are those of a prefix, entities with disciplined events have their scores of it, and neither watermark passes it |
| SyncEntities.TrackedRepairs | app/connectors/deepsee/synchronizer.py:189-253 | One completed sync leaves the members of all it collected, with those scores |
| SyncSessions.Perform | app/connectors/deepsee/synchronizer.py:79-253 | Every command of a session, restart included, is a protocol step |
| SyncSessions.Session | app/connectors/deepsee/synchronizer.py:79-253 | Every session is a run; each of its states has the members of a prefix of the log, and refines a disciplined log |
| SyncSessions.Settle | app/connectors/deepsee/synchronizer.py:189-253 | One undisturbed sync after any session publishes the source's own members, with its score for every entity with disciplined events, and for a disciplined log its whole membership; the counts of its report in numbers |
| SnapshotTables.PromotionStates | app/repositories/context_catalog.py:255-295 | After a version-increasing promotion the current row is the greatest of its context and no building row is visible |
| SnapshotTables.PromotionMatches | app/repositories/context_catalog.py:242-279 | Snapshots and payloads keep the same keys and recorded digests |
| SnapshotTables.PromotionTiles | app/repositories/context_catalog.py:280-287 | A superseded row ends when its successor was computed |
| SnapshotTables.PromotionKeeps | app/repositories/context_catalog.py:239-347 | A version-increasing promotion keeps all of these |
| SnapshotTables.IncreasingExact | app/repositories/context_catalog.py:280-295 | A promotion keeps the current row the greatest version if and only if its version is new and greater |
| SnapshotTables.OneCurrentThroughout | app/db/migrations/003_context_runtime_state.sql:30-32 | The one-current index holds after every single statement of a promotion |
| SnapshotPruning.AsOfExists | app/repositories/context_catalog.py:425-433 | The anchor query has an answer when any snapshot is old enough |
| SnapshotPruning.AsOfUnique | app/repositories/context_catalog.py:425-433 | And only one |
| SnapshotPruning.HistoryKept | app/repositories/context_catalog.py:452-457 | A prune keeps the history in order, less exactly the rows of the context that took effect before the cutoff |
| SnapshotPruning.ExactlyOneValid | app/repositories/context_catalog.py:280-287 | Validity intervals tile: from the first retained start on, exactly one snapshot is valid at every instant |
| SnapshotPruning.PruneTwice | app/repositories/context_catalog.py:422-462 | Pruning twice with one cutoff finds the same anchor and changes nothing more |
| SnapshotPruning.PruneKeepsAnswersExact | app/repositories/context_catalog.py:422-462 | The as-of answers from the cutoff on are kept if and only if every late row among the deleted is replaced by a kept one |
| SnapshotPruning.MonotoneReplaces | app/repositories/context_catalog.py:422-462 | With data instants monotone in the version they always are |
| SnapshotPruning.PruneKeeps | app/repositories/context_catalog.py:422-462 | Pruning keeps the invariants, and the current snapshot survives |
| SnapshotPruning.RunSound | app/repositories/context_catalog.py:226-462 | Over all runs of version-increasing promotions, failures and prunes: current is greatest, nothing building, intervals tile, payloads match |
| SnapshotPruning.CurrentUnique | app/db/migrations/003_context_runtime_state.sql:30-32 | Every promoted context has exactly one current row, its greatest version |
| SnapshotRuns.OperationsSound | app/repositories/context_catalog.py:226-462 | With increasing versions a run of the repository is sound in every state |
| SnapshotRuns.RunTimely | app/repositories/context_catalog.py:226-462 | With prompt promotions, whatever the age of their data, rows are also valid from their computation, in version order, in every state of a run |
| SnapshotRuns.RunMonotone | app/repositories/context_catalog.py:226-462 | With promotions on the newest data, data instants grow with the version in every state of a run |
| SnapshotRuns.RunTiles | app/repositories/context_catalog.py:280-287 | So with prompt promotions, at every instant from a retained start on exactly one snapshot is valid, also after prunes and failures |
| SnapshotRuns.RunAnswers | app/repositories/context_catalog.py:422-462 | With promotions on the newest data a prune changes no as-of answer from its cutoff on |
| SnapshotRuns.RunOthers | app/repositories/context_catalog.py:422-462 | In any run a prune changes no as-of answer of another context |
| SnapshotRuns.RunHistory | app/repositories/context_catalog.py:312-462 | A history row outlives every operation but a prune of its own context with a cutoff after it took effect, and such a prune, if it takes effect, removes it |
| SnapshotRuns.RunStatus | app/repositories/context_catalog.py:296-311 | In every state of any run, the catalog row that a current snapshot was computed under names it as the current one, without an error |
| SnapshotRuns.Perform | app/repositories/context_catalog.py:226-462 | Each repository call has all of its effect or none |
| SnapshotRuns.Operate | app/repositories/context_catalog.py:226-462 | Any sequence of calls makes a run, sound throughout when versions increase |
| SnapshotRuns.PromoteEach | app/repositories/context_catalog.py:226-350 | Promoting one after the other, with a retry after any failure, leaves what the promotions alone would |
| SnapshotRuns.PromoteThenHydrate | app/repositories/context_catalog.py:226-420 | The round trip on the repository's own methods: every context gets back its snapshots with their scores, and the history is what was offered, in order, less what was offered before for the same context, snapshot version, entity and kind; all of it, if no promotion repeats an entity and kind |
| SnapshotHydration.OrderedLists | app/repositories/context_catalog.py:353-362 | Rows are read in ascending order of context and version |
| SnapshotHydration.HydrateExact | app/repositories/context_catalog.py:363-398 | With a store that numbers what it restores from one on, hydration succeeds if and only if every payload has its digest and versions count from one; it then rebuilds every context's snapshots and nothing else |
| SnapshotHydration.ErrorStays | app/repositories/context_catalog.py:369-398 | The first refusal is the outcome |
| SnapshotHydration.HydrateRefusal | app/repositories/context_catalog.py:369-398 | A refusal names the first row, by context and version, that has a flaw, and which flaw: a membership digest, a score digest, or a missing earlier version |
| SnapshotHydration.HydrateRebuilds | app/repositories/context_catalog.py:353-398 | Column by column, what hydration rebuilds: the rows that are not building and have a payload, in the order of their versions |
| SnapshotHydration.PromoteAllStores | app/repositories/context_catalog.py:226-350 | What an interleaved run of promotions leaves in the tables |
| SnapshotHydration.PromoteHydrate | app/repositories/context_catalog.py:226-420 | Round trip: for promotions whose scores the codec gives back, hydration restores each context's promoted snapshots in order, with their scores |
| SnapshotHydration.HistoryStored | app/repositories/context_catalog.py:312-346 | The history is what was offered, in insertion order, first occurrence of each event key; by the fields of the events in `HistoryExact` |
| SnapshotHydration.FirstOfEachDistinct | app/repositories/context_catalog.py:322-346 | Without repeated keys, and with every key offered |
| MembershipHistory.KeyExact | app/repositories/context_catalog.py:312-321 | Two events have one id exactly when context, snapshot version, entity and kind are the same |
| MembershipHistory.HistoryExact | app/repositories/context_catalog.py:312-346 | An event that a promotion offers is stored, in order, unless one with the same context, snapshot version, entity and kind was offered before |
| MembershipHistory.NoEventLost | app/repositories/context_catalog.py:312-346 | With versions counting from one and no promotion that repeats an entity and kind, the history is all events of all promotions in order |
| SnapshotRepository.SnapshotRepository.WriteRows | app/repositories/context_catalog.py:242-311 | The five row statements, and exactly when one of them fails |
| SnapshotRepository.SnapshotRepository.WriteHistory | app/repositories/context_catalog.py:312-347 | The history inserts and the commit |
| SnapshotRepository.SnapshotRepository.Rollback | app/repositories/context_catalog.py:348-350 | All four tables are as they were when the transaction began |
| SnapshotRepository.SnapshotRepository.Promote | app/repositories/context_catalog.py:226-350 | All or nothing, for a failure at any statement or index; the catalog row of the definition, if there is one, names the new snapshot, its times and no error, and no other catalog row changes |
| SnapshotRepository.SnapshotRepository.DeleteOlder | app/repositories/context_catalog.py:438-459 | The three deletions and the commit; which rows they are is stated with `Prune` |
| SnapshotRepository.SnapshotRepository.Prune | app/repositories/context_catalog.py:422-462 | Without a snapshot as old as the cutoff nothing happens; otherwise, or a failure rolls back, just the context's snapshots older than the anchor go, and just its history rows that took effect before the cutoff; the rest of the history stays in order |
| SnapshotRepository.SnapshotRepository.HydrateSnapshots | app/repositories/context_catalog.py:363-398 | The loop over rows computes the fold of the row checks |
| SnapshotRepository.SnapshotRepository.HydrateHistory | app/repositories/context_catalog.py:400-420 | Every history row, in the order of its id |
| SnapshotRepository.SnapshotRepository.HydrateRuntime | app/repositories/context_catalog.py:352-420 | Succeeds exactly on restorable tables, with what they hold column by column, names the first flaw otherwise, and hands over the history only on success |
| CatalogQueries.ListExact | app/services/catalog_service.py:106-147 | A filtered list holds, for each name, the greatest version among its live rows in that namespace and state; it is the latest version exactly when the latest is in that state |
| CatalogQueries.ListedMatches | app/services/catalog_service.py:127-137 | The join brings in no dropped row and no row that misses the filters |
| CatalogQueries.GetIsListed | app/services/catalog_service.py:92-104 | `get` and the list without filters always select the same row of a name |
| CatalogQueries.QueriesAgreeExact | app/repositories/context_catalog.py:79-96 | `load_contexts` selects the rows of the unfiltered list if and only if no two loaded rows share a name and the listed rows have ids, no two the same |
| CatalogPaging.PagesExact | app/services/catalog_service.py:139-147 | Under the order that SQL leaves open among equal names, reading selected rows page by page always yields each of them once, in order, if and only if no two share a name |
| CatalogPaging.NamespacePages | app/services/catalog_service.py:118-147 | With a namespace filter the pages of the list always add up to it |
| CatalogPaging.DistinctReads | app/services/catalog_service.py:139-145 | Names that all differ leave one order, and the pages are its pages |
| CatalogPaging.TornPages | app/services/catalog_service.py:139-145 | With two rows of one name, queries that order them differently, as SQL allows, can show one of them twice and miss the other |
| CatalogPaging.OrderSize | app/services/catalog_service.py:139-141 | Any order has as many rows as the total counts |
| CatalogQueries.PairedAgree | app/repositories/context_catalog.py:79-96 | With one id a live name and one live name an id, all three queries agree |
| CatalogQueries.SaveSound | app/repositories/context_catalog.py:98-198 | A save keeps both unique indexes |
| CatalogQueries.SaveThenFind | app/repositories/context_catalog.py:98-198 | An accepted save leaves one row that carries every column of the entry and keeps or takes the DDL text; `get` finds it exactly if it is live and no live row of the name is newer, and a list by namespace and state exactly if it also passes the filters and no live row of the name that passes them is newer |
| CatalogQueries.SaveKeepsPairedExact | app/repositories/context_catalog.py:98-198 | A save keeps ids and live names paired if and only if its entry fits the other live rows or it writes no live row |
| CatalogQueries.DropKeepsPaired | app/repositories/context_catalog.py:200-210 | A drop keeps them paired and removes exactly that context from what is loaded |
| CatalogQueries.RunAgrees | app/repositories/context_catalog.py:79-210 | In every state of a run of fitting saves and drops all three queries select the same row of each context |
| CatalogQueries.FillMissing | app/repositories/context_catalog.py:47-77 | The loop over names with a missing id refills exactly their rows, and fills a missing hash with that of the definition of a row of the name with a missing id |
| CatalogQueries.BackfillIds | app/repositories/context_catalog.py:47-77 | Afterwards no id is missing, each name it touched has one id that no other name has, and the indexes hold |
| CatalogQueries.BackfillTwice | app/repositories/context_catalog.py:47-77 | A second backfill changes nothing |
| CatalogQueries.BackfillPairsExact | app/repositories/context_catalog.py:47-77 | Live rows are paired afterwards if and only if those of the untouched names were |
| CatalogQueries.ContextCatalog.Backfill | app/repositories/context_catalog.py:47-77 | The method does this, keeps a hash that was there, and fills a missing one from a row of the name |
| CatalogQueries.RefusedExact | app/repositories/context_catalog.py:98-198 | A save is refused exactly when a row has its name and version under another id or none |
| CatalogQueries.ContextCatalog.SaveContext | app/repositories/context_catalog.py:98-198 | Update of the row with that id and version, which keeps its DDL text when none is given and stays dropped if it was, insert, or refusal by the name index; every column a save writes |
| CatalogQueries.ContextCatalog.DropContext | app/repositories/context_catalog.py:200-210 | Every version of the context is marked as dropped |
| RefreshScheduler.HexExact | app/services/refresh_scheduler.py:77-80 | Digits are read exactly from groups of hexadecimal digits joined by single underscores |
| RefreshScheduler.DigitExact | app/services/refresh_scheduler.py:77-80 | The value of a hexadecimal digit is its place in either row of sixteen digits, and nothing else is a digit |
| RefreshScheduler.SeedExact | app/services/refresh_scheduler.py:77-80 | The number of an id that begins with four hexadecimal digits, as a UUID does, is the one they stand for |
| RefreshScheduler.JitterExact | app/services/refresh_scheduler.py:77-81 | Its jitter is as many ten-thousandths of the interval as that number has over the thousands |
| RefreshScheduler.UuidSeeded | app/services/refresh_scheduler.py:77-80 | An id of hexadecimal digits and dashes, as a UUID is, always has a number to derive a jitter from |
| RefreshScheduler.JitterBounds | app/services/refresh_scheduler.py:77-80 | Jitter is at least zero and less than a tenth of the interval |
| RefreshScheduler.Scheduler.Tick | app/services/refresh_scheduler.py:54-81 | The loop over contexts computes `VisitAll`; a failed refresh is rescheduled like any other, and an exception out of noting the failure or deriving the jitter ends the tick there |
| RefreshScheduler.RunOnTime | app/services/refresh_scheduler.py:67-81 | Over any run a context is due one period after its last attempt |
| RefreshScheduler.Spacing | app/services/refresh_scheduler.py:54-81 | Successive attempts are at least interval plus jitter apart, and k attempts span at least k - 1 intervals, failures and exceptions included |
| RefreshScheduler.UnseededTwice | app/services/refresh_scheduler.py:76-81 | A context whose id has no number to derive a jitter from is refreshed twice by two ticks at one instant |
| RefreshScheduler.SpacingExact | app/services/refresh_scheduler.py:54-81 | Attempts are an interval apart in all runs if and only if the first four characters of the id, dashes aside, can be read as a hexadecimal number |
| RefreshScheduler.UuidSpaced | app/services/refresh_scheduler.py:54-81 | So they always are for an id of hexadecimal digits and dashes |
| RefreshScheduler.AfterTick | app/services/refresh_scheduler.py:67-81 | After a tick that gets to the context its due time is in the future |
| RefreshScheduler.TickAdds | app/services/refresh_scheduler.py:54-81 | A tick attempts a context at most once |
| RefreshScheduler.TickExact | app/services/refresh_scheduler.py:54-81 | A tick attempts a context exactly if it gets to it and it is due, and otherwise leaves it as it was |
| RefreshScheduler.EndedExact | app/services/refresh_scheduler.py:74-81 | A tick is cut short exactly by an attempt whose failure cannot be noted or whose id gives no jitter; that attempt is its last and no earlier one was of the kind |
| RefreshScheduler.RunAttempts | app/services/refresh_scheduler.py:54-81 | Every attempt of a run comes from a tick at that time that listed the context as materialized, scheduled and with an interval, found it unlocked, and succeeded exactly if its refresh did not fail |
| RefreshScheduler.Lateness | app/services/refresh_scheduler.py:54-81 | With ticks at most g apart that all get to the context, successive attempts are less than interval plus jitter plus g apart |
| McpProvider.RankedSorts | app/connectors/deepsee/mcp_provider.py:99-101 | The sort is a permutation ordered by score descending, then id ascending |
| McpProvider.MissingScores | app/connectors/deepsee/mcp_provider.py:99-101 | An id without a score ranks exactly as it would with the score 1.0 |
| McpProvider.PrefixBest | app/connectors/deepsee/mcp_provider.py:98-101 | Its first k are the best k |
| McpProvider.BestUnique | app/connectors/deepsee/mcp_provider.py:98-101 | The best k are unique |
| McpProvider.ArrivalIndependent | app/connectors/deepsee/mcp_provider.py:98-101 | The ranking does not depend on the order of arrival |
| McpProvider.TopSelected | app/connectors/deepsee/mcp_provider.py:98-121 | A cut result denotes the unique best ids, as many as the limit leaves, a negative limit counting from the end, with scores and evidence restricted to exactly those and unchanged |
| McpProvider.SelectedDenotes | app/connectors/deepsee/mcp_provider.py:108-144 | The list form and the bitmap form denote the kept ids |
| McpProvider.SelectedForm | app/connectors/deepsee/mcp_provider.py:98-144 | By how many ids are left: a list below the threshold, a bitmap from it on; the watermark is passed on, and an uncut result keeps its ids, scores and evidence |
| McpProvider.SelectionIndependent | app/connectors/deepsee/mcp_provider.py:98-144 | Neither arrival order nor the form changes what a result denotes |
| McpProvider.BestMembersExist | app/connectors/deepsee/mcp_provider.py:98-101 | A membership has best k members, and only one list of them |
| McpProvider.OfMembersBest | app/connectors/deepsee/mcp_provider.py:98-144 | A cut selection from a membership denotes its unique best members by score and then id, with exactly their scores and evidence, the watermark, and a form chosen by their number |
| McpProvider.OfMembersAll | app/connectors/deepsee/mcp_provider.py:98-144 | An uncut one is the whole membership, ascending when it is a list, with its scores and each member's evidence |
| McpProvider.ResolvedQuietly | app/connectors/deepsee/mcp_provider.py:70-121 | Pages read from a quiet source give the selection from its membership |
| McpProvider.PageSizeIrrelevant | app/connectors/deepsee/mcp_provider.py:70-121 | So two reads give the same answer, whatever their page sizes |
| McpProvider.Provider.NextPage | app/connectors/deepsee/mcp_provider.py:89-96 | One page more of ids, scores and evidence; a source no one else changes stays as it was, and an undisturbed one serves it |
| McpProvider.Provider.FollowCursors | app/connectors/deepsee/mcp_provider.py:81-121 | The selection over all pages; quiet when no one else changes the source, and failing undisturbed only at the page cap |
| McpProvider.Provider.IdListResult | app/connectors/deepsee/mcp_provider.py:70-121 | The same from the first page on |
| McpProvider.Provider.Resolve | app/connectors/deepsee/mcp_provider.py:39-68 | A wire bitmap passes through uncut, with the members' scores and evidence; nothing stale or of another key type is resolved; from a source no one else changes the result is the selection from its membership, and undisturbed it comes unless the page cap is exceeded |
| WireText.LiteralExact | app/services/catalog_service.py:41-43 | A text scans to a value and a rest if and only if it is the value's literal followed by the rest, and the rest does not begin with a quote |
| WireText.TagsRoundTrip | app/services/catalog_service.py:74-78 | Any rendered tag list scans back to itself and scanning stops right behind it |
| WireText.TagsPrefixFree | app/services/catalog_service.py:168-174 | No rendered tag list is the beginning of another one's |
| WireText.DigitsExact | app/connectors/deepsee/synchronizer.py:45-50 | A digit text is accepted exactly when it is digits joined by single underscores |
| WireText.PaddedRoundTrip | app/connectors/deepsee/synchronizer.py:39-50 | The padded text of n parses to n for every natural n and every width |
| WireText.SignedRoundTrip | app/connectors/deepsee/mock_service.py:352-353 | The text of any integer, signed if negative, parses back to it |
| WireText.SpaceIgnored | app/connectors/deepsee/synchronizer.py:45-46 | Also with white space around it |
| WireText.TextsInjective | app/connectors/deepsee/mock_service.py:309-318 | Event id and watermark texts are equal exactly for equal numbers |

## Left out

- Synchronizer.DeepSeeSynchronizer.Bootstrap: promises the content only for a source that no one else changes while the pages are read; `SnapshotReading.TornExact` shows what a removal in the middle does.
- Synchronizer.DeepSeeSynchronizer.SyncOnce: `computed_at`, `data_as_of` and `source_watermark` are handed to the store in the code and are not part of the published membership here.
- RefreshScheduler.Spacing: for ticks one after another; the code releases the lock before it writes the due time, so two overlapping ticks are not covered.
- RefreshScheduler.SpacingExact: ASCII ids; the digits and spaces of other scripts, which the source language also reads in a number, count as no number here.
- CatalogQueries.ContextCatalog.Backfill: one row's text supplies the hash for its whole name, as in the code; which of the name's rows with a missing id that is stays open, as it does in SQL.
- McpProvider.Provider.Resolve: the `data_as_of` of the result is not part of it here.
- CatalogQueries.ListExact: which rows are selected; their order and the cut by limit and offset are the subject of `CatalogPaging`.
- CatalogQueries.ContextCatalog.SaveContext: columns that a save does not write, such as the times of creation and execution, are not part of a row.
- WireText.DigitsExact: ASCII digits and white space; the source language also accepts other Unicode digits and spaces, and refuses texts of more than 4300 digits.
- WireText.TagsRoundTrip: the statement parser of the query engine is not part of this model; the scanner follows the character string literals of ISO/IEC 9075-2, section 5.3.
- McpProvider.Provider.Resolve: the limit is not applied to a bitmap from the wire, as in the code.
- SnapshotHydration.PromoteHydrate: starts from empty tables without pruning; hydration after a prune depends on how the unseen membership store numbers what it restores.
- Floating point: scores are reals, so rounding, infinities and NaN do not occur; delays are counted in milliseconds.
- SnapshotReading.AcceptablePasses: a membership with negative ids or ids beyond 64 bits, for which no bitmap can be built, is not acceptable; that building one raises in the source or in the provider is not modelled.
- Roaring bitmap bytes: a bitmap is the set it decodes to, or malformed, and a payload is its size and encoding.
- SHA-256, UUIDs and the score encoding are functions; the event id of the history is its four-part name.
- Instants of the snapshot tables are integers; comparing differently formatted ISO texts is not modelled.
- The membership store, the query engine and the SQL engine are libraries that are not part of this model; the store is assumed to survive restarts, and a snapshot member without a score counts 1.0.
- Credential lookup, negative page sizes, negative backoff settings and a page size beyond the model's naturals.
- Two connections writing the same tables at once: methods of a repository run one at a time, as its lock makes them.
- Starting and stopping the scheduler thread, audit, logging, HTTP routes, providers and identity maps, query byte budgets, case rows and the demo: plumbing or easy members.
