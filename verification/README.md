# Verified models of the server's core algorithms and protocols

This project models the in-process algorithms of the search server and its upload client, and
proves what they keep over all inputs, all runs and all interleavings. One module stands for one
source file:

- `EmbedBatcher`: the two-cap packing of texts into embedding requests, and the scatter of the
  returned vectors back into input order.
- `ModelPool`: weighted, health-aware choice of a deployment ("lane"), the circuit breaker, and the
  failover loop of the async pool. The clock, the random tokens, the network outcomes and the
  trips made by calls running at the same time come from an arbitrary `World`.
- `OpenAiClient`: the sync failover, which keeps no set of tried lanes and finds the lane to trip
  again by its deployment id.
- `ResponseCache`: the bounded, expiring cache ordered by last insert or hit, against the unbounded
  log of what was accepted, hit or cleared.
- `SqlRewriter`: `read_parquet('az://...')` calls become table aliases; a query is a sequence of
  tokens and its meaning says which token denotes which file.
- `ContextPool`: warm-up threads, replenisher threads and queries sharing the context queue, one
  atomic step at a time.
- `CatalogTags`: the memoised walk to the nearest tagged folder over any parent map, and the gate
  that filters catalog rows by it.
- `UploadQueue`: the concurrency-limited queue and its cancel/pause controller.
- `ModelRouter`: the check-then-reserve escalation budget over the keys of its store, and the model
  choice behind it.
- `Backfill`: the paging loop in both modes, with the pooled page going through `EmbedBatcher`.
- `TraceBounds`: the recursive trace bounder and the degradation-chain cap.
- `Completeness`: domain coverage of a shortlist and the report on files added to it.
- `Metrics`: interpolated percentiles over the sliding window, and the counters.

Code that changes things step by step is a class or a method with loops, proved equal to a
specification function or to a relation over runs; the properties are lemmas about those.
Python floats are reals; times, tokens and network outcomes are parameters.

## Where the code does not do what its text says

- The cache calls itself first-in first-out, but reorders on every hit. A newcomer pushes out
  exactly the entry that all others were inserted or hit after (`EvictedIff`); that is the oldest
  one unless it was hit after another stored entry was last touched (`OldestGoesIff`), as a hit on
  the first entry does (`HitSavesOldest`). An exact key that has expired is a miss without any fuzzy
  search.
- `report_chat_failure` trips the first lane with the failing deployment id. When two lanes share an
  id, a failure of the second trips the first (`ReportTripsPickedLane`, `SharedIdTripsOtherLane`).
- The sync failover retries "on the next pick". Over healthy lanes a call running alone reaches a
  new lane at each attempt, whatever the tokens, exactly when it makes no more attempts than there
  are eligible lanes and its last selection comes before the lane that failed first is out of its
  cooldown (`AlwaysDistinctIff`).
- The async failover promises the next lane, but with the default timings two timeouts outlast the
  cooldown: the first lane is drawn again and the call gives up with a healthy lane untried
  (`SlowTimeoutsMissLane`). `GivesUpOnHealthyLaneIff` is the exact condition for a call running
  alone; `EarlyGiveUpTriedEveryLane` holds beside other calls while no trip made during the call has
  run out.
- Rewriting SQL chooses the reader from the file name, not from the function called, and an
  identifier equal to an alias is captured; `RewritePreservesFiles` and `RewritePreservesMeaning`
  are exact conditions on the token model (`CapturedWord` and `ReaderBySuffix` are queries that fail
  them). They compare words as written and know no names but the registered tables: an engine that
  folds case also captures `T0`, and a query that itself defines `t0` (`WITH t0 AS ...`) shadows the
  table; both lie outside that equivalence.
- `cancelAll` cancels only files that already have an abort controller: any other waiting file is
  uploaded at its turn, however much later (`CancelAllMissesWaitingFiles`). Pausing a waiting file
  does not hold it back either (`PauseMissesWaitingFile`). With `maxConcurrent` below 1 and files to
  send, the queue loop spins for ever (`CanMove`).
- Backfill without `--force` ends exactly when it never goes on failing for good
  (`EndsIffKeepsEmbedding`), and when the same texts always fail, exactly when no row without an
  embedding has one of them (`SteadyRunEndsIff`). Then good rows starve too: a row is ever embedded
  exactly when fewer than one batch of failing rows come before it (`EmbeddedIffNotStarved`).
- The "harmful" verdict is marked as one that should not happen. Some benchmark yields it exactly
  when a file was added and a role of the earlier shortlist, of a kind that counts for some
  requirement, is no longer covered (`CanBeHarmfulIff`), as when an added file reuses a name
  (`DuplicateNameExample`); distinct names exclude it.
- `chain_truncated` looks at the raw chain length. It agrees with a dropped code exactly unless more
  than eight codes have at most eight distinct ones (`TruncatedFlag`, `RepetitionIsFlagged`).
- The queue-depth gauge is lowered twice by a query that fails after it was counted out
  (`LateFailureSkewsGauge`); it shows the queries in progress all through a run exactly when each
  such failure happens with no query in progress (`ExactThroughoutIff`). What a gauge's floor at
  zero swallows stays on it for good (`GaugeIsNetPlusShortfall`).
- A query that fails with a context in hand starts no replenisher, so the pool stays one short until
  a query that created its own context succeeds, or another warm-up (`EveryRunBalanced`).
- Escalation keys are said to keep tenants apart. Their counters are apart, but the counter of a
  tenant called `total:X` is the page count of tenant `X` (`KeysApart`), which grows by exactly the
  escalations granted to that tenant (`PagesGrowByGrants`).
- An empty `allowed_domains` list means no restriction, like `None`.

## Model

| member | source | states |
|---|---|---|
| EmbedBatcher.PlanIsOptimal | server/app/core/embed_batcher.py:36-66 | the planned batches concatenate to 0..n-1, each obeys both caps or is a lone oversized item, and no other order-preserving split obeying the caps uses fewer batches |
| EmbedBatcher.GreedyStaysAhead | server/app/core/embed_batcher.py:54-66 | from any position at or past the start of another legal split, the greedy plan needs no more batches than that split |
| EmbedBatcher.RunEndIsMaximal | server/app/core/embed_batcher.py:54-62 | each batch is legal, and a batch that is not last was closed because the next item would break a cap |
| EmbedBatcher.BatchCountBound | server/app/core/embed_batcher.py:47-66 | with n inputs, T tokens and k batches, (k - 1) * batch_max * budget is at most n * budget + 2 * T * batch_max |
| EmbedBatcher.PlanBatches | server/app/core/embed_batcher.py:31-66 | the loop over `current` and `current_tokens` yields exactly the plan, which is an optimal packing |
| EmbedBatcher.EmbedAll | server/app/core/embed_batcher.py:69-96 | one pool call per batch in order; the vectors list equals the replies laid end to end, short replies leave empty slots, and the first failing call or out-of-range index ends it |
| EmbedBatcher.Scatter | server/app/core/embed_batcher.py:93-94 | writing slot by slot through `zip` fills exactly the next group of slots and leaves the others |
| EmbedBatcher.EmbedAligned | server/app/core/embed_batcher.py:78-96 | when the pool embeds text by text, each returned vector is the one of the input at the same position |
| EmbedBatcher.AssembledSlot | server/app/core/embed_batcher.py:88-94 | for any pool at all, slot p of batch j holds item p of what call j returned for exactly the inputs of that batch in order, and is empty when the reply was shorter |
| EmbedBatcher.EmbedOutcome | server/app/core/embed_batcher.py:83-96 | no inputs give an empty list; otherwise vectors are returned exactly when every batch lies within the inputs and its request is answered |
| EmbedBatcher.AssembleError | server/app/core/embed_batcher.py:88-94 | the error is that of the first batch that reaches past the inputs or whose request fails |
| EmbedBatcher.AssembleSucceeds | server/app/core/embed_batcher.py:88-96 | with no more token counts than inputs and no failing request the call returns vectors |
| ModelPool.PickPartitions | server/app/core/model_pool.py:232-243 | with positive total weight a token in [0,1) picks lane i exactly when the scaled token lies in lane i's cumulative-weight interval |
| ModelPool.ZeroWeightPicked | server/app/core/model_pool.py:232-243 | a zero-weight lane is picked exactly when the token is at least 1 and that lane is last |
| ModelPool.PickMonotone | server/app/core/model_pool.py:232-243 | the picked position never moves back as the token grows |
| ModelPool.ZeroWeightsPickEvenly | server/app/core/model_pool.py:234-236 | with all-zero weights the token splits the range evenly and the index is safe |
| ModelPool.SelectIsHealthAware | server/app/core/model_pool.py:213-243 | no lane only when there is no candidate; a cooling lane is chosen only if all candidates cool, and then one that recovers soonest |
| ModelPool.SelectsByWeight | server/app/core/model_pool.py:227-243 | over distinct healthy candidates with weight among them, the i-th is selected exactly when the token times their total weight lies between the weight of those before it and that with its own |
| ModelPool.SelectsEvenly | server/app/core/model_pool.py:234-236 | with no weight among the healthy candidates they share the token range evenly |
| ModelPool.SelectsAtTheEnds | server/app/core/model_pool.py:232-243 | a token below zero selects like zero, one of at least 1 the last healthy candidate |
| ModelPool.SelectsSoonest | server/app/core/model_pool.py:228-230 | when all candidates cool the one selected is the first of those with the earliest deadline |
| ModelPool.CandidatesAre | server/app/core/model_pool.py:215-224 | eligible are the lanes of the kind; for a "high" request only the high ones, if there are any |
| ModelPool.CandidatesInOrder | server/app/core/model_pool.py:215-222 | eligible lanes keep the configured order |
| ModelPool.SelectionPrefersHealthy | server/app/core/model_pool.py:213-243 | the weighted selection is such a rule: whatever the health map and the token, a cooling lane only when all candidates cool, then a soonest deadline |
| ModelPool.SelectDeployment | server/app/core/model_pool.py:189-243 | the imperative selection equals the selection function |
| ModelPool.ScanWeights | server/app/core/model_pool.py:238-243 | the accumulating scan returns the first lane whose cumulative weight exceeds the target, else the last lane |
| ModelPool.AttemptsAreCandidates | server/app/core/model_pool.py:335-366 | a call tries pairwise distinct names, all eligible candidates, at most `max_failover_attempts`; it reports "no deployment" exactly without candidates |
| ModelPool.HealthLeft | server/app/core/model_pool.py:313-315 | a call running alone leaves exactly the lanes it was throttled on with a deadline one cooldown past their failure, and every other lane as it was |
| ModelPool.EarlyGiveUpTriedEveryLane | server/app/core/model_pool.py:338-366 | beside any other calls: a call that fails before its attempts are used up, while no trip made during it has run out, has tried every candidate that no other call tripped meanwhile, healthy or cooling at the start |
| ModelPool.PoolCallTriesEveryLane | server/app/core/model_pool.py:279-366 | for a pool whose deadlines lie within one cooldown of its last look at the clock, as every pool method keeps them, that is every candidate at all |
| ModelPool.GivesUpOnHealthyLaneIff | server/app/core/model_pool.py:335-366 | a call running alone with a healthy lane left gives up on some token exactly when a lane it tried has come out of its cooldown and can be drawn again |
| ModelPool.GivesUpOnHealthyLaneIffRecovered | server/app/core/model_pool.py:313-366 | when all candidates have weight, exactly when one of its failures lies a cooldown or more before the selection |
| ModelPool.DrawnIffDrawable | server/app/core/model_pool.py:232-243 | the tokens in [0,1) draw exactly the healthy lanes with weight, or any of them when none has weight |
| ModelPool.EarlyGiveUpMissesNoLane | server/app/core/model_pool.py:338-366 | the same for any selection rule that prefers healthy lanes |
| ModelPool.TriedLanesCool | server/app/core/model_pool.py:313-315 | a tried lane keeps a deadline no earlier than the earliest one set during the call |
| ModelPool.OwnDeadline | server/app/core/model_pool.py:313-315 | in a call running alone a tried lane's deadline stays one cooldown past its own failure |
| ModelPool.SlowTimeoutsMissLane | server/app/core/model_pool.py:88-93 | with a 20-second cooldown, four attempts and 30-second timeouts a run over three equal healthy lanes gives up after two with the third untried |
| ModelPool.ModelPool.constructor | server/app/core/model_pool.py:264-287 | cooldown is clamped to at least 0 and attempts to at least 1, health starts empty |
| ModelPool.ModelPool.Trip | server/app/core/model_pool.py:313-315 | the lane's deadline becomes now plus the cooldown, all others unchanged |
| ModelPool.ModelPool.Call | server/app/core/model_pool.py:335-366 | the retry loop performs exactly a run: each attempt is the selection from the health it read, only throttled attempts go on, and the final health map is stated |
| OpenAiClient.ReportTripsPickedLane | server/app/core/openai_client.py:301-312 | the failed lane itself is tripped exactly when no earlier lane has its deployment id |
| OpenAiClient.SharedIdTripsOtherLane | server/app/core/openai_client.py:306-312 | with a shared id the failure of the second lane cools the first and leaves the second as it was |
| OpenAiClient.DisabledNeverNarrows | server/app/core/openai_client.py:209-212 | with gpt-4o disabled every chat lane is eligible for every request |
| OpenAiClient.RepeatMeansAllCool | server/app/core/openai_client.py:278-288 | beside any other calls: a lane is used twice, while no trip made during the call has run out, only when every candidate had failed in it or been tripped elsewhere |
| OpenAiClient.AlwaysDistinctIff | server/app/core/openai_client.py:269-290 | over healthy lanes with weight, n attempts of a call running alone hit pairwise distinct lanes whatever the tokens exactly when n is at most the number of eligible lanes and the last selection comes less than one cooldown after the first failure |
| OpenAiClient.DistinctIffEnoughLanes | server/app/core/openai_client.py:269-290 | for any one choice of tokens and any weights: while no failed lane recovers, the attempts are pairwise distinct exactly when there are no more of them than eligible lanes |
| OpenAiClient.RecoveryRepeats | server/app/core/openai_client.py:269-290 | if the first failed lane recovers before the last selection, some tokens make the call repeat a lane |
| OpenAiClient.ExhaustedMeansEveryLaneFailed | server/app/core/openai_client.py:275-290 | with at most four lanes and a tier that narrows nothing, an exhausted call in which none recovers has tried every lane |
| OpenAiClient.ChatClient.GetChatClient | server/app/core/openai_client.py:209-240 | returns the legacy client unless several lanes exist, otherwise the health-aware pick at the effective tier |
| OpenAiClient.ChatClient.ReportChatFailure | server/app/core/openai_client.py:293-312 | trips the first lane with the id, and nothing with at most one lane |
| OpenAiClient.ChatClient.ChatCompleteWithFailover | server/app/core/openai_client.py:243-290 | the loop performs exactly a run of at most the attempt limit and leaves the stated health map |
| ResponseCache.EveryRunAgrees | server/app/core/response_cache.py:39-40 | after any run the store holds at most 500 distinct keys in order of last insert or hit, each with its latest accepted payload, and a key is missing only if expired or 500 other keys were touched since |
| ResponseCache.EvictedIsStale | server/app/core/response_cache.py:170-172 | an entry is evicted only once 500 other distinct keys, the incoming one included, were inserted or hit since it was last touched |
| ResponseCache.EvictedIff | server/app/core/response_cache.py:167-172 | a newcomer to a full store pushes out an entry exactly when every other stored key was inserted or hit after it last was |
| ResponseCache.OldestGoesIff | server/app/core/response_cache.py:111-113 | the entry accepted longest ago goes exactly under that condition, so always when it was not hit since |
| ResponseCache.HitSavesOldest | server/app/core/response_cache.py:111-113 | after a hit on the first entry of a full store a newcomer pushes out the second and not the first |
| ResponseCache.AnswerComesFromLog | server/app/core/response_cache.py:105-127 | a returned payload is the latest accepted one of its key since the last clear, in the same container, at most the TTL old, no error or hollow answer; exact key first, similar key only when the key is not stored |
| ResponseCache.LiveAnswerIsServed | server/app/core/response_cache.py:105-114 | an unexpired answer is an exact hit as long as fewer than 500 other keys were touched since its last touch |
| ResponseCache.AnswerWasPut | server/app/core/response_cache.py:101-127 | after any run, an answer given to a container was put by a call for that container at most 600 seconds ago, under the same normalised query or a similar one, was neither error nor empty nor hollow, and no later call replaced or cleared it |
| ResponseCache.PutThenGet | server/app/core/response_cache.py:105-114 | after any run, an acceptable payload is given back for 600 seconds to the same container and normalised query |
| ResponseCache.LookupIs | server/app/core/response_cache.py:105-127 | a key not stored is answered by the first live similar entry of its container among the last fifty, or by none; a stored key only by its own entry, until that is 600 seconds old |
| ResponseCache.GetAgrees | server/app/core/response_cache.py:105-127 | every outcome of a lookup keeps store and log in agreement |
| ResponseCache.SetAgrees | server/app/core/response_cache.py:167-172 | an accepted payload, new or replacing, with or without eviction, keeps the agreement |
| ResponseCache.ResponseCache.GetCachedResponse | server/app/core/response_cache.py:95-127 | returns and reorders exactly as the lookup function says |
| ResponseCache.ResponseCache.FuzzyScan | server/app/core/response_cache.py:117-125 | finds the first live similar entry of the container among the last 50 |
| ResponseCache.ResponseCache.SetCachedResponse | server/app/core/response_cache.py:146-172 | stores, replaces or evicts exactly as the specification step, and ignores error, empty and hollow answers |
| ResponseCache.ResponseCache.ClearCache | server/app/core/response_cache.py:183-186 | empties the store and forgets all acceptances |
| SqlRewriter.RewritePreservesFiles | server/app/core/datafusion_client.py:245-267 | the rewritten query reads the same files in the same places exactly when no word of the query equals a used alias |
| SqlRewriter.RewritePreservesMeaning | server/app/core/datafusion_client.py:335-341 | counting readers too, meaning is preserved exactly when also every call's reader agrees with the suffix of its path |
| SqlRewriter.UsualQueriesKeepMeaning | server/app/core/datafusion_client.py:245-267 | a query keeps its meaning when no word clashes with an alias, its read_csv_auto paths end in .csv and its read_parquet paths in .parquet |
| SqlRewriter.RegisteredIs | server/app/core/datafusion_client.py:338-341 | a file is registered as Parquet exactly when the last eight characters of its path spell .parquet in any mix of cases, and as CSV otherwise |
| SqlRewriter.CapturedWord | server/app/core/datafusion_client.py:255-264 | a query with a column called t0 reads a file in its place |
| SqlRewriter.ReaderBySuffix | server/app/core/datafusion_client.py:336-341 | read_csv_auto on any path ending in .parquet keeps the file and changes the reader |
| SqlRewriter.PathsCover | server/app/core/datafusion_client.py:255-264 | the path list has no repetition and holds exactly the paths of the query |
| SqlRewriter.PathsInOrder | server/app/core/datafusion_client.py:255-264 | paths appear in order of first occurrence |
| SqlRewriter.AliasInjective | server/app/core/datafusion_client.py:261-261 | distinct positions print as distinct aliases |
| SqlRewriter.AliasIs | server/app/core/datafusion_client.py:261-261 | an alias is a t and its position in decimal, without leading zeros |
| SqlRewriter.RewriteSql | server/app/core/datafusion_client.py:245-267 | the substitution loop produces the renamed query and the path list |
| SqlRewriter.RegisterTables | server/app/core/datafusion_client.py:336-341 | the registration loop gives alias i the i-th path, read by its suffix |
| ContextPool.EveryRunIsolated | server/app/core/datafusion_client.py:129-169 | in every interleaving pooled contexts are blank, distinct and at most 8, each query's context is lent to it alone and holds exactly the tables it registered, and the depth gauge is at most the active queries and short of them by at most the late failures |
| ContextPool.GaugeIsExact | server/app/core/datafusion_client.py:302-384 | the gauge never shows more than the queries in progress, and fewer by at most the number of failures after the first decrement; without such it is exact |
| ContextPool.LateFailureSkewsGauge | server/app/core/datafusion_client.py:368-384 | a failure after the first decrement lowers an exact gauge once more, and it stays exact only when no query is in progress |
| ContextPool.ExactThroughoutIff | server/app/core/datafusion_client.py:302-384 | in any run the gauge shows the queries in progress after every step exactly when each failure after the first decrement happens with no query in progress |
| ContextPool.EveryRunBalanced | server/app/core/datafusion_client.py:129-169 | in any run contexts pooled, held by queries, still owed by warm-ups and replenishers, given up by them, and lost with queries that failed while holding one add up to those wanted by warm-ups and created inline; pooled ones are puts less borrows |
| ContextPool.PoolHoldsEight | server/app/core/datafusion_client.py:129-169 | the pool holds at most eight contexts in any run |
| ContextPool.PutEffect | server/app/core/datafusion_client.py:159-169 | a context put into a pool of fewer than eight is pooled; put into a full one it is dropped and ends its thread |
| ContextPool.BuiltIsPut | server/app/core/datafusion_client.py:129-169 | what a thread builds is a new blank context, and that is the one it puts |
| ContextPool.LentForGood | server/app/core/datafusion_client.py:348-365 | a context once lent to a query is never pooled again and never lent to another |
| ContextPool.EveryResultIsOwnMeaning | server/app/core/datafusion_client.py:322-345 | whatever runs beside it, an executed query's result reads exactly the files its own text names exactly when none of its words clashes with an alias |
| ContextPool.BorrowIsolated | server/app/core/datafusion_client.py:146-156 | taking a pooled context keeps isolation |
| ContextPool.RegisterIsolated | server/app/core/datafusion_client.py:336-341 | registering a table touches no other query's context |
| ContextPool.PutIsolated | server/app/core/datafusion_client.py:159-169 | putting a fresh context back, or dropping it when the pool is full, keeps isolation |
| ContextPool.EndedIsolated | server/app/core/datafusion_client.py:367-393 | ending well or with an exception before the first decrement lowers the gauge once and gives up no context |
| ContextPool.CountedIsolated | server/app/core/datafusion_client.py:368-393 | an exception after the first decrement lowers the gauge a second time; neither it nor a normal return touches a context |
| CatalogTags.TagWalker.Effective | server/app/agent/catalog_cache.py:172-190 | returns the tag of the first tagged folder on the parent chain or none, for any parent map, and every memo entry stays the unmemoised answer |
| CatalogTags.TagWalker.Walk | server/app/agent/catalog_cache.py:177-190 | the loop with `seen` terminates on cycles and missing parents and finds that tag |
| CatalogTags.NoneMeansNoTag | server/app/agent/catalog_cache.py:179-190 | no tag is returned exactly when no folder on the whole chain is tagged |
| CatalogTags.UntaggedInherits | server/app/agent/catalog_cache.py:161-164 | an untagged folder answers what its parent answers, also on a cycle |
| CatalogTags.TaggedAnswersOwn | server/app/agent/catalog_cache.py:172-187 | a tagged folder answers its own tag; no folder, an empty id and an unknown id answer none |
| CatalogTags.CycleRepeats | server/app/agent/catalog_cache.py:179-179 | once the chain returns to a seen folder with no tag so far there is none further on |
| CatalogTags.TagWalker.Gate | server/app/agent/catalog_cache.py:193-216 | the catalog is the visible rows with their effective tags |
| CatalogTags.GateKeepsAllowedRows | server/app/agent/catalog_cache.py:194-206 | a row is kept, right after the rows kept before it, exactly when the caller may see it |
| CatalogTags.UnrestrictedCallerSeesAll | server/app/agent/catalog_cache.py:194-206 | with no allowed domains the catalog has every row, in order, with the effective tag of its folder |
| CatalogTags.RestrictedRowKeptIff | server/app/agent/catalog_cache.py:196-201 | with allowed domains a row is kept exactly when its effective tag is a nonempty text on the list |
| CatalogTags.RestrictedCallerSeesOnlyAllowedTags | server/app/agent/catalog_cache.py:196-201 | a restricted caller receives no untagged row and none tagged outside the list |
| UploadQueue.EveryRunIsOrderly | client/lib/upload.ts:209-253 | in every run at most `maxConcurrent` uploads run, files take their turns once each in order, and at the end every file's last phase is terminal |
| UploadQueue.MeasureDecreases | client/lib/upload.ts:238-253 | twice the unstarted plus the running files never grows and shrinks whenever a file starts or settles |
| UploadQueue.CanMove | client/lib/upload.ts:239-252 | an unfinished queue can move exactly when some upload may run or one is running |
| UploadQueue.CancelledBeforeTurnNeverUploads | client/lib/upload.ts:218-222 | a file cancelled before its turn is never uploaded and stays cancelled, whatever happens later short of a cleanup |
| UploadQueue.CancelStopsWaitingFile | client/lib/upload.ts:31-34 | from the cancel call on, a waiting file is never uploaded and shows "cancelled" after its turn, whatever happens short of a cleanup, and no other file is cancelled by it |
| UploadQueue.CancelledUploadShowsCancelled | client/lib/upload.ts:227-231 | an upload that fails any time after it was cancelled shows "cancelled" |
| UploadQueue.PausedUploadShowsPaused | client/lib/upload.ts:232-234 | an upload that fails any time after it was paused shows "paused", unless it was cancelled or resumed in between |
| UploadQueue.SettledUploadShows | client/lib/upload.ts:219-237 | a success shows "done", a failure without cancel or pause "error", and a file cancelled at its turn keeps showing "cancelled" |
| UploadQueue.CancelAllMissesWaitingFiles | client/lib/upload.ts:36-41 | after "cancel all", any waiting file is uploaded at its turn, whatever happens until then short of cancelling it, exactly when it was not cancelled and had no signal |
| UploadQueue.PauseMissesWaitingFile | client/lib/upload.ts:218-226 | a waiting file that is paused is uploaded at its turn all the same, exactly when it was not cancelled |
| UploadQueue.UploadController.CancelEvery | client/lib/upload.ts:36-41 | cancels and aborts exactly the files with an abort controller |
| UploadQueue.UploadController.Receive | client/lib/upload.ts:31-66 | each controller call has its specified effect on the three collections |
| UploadQueue.UploadRun.StartOne | client/lib/upload.ts:218-246 | the next file takes its turn: cancelled, or uploaded with a signal |
| UploadQueue.UploadRun.SettleFile | client/lib/upload.ts:226-244 | a settled upload leaves `running` with done, cancelled, paused or error as its last phase; a promise no longer running changes nothing |
| UploadQueue.UploadRun.Hear | client/lib/upload.ts:149-155 | a progress report changes the last phase of a file being uploaded and of no other; a file cancelled at its turn reports nothing |
| UploadQueue.UploadRun.Obey | client/lib/upload.ts:31-66 | a controller call during the wait acts on the controller alone; the run records it |
| UploadQueue.UploadRun.AwaitOne | client/lib/upload.ts:249-252 | a wait ends with at least one running file settled, and possibly several |
| UploadQueue.UploadRun.Process | client/lib/upload.ts:202-254 | the nested loops end, all files were started in order, and every last phase is terminal |
| ModelRouter.OvershootBound | server/pdf_chat/model_router.py:190-213 | k workers interleaving the read and the reserve never push a tenant's counter above cap + k - 1 or its start value, and every increment is a grant |
| ModelRouter.OvershootIsReached | server/pdf_chat/model_router.py:190-205 | for every k and cap a run reaches exactly cap + k - 1 |
| ModelRouter.KeysApart | server/pdf_chat/model_router.py:103-118 | two tenants share neither counter nor page count, and a counter is a page count exactly when its tenant is called "total:" plus the other |
| ModelRouter.OtherTenantsUntouched | server/pdf_chat/model_router.py:94-118 | steps taken for other tenants never change the value under a tenant's counter key |
| ModelRouter.PagesGrowByGrants | server/pdf_chat/model_router.py:103-118 | a tenant's page count grows by exactly the grants of the tenant whose counter has its key |
| ModelRouter.QueryTimeModelReachesOnlyQueries | server/pdf_chat/model_router.py:54-56 | the query-time strong id has no influence exactly on ingestion tasks and on calls that do not escalate |
| ModelRouter.EscalationAllowed | server/pdf_chat/model_router.py:166-213 | allowed exactly when a signal fires, a store is wired and the counter is below the cap; the counter then grows by one and never passes the cap, every other counter is unchanged, and a page count changes only under that same key |
| ModelRouter.CapIs | server/pdf_chat/model_router.py:191-195 | the cap is the budget fraction of the window rounded down, and 1 where that is less |
| ModelRouter.SelectModel | server/pdf_chat/model_router.py:216-259 | the strong tier exactly when escalation is allowed, and the budget is charged exactly then |
| Backfill.BackfillRun.Page | server/app/migrations/backfill_embeddings.py:186-209 | a fetched row whose result is a vector holds that vector and its own search text, one without a result is unchanged, as is every other row, and every row of the page counts once as updated or failed |
| Backfill.BackfillRun.RunMissing | server/app/migrations/backfill_embeddings.py:170-222 | whenever the run ends at all, every row that was missing keeps its content and holds its own search text and the vector of that text, every other row is as it was, and `updated` is the number of rows that were missing |
| Backfill.BackfillRun.RunForced | server/app/migrations/backfill_embeddings.py:170-222 | the offset walk ends whatever fails, tries every row exactly once, and without failures every row keeps its content and holds its own search text and the vector of that text |
| Backfill.EndsIffKeepsEmbedding | server/app/migrations/backfill_embeddings.py:173-184 | some fetch of the normal mode is empty exactly when, as long as rows are missing, some later page embeds one; single pages may fail |
| Backfill.SteadyRunEndsIff | server/app/migrations/backfill_embeddings.py:173-184 | when the same texts always fail, exactly when no missing row has one of them |
| Backfill.EmbeddedIffNotStarved | server/app/migrations/backfill_embeddings.py:173-184 | then a good missing row is ever embedded exactly when fewer than batch_size failing missing rows precede it |
| Backfill.BadBatchStalls | server/app/migrations/backfill_embeddings.py:170-184 | a first batch of failing rows is fetched for ever and no page changes the table |
| Backfill.FetchedIff | server/app/migrations/backfill_embeddings.py:175-181 | a fetch takes exactly the missing rows with fewer than batch_size missing rows before them |
| Backfill.FailingRowNeverEnds | server/app/migrations/backfill_embeddings.py:173-184 | a row whose text never gets a vector is left as it was by every page, and the run never ends |
| Backfill.PageStepMissing | server/app/migrations/backfill_embeddings.py:170-172 | a page never makes more rows missing, and makes fewer exactly when it embeds something |
| Backfill.NeverFailingEnds | server/app/migrations/backfill_embeddings.py:173-184 | a run in which no row fails ends |
| Backfill.PooledRunIsFaithful | server/app/migrations/backfill_embeddings.py:60-112 | through batching and scatter each row gets the vector of its own text, and a pool that never fails nor returns zero vectors fails no row |
| Backfill.EmbedPagePooled | server/app/migrations/backfill_embeddings.py:97-112 | missing and zero vectors and a failed page count as failures, everything else is passed on by position |
| TraceBounds.SafeValBounded | server/app/core/orchestration_trace.py:64-81 | every output has strings of at most 201 characters, distinct keys of at most 81, at most 20 elements and 30 items |
| TraceBounds.FixedIffBounded | server/app/core/orchestration_trace.py:64-81 | the bounder leaves a value alone exactly when it already obeys the bounds |
| TraceBounds.SafeValIdempotent | server/app/core/orchestration_trace.py:64-81 | bounding twice is bounding once |
| TraceBounds.ItemsKept | server/app/core/orchestration_trace.py:76-78 | a dict keeps its first 30 items, assigned one after the other under keys cut to 80 characters and an ellipsis |
| TraceBounds.ElementsKept | server/app/core/orchestration_trace.py:72-80 | scalars pass and a list keeps its first 20 elements, each bounded in its own place |
| TraceBounds.TextsKept | server/app/core/orchestration_trace.py:59-61 | a longer text keeps its first 200 characters, followed by an ellipsis |
| TraceBounds.SafeValSize | server/app/core/orchestration_trace.py:64-81 | a value nested d deep keeps at most (30^(d+1) - 1) / 29 nodes |
| TraceBounds.CompactChain | server/app/core/orchestration_trace.py:430-442 | the loop keeps the first eight distinct codes in order |
| TraceBounds.TruncatedFlag | server/app/core/orchestration_trace.py:430-442 | the flag agrees with a dropped code exactly unless more than eight codes have at most eight distinct ones |
| TraceBounds.DroppedIff | server/app/core/orchestration_trace.py:430-442 | a code is dropped exactly with more than eight distinct codes |
| TraceBounds.RepetitionIsFlagged | server/app/core/orchestration_trace.py:430-442 | nine times the same code is flagged without a drop |
| Completeness.NeverLosesIffCovered | testing/workflow_eval/completeness_scorer.py:172-204 | no requirement of the three declared role types can lose coverage exactly when each role that counts as one of them is covered afterwards by one of its type whose label contains its own |
| Completeness.AddingFilesKeepsCoverage | testing/workflow_eval/completeness_scorer.py:127-204 | adding files under distinct names keeps every satisfied requirement satisfied |
| Completeness.HarmfulIsUnreachable | testing/workflow_eval/expansion_validator.py:170-247 | with distinct names and nothing removed the delta is nonnegative and the verdict is never "harmful" |
| Completeness.GainComesFromAddedFile | testing/workflow_eval/expansion_validator.py:192-231 | a positive delta comes with an added file that itself satisfies a newly met requirement |
| Completeness.GainMeansUsefulFile | testing/workflow_eval/expansion_validator.py:192-235 | when the catalog lists the shortlisted files, a positive delta means some added file is useful and contributes a domain, a recovered one when short names are distinct |
| Completeness.CanBeHarmfulIff | testing/workflow_eval/expansion_validator.py:236-247 | some benchmark over the declared role types calls the expansion harmful exactly when a file was added and some role of the earlier shortlist that counts as one of them is no longer covered |
| Completeness.LostRequirementIsHarmful | testing/workflow_eval/expansion_validator.py:236-247 | with a file added, the benchmark of one requirement yields "harmful" exactly when the requirement was met before and is not after |
| Completeness.DuplicateNameExample | testing/workflow_eval/completeness_scorer.py:145-146 | concrete entries with a reused name that yield the harmful verdict |
| Completeness.CollectRoles | testing/workflow_eval/completeness_scorer.py:127-147 | the nested loops build the role index, later entries with roles replacing earlier ones |
| Completeness.IndexHas | testing/workflow_eval/completeness_scorer.py:127-147 | a name that has roles is indexed with those of its last entry that has any |
| Completeness.IndexHasOnly | testing/workflow_eval/completeness_scorer.py:127-147 | a name none of whose entries has roles is not indexed |
| Completeness.SatisfyingFiles | testing/workflow_eval/completeness_scorer.py:172-204 | exactly the files with a matching role, nonempty exactly when the requirement is satisfied |
| Completeness.RoleMatchesIff | testing/workflow_eval/completeness_scorer.py:182-189 | a role matches exactly when its kind counts as the type asked for and its label contains a hint, up to the case of letters |
| Completeness.Coverage | testing/workflow_eval/completeness_scorer.py:232-236 | whether each requirement is satisfied by some file |
| Completeness.ScoreShortlist | testing/workflow_eval/completeness_scorer.py:229-296 | the fraction of expected domains covered, 0 without any, the number of required ones, and the satisfied short names |
| Completeness.ScoreIs | testing/workflow_eval/completeness_scorer.py:291-296 | the score is the number of satisfied requirements over the number expected |
| Completeness.FileDomains | testing/workflow_eval/expansion_validator.py:103-137 | the short names a file satisfies by itself |
| Completeness.ValidateExpansion | testing/workflow_eval/expansion_validator.py:153-264 | the report equals the before/after evaluation: scores, required counts, recovered domains, each added file's domains, false expansions with their rate, and the verdict |
| Metrics.PercentileWithinSample | server/app/core/metrics.py:135-142 | an interpolated percentile lies between minimum and maximum and reaches them at 0 and 100 |
| Metrics.PercentileIs | server/app/core/metrics.py:135-142 | with p * (n - 1) split into i hundreds and r more, percentile p lies r hundredths of the way from sample i to the next |
| Metrics.PercentileMonotone | server/app/core/metrics.py:135-142 | percentiles grow with p |
| Metrics.SnapshotOrdered | server/app/core/metrics.py:111-130 | every snapshot with samples has min <= p50 <= p95 <= p99 <= max over at most 500 samples |
| Metrics.SortedCopy | server/app/core/metrics.py:115-115 | the sorted sample is a sorted permutation of the window |
| Metrics.Metrics.RecordQueryDuration | server/app/core/metrics.py:105-108 | the window is always the last 500 recorded durations |
| Metrics.Metrics.GetSnapshot | server/app/core/metrics.py:111-130 | the snapshot summarises that window and shows every declared or used counter at its level |
| Metrics.GaugeIsNetPlusShortfall | server/app/core/metrics.py:93-102 | after any calls a counter is what was added minus what was taken plus the largest amount by which a dec took it below zero |
| Metrics.GaugeIsNetIff | server/app/core/metrics.py:93-102 | it shows exactly the difference if and only if no dec ever took more than had been added |
| Metrics.CountsNext | server/app/core/metrics.py:93-102 | one more inc or dec keeps every counter at the level of its history and touches no other |

## Left out

- Backfill.BackfillRun.RunMissing: asks that the run ends, because otherwise the source's loop does not (EndsIffKeepsEmbedding says when it does); negative batch sizes, an SQL error, are not modelled.
- UploadQueue.UploadRun.Process: asks for maxConcurrent >= 1 unless there are no files, because the source's loop spins for ever otherwise (CanMove), and takes what happens during each wait as an input script.
- ModelPool.ModelPool.Call: takes the environment as a finite script with a nondecreasing clock; client construction, its cache, payloads and logging are not modelled.
- OpenAiClient.ChatClient.ChatCompleteWithFailover: the per-organisation single-lane path and the reloading of the deployment list between attempts are not modelled.
- OpenAiClient.AlwaysDistinctIff: for eligible lanes with positive weight, because a recovered lane of zero weight may never be drawn; DistinctIffEnoughLanes covers any weights.
- ResponseCache.ResponseCache.GetCachedResponse: one clock reading per operation instead of one per expiry check; normalisation, similarity and the hollow-phrase list are uninterpreted functions; the returned copy of the payload is a value.
- SqlRewriter.RewriteSql: works on tokens, not characters; extra keyword arguments of a call are dropped as in the source, and identifier case folding is not modelled.
- Completeness.SatisfyingFiles: evidence strings and their order are not modelled; lower-casing covers ASCII letters.
- Completeness.ValidateExpansion: the fired triggers and the order of the lists in the report are not modelled; the lists are sets.
- EmbedBatcher.EmbedAll: the tier and the request payload beyond the texts are passed through by the source and not modelled.
- load_deployments parsing: only its result, nonnegative weights and known kinds, appears as types.
- Topology hints, optional-domain lists, failure flags and summaries of the completeness scorer: they would only add single-branch members.
- Container resolution, parquet index and field truncation of the catalog: plain look-ups.
- Query execution itself, object stores, Azure, Redis, SQL, OpenAI and the network: outcomes are parameters.
- Rounding of percentiles and confidence values, log records, and time stamps of snapshots.
- UploadQueue.UploadRun.Hear: assumes that no progress event arrives after its upload has settled; the source's callback has no such guard, and a late block event would overwrite the last phase.
- Upload speed tracking, block uploads and the confirm request: one upload is a sequence of reports and one settlement.
- Retry back-off and concurrency inside one backfill page: a page yields one result per row.
