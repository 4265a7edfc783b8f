# Verified model of the Nagg aggregator

Nagg collects Nostr events, stores them in ClickHouse and serves ranked and
batched reads. This project models the parts of it that carry guarantees of
their own: batched reference resolution, feature-table ranking, two caches, a
rollup with two cursors, a keyset worker, the ingest pipeline, the migration
tooling and the limiters that throw old entries away. For each part there is an
imperative model that follows the code, a specification it is proved against,
and theorems about every input, every run or every interleaving.

`dafny verify dfyconfig.toml` checks everything.

| file | models |
|---|---|
| `References.dfy` | references of a whole page of events, resolved in one loop |
| `ReferenceSelection.dfy` | which ids the tags of one event select |
| `FeatureWeights.dfy` | rank terms: the live scoring path and its compilation to column weights |
| `RankShares.dfy` | weighted sums of a row's features, and when two of them agree on every row |
| `RankFinalize.dfy` | boosts, jitter, order and paging on top of base scores |
| `EventMerge.dfy` | merging pages of events into one page |
| `VertexCache.dfy` | the in-process cache with single flight and background refresh |
| `ResponseCache.dfy` | the envelope codec and the stale-while-revalidate response cache |
| `VertexCacheAnswers.dfy`, `ResponseCacheAnswers.dfy` | what the callers of the two caches get |
| `NotificationsFeed.dfy` | the rollup with a head cursor and a history cursor |
| `Enrichment.dfy` | the keyset worker and its cursor state |
| `Ingest.dfy` | batching, flushing and the daily post quota |
| `SqlSplit.dfy` | the SQL script splitter |
| `SqlComments.dfy` | comments, semicolons, quotes and blanks in a script |
| `SchemaParse.dfy` | reading CREATE TABLE statements |
| `SchemaScript.dfy` | reading whole migration scripts with the two above |
| `SchemaReading.dfy` | keywords, names, columns and views in the statements of a script |
| `SchemaReconcile.dfy` | the schema diff, its guard and its execution |
| `RateLimit.dfy` | the per-client limiter |
| `Backfill.dfy` | the cooldown map and the job scheduler |
| `Sorting.dfy`, `Events.dfy`, `Wrappers.dfy` | shared: stable sort and top-k, the event order, options and results |

Times are integers (nanoseconds, or seconds where the code uses them), scores
are reals. Databases, relays, clocks and the Redis backend are parameters: each
step says what they answer and whether they fail, and the theorems hold for all
answers. An event id determines its event; where a theorem needs that, it
requires it (`IdsDetermine`). Concurrent code is modelled as atomic steps, one
per critical section, and the theorems hold for every interleaving.

## Properties that hold only under a condition

Some properties one would expect of this code do not hold on all inputs. For
those the exact condition is proved, and a concrete failing input is given.

- `FeatureWeights.PreservedIff`: acceptance by `featureWeightsFromTerms` does
  not preserve scores (two score terms with different follower floors are
  compiled to the higher floor: `TwoFloorsDiffer`). With the one library of
  logarithm and decay the program uses, scores agree for every row exactly when
  the weights agree per floor, half-life, transform and query;
  `SharedParametersSuffice` gives the everyday case.
- `NotificationsFeed.ProgressIff`: a successful tick brings the history cursor
  a slice closer to its target exactly unless there is a head cursor older than
  the whole history window and no history cursor yet (`StaleHeadExample`). Once
  there is a history cursor every successful tick makes progress
  (`StaleHeadIsInitial`), and failing ticks only delay it (`FailuresOnlyDelay`).
- `Enrichment.ExactlyOnceIff`: the all-zero id is read back as "no id", so an
  event is skipped exactly when a full batch ends on that id and another event
  shares its second (`ZeroIDHidesEvent`).
- `SchemaReconcile.CompletesIff`: when only column drops may fail, a run
  completes exactly when no declared table that lacks a column is a view
  (`ViewWithoutColumnFails`).
- `SchemaReconcile.ProtectedNameSurvivesIff`: the guard filters table and column
  drops only, so a protected name is lost exactly when it is an undeclared view
  (`ProtectedViewIsDropped`).
- `SchemaParse.RoundTripIff`: a column called `index`, `constraint` or
  `projection` reads as a table-level clause and is lost (`IndexColumnIsLost`).
- `VertexCache.StalenessBoundedBySwrIff`: whatever the cache serves in any
  interleaving is younger than `swr` exactly when `ttl` is not longer than `swr`
  or validation accepts nothing (otherwise `OldHit`). All three callers (internal/vertex/client.go:94-124,
  `ttl` one hour, `swr` two or seven days) meet the condition.
- `RateLimit.PruningHiddenIff`: clock readings are taken before the lock, so they
  can reach it out of order. A schedule of readings hides pruning, for every limit
  and whatever clients call, exactly when no reading returns to a window that an
  earlier prune has already passed; `InvertedReadingsShowPruning` is a used-up
  client admitted by a return of one tick. For one run, `UnobservableIff` gives the
  exact condition on the buckets it leaves, whatever the clock did.
- `Backfill.PruningHiddenIff`, `Backfill.AttemptsAreSpacedIff`: here too readings are
  taken before the lock. Pruning the cooldown map changes no decision, and admitted
  attempts of a key are a cooldown apart, for every run with these readings exactly
  when no reading lies less than a cooldown after an earlier one that the clock has
  since been a cooldown past. `InvertedReadingsShowPruning` is a run of three calls
  that admits a key twice within a cooldown. For one run, `UnobservableIff` gives the
  exact condition on the entries it leaves.
- `VertexCache.PanicBlocksKey`: a flight is finished only after a call of the wrapped
  function that returns. Once one panics and something above recovers, its key is
  never fetched again.

## Model

| member | source | states |
|---|---|---|
| `References.LoadSelectedReferencesBatch` | internal/graphqlapi/schema.go:4617-4709 | batching preserves meaning: for any page, map order and early exit, each event of the page gets exactly what the plain all-rounds walk for it alone gives, although the fetched map and the changed flag are shared; an event with a chain of references gets the end of the chain and nothing on the way; it fails only if the store does |
| `References.UnchangedIsFixpoint` | internal/graphqlapi/schema.go:4652-4690 | a source whose id list a round leaves unchanged has visited nothing new either, so further rounds triggered by other sources cannot move it |
| `References.FixpointStays` | internal/graphqlapi/schema.go:4652-4694 | once two consecutive rounds agree, every later round agrees with them |
| `References.Settled` | internal/graphqlapi/schema.go:4691-4694 | leaving the loop when nothing changed gives what running all MaxDepth rounds would have given |
| `References.ResolvedAreReachable` | internal/graphqlapi/schema.go:4617-4709 | every resolved event exists in the store, is reached by at most MaxDepth + 1 selected references, is listed once, and is not the source when self-references are excluded |
| `References.MatchingReferenceIDs` | internal/graphqlapi/schema.go:4765-4795 | stopping at the limit loses nothing: the result is the first `limit` distinct eligible ids of the whole tag list, read forwards or backwards |
| `References.SelectReferenceIDs` | internal/graphqlapi/schema.go:4752-4763 | the first selector that matches anything decides, the fallback only after all of them |
| `References.SelectedAreHex` | internal/graphqlapi/schema.go:4789-4806 | selected ids are distinct, at most `limit`, 64 hex digits, and not the event itself when excluded |
| `ReferenceSelection.FoundAreNamed` | internal/graphqlapi/schema.go:3232-3283 | every selected id is named by a tag with the key, the value and the marker asked for, has 64 lower-case hexadecimal digits, and is not the event itself when excluded |
| `ReferenceSelection.NamedAreFound` | internal/graphqlapi/schema.go:4765-4795 | every such id is selected, unless `limit` others are |
| `ReferenceSelection.FoundInReadingOrder` | internal/graphqlapi/schema.go:4765-4787 | ids are selected first come, first served, from the first tag on or from the last |
| `ReferenceSelection.FirstMatchDecides` | internal/graphqlapi/schema.go:4752-4763 | the ids are those of the first selector that finds any, and of the fallback if none does |
| `References.AdvanceSource` | internal/graphqlapi/schema.go:4652-4686 | the nested loop over one source's ids and their candidates, with both seen sets and the limit break, is one round of the walk |
| `References.RoundReplaces` | internal/graphqlapi/schema.go:4652-4686 | a round replaces ids, in order, by the references that are new to the source and to the ids before them, keeps an id without any, and ends once `limit` ids are there after a fetched one |
| `References.SurvivesIff` | internal/graphqlapi/schema.go:4662-4682 | an id is left in the list after a round exactly if the round took it and it leads to nothing new |
| `References.ChainResolves` | internal/graphqlapi/schema.go:4617-4709 | when an event and each id after it select just one further id, the event resolves to the id the hops, or the chain, end at, or to nothing if that is not stored |
| `References.WithoutHops` | internal/graphqlapi/schema.go:4648-4650 | with no hops an event resolves to the events it selects, in that order |
| `References.QueryEventsByIDs` | internal/graphqlapi/schema.go:4711-4736 | fetching in chunks returns exactly the stored events of the distinct non-empty ids |
| `References.ChunkIsComplete` | internal/clickhouse/read.go:1800-1809 | a chunk of at most 500 ids asked for with its own length never meets the store's row cap |
| `References.LargeRequestsAreCut` | internal/clickhouse/read.go:1804-1806 | asking for more than 500 ids at once would lose rows, which is why chunking is needed |
| `FeatureWeights.FeatureWeightsFromTerms` | internal/graphqlapi/schema.go:1551-1637 | compiling succeeds exactly when there are terms and each has a feature column; each weight is then the sum over its terms, the half-life is the last one and the floor the highest |
| `FeatureWeights.WeightedRankBaseScores` | internal/graphqlapi/schema.go:2855-2909 | the live path errs exactly when a candidate exists and some queried term fails; otherwise every non-empty candidate id gets the sum of what its terms are worth, written out for each kind of term, and no other id but "" gets a score |
| `FeatureWeights.ApplyPubkeyScore` | internal/graphqlapi/schema.go:2974-3005 | each id gains one share per occurrence among the candidates, with the fallback below the floor |
| `FeatureWeights.ApplyCandidateField` | internal/graphqlapi/schema.go:3007-3016 | each id gains one recency share per occurrence; only the key "" can be added |
| `FeatureWeights.LiveIsWeighted` | internal/graphqlapi/schema.go:2855-2909 | the live score of an id is the weighted sum of its terms' shares, per-candidate terms counted once per listing of the id |
| `FeatureWeights.LiveScoreIsWorth` | internal/graphqlapi/schema.go:2974-3053 | the live score in terms of the store: author scores at or above the floor or else the fallback, the decay of the age, transformed metrics and counts, for all terms, those that cannot be compiled included |
| `FeatureWeights.RecencyOfOne` | internal/graphqlapi/schema.go:3040-3053 | one recency term and one listing score the weight times the decay of now less the creation time, or of zero for a time to come |
| `FeatureWeights.AcceptedForms` | internal/graphqlapi/schema.go:1551-1637 | the sources, targets, fields, metrics and transforms that can be compiled |
| `FeatureWeights.LastHalfLifeWins` | internal/graphqlapi/schema.go:1578-1590 | of several half-lives the last one is compiled |
| `FeatureWeights.ScanIsWeighted` | internal/clickhouse/read.go:436-453 | the score expression of the table scan is the weighted sum of one share per column |
| `RankShares.FadingWeighsZero` | internal/clickhouse/read.go:453 | decays of distinct half-lives are independent: fading shares that come to nothing at every age have no weight at any half-life |
| `RankShares.SameSharesIff` | internal/graphqlapi/schema.go:1541-1637 | under any one lawful library, two ways of scoring agree on every row of author, quality, counts and age exactly when their weights agree for every floor, half-life, transform and query |
| `RankShares.LawfulLibraryExists` | internal/clickhouse/read.go:425 | the laws asked of logarithm and decay can be met together |
| `FeatureWeights.PreservedIff` | internal/graphqlapi/schema.go:1541-1637 | under any one lawful library, compiled and live scores of accepted terms agree on every row if and only if the weight sums agree key by key |
| `FeatureWeights.SharedParametersSuffice` | internal/graphqlapi/schema.go:1541-1637 | accepted terms with one floor, one half-life, untransformed derived metrics and non-empty references that the columns hold keep their scores, duplicates included |
| `FeatureWeights.ScanEqualsLive` | internal/clickhouse/read.go:413-453 | under that condition the scan, of a row with the age and metrics of the candidate, gives it exactly its live base score |
| `FeatureWeights.TwoFloorsDiffer` | internal/graphqlapi/schema.go:1563-1576 | a concrete accepted term list whose compiled scores differ from the live ones, whatever the column and the library |
| `RankFinalize.FinalizeRankedIDs` | internal/graphqlapi/schema.go:2916-2972 | the result is the requested page of a sorted ranking holding one entry for each scored candidate |
| `RankFinalize.RankingIsCanonical` | internal/graphqlapi/schema.go:2947-2957 | any two rankings of the same candidate set are equal, so candidate order and repetitions do not matter |
| `RankFinalize.RankingListsEachIdOnce` | internal/graphqlapi/schema.go:2927-2946 | a ranking lists exactly the scored candidate ids, each once |
| `RankFinalize.PagesCoverRanking` | internal/graphqlapi/schema.go:2958-2967 | consecutive pages concatenate to the whole ranking without overlap or omission |
| `RankFinalize.BoostsFoldIntoBase` | internal/graphqlapi/schema.go:2911-2915 | adding boosts late ranks exactly as folding them into the base scores |
| `RankFinalize.HigherComesFirst` | internal/graphqlapi/schema.go:2947-2957 | of two places the earlier has the higher base score plus boosts plus jitter; of equal ones the later event; of those the greater id |
| `RankFinalize.BoostsAddUp` | internal/graphqlapi/schema.go:2936-2943 | each boost adds its weight for the authors it names |
| `RankFinalize.PlacesOnPage` | internal/graphqlapi/schema.go:2958-2967 | the i-th id of a page is the one at offset + i, up to the limit |
| `EventMerge.MergeEventsDescDedup` | internal/graphqlapi/dm_social.go:360-385 | for any number of pages that are each the first `limit` of their own set, the merged page is the first `limit` of the union |
| `EventMerge.TopOfUnion` | internal/appview/handler.go:1568-1592 | the first `limit` of the merged pages is the first `limit` of the union, including events the pages themselves cut off |
| `EventMerge.MissedByItsPage` | internal/clickhouse/read.go:1919-1921 | an event its own page cut off comes after every event of the merged page |
| `EventMerge.NewestFirst` | internal/graphqlapi/dm_social.go:360-385 | a merged page is newest first, and no event outside it is newer than one inside it |
| `EventMerge.ShortPageIsAll` | internal/graphqlapi/dm_social.go:360-385 | a page that leaves an event out has `limit` events |
| `Events.FirstDifferenceDecides` | internal/graphqlapi/dm_social.go:376-382 | ids are compared by their first different character |
| `VertexCache.CachedCall.Get` | internal/vertex/cache.go:70-101 | the locked section of Get: fresh, stale with a background flight, or a miss, with its counters |
| `VertexCache.CachedCall.FetchOnce` | internal/vertex/cache.go:140-157 | the locked section that joins a flight or opens one |
| `VertexCache.CachedCall.Finish` | internal/vertex/cache.go:159-180 | the locked section that publishes a result, clears inflight and closes the channel in one step |
| `VertexCache.AtMostOneFetchPerKey` | internal/vertex/cache.go:140-180 | in every interleaving at most one thread fetches a key |
| `VertexCache.ClosedExactlyOnce` | internal/vertex/cache.go:159-180 | a flight is closed at most once, by its creator, exactly when it leaves inflight |
| `VertexCache.WaitersShareTheResult` | internal/vertex/cache.go:140-157 | a woken waiter holds the very result its flight's creator returned |
| `VertexCache.ServedIsValidAndYoung` | internal/vertex/cache.go:70-101 | whatever is served passed validation and is younger than the longer of ttl and swr |
| `VertexCache.StalenessBoundedBySwrIff` | internal/vertex/cache.go:76-96 | every value served in any reachable state is younger than swr if and only if ttl is not longer than swr or validation accepts nothing |
| `VertexCache.HitsAndMissesCountGets` | internal/vertex/cache.go:70-101 | hits plus misses is the number of Gets in every interleaving |
| `VertexCache.StoredWasFetchedForItsKey` | internal/vertex/cache.go:159-180 | every stored value was fetched, by some flight, for the key it is stored under |
| `VertexCacheAnswers.FreshIsServed` | internal/vertex/cache.go:76-82 | a value younger than ttl is served and nothing else happens |
| `VertexCacheAnswers.StaleIsServedAndRefreshed` | internal/vertex/cache.go:83-95 | a value between ttl and swr is served, and a refresh of its key is running, a new one if there was none |
| `VertexCacheAnswers.OldIsMissed` | internal/vertex/cache.go:96-101 | without a value young enough the caller goes on to fetch |
| `VertexCacheAnswers.FetchesOrWaits` | internal/vertex/cache.go:140-157 | a caller waits on the running flight of its key and opens one only if there is none |
| `VertexCacheAnswers.RefreshFetches` | internal/vertex/cache.go:103-109 | a refresh is counted and goes on to fetch whatever is stored |
| `VertexCacheAnswers.StoredIsServed` | internal/vertex/cache.go:167-171 | a stored value answers a Get of its key that comes less than ttl later |
| `VertexCacheAnswers.OthersStayStored` | internal/vertex/cache.go:167-171 | storing one value keeps the others but the one that is pushed out |
| `VertexCacheAnswers.WaiterIsAnswered` | internal/vertex/cache.go:145-180 | whoever waits on a flight that finishes is woken with what its fetch returned |
| `VertexCache.PanicBlocksKey` | internal/vertex/cache.go:159-180 | after a panic in the wrapped function its flight stays open for good: whatever runs later, nobody fetches that key and nobody is woken from that flight |
| `VertexCache.PanicHappens` | internal/vertex/cache.go:159-166 | a refresh whose wrapped function panics is a reachable state |
| `ResponseCache.EncodeEnvelope` | internal/cache/middleware.go:33-39 | the filled buffer is version, big-endian seconds, body, for every int64 timestamp and body |
| `ResponseCache.DecodeInvertsEncode` | internal/cache/middleware.go:33-47 | decoding an envelope gives back its second and its body, also for times before 1970 |
| `ResponseCache.EncodeInvertsDecode` | internal/cache/middleware.go:41-47 | bytes decode exactly when long enough and of this version, and are then the envelope of what they decode to |
| `ResponseCacheAnswers.EnvelopeBytes` | internal/cache/middleware.go:25-39 | byte by byte: version 1, eight bytes of the second with the most significant first, the body |
| `ResponseCacheAnswers.EnvelopeBefore1970` | internal/cache/middleware.go:33-39 | a second before 1970 is written as its two's complement |
| `ResponseCache.Decide` | internal/cache/middleware.go:174-194 | what a request does with the cache's answer |
| `ResponseCache.SharedCache.Lookup` | internal/cache/middleware.go:171-194 | reading the cache and deciding is the lookup step of the interleavings, also when the backend does not answer |
| `ResponseCache.SharedCache.Enter` | internal/cache/middleware.go:195-214 | entering the group joins the flight of that name or opens one, as the join step does |
| `ResponseCache.SharedCache.Cache` | internal/cache/middleware.go:201-206 | a cacheable response is stored as the envelope of the clock reading; nothing is stored for a lifetime that is not positive |
| `ResponseCache.SharedCache.Leave` | internal/cache/middleware.go:195-221 | leaving the group publishes the answer and closes the flight, with no answer after a panic |
| `ResponseCache.HitAges` | internal/cache/middleware.go:174-190 | rounding the stamp down never makes an entry look younger: a hit's true age is within the fresh window, an entry a second younger than that is always a hit, and a stale answer needs a stale window |
| `ResponseCache.OneComputePerName` | internal/cache/middleware.go:195-221 | in every interleaving at most one miss compute and one revalidation of a key run, and the two never share a flight |
| `ResponseCache.NamesApart` | internal/cache/middleware.go:199-201 | the name of a revalidation is never the name of another key's compute |
| `ResponseCache.ServedWasComputed` | internal/cache/middleware.go:174-221 | every hit or stale body came from a cacheable compute for the same key that had finished before |
| `ResponseCache.HitsAreFresh` | internal/cache/middleware.go:185-188 | a hit never answers a refresh and its true age never exceeds the fresh window |
| `ResponseCache.NoStaleWindow` | internal/cache/middleware.go:185-194 | without a stale window no cached body is served past fresh or under refresh |
| `ResponseCache.MissesAreCurrent` | internal/cache/middleware.go:212-221 | a miss is answered by a compute for its key whose flight closed after the request began |
| `ResponseCache.StaleAnswersExpire` | internal/cache/middleware.go:171-221 | with a backend that honours the lifetime it is given, every body served from the cache was put there less than fresh plus stale before it was read |
| `ResponseCacheAnswers.FreshIsHit` | internal/cache/middleware.go:185-188 | an entry within the fresh window answers a request that is no refresh, and nothing else happens |
| `ResponseCacheAnswers.StaleIsRevalidated` | internal/cache/middleware.go:190-208 | with a stale window an older entry, or a refresh, is answered stale and a revalidation of its key is set off |
| `ResponseCacheAnswers.ExpiredIsComputed` | internal/cache/middleware.go:190-214 | without a stale window such a request computes |
| `ResponseCacheAnswers.NothingIsComputed` | internal/cache/middleware.go:178-214 | so does a request for which the backend has nothing, does not answer or has bytes of another version |
| `ResponseCacheAnswers.StoredIsKept` | internal/cache/middleware.go:174-206 | a cacheable response is stored for the fresh and the stale window together |
| `ResponseCacheAnswers.StoredIsHit` | internal/cache/middleware.go:174-206 | a stored response answers a later request within the fresh window, less the second the stamp loses |
| `ResponseCacheAnswers.ComputesOrWaits` | internal/cache/middleware.go:195-214 | a request waits on the running flight of its kind and runs one only if there is none |
| `ResponseCacheAnswers.WaiterIsAnswered` | internal/cache/middleware.go:210-221 | whoever waits on a flight that finishes is answered with its compute |
| `ResponseCacheAnswers.PanicAnswersNobody` | internal/cache/middleware.go:195-221 | after a panic nobody who waits is answered, and the key can be computed anew |
| `NotificationsFeed.FeedStore.RecomputeNotificationsFeed` | internal/clickhouse/notifications_feed.go:56-118 | one tick with any mix of failing loads, statements and saves is the function the run theorems are about |
| `NotificationsFeed.FeedStore.NotificationsFeedReady` | internal/clickhouse/notifications_feed.go:216-238 | the readiness answer is recomputed from the cursors at most once per interval and kept in between |
| `NotificationsFeed.CursorsBoundWrittenHistory` | internal/clickhouse/notifications_feed.go:56-118 | after any ticks, failures and clock values, if both cursors are set every second between them has been written |
| `NotificationsFeed.ReadyMeansCovered` | internal/clickhouse/notifications_feed.go:220-236 | whenever readiness is recomputed to true, the last 72 hours up to the head are covered without a gap |
| `NotificationsFeed.CoverageLasts` | internal/clickhouse/notifications_feed.go:216-238 | nothing covered is ever uncovered by later ticks |
| `NotificationsFeed.CompletionMeansCovered` | internal/clickhouse/notifications_feed.go:86-118 | a tick that reports completion leaves the whole target range covered |
| `NotificationsFeed.HistoryNeverMovesForward` | internal/clickhouse/notifications_feed.go:86-118 | over any run the stored history cursor never moves forward, whatever fails and whatever the clock does |
| `NotificationsFeed.CompletionIffTargetReached` | internal/clickhouse/notifications_feed.go:86-118 | a tick that got through returns true exactly when at most one slice was left |
| `NotificationsFeed.ProgressIff` | internal/clickhouse/notifications_feed.go:86-118 | a successful tick makes progress if and only if the head cursor is not older than the window with no history cursor set |
| `NotificationsFeed.StaleHeadExample` | internal/clickhouse/notifications_feed.go:86-118 | a concrete state in which a successful tick makes no progress |
| `NotificationsFeed.FailuresOnlyDelay` | internal/clickhouse/notifications_feed.go:56-118 | on a clock that does not go back, from any state with a history cursor and under any failures, every successful tick removes a slice until none is left, and no failing tick puts one back |
| `NotificationsFeed.CatchUp` | internal/clickhouse/notifications_feed.go:22-118 | on a clock that does not go back, from an empty store and under any failures, either no tick has made progress yet or at most 336 slices less one per productive tick are left |
| `NotificationsFeed.CatchUpTerminates` | internal/clickhouse/notifications_feed.go:22-118 | on a clock that does not go back, after 335 productive ticks every successful tick reports completion with the window covered, wherever ticks failed in between |
| `NotificationsFeed.SuccessesComplete` | internal/clickhouse/notifications_feed.go:22-118 | on a clock that does not go back, where successful ticks follow each other by at least a second less than the history window, after 336 of them every successful tick reports completion with the window covered, wherever others failed |
| `NotificationsFeed.StaleHeadIsInitial` | internal/clickhouse/notifications_feed.go:86-118 | once there is a history cursor, it stays and every successful tick is a productive one |
| `NotificationsFeed.FlawlessRunCompletes` | internal/clickhouse/notifications_feed.go:22-118 | the 335th of any flawless ticks from an empty store reports completion |
| `NotificationsFeed.FlawlessTick` | internal/clickhouse/notifications_feed.go:56-118 | what one flawless tick with both cursors writes and saves: from ten minutes before the old head to now, and one hour further back but not past 14 days |
| `NotificationsFeed.FirstTick` | internal/clickhouse/notifications_feed.go:62-118 | the first tick writes the last hour as the head and the hour before as history |
| `NotificationsFeed.HistoryStartsAtHead` | internal/clickhouse/notifications_feed.go:86-118 | with a head and no history cursor, history goes on from the old head |
| `NotificationsFeed.CursorsFollowWrites` | internal/clickhouse/notifications_feed.go:56-118 | a cursor moves only when the statement before it worked and its own save took |
| `NotificationsFeed.ReadyIff` | internal/clickhouse/notifications_feed.go:223-231 | ready exactly when both loads work, the head is younger than 30 minutes and history reaches back 72 hours |
| `Enrichment.EnrichmentStore.RunOnce` | internal/enrich/runner.go:79-156 | one attempt that may stop or fail after any load, fetch, write or save |
| `Enrichment.Tally` | internal/enrich/runner.go:107-131 | the loop over a batch counts each event once as processed or failed and ends on the last event's cursor |
| `Enrichment.FetchContinues` | internal/clickhouse/enrichment.go:46-92 | the next fetch is exactly the next events of the table after the committed ones |
| `Enrichment.RunAccounts` | internal/enrich/runner.go:79-156 | over all crashes, the committed batches concatenate to a prefix of the table in order, all their annotations are written, and the saved counters are their totals |
| `Enrichment.CountersMatchCursor` | internal/enrich/runner.go:79-156 | saved Processed plus Failed is the number of events at or before the saved cursor |
| `Enrichment.Drains` | internal/enrich/runner.go:79-156 | on a clock that does not go back and without a hidden event, once as many attempts got through as the table has batches, wherever failures fell, every event is committed |
| `Enrichment.ExactlyOnceIff` | internal/clickhouse/enrichment.go:14-130 | the accounting is exact for every run if and only if no full batch ends on the all-zero id with another event in its second |
| `Enrichment.NoZeroIDIsEnough` | internal/clickhouse/enrichment.go:14-130 | without an all-zero id the accounting is exactly-once for every run and batch size |
| `Enrichment.ZeroIDHidesEvent` | internal/clickhouse/enrichment.go:46-92 | a concrete table of two events in one second whose second event no fetch ever returns |
| `Enrichment.FirstBatch` | internal/clickhouse/enrichment.go:46-66 | without a cursor row the first batch is the oldest events, as many as asked for, or 256 |
| `Enrichment.WritesComeFirst` | internal/enrich/runner.go:133-156 | the cursor moves only after all annotations are written and only if its save took |
| `Enrichment.NothingBeforeTheWrite` | internal/enrich/runner.go:79-104 | an attempt that does not get to its write changes nothing |
| `Enrichment.SavedRowSays` | internal/enrich/runner.go:107-146 | the saved row: the last event of the batch, and the failed and the other results added to the counters |
| `Ingest.Pipeline.OverPostCap` | internal/ingest/postcap.go:39-77 | the counter's day roll, quota test, fail-open bound and counts |
| `Ingest.Pipeline.Run` | internal/ingest/pipeline.go:84-124 | Run handles signals until one ends it; its effect is that of the signals it consumed; it fails exactly if the last one does, and then keeps its batch |
| `Ingest.ReturnsEmpty` | internal/ingest/pipeline.go:102-121 | a Run that returns without an error leaves nothing in the batch |
| `Ingest.SignalFlushes` | internal/ingest/pipeline.go:103-111 | after a tick, a cancellation or the end of input whose insert works, the batch is empty and the store has all that was kept |
| `Ingest.RefusalKeepsAll` | internal/ingest/pipeline.go:103-111 | an insert that fails at such a signal leaves everything as it was and ends Run with an error |
| `Ingest.RunEndsIff` | internal/ingest/pipeline.go:100-123 | Run ends at a cancellation, at the end of input and at a failed insert, and at nothing else |
| `Ingest.FullBatchIsInserted` | internal/ingest/pipeline.go:116-120 | an event that fills the batch is inserted with it |
| `Ingest.InsertsAreNotEmpty` | internal/ingest/pipeline.go:206-213 | no insert is empty |
| `Ingest.RejectedIff` | internal/ingest/pipeline.go:228-268 | the events that are rejected, by presence and by sizes |
| `Ingest.AcceptedGoesLast` | internal/ingest/pipeline.go:228-249 | an accepted event goes to the end of the batch with its relay and time |
| `Ingest.Pipeline.Flush` | internal/ingest/pipeline.go:206-226 | a failed insert changes nothing; a successful one empties the batch and logs pending drops |
| `Ingest.NothingIsLost` | internal/ingest/pipeline.go:84-124 | across ticks, failed flushes and restarts the inserted batches plus the current batch grow by exactly the accepted events in order, and logged plus pending drops by exactly the dropped ones |
| `Ingest.RunsCompose` | internal/ingest/pipeline.go:84-124 | a restarted Run goes on where the previous one returned |
| `Ingest.BatchStaysSmall` | internal/ingest/pipeline.go:84-124 | over any run and any restarts the batch is smaller than a full one, but for one more record for each time the store has refused a full batch since it last took one |
| `Ingest.FullBatchWasRefused` | internal/ingest/pipeline.go:112-121 | a batch that one signal fills and leaves full was just refused by the store, and that ends Run with an error |
| `Ingest.CountersCount` | internal/ingest/postcap.go:39-77 | over any run each counter is the author's accepted counted events since the day last changed, never above the limit; only authors a full map has no room for go uncounted, and the map never exceeds its bound |
| `Ingest.DroppedIffAtLimit` | internal/ingest/postcap.go:57-66 | an event is dropped if and only if its author is tracked and had `limit` events counted that day |
| `Ingest.CappedAuthorsCounted` | internal/ingest/postcap.go:71-75 | the capped-authors count is the number of tracked authors at the limit |
| `Ingest.NotForAll` | internal/ingest/postcap.go:39-49 | exempt authors, kinds other than 1, 6, 16 and 1111, and everyone while there is no limit are neither counted nor dropped |
| `Ingest.CountedOrRefused` | internal/ingest/postcap.go:51-77 | any other well-formed event is dropped at the limit of its day, and else accepted and counted while the author is tracked or fewer than 200,000 are |
| `Ingest.ExemptAreNeverCounted` | internal/ingest/postcap.go:39-47 | over any run an author who is always exempt is never counted |
| `SqlSplit.SplitSQLStatements` | internal/clickhouse/sql.go:14-82 | the index-driven loop groups the lexical pieces of the script at semicolons |
| `SqlSplit.FixpointsAreStatements` | internal/clickhouse/sql.go:14-82 | the texts that split to just themselves are exactly the trimmed ones without comments and without semicolons outside quotes |
| `SqlSplit.OutputsSplitToThemselves` | internal/clickhouse/sql.go:14-82 | every output of every script is such a text and splits to itself |
| `SqlSplit.JoinThenSplit` | internal/clickhouse/sql.go:14-82 | joining any list of such quote-closed texts with semicolons and splitting returns the list |
| `SqlSplit.SplitIsStable` | internal/clickhouse/sql.go:14-82 | splitting, joining and splitting again changes nothing, for every script |
| `SqlComments.LineComment` | internal/clickhouse/sql.go:58-63 | after closed text that does not end in a minus, a line comment counts as one blank, and the line break after it stays |
| `SqlComments.LastLineComment` | internal/clickhouse/sql.go:58-63 | a line comment at the end of the script counts as one blank |
| `SqlComments.BlockComment` | internal/clickhouse/sql.go:64-70 | after closed text a block comment, up to its first end mark, counts as one blank |
| `SqlComments.OpenBlockComment` | internal/clickhouse/sql.go:64-70 | a block comment that is not ended takes the rest of the script |
| `SqlComments.SemicolonSplits` | internal/clickhouse/sql.go:71-79 | after closed text a semicolon ends a statement, and what follows is split on its own |
| `SqlComments.SplitOfClosed` | internal/clickhouse/sql.go:20-25 | closed text alone is one trimmed statement, or none if it is blank |
| `SqlComments.QuotedIsClosed` | internal/clickhouse/sql.go:30-46 | anything between two single quotes is closed text |
| `SqlComments.TickedIsClosed` | internal/clickhouse/sql.go:47-57 | anything between two backticks is closed text |
| `SqlComments.PlainIsClosed` | internal/clickhouse/sql.go:74-76 | text without quotes, semicolons and comment marks is closed text |
| `SqlComments.BlanksGo` | internal/clickhouse/sql.go:20-25 | a closed statement between blanks comes out without them and otherwise as it is |
| `SqlComments.BlankIsNothing` | internal/clickhouse/sql.go:20-25 | blanks alone are no statement |
| `SchemaParse.ExtractMatchingParen` | internal/clickhouse/schema_reconcile.go:158-174 | the block returned is balanced and ends where the depth first returns to zero; there is none exactly when no such position exists |
| `SchemaParse.SplitTopLevelCommas` | internal/clickhouse/schema_reconcile.go:176-197 | joining the pieces with commas restores any input, and no piece has a comma outside parentheses |
| `SchemaParse.SplitUnique` | internal/clickhouse/schema_reconcile.go:176-197 | there is only one such split |
| `SchemaParse.ParseCreateTable` | internal/clickhouse/schema_reconcile.go:120-156 | what a statement declares: no name, an error for a missing or unbalanced block, or the name and columns of the block |
| `SchemaParse.DeclaresOnce` | internal/clickhouse/schema_reconcile.go:120-156 | a statement declares one thing only |
| `SchemaParse.RoundTripIff` | internal/clickhouse/schema_reconcile.go:120-245 | parsing a printed table recovers exactly its name and columns if and only if no column reads as a table-level clause |
| `SchemaParse.IndexColumnIsLost` | internal/clickhouse/schema_reconcile.go:199-245 | a concrete printed table whose column `index` is lost |
| `SchemaScript.ParseStatement` | internal/clickhouse/schema_reconcile.go:85-105 | a statement adds the view it names or the table it declares, any other adds nothing, and a malformed table is an error |
| `SchemaScript.ParseDesiredSchema` | internal/clickhouse/schema_reconcile.go:70-83 | all statements of all migrations are read in order, up to the first error |
| `SchemaScript.ScriptRoundTripIff` | internal/clickhouse/schema_reconcile.go:70-245 | printing any tables into a script and reading it gives back exactly those tables and no view, each with exactly its columns if and only if none of them reads as a table-level clause |
| `SchemaReading.ReadsAsClauseIff` | internal/clickhouse/schema_reconcile.go:199-210 | the columns that read as table-level clauses: index, constraint, projection and "primary key", in any case |
| `SchemaReading.KeywordsInAnyCase` | internal/clickhouse/schema_reconcile.go:122-125 | the keyword phrases come off in any case |
| `SchemaReading.PlainCreate` | internal/clickhouse/schema_reconcile.go:122-125 | IF NOT EXISTS may be missing |
| `SchemaReading.NameStops` | internal/clickhouse/schema_reconcile.go:212-225 | a table name ends at the first blank or parenthesis |
| `SchemaReading.TickedTableName` | internal/clickhouse/schema_reconcile.go:212-237 | a table name may stand in backticks |
| `SchemaReading.TickedColumnName` | internal/clickhouse/schema_reconcile.go:140-155 | so may a column name, whose entry stays as written |
| `SchemaReading.BlankEntryIsSkipped` | internal/clickhouse/schema_reconcile.go:140-145 | a blank entry declares no column |
| `SchemaReading.NamelessIsNothing` | internal/clickhouse/schema_reconcile.go:126-129 | a table without a name declares nothing |
| `SchemaReading.BlockIsNeeded` | internal/clickhouse/schema_reconcile.go:131-134 | a table without a column block is an error |
| `SchemaReading.BlockMustClose` | internal/clickhouse/schema_reconcile.go:135-138 | a table whose column block never closes is an error |
| `SchemaReading.ViewIsDeclared` | internal/clickhouse/schema_reconcile.go:88-93 | a materialized view is declared under its name |
| `SchemaReading.OnlyCreateDeclares` | internal/clickhouse/schema_reconcile.go:85-105 | no statement that does not start with CREATE declares anything |
| `SchemaReconcile.ComputeReconcilePlan` | internal/clickhouse/schema_reconcile.go:245-307 | the plan lists exactly the differences between declared and actual schema, each once |
| `SchemaReconcile.GuardProtectedTables` | internal/clickhouse/schema_reconcile.go:354-378 | the guard removes exactly the drops of protected tables and of their columns |
| `SchemaReconcile.Database.ExecuteReconcilePlan` | internal/clickhouse/schema_reconcile.go:380-415 | statements run in order; a failing column drop is passed over, any other failure stops the run |
| `SchemaReconcile.Database.ReconcileSchema` | internal/clickhouse/schema_reconcile.go:309-352 | off, dry-run and an empty declaration change nothing; otherwise the guarded plan is executed |
| `SchemaReconcile.CompleteRunOutcome` | internal/clickhouse/schema_reconcile.go:380-415 | the tables and columns a complete run leaves, whatever column drops the server refuses |
| `SchemaReconcile.NamesAfterwards` | internal/clickhouse/schema_reconcile.go:254-272 | of the names before, a complete run leaves internal ones, views declared as views, and other tables that are declared or protected, and drops all others |
| `SchemaReconcile.ColumnsAfterwards` | internal/clickhouse/schema_reconcile.go:274-295 | a declared table has its declared columns and, of those it had besides, only protected ones and those the server refused to drop; views and other tables keep theirs |
| `SchemaReconcile.NothingIsCreated` | internal/clickhouse/schema_reconcile.go:380-415 | no run creates a name or changes an engine |
| `SchemaReconcile.DefinitionsAreDeclared` | internal/clickhouse/schema_reconcile.go:288-292 | a column is added with its declared definition |
| `SchemaReconcile.DropsAndAddsInOrder` | internal/clickhouse/schema_reconcile.go:380-415 | view drops come first, then table drops, then added columns, then dropped ones |
| `SchemaReconcile.FailureStops` | internal/clickhouse/schema_reconcile.go:380-405 | any failing statement but a column drop stops the run |
| `SchemaReconcile.Converges` | internal/clickhouse/schema_reconcile.go:252-415 | after a complete run the next guarded plan has nothing but the column drops the server refused |
| `SchemaReconcile.DeclaredTablesMatch` | internal/clickhouse/schema_reconcile.go:252-415 | every declared table that exists afterwards has every declared column |
| `SchemaReconcile.CompletesIff` | internal/clickhouse/schema_reconcile.go:380-415 | when only column drops can fail, a run completes if and only if no declared table lacking a column is a view |
| `SchemaReconcile.ViewWithoutColumnFails` | internal/clickhouse/schema_reconcile.go:380-415 | a concrete declared table that is a view lacking a column: its run stops although no column drop fails |
| `SchemaReconcile.ProtectedSurvive` | internal/clickhouse/schema_reconcile.go:354-415 | no run, wherever it stops, removes an internal or protected table or a column of a protected one |
| `SchemaReconcile.ProtectedNameSurvivesIff` | internal/clickhouse/schema_reconcile.go:354-378 | a protected name is lost in a complete run if and only if it is an undeclared view |
| `SchemaReconcile.ProtectedViewIsDropped` | internal/clickhouse/schema_reconcile.go:354-378 | a concrete complete run that drops `nostr_events`, present as an undeclared view |
| `RateLimit.RateLimiter.Allow` | internal/appview/rate_limit.go:38-67 | one locked call: prune when due, then charge the client's bucket |
| `RateLimit.UnobservableIff` | internal/appview/rate_limit.go:38-67 | after any run with any clock, all later requests on readings from t on are answered as if nothing was ever pruned if and only if every bucket not over by t is still kept as it would be without pruning |
| `RateLimit.PruningHiddenIff` | internal/appview/rate_limit.go:43-52 | a schedule of readings hides pruning, for every limit and every choice of clients, if and only if no reading returns to a window that an earlier prune has already passed |
| `RateLimit.PruningIsUnobservable` | internal/appview/rate_limit.go:38-67 | on clock readings that do not go back, every request of every run gets the answer of a limiter that never prunes |
| `RateLimit.InvertedReadingsShowPruning` | internal/appview/rate_limit.go:43-52 | a concrete run with two readings one tick out of order on which pruning shows |
| `RateLimit.BelowTwiceTheLimit` | internal/appview/rate_limit.go:38-67 | with pruning and all, on clock readings that do not go back, any interval as long as the window admits at most 2 * limit - 1 requests of one client |
| `RateLimit.TheBoundIsReached` | internal/appview/rate_limit.go:54-67 | for every positive limit and window a run that reaches that bound |
| `Backfill.Backfiller.AttemptValues` | internal/appview/user_feed_backfill.go:690-706 | the values returned are exactly those whose prefixed key was not cooling when its turn came |
| `Backfill.Backfiller.ShouldAttempt` | internal/appview/user_feed_backfill.go:678-688 | one key is admitted exactly when it is not cooling |
| `Backfill.UnobservableIff` | internal/appview/user_feed_backfill.go:656-706 | after any run with any clock, pruning changes no later decision on readings from t on if and only if the map holds the same time as without pruning for every key still cooling at t |
| `Backfill.PruningHiddenIff` | internal/appview/user_feed_backfill.go:656-706 | a schedule of readings hides pruning, whatever the calls try, if and only if no reading lies less than a cooldown after an earlier one that another in between is a cooldown past |
| `Backfill.InvertedReadingsShowPruning` | internal/appview/user_feed_backfill.go:656-706 | a concrete run with two readings out of order that admits a key it would refuse without pruning, twice within a cooldown |
| `Backfill.AttemptsAreSpacedIff` | internal/appview/user_feed_backfill.go:656-706 | admitted attempts of a key are at least a cooldown apart in every run with these readings if and only if the same condition holds |
| `Backfill.PruningIsUnobservable` | internal/appview/user_feed_backfill.go:656-706 | on clock readings that do not go back, pruning changes no decision of any run |
| `Backfill.AttemptsAreSpaced` | internal/appview/user_feed_backfill.go:656-706 | in particular on clock readings that do not go back, any two admitted attempts of a key are at least a cooldown apart, also within one call |
| `Backfill.AdmittedIff` | internal/appview/user_feed_backfill.go:678-706 | on readings that meet the condition, a key is admitted exactly when it was not admitted less than a cooldown before |
| `Backfill.PruningKeeps` | internal/appview/user_feed_backfill.go:662-676 | a map of fewer than 50,000 entries is left alone, and of a bigger one just the entries still cooling stay |
| `Backfill.PrefixesAreApart` | internal/appview/user_feed_backfill.go:690-706 | values tried under one colon-free prefix never cool those of another |
| `Backfill.Backfiller.ScheduleJob` | internal/appview/user_feed_backfill.go:712-727 | the locked section that returns the running job of a key or starts one |
| `Backfill.OneWorkPerKey` | internal/appview/user_feed_backfill.go:712-750 | in every interleaving at most one job works on a key |
| `Backfill.DoneClosedOnce` | internal/appview/user_feed_backfill.go:728-748 | a job's done channel is closed at most once, before the job leaves the table |
| `Backfill.StartsWorkIff` | internal/appview/user_feed_backfill.go:712-727 | scheduling starts new work if and only if every earlier job of the key is gone, and always returns a job of that key |
| `Backfill.KeysRunSideBySide` | internal/appview/user_feed_backfill.go:712-727 | jobs of two different keys run side by side |
| `Backfill.NamelessKey` | internal/appview/user_feed_backfill.go:712-716 | a job without a key runs under the key "unknown" |
| `Backfill.SchedulableAgain` | internal/appview/user_feed_backfill.go:728-750 | after work that returned or panicked has unwound, the key can be scheduled again |
| `Backfill.CleanupFrees` | internal/appview/user_feed_backfill.go:740-746 | the cleanup of a job frees its key whatever ran since the job started |

## Left out

- Rendering, HTTP handlers, GraphQL types, JSON decoding, logging, configuration and the command-line tools: plumbing.
- Relay connections, Redis, the ClickHouse driver and signature verification: their answers and failures are parameters. The verification worker pool of the ingest pipeline is upstream of the modelled loop.
- The SQL of the rollups, aggregations and retention jobs; the window bounds, the score expression, the sort order and the row cap are modelled.
- FeatureWeights: that a feature column holds the metric its query would aggregate live is the parameter `column`; rounding of floats is not modelled. log1p and the recency decay are any one library with the stated laws (`RankShares.Lawful`), and half-lives are positive, as parsing leaves them.
- References.AdvanceSource: the two per-source maps (selected ids and visited ids) are one map of walks, so their being keyed alike is not a theorem.
- VertexCache: which entry the LRU evicts is arbitrary. A panic in a background refresh ends the process; only panics that something above recovers have later steps.
- ResponseCache: durations are unbounded integers, so the saturation and wrap-around of 64-bit durations at 292 years are not modelled. One process with its own group starts from an empty cache: entries other processes write to the shared backend are not modelled. Policy selection by query text is a parameter.
- SchemaReconcile: dropping a materialized view without a target also drops its hidden inner table; no statement of a plan names that table, and the model keeps it.
- NotificationsFeed: the range of the DateTime column (1970 to 2106) is not modelled.
- Enrichment: trimming white space around stored ids is not modelled.
- SchemaParse.RoundTripIff: keyword matching folds ASCII letters only, where the code folds Unicode; names and definitions are quote-free.
- Backfill: the work functions and the waiting with a timeout are parameters of the interleaving.
- `rootEvents` and the authored reply chains: batching is not independent per source there, so the refinement is not stated.
