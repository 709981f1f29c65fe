# Gateway and analytics engines, verified

A Dafny model of the self-contained algorithms under `src/layers/api-gateway`, `src/layers/analytics` and
`src/layers/anomaly-detection`, with proofs of what they keep over every run. `dafny verify dfyconfig.toml` checks all
of it.

Structures the program updates in place are classes, arrays or linked nodes here too; each of their methods is proved
against a function of the old state, and the theorems are about those functions over whole runs. Numbers of the program
are `real` where they are measured and `int` where they are counted; clocks and random draws are inputs of a step.

| modules | what they model |
|---|---|
| `LruList`, `VariantList`, `CacheStore`, `ResponseCache`, `CacheRuns` | the response cache: two-level map, linked list, expiry, learned vary lists; what is served to whom |
| `Reservoir`, `CentroidDigest` | reservoir sampling and the quantile digest |
| `QuerySyntax`, `QueryParser`, `QueryGrammar`, `QueryEval`, `QueryMeaning` | the query language from tokens to results |
| `TrieSpec`, `TrieStore`, `RouteTable`, `RouteMatcher` | the route trie and the choice of a route |
| `Versions`, `Upstreams` | version constraints, canary rules and the weighted pick |
| `Samples`, `WindowSpec`, `WindowValues`, `SlidingWindow` | the ring of lazily reset buckets |
| `FrameInspector` | WebSocket frames, fragmentation and streaming UTF-8 validation |
| `RateLimiter`, `FlowController`, `CircuitBreaker`, `ConsumerQuota` | admission control |
| `P2Quantile`, `P2Moves`, `Welford` | streaming estimators and what detects with them |
| `Attribution`, `AttributionRules`, `StableSort`, `SessionWindows`, `EventLogs`, `SessionRecords`, `SessionRuns`, `MetricRollup` | analytics over event logs |
| `BodyReshaper` | rules that write through dotted paths |
| `Prelude`, `Reals`, `Ints` | shared vocabulary and arithmetic |

## Findings

Where the code does not do what its comments or its callers would expect, the model follows the code, and a theorem
says exactly when the expectation holds. Paths are below `src/layers`.

| what happens | where | exactly when | an input |
|---|---|---|---|
| a stored response is listed but never served, because the eviction dropped the inner map it was about to be put in | api-gateway/engine/ResponseCache.ts:189-209 | `ResponseCache.StoredIsFound`, `VariantList.StepIsLru`, for good by `ResponseCache.OrphanIsNeverServed` | `ResponseCache.OrphanExample` |
| a response whose Vary header is present and empty is shadowed by an older variant | api-gateway/engine/ResponseCache.ts:160-168 | `ResponseCache.StoredIsFound` | `ResponseCache.ShadowExample` |
| merging into a centroid that has a twin moves it past the twin, so rebubbling has work to do | analytics/engine2/SamplingProfiler.ts:180-189 | `CentroidDigest.MergeCrossesOnlyTwins` | `CentroidDigest.TwinsDoCross` |
| a pattern with `*` before its end never matches | api-gateway/engine/RouteMatcher.ts:338-366 | `RouteTable.MatchMeetsDoc` | `RouteTable.MidWildcardIsLost` |
| versions with words in them compare in a circle | api-gateway/engine/RouteMatcher.ts:100-116 | `Versions.CircleExactly` | `Versions.CircleExample` |
| a late point takes the cell of a newer bucket | analytics/engine2/SlidingWindowAggregator.ts:68-79 | `WindowSpec.ShownInFull` | `WindowSpec.LateHidesNewer` |
| a bucket that the start of the window cuts through is left out, though it is said to be included whole | analytics/engine2/SlidingWindowAggregator.ts:218-228 | `WindowValues.NothingCutExactly` | its condition |
| overlong forms, surrogates and code points above U+10FFFF pass as text | api-gateway/engine3/FrameInspector.ts:86-114 | `FrameInspector.RfcIsWellGroupedAndStrict` | `FrameInspector.AcceptedBeyondRfc` |
| a whole message in the middle of a fragmented one passes | api-gateway/engine3/FrameInspector.ts:165-177 | `FrameInspector.MisfitRefusedExactly` | `FrameInspector.InterleavedTextPasses` |
| a close for size leaves the position inside a character behind | api-gateway/engine3/FrameInspector.ts:178-183 | `FrameInspector.OversizeForgetsExactly` | `FrameInspector.PendingOutlivesOversize` |
| a fragmented message over the rate passes but for its last frame | api-gateway/engine3/FrameInspector.ts:204-215 | `FrameInspector.OnlyLastFramesDrop` | `FrameInspector.FragmentPassesThenDrop` |
| within one episode, stale reports let more probes out than a half-open breaker allows | api-gateway/engine/CircuitBreaker.ts:89-148 | `CircuitBreaker.ProbesBoundedExactly` | `CircuitBreaker.OneProbeTooMany` |
| the probes of an earlier episode that are still out are forgotten by the next, and come on top of its own | api-gateway/engine/CircuitBreaker.ts:89-148 | `CircuitBreaker.OutProbesBoundedExactly` | `CircuitBreaker.EpisodesPileUp` |
| a failure reported late restarts the open time | api-gateway/engine/CircuitBreaker.ts:136-148 | `CircuitBreaker.LateFailureRestarts` | `CircuitBreaker.LateFailureMoves`, and `CircuitBreaker.LateFailureStays` where it does not |
| a release lets a waiter in where a new call would be turned away | api-gateway/engine3/FlowController.ts:236-241 | `FlowController.WakeIgnoresLimit` | `FlowController.WakeOverrunsExample` |
| an unchecked starting limit leaves waiters nobody will wake | api-gateway/engine3/FlowController.ts:111-126 | `FlowController.WaitersHaveHolderExactly` | `FlowController.StuckForever` |
| an answer that takes no time shrinks the limit | api-gateway/engine3/FlowController.ts:207-232 | `FlowController.GrowsAtTheFloor` | its condition |
| sweeping is visible across a change of policy | api-gateway/engine/RateLimiter.ts:51-127 | `RateLimiter.SweepSeenByNewPolicy` | `RateLimiter.SweepSeenExample` |
| the sample count stays 0 for four samples | anomaly-detection/engine2/ThresholdTuner.ts:46-48 | `P2Quantile.CountStartsAtFive` | its statement |
| with decay, a merge is not the estimator of the concatenation | anomaly-detection/engine2/Welford.ts:60-73 | `Welford.MergeIsConcat` | its condition |
| with decay, the count in a score is not the number of samples seen | anomaly-detection/engine2/Welford.ts:106-143 | `Welford.CountIsSamplesExactly` | its condition |
| with decay, a detector may never warm up | anomaly-detection/engine2/Welford.ts:128-152 | `Welford.WarmsUpExactly` | its condition, as decay 0.5 and warm-up 2 |
| a move onto, below or above its own origin can lose the value | api-gateway/engine2/BodyReshaper.ts:146-152 | `BodyReshaper.MoveKeepsExactly` | `BodyReshaper.MoveUpLoses` |
| identifying a subject as itself loses its events | analytics/engine/SessionStitcher.ts:85-98 | `EventLogs.IdentifyConserves` | its condition |
| a chain of identifications is not followed to its end | analytics/engine/SessionStitcher.ts:81-83, 138-143 | `EventLogs.FiledAtTheEnd` | `EventLogs.ChainIsNotFlattened` |
| tracking an event fails for want of an open session | analytics/engine/SessionStitcher.ts:152-157 | `SessionRecords.FailsExactly` for one event, and not over the runs of `SessionRecords.RunNeverFails` | `SessionRecords.GivenIdFails`, `SessionRecords.ReusedIdentityFails`, `SessionRecords.SecondUserFails` |

## Model

| member | source | states |
|---|---|---|
| `ResponseCache.GatewayResponseCache.Get` | src/layers/api-gateway/engine/ResponseCache.ts:129-150 | From every state: counts exactly one hit or miss, and the answer and the new entries are those of a lookup in the entry list under the learned vary key, falling back to the empty one, where only entries still mapped are found. |
| `ResponseCache.GatewayResponseCache.Set` | src/layers/api-gateway/engine/ResponseCache.ts:156-210 | From every state: entries, learned vary lists and result are those of the specified store, which gives up the last entry when full and loses the new one in the orphaning case. |
| `ResponseCache.GatewayResponseCache.Invalidate` | src/layers/api-gateway/engine/ResponseCache.ts:213-231 | From every state: drops exactly the mapped entries of one base key, keeps the order of the others and reports how many went. |
| `ResponseCache.GatewayResponseCache.PurgeExpired` | src/layers/api-gateway/engine/ResponseCache.ts:243-257 | From every state: drops exactly the mapped entries that have expired, keeps the others in order and reports how many went; a lost entry stays. |
| `ResponseCache.GatewayResponseCache.Clear` | src/layers/api-gateway/engine/ResponseCache.ts:234-240 | Leaves no entry and no learned list, whatever the state before. |
| `ResponseCache.ReadYourWrite` | src/layers/api-gateway/engine/ResponseCache.ts:126-210 | Through the class, from every state, a stored response is read back while it lives if and only if, judged before the store, the insertion is not an orphaning one and no other variant that stays shadows it. |
| `ResponseCache.StoredIsFound` | src/layers/api-gateway/engine/ResponseCache.ts:156-210 | The same on the entry list: the lookup after the store hits the new record if and only if neither condition holds. |
| `ResponseCache.HitsMatch` | src/layers/api-gateway/engine/ResponseCache.ts:129-150 | A hit is a live, mapped entry of the same base key whose vary key is the one the request asks for, or the empty one. |
| `ResponseCache.OrphanExample` | src/layers/api-gateway/engine/ResponseCache.ts:170-207 | The orphaning insertion happens: capacity one, one variant held, another variant of the same base key stored. |
| `ResponseCache.OrphanIsNeverServed` | src/layers/api-gateway/engine/ResponseCache.ts:170-207 | What an orphaning insertion stored is served by no later run of lookups, stores, drops and purges that does not store it again. |
| `ResponseCache.ShadowedHasEmptyVary` | src/layers/api-gateway/engine/ResponseCache.ts:156-168 | Shadowing takes a Vary header that is present and empty: a response without one inherits the learned list. |
| `ResponseCache.ShadowExample` | src/layers/api-gateway/engine/ResponseCache.ts:156-168 | It happens: an English variant held, and a response with an empty Vary header stored. |
| `ResponseCache.SetKeepsWellMade` | src/layers/api-gateway/engine/ResponseCache.ts:156-210 | Storing keeps the keys of mapped entries unique and every vary key in step with its vary list. |
| `ResponseCache.StepKeepsWellMade` | src/layers/api-gateway/engine/ResponseCache.ts:129-257 | Lookup, invalidation and purge keep that too. |
| `CacheRuns.ServedWasStored` | src/layers/api-gateway/engine/ResponseCache.ts:129-210 | What a lookup is answered after any run of stores, lookups, invalidations, purges and clears was stored for a request with the same verb, route, consumer, path and query and the same values of every header on its list; it is storable, not expired, and no later call replaced or removed it. |
| `CacheRuns.SharesEntry` | src/layers/api-gateway/engine/ResponseCache.ts:56-88 | Requests that agree in those fields, and in the headers the route last told, are answered alike: other headers do not matter. |
| `CacheRuns.InvalidationIsExact` | src/layers/api-gateway/engine/ResponseCache.ts:213-231 | After an invalidation a request that agrees with it in all the fields finds nothing, and any other is answered as without it. |
| `CacheRuns.InvalidationTakes` | src/layers/api-gateway/engine/ResponseCache.ts:213-231 | Over every run, what an invalidation takes was stored for a request that agrees with it in all the fields. |
| `CacheRuns.LearnedIsTold` | src/layers/api-gateway/engine/ResponseCache.ts:160-167 | The vary list of a route is the last one that is not empty that a storable response of it brought since the cache was cleared. |
| `CacheRuns.StoredExactly` | src/layers/api-gateway/engine/ResponseCache.ts:156-210 | A response is stored if and only if it is storable and the vary list of its route, after it, has no asterisk. |
| `CacheStore.VariantLru.AddToHead` | src/layers/api-gateway/engine/ResponseCache.ts:286-292 | The linked list is well formed again, with the node first. |
| `CacheStore.VariantLru.Unlink` | src/layers/api-gateway/engine/ResponseCache.ts:294-302 | The linked list is well formed again without the node at its position, and the size is one less. |
| `CacheStore.VariantLru.Touch` | src/layers/api-gateway/engine/ResponseCache.ts:304-313 | The node comes first, the order of the others and the size stay, wherever it was. |
| `CacheStore.VariantLru.Evict` | src/layers/api-gateway/engine/ResponseCache.ts:315-325 | The last node leaves the list, its keys leave the map whatever they mapped to, and nothing else does; a base key leaves the outer map exactly when that emptied the inner one. |
| `CacheStore.VariantLru.ReadNode` | src/layers/api-gateway/engine/ResponseCache.ts:268-284 | An expired node is unlinked and unmapped, a live one becomes the most recently used; told on the entries. |
| `CacheStore.VariantLru.Get` | src/layers/api-gateway/engine/ResponseCache.ts:129-150 | From every state: list, map and size stay well formed, and entries and outcome are those of the lookup in the entry list. |
| `CacheStore.VariantLru.Put` | src/layers/api-gateway/engine/ResponseCache.ts:170-210 | From every state: list, map and size stay well formed and within capacity, and the entries are those of the specified store, orphaning and demotion of older lost keys included. |
| `CacheStore.VariantLru.Invalidate` | src/layers/api-gateway/engine/ResponseCache.ts:222-230 | From every state: the loop unlinks every node of the shelf, and the entries and the count are those of dropping the mapped entries of the base key. |
| `CacheStore.VariantLru.Purge` | src/layers/api-gateway/engine/ResponseCache.ts:243-257 | From every state: the two nested loops leave list, map and size well formed, and the entries and the count are those of dropping the mapped entries that have expired. |
| `CacheStore.Located` | src/layers/api-gateway/engine/ResponseCache.ts:129-150 | In every state the two-level map and a scan of the list for a mapped entry find the same node. |
| `CacheStore.VariantLru.AroundIsLinked` | src/layers/api-gateway/engine/ResponseCache.ts:294-313 | A chain that goes around one node is a well-formed list of the others. |
| `CacheStore.StoredMeans` | src/layers/api-gateway/engine/ResponseCache.ts:189-209 | Eviction, the dropped inner map and the new node, told on the entries: exactly the specified store. |
| `VariantList.StepIsLru` | src/layers/api-gateway/engine/ResponseCache.ts:129-325 | While every entry is mapped, an operation is one of the plain recency list, and it leaves an entry unmapped if and only if it is an orphaning store. |
| `VariantList.RunIsLru` | src/layers/api-gateway/engine/ResponseCache.ts:129-325 | So a run without orphaning stores answers what the recency list answers. |
| `VariantList.RunIsLastUse` | src/layers/api-gateway/engine/ResponseCache.ts:129-325 | And what a list-free cache of last-use ticks answers. |
| `VariantList.StepKeepsShape` | src/layers/api-gateway/engine/ResponseCache.ts:129-325 | Over every operation mapped entries have distinct keys and the list stays within capacity. |
| `VariantList.LostStaysLost` | src/layers/api-gateway/engine/ResponseCache.ts:129-325 | No operation but storing it again makes a value reachable that only unmapped entries hold, and none serves it. |
| `VariantList.LostIsNeverServed` | src/layers/api-gateway/engine/ResponseCache.ts:129-325 | So over every run. |
| `LruList.StepAgrees` | src/layers/api-gateway/engine/ResponseCache.ts:129-325 | Every list operation answers what a list-free cache of last-use ticks answers, and gives up exactly the least recently used entry when full. |
| `LruList.RefCanStep` | src/layers/api-gateway/engine/ResponseCache.ts:129-325 | That reference cache is never stuck, so the agreement is about every operation. |
| `LruList.RunAgrees` | src/layers/api-gateway/engine/ResponseCache.ts:129-325 | Over every run of lookups, stores, drops and purges, list and reference give the same answers and hold the same entries. |
| `LruList.StepKeepsShape` | src/layers/api-gateway/engine/ResponseCache.ts:129-325 | Every operation keeps ids unique and the list within capacity. |
| `Reservoir.ReservoirSampler.Observe` | src/layers/analytics/engine2/SamplingProfiler.ts:96-106 | The reservoir holds the stream items at the positions Algorithm R chooses for the draws made so far. |
| `Reservoir.ReservoirSampler.Clear` | src/layers/analytics/engine2/SamplingProfiler.ts:123-126 | A cleared sampler starts a new stream. |
| `Reservoir.PositionsDistinct` | src/layers/analytics/engine2/SamplingProfiler.ts:96-106 | No stream position is held twice. |
| `Reservoir.VectorsAreTheLegalOnes` | src/layers/analytics/engine2/SamplingProfiler.ts:102-105 | The counted draw vectors are exactly those with each draw below the number of items seen. |
| `Reservoir.VectorsDistinct` | src/layers/analytics/engine2/SamplingProfiler.ts:102-105 | Each of them is counted once. |
| `Reservoir.Survives` | src/layers/analytics/engine2/SamplingProfiler.ts:102-105 | A position held stays exactly when the next draw misses its slot. |
| `Reservoir.EveryPositionEquallyOften` | src/layers/analytics/engine2/SamplingProfiler.ts:74-106 | Uniform over positions: the vectors that leave a position in the reservoir, times N, are k times all vectors, for every position and every N at least k. |
| `Reservoir.EverySubsetEquallyOften` | src/layers/analytics/engine2/SamplingProfiler.ts:74-106 | Uniform over samples: after k + m items every k-subset of positions is left by exactly m! vectors. |
| `CentroidDigest.Digest.Observe` | src/layers/analytics/engine2/SamplingProfiler.ts:169-194 | After every observation: means sorted and within the exact minimum and maximum, weights positive and adding up to the count, mean times weight adding up to the sum of the values, and min(count, k) centroids; so the compression branch is dead. |
| `CentroidDigest.Digest.InsertSorted` | src/layers/analytics/engine2/SamplingProfiler.ts:257-266 | The binary search inserts the centroid where the means stay sorted. |
| `CentroidDigest.Digest.NearestIndex` | src/layers/analytics/engine2/SamplingProfiler.ts:268-279 | Returns the first centroid at the least distance. |
| `CentroidDigest.Digest.Rebubble` | src/layers/analytics/engine2/SamplingProfiler.ts:282-294 | Puts one out-of-place centroid where the means are sorted; it moves if and only if it was out of order with a neighbour. |
| `CentroidDigest.Digest.MergeNearest` | src/layers/analytics/engine2/SamplingProfiler.ts:180-189 | Merges into the nearest centroid; the centroid moves if and only if it has a twin to its right and the value lies above both. |
| `CentroidDigest.MergeMoves` | src/layers/analytics/engine2/SamplingProfiler.ts:182-184 | The merged mean lies strictly between old mean and value, weight and load grow by one value. |
| `CentroidDigest.MergeCrossesOnlyTwins` | src/layers/analytics/engine2/SamplingProfiler.ts:180-189 | A merge never crosses the left neighbour, and crosses the right one if and only if that is a twin and the value lies above. |
| `CentroidDigest.TwinsDoCross` | src/layers/analytics/engine2/SamplingProfiler.ts:180-189 | Twins do cross: two centroids at 5 and the value 7. |
| `CentroidDigest.Digest.Quantile` | src/layers/analytics/engine2/SamplingProfiler.ts:200-222 | Rejects q outside [0, 1], answers nothing for no values, and otherwise the interpolated estimate, which lies between minimum and maximum. |
| `CentroidDigest.Digest.IsOrdered` | src/layers/analytics/engine2/SamplingProfiler.ts:169-194 | A digest that has seen a value meets what the query results below assume. |
| `CentroidDigest.QuantileBounded` | src/layers/analytics/engine2/SamplingProfiler.ts:200-222 | Every quantile estimate lies between the minimum and the maximum. |
| `CentroidDigest.QuantileMonotone` | src/layers/analytics/engine2/SamplingProfiler.ts:200-222 | A higher quantile is never estimated lower. |
| `CentroidDigest.Digest.Rank` | src/layers/analytics/engine2/SamplingProfiler.ts:225-240 | The loop computes the specified rank. |
| `CentroidDigest.RankUndoesQuantile` | src/layers/analytics/engine2/SamplingProfiler.ts:200-240 | The rank of the value estimated at q is q, strictly inside every stretch of positive length but the last. |
| `CentroidDigest.RankAtLeastQuantile` | src/layers/analytics/engine2/SamplingProfiler.ts:200-240 | In the last stretch, which the two methods end at different places, it is at least q, and q if and only if the maximum is the last mean. |
| `CentroidDigest.RankAboveQuantile` | src/layers/analytics/engine2/SamplingProfiler.ts:200-240 | In a stretch of length zero it is above q, unless the quantile is the minimum, whose rank is zero. |
| `CentroidDigest.RankBounded` | src/layers/analytics/engine2/SamplingProfiler.ts:225-240 | A rank lies between zero and one. |
| `CentroidDigest.RankMonotone` | src/layers/analytics/engine2/SamplingProfiler.ts:225-240 | A higher value never has a lower rank. |
| `QueryParser.Parser.Run` | src/layers/api-gateway/engine2/JsonPathQuery.ts:190-194 | The cursor parser terminates on every token sequence and returns exactly what the recursive grammar gives, tree or failure. |
| `QueryParser.Parser.Pipes` | src/layers/api-gateway/engine2/JsonPathQuery.ts:213-221 | The pipe loop reads what the grammar reads and leaves the same tokens. |
| `QueryParser.Parser.Chain` | src/layers/api-gateway/engine2/JsonPathQuery.ts:240-297 | So does the postfix loop, with its projection rule. |
| `QueryParser.Parser.ConditionOf` | src/layers/api-gateway/engine2/JsonPathQuery.ts:299-322 | So does the filter condition. |
| `QueryParser.Parser.Primary` | src/layers/api-gateway/engine2/JsonPathQuery.ts:324-356 | So does the primary, which consumes nothing at a bracket. |
| `QueryParser.Parser.ProjectionOf` | src/layers/api-gateway/engine2/JsonPathQuery.ts:359-375 | So does the field loop of a projection, which allows a comma before the brace. |
| `QuerySyntax.ParsePrinted` | src/layers/api-gateway/engine2/JsonPathQuery.ts:190-376 | Printing a printable tree and parsing the print gives the tree back. |
| `QuerySyntax.ParsedIsPrintable` | src/layers/api-gateway/engine2/JsonPathQuery.ts:190-376 | Every tree the parser returns is printable, and is read back from its print. |
| `QuerySyntax.ImageIsPrintable` | src/layers/api-gateway/engine2/types.ts:62-75 | The trees the parser can produce are exactly the printable ones: left-nested pipes, projections only outermost in a chain, no field step right after an array-producing step. |
| `QuerySyntax.ChainParses` | src/layers/api-gateway/engine2/JsonPathQuery.ts:240-297 | Reading a printed chain leaves the parser where it would be with that chain in hand. |
| `QuerySyntax.ChainIsSubLike` | src/layers/api-gateway/engine2/JsonPathQuery.ts:240-297 | Whatever the postfix loop returns is a chain or an outermost projection, and it stops at a token no chain goes on with. |
| `QueryGrammar.ParseIsGrammar` | src/layers/api-gateway/engine2/JsonPathQuery.ts:190-376 | A sequence of tokens is read as a tree if and only if the grammar writes the tree so, in any spelling: stars bare or in brackets, a comma before a closing brace, a fraction for an index; and nothing else is read. |
| `QueryGrammar.StarsAreAlike` | src/layers/api-gateway/engine2/JsonPathQuery.ts:240-340 | A star at the root, or after a dot behind a chain that produces no array, is read as one in brackets; behind one that does it is the root of what is asked of each element. |
| `QueryEval.UnpipeMeans` | src/layers/api-gateway/engine2/JsonPathQuery.ts:409-472 | Substituting the left side of every pipe into its right side changes no result on any document. |
| `QueryEval.UnpipeIsPipeFree` | src/layers/api-gateway/engine2/JsonPathQuery.ts:409-472 | And leaves a tree without pipes. |
| `QueryEval.FeedMeans` | src/layers/api-gateway/engine2/JsonPathQuery.ts:467-471 | Evaluating a tree on the result of another is evaluating the tree with the other put at its root. |
| `QueryEval.PathIsFields` | src/layers/api-gateway/engine2/JsonPathQuery.ts:399-406 | The dotted path of a filter selects what the field query with the same names selects. |
| `QueryMeaning.PathLeads` | src/layers/api-gateway/engine2/JsonPathQuery.ts:399-406 | A path selects a value exactly when following its names from object to object leads there. |
| `QueryMeaning.FieldAnswers` | src/layers/api-gateway/engine2/JsonPathQuery.ts:415-419 | A field answers a value exactly when its child answers an object that maps the name to it. |
| `QueryMeaning.FilterAnswers` | src/layers/api-gateway/engine2/JsonPathQuery.ts:382-458 | A filter answers exactly the elements, in order, whose value at the path is a number below, above or equal to the literal as the operator says, or is the same scalar, or is not; and nothing of what is no array. |
| `QueryMeaning.IndexAnswers` | src/layers/api-gateway/engine2/JsonPathQuery.ts:430-435 | An index answers the element with that many before it, a negative one the element that far from the end, and nothing outside. |
| `QueryMeaning.WildcardAnswers` | src/layers/api-gateway/engine2/JsonPathQuery.ts:436-441 | A wildcard answers an array itself, and of an object its values. |
| `QueryMeaning.FlattenAnswers` | src/layers/api-gateway/engine2/JsonPathQuery.ts:442-451 | Flattening puts the elements of an array that is an element in its place, one level deep, and keeps every other element, in order. |
| `QueryMeaning.ProjectAnswers` | src/layers/api-gateway/engine2/JsonPathQuery.ts:420-429 | A projected query answers its answers on the elements, in order, without those it has none for. |
| `QueryMeaning.ProjectionAnswers` | src/layers/api-gateway/engine2/JsonPathQuery.ts:459-466 | A projection answers an object with, under each name, the answer of the last binding of that name that has one. |
| `RouteMatcher.RouteMatcher.Register` | src/layers/api-gateway/engine/RouteMatcher.ts:212-241 | Replaces the route of that id if there is one, numbers the new one, and files it under the shape of its pattern; the trie again holds exactly the registered routes. |
| `RouteMatcher.RouteMatcher.Unregister` | src/layers/api-gateway/engine/RouteMatcher.ts:246-270 | Removes exactly that route and tells whether it was there; nodes and parameter names stay. |
| `RouteMatcher.RouteMatcher.Resolve` | src/layers/api-gateway/engine/RouteMatcher.ts:286-322 | No route is found if and only if none registered matches path, method and version; otherwise the winner is the one a linear scan of all registered routes ranks first, with its captured parameters. |
| `RouteMatcher.RouteMatcher.MatchRequest` | src/layers/api-gateway/engine/RouteMatcher.ts:286-292 | There is no answer if and only if no route matches or the best one has no upstream; otherwise the answer is the best route by path, method, version and rank, its parameters, and the upstream the canary rules and the draw choose. The version a request asks for is an input. |
| `RouteMatcher.ChosenKind` | src/layers/api-gateway/engine/RouteMatcher.ts:377-407 | Of several upstreams a canary is chosen if and only if there is one and either the rules want one or nothing else is there. |
| `RouteMatcher.BestIsUnique` | src/layers/api-gateway/engine/RouteMatcher.ts:308-318 | The ranking by literal count, priority and registration order leaves one winner. |
| `RouteMatcher.WinnerStandsOut` | src/layers/api-gateway/engine/RouteMatcher.ts:308-318 | The winner fits path, method and version of the request, told on the raw pattern; no other route that does has more literal segments than the winner; none with as many has a higher priority; none with both the same was registered earlier. |
| `RouteMatcher.FirstIsBest` | src/layers/api-gateway/engine/RouteMatcher.ts:299-322 | The first of the sorted candidates is that winner. |
| `RouteMatcher.AdmittedIsScanned` | src/layers/api-gateway/engine/RouteMatcher.ts:286-307 | The filtered candidates are exactly the routes a linear scan keeps. |
| `Upstreams.WeightedPick` | src/layers/api-gateway/engine/RouteMatcher.ts:413-422 | Picks the upstream whose share of the cumulative weight the draw falls in, the last one if it falls in none. |
| `Upstreams.PickIsProportional` | src/layers/api-gateway/engine/RouteMatcher.ts:413-422 | With weights that are not negative and not all zero an upstream is picked exactly for the draws in a stretch as long as its share. |
| `Upstreams.CanaryWanted` | src/layers/api-gateway/engine/RouteMatcher.ts:377-407 | A canary is wanted if and only if there are rules and the request carries the header with the value asked for, is of the group, or draws below the percentage of one. |
| `Upstreams.KindsInOrder` | src/layers/api-gateway/engine/RouteMatcher.ts:377-407 | The pool of a kind is the upstreams of that kind, each as often as it is there and in their order. |
| `Upstreams.Select` | src/layers/api-gateway/engine/RouteMatcher.ts:377-407 | None if and only if there is no upstream, the only one if there is one, otherwise the one of the pool, canaries or the others, that the draw falls on. |
| `Versions.Compare` | src/layers/api-gateway/engine/RouteMatcher.ts:100-116 | The loop over the components gives the recursive comparison: numbers as numbers, others as texts, missing ones as zero. |
| `Versions.CompareSwaps` | src/layers/api-gateway/engine/RouteMatcher.ts:100-116 | Swapping two versions swaps the answer. |
| `Versions.CompareTells` | src/layers/api-gateway/engine/RouteMatcher.ts:100-116 | The comparison tells which version is before the other: by the first component in which they differ, as numbers if both are, a missing one counting as zero. |
| `Versions.MeetsBounds` | src/layers/api-gateway/engine/RouteMatcher.ts:162-181 | A version meets a constraint exactly when it is the one asked for, not before the least and not after the most. |
| `Versions.BoundsAreMet` | src/layers/api-gateway/engine/RouteMatcher.ts:162-181 | A version meets bounds that it is itself. |
| `Versions.TrailingZeros` | src/layers/api-gateway/engine/RouteMatcher.ts:100-116 | A version is the same as itself with a zero appended. |
| `Versions.CircleExactly` | src/layers/api-gateway/engine/RouteMatcher.ts:100-116 | On three components the comparison is transitive if and only if none of them is a word whose text lies between those of two numbers, out of the order of the numbers. |
| `Versions.CircleExample` | src/layers/api-gateway/engine/RouteMatcher.ts:100-116 | An instance: 9 before 10, 10 before 1a, 1a before 9. |
| `RouteTable.FoundExactly` | src/layers/api-gateway/engine/RouteMatcher.ts:338-366 | The trie walk yields a registered route if and only if the rest of its shape matches the rest of the path. |
| `RouteTable.FoundOnce` | src/layers/api-gateway/engine/RouteMatcher.ts:338-366 | And each of them once. |
| `RouteTable.FoundCaptures` | src/layers/api-gateway/engine/RouteMatcher.ts:338-366 | The captured values are those of the path segments, under the name each parameter node was first given. |
| `RouteTable.CapturedTells` | src/layers/api-gateway/engine/RouteMatcher.ts:338-366 | Under a name the captured value is the segment at the last position whose parameter node was given that name; no other name is captured. |
| `RouteTable.MatchMeetsDoc` | src/layers/api-gateway/engine/RouteMatcher.ts:12-17 | For a pattern whose only wildcard is its last segment the walk matches exactly the paths the documentation promises; for any other pattern with a wildcard it matches none. |
| `RouteTable.MidWildcardIsLost` | src/layers/api-gateway/engine/RouteMatcher.ts:338-372 | A wildcard in the middle makes a route that is never found. |
| `RouteTable.SegmentIs` | src/layers/api-gateway/engine/RouteMatcher.ts:78-92 | A raw segment is a wildcard exactly when it is an asterisk, a parameter exactly when it is a name after a colon or in braces, and otherwise the literal it is. |
| `RouteTable.MatchIsSaid` | src/layers/api-gateway/engine/RouteMatcher.ts:338-372 | In terms of the raw pattern: a route is found for a path if and only if no asterisk comes before the end and the pattern, read as documented, says the path. |
| `RouteTable.FilingKeepsConsistent` | src/layers/api-gateway/engine/RouteMatcher.ts:212-241 | Filing a new route keeps the table exactly the registered routes. |
| `RouteTable.UnfiledKeepsConsistent` | src/layers/api-gateway/engine/RouteMatcher.ts:246-270 | So does removing one. |
| `TrieStore.Trie.Collect` | src/layers/api-gateway/engine/RouteMatcher.ts:338-366 | The recursive walk over the linked nodes appends exactly what the table walk finds, in the same order. |
| `TrieStore.Trie.Plant` | src/layers/api-gateway/engine/RouteMatcher.ts:219-241 | Walking down with missing nodes made on the way keeps the trie linked and opens exactly the missing shapes. |
| `TrieStore.Trie.EnsureChild` | src/layers/api-gateway/engine/RouteMatcher.ts:219-241 | One step of it: the existing child, or a new empty one that keeps the name of a parameter. |
| `TrieStore.Trie.Walk` | src/layers/api-gateway/engine/RouteMatcher.ts:250-266 | Following the edges of a shape in the trie reaches its node. |
| `SlidingWindow.MetricRing.Record` | src/layers/analytics/engine2/SlidingWindowAggregator.ts:146-162 | The ring holds what its history of points gives, or the point has no cell and the program throws. |
| `SlidingWindow.MetricRing.At` | src/layers/analytics/engine2/SlidingWindowAggregator.ts:68-79 | The cell of a bucket is reset exactly when it held another bucket. |
| `SlidingWindow.MetricRing.PeekAt` | src/layers/analytics/engine2/SlidingWindowAggregator.ts:82-86 | A cell is shown only for the bucket it holds. |
| `SlidingWindow.SlidingWindowAggregator.Record` | src/layers/analytics/engine2/SlidingWindowAggregator.ts:146-162 | The history of the metric grows by the point and no other changes. |
| `SlidingWindow.SlidingWindowAggregator.Aggregate` | src/layers/analytics/engine2/SlidingWindowAggregator.ts:211-241 | Samples and value are those of what the ring shows for the buckets of the window; for a history in reach that is the number and the aggregate of the values recorded in them. |
| `SlidingWindow.SlidingWindowAggregator.Sparkline` | src/layers/analytics/engine2/SlidingWindowAggregator.ts:248-262 | One value per bucket, oldest first: the aggregate of the values recorded in it, or a gap where there are none, for every bucket that has kept its cell. |
| `SlidingWindow.SlidingWindowAggregator.Prune` | src/layers/analytics/engine2/SlidingWindowAggregator.ts:295-306 | Drops exactly the rings whose newest bucket lies before the window, and counts them. |
| `SlidingWindow.AggregateIsFold` | src/layers/analytics/engine2/SlidingWindowAggregator.ts:211-241 | With the slots the program allots, every kind of aggregate is that of all points recorded in the buckets of the window, if no point is negative in time or lags the newest bucket by the number of slots. |
| `SlidingWindow.AggregateMeans` | src/layers/analytics/engine2/SlidingWindowAggregator.ts:211-241 | Under the same conditions samples and value are the number, total, mean, least or greatest of the values recorded in the buckets that begin in the window, and no value is given where there is none. |
| `SlidingWindow.SparkMeans` | src/layers/analytics/engine2/SlidingWindowAggregator.ts:248-262 | One value of a sparkline is that of the values recorded between the start and the end of its bucket, or a gap, as long as no later point took its cell. |
| `SlidingWindow.WindowIsIntact` | src/layers/analytics/engine2/SlidingWindowAggregator.ts:55-87 | No bucket that begins in the window has lost its cell when the history is in reach. |
| `WindowValues.NothingCutExactly` | src/layers/analytics/engine2/SlidingWindowAggregator.ts:211-241 | No point of the time of a window is left out if and only if the window starts where a bucket does. |
| `SlidingWindow.PruneIsInvisible` | src/layers/analytics/engine2/SlidingWindowAggregator.ts:295-306 | Pruning at t changes nothing shown for any window ending at t or later, whatever is recorded after it. |
| `WindowSpec.WindowIsExact` | src/layers/analytics/engine2/SlidingWindowAggregator.ts:211-241 | The ring loses nothing in the window when it has one slot more than whole buckets. |
| `WindowSpec.SlotsNeeded` | src/layers/analytics/engine2/SlidingWindowAggregator.ts:138-142 | Nothing is ever lost if and only if there are at least that many slots: the extra slot is needed. |
| `WindowSpec.ShownInFull` | src/layers/analytics/engine2/SlidingWindowAggregator.ts:68-79 | A bucket is shown in full if and only if no later point took its cell; otherwise points are missing. |
| `WindowSpec.LateHidesNewer` | src/layers/analytics/engine2/SlidingWindowAggregator.ts:68-79 | A late point whose bucket shares a cell with a newer one wipes the newer bucket: it is shown with fewer points than it has. |
| `WindowSpec.OldestIsLost` | src/layers/analytics/engine2/SlidingWindowAggregator.ts:68-79 | Of two points in buckets that share a cell the later hides the earlier: the aggregate over its bucket is wrong. |
| `FrameInspector.ValidateChunk` | src/layers/api-gateway/engine3/FrameInspector.ts:86-114 | The byte loop gives the specified verdict and number of continuation bytes still due. |
| `FrameInspector.SplitInvariant` | src/layers/api-gateway/engine3/FrameInspector.ts:86-114 | Validating the two parts of any split with the carried count is validating the whole. |
| `FrameInspector.AcceptedIsWellGrouped` | src/layers/api-gateway/engine3/FrameInspector.ts:86-114 | A complete text is accepted if and only if it groups into accepted lead bytes with the right number of continuation bytes. |
| `FrameInspector.RfcIsWellGroupedAndStrict` | src/layers/api-gateway/engine3/FrameInspector.ts:86-114 | Section 4 of RFC 3629 allows exactly the well-grouped texts without the four kinds of bad second byte. |
| `FrameInspector.AcceptedBeyondRfc` | src/layers/api-gateway/engine3/FrameInspector.ts:86-114 | An overlong slash, a lone surrogate and a code point above U+10FFFF are accepted. |
| `FrameInspector.FrameInspector.Inspect` | src/layers/api-gateway/engine3/FrameInspector.ts:141-219 | The verdict and the new state of the direction are the specified ones; the other direction is untouched. |
| `FrameInspector.VerdictOfMessage` | src/layers/api-gateway/engine3/FrameInspector.ts:141-219 | For every legal stream, however fragmented, with control frames between: the next frame is closed with the code the message so far deserves, and with no other. |
| `FrameInspector.AllowedTextNever1007` | src/layers/api-gateway/engine3/FrameInspector.ts:141-219 | Text that RFC 3629 allows, cut anyhow, is never closed with 1007. |
| `FrameInspector.MisfitRefusedExactly` | src/layers/api-gateway/engine3/FrameInspector.ts:141-180 | Of the frames that break section 5.4 of RFC 6455, exactly a continuation of nothing and the first part of a new message are closed for it; a whole message that gets through makes the open one forgotten. |
| `FrameInspector.InterleavedTextPasses` | src/layers/api-gateway/engine3/FrameInspector.ts:141-219 | An instance: a whole text frame inside a fragmented message passes and the rest of that message is closed. |
| `FrameInspector.OversizeForgetsExactly` | src/layers/api-gateway/engine3/FrameInspector.ts:182-192 | The close for size leaves the state of no open message if and only if the text before the last frame ended between characters, or is not validated as text. |
| `FrameInspector.PendingOutlivesOversize` | src/layers/api-gateway/engine3/FrameInspector.ts:182-205 | An instance: plain text after such a close is closed with 1007. |
| `FrameInspector.MessageRateBound` | src/layers/api-gateway/engine3/FrameInspector.ts:204-215 | In any contiguous part of any in-time stream the messages that pass are at most a second of them and what the rate gives in the time elapsed. |
| `FrameInspector.OnlyLastFramesDrop` | src/layers/api-gateway/engine3/FrameInspector.ts:141-219 | Only the last frame of a message is ever dropped for the rate, and only with less than one token left. |
| `FrameInspector.FragmentPassesThenDrop` | src/layers/api-gateway/engine3/FrameInspector.ts:141-219 | An instance: the first fragment of a message over the rate passes and the last is dropped. |
| `RateLimiter.TokenBucketRateLimiter.Consume` | src/layers/api-gateway/engine/RateLimiter.ts:51-83 | The answer and the bucket after it are those of the refilled balance under the newest policy. |
| `RateLimiter.TokenBucketRateLimiter.Sweep` | src/layers/api-gateway/engine/RateLimiter.ts:110-127 | Removes exactly the idle buckets that are full again, and counts them. |
| `RateLimiter.TokenBucketBound` | src/layers/api-gateway/engine/RateLimiter.ts:51-83 | In any contiguous part of any in-time run a key is allowed at most burst plus rate times the time elapsed. |
| `RateLimiter.RunKeeps` | src/layers/api-gateway/engine/RateLimiter.ts:51-83 | Balances stay between zero and the burst in every run. |
| `RateLimiter.LevelMoves` | src/layers/api-gateway/engine/RateLimiter.ts:58-66 | Refilling in two goes is refilling once, and gains at most what the rate allows. |
| `RateLimiter.RetryAfterIsLeast` | src/layers/api-gateway/engine/RateLimiter.ts:68-83 | A denial carries a hint if and only if the policy asks for one; a lone call m whole seconds later passes if and only if the burst allows any and the hint has run by then. |
| `RateLimiter.RemainingIsExact` | src/layers/api-gateway/engine/RateLimiter.ts:51-83 | The number that comes with an allowed call is how many more calls at the same time are allowed. |
| `RateLimiter.SweepingIsInvisible` | src/layers/api-gateway/engine/RateLimiter.ts:51-127 | Under one policy per key, sweeps at any times and with any idle limits change no answer of any run. |
| `RateLimiter.SweepSeenByNewPolicy` | src/layers/api-gateway/engine/RateLimiter.ts:51-127 | Across a change of policy a sweep leaves the same balance if and only if the two bursts agree. |
| `RateLimiter.SweepSeenExample` | src/layers/api-gateway/engine/RateLimiter.ts:51-127 | An instance where the sweep turns a denial into a grant. |
| `FlowController.FlowController.TryToAcquire` | src/layers/api-gateway/engine3/FlowController.ts:137-143 | Grants exactly when the slots in use are below the limit. |
| `FlowController.FlowController.AcquireOrQueue` | src/layers/api-gateway/engine3/FlowController.ts:149-161 | Grants, queues or sheds as specified. |
| `FlowController.FlowController.ConsumeRetryToken` | src/layers/api-gateway/engine3/FlowController.ts:167-171 | Spends a retry token when there is one. |
| `FlowController.FlowController.ReleasePermit` | src/layers/api-gateway/engine3/FlowController.ts:193-242 | Counts the first release of a permit only, adapts limit and floor, pays the retry budget and wakes the first waiter. |
| `FlowController.FlowController.Create` | src/layers/api-gateway/engine3/FlowController.ts:111-126 | Refuses exactly the configurations the constructor refuses. |
| `FlowController.RunAccounts` | src/layers/api-gateway/engine3/FlowController.ts:137-242 | In every run the slots in use are the permits granted and not released. |
| `FlowController.LimitsHold` | src/layers/api-gateway/engine3/FlowController.ts:207-242 | From a starting limit within its bounds the limit stays in them and the slots in use stay below the upper bound plus one. |
| `FlowController.SlotsWithinMax` | src/layers/api-gateway/engine3/FlowController.ts:137-242 | With a whole-number upper bound, never more slots than that are in use. |
| `FlowController.WaitersHaveHolder` | src/layers/api-gateway/engine3/FlowController.ts:137-242 | With a positive starting limit, someone holds a slot whenever someone waits. |
| `FlowController.WaitersHaveHolderExactly` | src/layers/api-gateway/engine3/FlowController.ts:111-161 | That holds in every run if and only if the starting limit is positive or nobody may queue. |
| `FlowController.StuckForever` | src/layers/api-gateway/engine3/FlowController.ts:111-161 | With a starting limit of zero or less nobody is ever let in. |
| `FlowController.QueueIsFifo` | src/layers/api-gateway/engine3/FlowController.ts:149-205 | Those woken so far and those still waiting are those who queued, in their order. |
| `FlowController.WaiterIsWoken` | src/layers/api-gateway/engine3/FlowController.ts:193-242 | The waiter with k before it is the one woken by the (k + 1)-th release of a held permit from then on. |
| `FlowController.WakeIgnoresLimit` | src/layers/api-gateway/engine3/FlowController.ts:207-242 | A release lets the first waiter in whatever the limit; a call at that moment would be turned away if and only if the slots still in use fill the limit the answer leaves, told on the state and the answer before the release. |
| `FlowController.OnlySlowAnswersOverrun` | src/layers/api-gateway/engine3/FlowController.ts:207-242 | While the slots in use are within the limit and its bound, that takes an answer slower than the latency floor. |
| `FlowController.WakeOverrunsExample` | src/layers/api-gateway/engine3/FlowController.ts:207-242 | An instance: limit one, three slots in use after a wake. |
| `FlowController.GrowsAtTheFloor` | src/layers/api-gateway/engine3/FlowController.ts:207-232 | The gradient reaches one, so that the limit grows, if and only if the answer took a nanosecond or more and is the first, is at or below the latency floor, or the floor follows every answer. |
| `FlowController.RetryBudget` | src/layers/api-gateway/engine3/FlowController.ts:167-242 | Retries granted are none, or below the seed plus the ratio times the number of successes plus one. |
| `FlowController.RetriesInARow` | src/layers/api-gateway/engine3/FlowController.ts:167-171 | Of requests to retry in a row exactly those are granted that the balance at the start exceeds in number. |
| `FlowController.CountersCount` | src/layers/api-gateway/engine3/FlowController.ts:137-242 | In every run the two counters are the permits handed out and the calls turned away, and no permit is handed out twice. |
| `CircuitBreaker.CircuitBreakerRegistry.AdmitCall` | src/layers/api-gateway/engine/CircuitBreaker.ts:89-114 | The verdict and the new breaker are those of the specified step; other breakers stay. |
| `CircuitBreaker.CircuitBreakerRegistry.OnSuccess` | src/layers/api-gateway/engine/CircuitBreaker.ts:117-130 | So for a reported success. |
| `CircuitBreaker.CircuitBreakerRegistry.OnFailure` | src/layers/api-gateway/engine/CircuitBreaker.ts:133-148 | So for a reported failure. |
| `CircuitBreaker.CircuitBreakerRegistry.ForceClosed` | src/layers/api-gateway/engine/CircuitBreaker.ts:165-171 | So for a reset. |
| `CircuitBreaker.ClosedCountsStreak` | src/layers/api-gateway/engine/CircuitBreaker.ts:117-148 | While closed, the trailing run of reported failures is what the breaker counts and below the threshold. |
| `CircuitBreaker.OpensAtThreshold` | src/layers/api-gateway/engine/CircuitBreaker.ts:133-148 | A closed breaker opens exactly on the failure that makes the trailing run reach the threshold. |
| `CircuitBreaker.NothingAdmittedWhileOpen` | src/layers/api-gateway/engine/CircuitBreaker.ts:89-114 | After an opening no call is admitted before the open duration has passed, whatever is reported meanwhile. |
| `CircuitBreaker.RetryAfterIsExact` | src/layers/api-gateway/engine/CircuitBreaker.ts:89-114 | The time named in a rejection is the least time after which a call gets past the open state. |
| `CircuitBreaker.RejectionSays` | src/layers/api-gateway/engine/CircuitBreaker.ts:89-114 | A rejection names a positive time if the breaker stays open, and zero if it waits for the probes. |
| `CircuitBreaker.LateFailureRestarts` | src/layers/api-gateway/engine/CircuitBreaker.ts:133-148 | A failure reported while open restarts the open time if and only if the failures counted reach the threshold. |
| `CircuitBreaker.LateFailureMoves` | src/layers/api-gateway/engine/CircuitBreaker.ts:133-148 | An instance where it does restart. |
| `CircuitBreaker.LateFailureStays` | src/layers/api-gateway/engine/CircuitBreaker.ts:133-148 | An instance where it does not. |
| `CircuitBreaker.AdmissionsBounded` | src/layers/api-gateway/engine/CircuitBreaker.ts:89-148 | Within a half-open episode admissions exceed reports by at most the allowed number of probes. |
| `CircuitBreaker.ProbesBounded` | src/layers/api-gateway/engine/CircuitBreaker.ts:89-148 | Within one half-open episode the probes it let out are within the allowed number plus the stale reports of the episode. |
| `CircuitBreaker.SafeConfig` | src/layers/api-gateway/engine/CircuitBreaker.ts:89-148 | Where one success closes, or no probes are allowed, the probes out within one episode are within the allowed number in every run. |
| `CircuitBreaker.ProbesBoundedExactly` | src/layers/api-gateway/engine/CircuitBreaker.ts:89-148 | Over all in-time runs whose reports are of admitted calls and once each, the probes out within one episode are within the allowed number if and only if one success closes or no probes are allowed. |
| `CircuitBreaker.OneProbeTooMany` | src/layers/api-gateway/engine/CircuitBreaker.ts:89-148 | For every other configuration an honest run with one probe too many in an episode. |
| `CircuitBreaker.OutProbesBoundedExactly` | src/layers/api-gateway/engine/CircuitBreaker.ts:11-148 | Counting the probes of every episode that are still out, the promised bound on concurrent probes holds over all such runs if and only if no probes are let in at all. |
| `CircuitBreaker.EpisodesPileUp` | src/layers/api-gateway/engine/CircuitBreaker.ts:89-148 | For every configuration that lets probes in, an honest run with one probe too many: those of an earlier episode are forgotten. |
| `CircuitBreaker.EpisodeEnds` | src/layers/api-gateway/engine/CircuitBreaker.ts:117-148 | An episode closes exactly on the success that makes the required number within it, and opens on any failure. |
| `CircuitBreaker.TotalsCount` | src/layers/api-gateway/engine/CircuitBreaker.ts:89-156 | In every run the totals are the calls turned away and the failures reported, resets or not. |
| `CircuitBreaker.ResetForgets` | src/layers/api-gateway/engine/CircuitBreaker.ts:165-171 | After a reset every call is answered as by a new breaker, whatever went before. |
| `P2Quantile.P2Quantile.Add` | src/layers/anomaly-detection/engine2/ThresholdTuner.ts:51-93 | One sample takes the markers to the specified next state; no division is by zero. |
| `P2Quantile.P2Quantile.AdjustMarker` | src/layers/anomaly-detection/engine2/ThresholdTuner.ts:77-92 | One adjustment step moves a marker by one and its height by the parabola, or by the line when the parabola leaves the neighbours. |
| `P2Quantile.MarkersHold` | src/layers/anomaly-detection/engine2/ThresholdTuner.ts:51-93 | After any stream of five or more: positions strictly increasing from one to the number seen, heights ascending with the exact extremes outside, desired positions exact. |
| `P2Quantile.EstimateIsBounded` | src/layers/anomaly-detection/engine2/ThresholdTuner.ts:96-99 | The estimate lies between the least and the greatest sample. |
| `P2Quantile.CountStartsAtFive` | src/layers/anomaly-detection/engine2/ThresholdTuner.ts:46-48 | The reported count is 0 for the first four samples and right from the fifth on. |
| `P2Quantile.CurveInterpolates` | src/layers/anomaly-detection/engine2/ThresholdTuner.ts:105-114 | The parabola passes through the marker and its two neighbours. |
| `P2Moves.MarkersApproach` | src/layers/anomaly-detection/engine2/ThresholdTuner.ts:71-92 | With every sample each inner marker goes one place nearer to its desired position if it is a place away and that place is free, and stays otherwise; it is never further away. |
| `P2Moves.TurnKeepsHeights` | src/layers/anomaly-detection/engine2/ThresholdTuner.ts:80-118 | A marker that moves takes the height of the parabola through itself and its neighbours where that is between the neighbours, and of the line otherwise; no other height changes. |
| `P2Moves.MedianIsMiddle` | src/layers/anomaly-detection/engine2/ThresholdTuner.ts:51-93 | On 4k + 1 evenly spaced ascending samples the median estimate is the middle sample. |
| `P2Quantile.LineIsBetween` | src/layers/anomaly-detection/engine2/ThresholdTuner.ts:116-120 | The line keeps a moved marker between the two heights. |
| `P2Quantile.ScaleInvariant` | src/layers/anomaly-detection/engine2/ThresholdTuner.ts:51-93 | Scaling and shifting all samples scales and shifts the markers, and nothing else. |
| `P2Quantile.ThresholdTuner.IsAnomaly` | src/layers/anomaly-detection/engine2/ThresholdTuner.ts:158-168 | Flags exactly the scores above the cut-off, none before there is one. |
| `P2Quantile.ThresholdIsBounded` | src/layers/anomaly-detection/engine2/ThresholdTuner.ts:158-162 | From five scores on the cut-off is within its bounds, and is the estimate exactly when that is. |
| `Welford.WelfordEstimator.Add` | src/layers/anomaly-detection/engine2/Welford.ts:47-57 | The state after a sample is the specified one, in place. |
| `Welford.WelfordEstimator.Merge` | src/layers/anomaly-detection/engine2/Welford.ts:60-73 | So for a merge. |
| `Welford.WelfordEstimator.Restore` | src/layers/anomaly-detection/engine2/Welford.ts:93-97 | So for a restored snapshot. |
| `Welford.OnlineIsBatch` | src/layers/anomaly-detection/engine2/Welford.ts:47-57 | For every decay in (0, 1] and every stream: weighted mass, weighted mean and weighted squared deviations from that mean, never negative. |
| `Welford.VarianceOfStream` | src/layers/anomaly-detection/engine2/Welford.ts:81-87 | The variance of a stream is its squared deviations over one less than its mass, and zero while the mass is at most one. |
| `Welford.MergeIsConcat` | src/layers/anomaly-detection/engine2/Welford.ts:60-73 | Merging the estimators of two streams is the estimator of their concatenation if and only if nothing decays or one stream is empty. |
| `Welford.MergeCommutes` | src/layers/anomaly-detection/engine2/Welford.ts:60-73 | Merging commutes. |
| `Welford.MergeAssociates` | src/layers/anomaly-detection/engine2/Welford.ts:60-73 | Merging associates. |
| `Welford.OnlineZScoreDetector.Update` | src/layers/anomaly-detection/engine2/Welford.ts:128-144 | Scores the value against the statistics before it, then folds it in. |
| `Welford.OnlineZScoreDetector.Peek` | src/layers/anomaly-detection/engine2/Welford.ts:147-152 | Scores the same and changes nothing. |
| `Welford.FlagsOutliers` | src/layers/anomaly-detection/engine2/Welford.ts:128-152 | A warmed-up detector flags exactly the values whose squared deviation exceeds the squared threshold times the variance. |
| `Welford.ScoreTells` | src/layers/anomaly-detection/engine2/Welford.ts:128-144 | Once warm, z standard deviations lead from the mean to the value; without deviation a value off the mean is infinitely far on its side; else z is zero. |
| `Welford.CountIsSamplesExactly` | src/layers/anomaly-detection/engine2/Welford.ts:100-144 | The count in a score is the number of samples, this one included, if and only if nothing decays or it is one of the first two. |
| `Welford.WarmsUpExactly` | src/layers/anomaly-detection/engine2/Welford.ts:128-152 | For a decay in (0, 1] a detector warms up after some number of samples if and only if nothing decays or the warm-up times one minus the decay is below one. |
| `Attribution.LowerBound` | src/layers/analytics/engine2/AttributionModeler.ts:48-57 | The binary search returns the first position not before the time. |
| `Attribution.AttributionModeler.AddTouch` | src/layers/analytics/engine2/AttributionModeler.ts:133-144 | The touches are those before with the new one after everything not later: the journey stays sorted. |
| `Attribution.AttributionModeler.EligibleTouches` | src/layers/analytics/engine2/AttributionModeler.ts:155-163 | The slice between two binary searches is exactly the touches of the window. |
| `Attribution.FillWeights` | src/layers/analytics/engine2/AttributionModeler.ts:75-114 | The weight array of every model, filled in place. |
| `Attribution.WeightsArePositive` | src/layers/analytics/engine2/AttributionModeler.ts:75-114 | There is always a positive total to share by. |
| `Attribution.PartsMakeOne` | src/layers/analytics/engine2/AttributionModeler.ts:221-252 | The parts of one conversion make up one credit and its whole value. |
| `Attribution.CreditIsConserved` | src/layers/analytics/engine2/AttributionModeler.ts:221-252 | Channel credits add up to the conversions attributed and channel values to the total value, for every model. |
| `Attribution.AttributedExactly` | src/layers/analytics/engine2/AttributionModeler.ts:221-252 | A conversion is attributed if and only if a touch lies in its window. |
| `Attribution.TallyIsClaims` | src/layers/analytics/engine2/AttributionModeler.ts:221-252 | The credit of a channel is what its own touches earn, added to what it had. |
| `AttributionRules.FirstTouchGets` | src/layers/analytics/engine2/AttributionModeler.ts:75-91 | The channel of the earliest touch in the window gets the whole credit and value, the others nothing. |
| `AttributionRules.LastTouchGets` | src/layers/analytics/engine2/AttributionModeler.ts:75-94 | The channel of the latest touch in the window gets them. |
| `AttributionRules.LinearGets` | src/layers/analytics/engine2/AttributionModeler.ts:75-96 | Each channel gets its number of touches in the window times one over all of them. |
| `AttributionRules.PositionBasedGets` | src/layers/analytics/engine2/AttributionModeler.ts:75-113 | Each end gets 0.4 and the touches between share 0.2 evenly; two get halves and one gets all. |
| `AttributionRules.ReportDivides` | src/layers/analytics/engine2/AttributionModeler.ts:75-252 | For every model each channel gets what its touches in the window have together; under time decay any two touches are in the ratio of the decay of their ages. |
| `AttributionRules.NobodyGets` | src/layers/analytics/engine2/AttributionModeler.ts:221-252 | Without a touch in the window the conversion is unattributed and nobody gets anything. |
| `AttributionRules.ReportsAddUp` | src/layers/analytics/engine2/AttributionModeler.ts:221-252 | A report over several conversions is made up of the reports of each. |
| `Attribution.AttributionModeler.Attribute` | src/layers/analytics/engine2/AttributionModeler.ts:169-173 | The report of one subject, or an empty one, with the share of each channel in the whole credit. |
| `Attribution.AttributionModeler.AttributeAll` | src/layers/analytics/engine2/AttributionModeler.ts:180-209 | Over all subjects in any order: every channel, the counts and the total are the sums of the per-subject reports, and each channel has its share in the whole credit. |
| `Attribution.PortionsMakeOne` | src/layers/analytics/engine2/AttributionModeler.ts:254-277 | When anything is attributed the shares of the channels add up to one. |
| `SessionWindows.SubjectEvents.Push` | src/layers/analytics/engine2/SessionWindowGrouper.ts:88-98 | The dirty flag is false only while the buffer is sorted. |
| `SessionWindows.SubjectEvents.SessionsOf` | src/layers/analytics/engine2/SessionWindowGrouper.ts:104-123 | The answer depends on the arrivals only, not on earlier queries. |
| `SessionWindows.SessionWindowGrouper.Track` | src/layers/analytics/engine2/SessionWindowGrouper.ts:88-98 | One event more for its subject and no change for others. |
| `SessionWindows.SessionWindowGrouper.Query` | src/layers/analytics/engine2/SessionWindowGrouper.ts:104-123 | The windows of the subject, none for an unknown one; no arrivals change. |
| `SessionWindows.SubjectEvents.BuildWindow` | src/layers/analytics/engine2/SessionWindowGrouper.ts:196-212 | The record of one window: bounds, duration, counts by name, rate and bounce. |
| `SessionWindows.SegmentsSplit` | src/layers/analytics/engine2/SessionWindowGrouper.ts:104-123 | The runs have inner gaps at most the gap and outer gaps above it. |
| `SessionWindows.SplitIsUnique` | src/layers/analytics/engine2/SessionWindowGrouper.ts:104-123 | And are the only such split. |
| `SessionWindows.SessionsAddUp` | src/layers/analytics/engine2/SessionWindowGrouper.ts:104-212 | Event counts and the count of every name add up to the events tracked. |
| `SessionWindows.WindowTells` | src/layers/analytics/engine2/SessionWindowGrouper.ts:196-212 | Each window spans its events and no more, lasts from the first to the last, has their number and the count of every name, their rate by the minute, and is a bounce exactly for a single event. |
| `SessionWindows.SessionsAreCanonical` | src/layers/analytics/engine2/SessionWindowGrouper.ts:88-123 | The same events in any order of arrival give the same windows. |
| `StableSort.SortIsStable` | src/layers/analytics/engine2/SessionWindowGrouper.ts:104-110 | Sorting orders by time and keeps the arrival order of equal times. |
| `StableSort.StableSortUnique` | src/layers/analytics/engine2/SessionWindowGrouper.ts:104-110 | Order and stability leave one result. |
| `BodyReshaper.SetPath` | src/layers/api-gateway/engine2/BodyReshaper.ts:42-57 | The loop with its stack of objects writes what the recursive path write gives. |
| `BodyReshaper.DeletePath` | src/layers/api-gateway/engine2/BodyReshaper.ts:60-78 | The delete with its walk back gives the recursive pruning delete. |
| `BodyReshaper.PutReadsBack` | src/layers/api-gateway/engine2/BodyReshaper.ts:42-57 | The path reads back the value written. |
| `BodyReshaper.PutLeavesOthers` | src/layers/api-gateway/engine2/BodyReshaper.ts:42-57 | Paths apart from it read what they did. |
| `BodyReshaper.PutsCommute` | src/layers/api-gateway/engine2/BodyReshaper.ts:42-57 | Writes to paths apart from each other commute. |
| `BodyReshaper.OrderShows` | src/layers/api-gateway/engine2/BodyReshaper.ts:42-57 | A plain value and a write below it never commute. |
| `BodyReshaper.CutRemoves` | src/layers/api-gateway/engine2/BodyReshaper.ts:60-78 | The path reads nothing after its delete. |
| `BodyReshaper.CutLeavesOthers` | src/layers/api-gateway/engine2/BodyReshaper.ts:60-78 | Paths apart from it read what they did. |
| `BodyReshaper.PrunesExactly` | src/layers/api-gateway/engine2/BodyReshaper.ts:60-78 | An ancestor goes if and only if from there on the objects held nothing but the way to the leaf. |
| `BodyReshaper.CutUndoesPut` | src/layers/api-gateway/engine2/BodyReshaper.ts:42-78 | Deleting undoes a write if and only if nothing was there or overwritten and the object written into was not empty. |
| `BodyReshaper.Reshape` | src/layers/api-gateway/engine2/BodyReshaper.ts:130-156 | The loop over the rules gives body, moved and missing lists of the specified application. |
| `BodyReshaper.RuleWrites` | src/layers/api-gateway/engine2/BodyReshaper.ts:130-156 | One rule more writes at its destination the answer on the body, else (if allowed) the answer on what is written so far, else the default, else is reported missing and changes nothing. |
| `BodyReshaper.MoveKeepsExactly` | src/layers/api-gateway/engine2/BodyReshaper.ts:146-152 | A move keeps the value at its destination if and only if there is no path to clear, the paths are apart, or the cleared path lies below the destination where the value has nothing. |
| `BodyReshaper.MoveMoves` | src/layers/api-gateway/engine2/BodyReshaper.ts:146-152 | When the paths are apart the destination has the value and the origin nothing. |
| `BodyReshaper.MoveBelowItselfLoses` | src/layers/api-gateway/engine2/BodyReshaper.ts:146-152 | Moving a value to or below where it came from loses it. |
| `BodyReshaper.MoveUpLoses` | src/layers/api-gateway/engine2/BodyReshaper.ts:146-152 | An instance above it: moving a.b to a loses a value that has a b of its own. |
| `BodyReshaper.RulesInAnyOrder` | src/layers/api-gateway/engine2/BodyReshaper.ts:130-156 | Reading the original body only and starting from nothing, rules with destinations apart from each other give one body in any order. |
| `BodyReshaper.DestinationsReadBack` | src/layers/api-gateway/engine2/BodyReshaper.ts:130-156 | And every value written is read back at its destination. |
| `EventLogs.InsertSorted` | src/layers/analytics/engine/SessionStitcher.ts:259-268 | The binary search inserts after everything not later. |
| `EventLogs.MergeSorted` | src/layers/analytics/engine/SessionStitcher.ts:230-244 | The two-index loop gives the specified merge. |
| `EventLogs.MergeIsSort` | src/layers/analytics/engine/SessionStitcher.ts:230-244 | Merging two ordered logs is stably sorting their concatenation. |
| `EventLogs.SessionStitcher.Identify` | src/layers/analytics/engine/SessionStitcher.ts:85-120 | Aliases, logs, session records and last-seen times after it are the specified ones, and so are the numbers of events and sessions moved. |
| `EventLogs.SessionStitcher.Track` | src/layers/analytics/engine/SessionStitcher.ts:138-170 | The event is filed with its resolved owner, in order, and its session opened or extended as specified; or filed and then failed on, where the open session it should join is missing. |
| `EventLogs.IdentifyConserves` | src/layers/analytics/engine/SessionStitcher.ts:85-120 | Identifying keeps every event if and only if the two ids differ, or the log is empty, or it is already so aliased. |
| `EventLogs.LogsAreConserved` | src/layers/analytics/engine/SessionStitcher.ts:85-170 | In every run in which nobody is identified as itself the logs stay sorted and hold exactly the events tracked. |
| `EventLogs.FiledAtTheEnd` | src/layers/analytics/engine/SessionStitcher.ts:81-146 | An anonymous event is filed at the end of its chain of aliases if and only if the chain is at most one alias long. |
| `EventLogs.ChainIsNotFlattened` | src/layers/analytics/engine/SessionStitcher.ts:81-146 | An instance: after a is identified as u1 and u1 as u2, an event of a is filed under u1. |
| `SessionRecords.FailsExactly` | src/layers/analytics/engine/SessionStitcher.ts:152-157 | Tracking fails for want of an open session if and only if the event has no session id, follows the last one within the gap, and its subject has no session. |
| `SessionRecords.RunNeverFails` | src/layers/analytics/engine/SessionStitcher.ts:85-172 | No run fails in which events bring no session id of their own, users and anonymous identities are kept apart, and no identity is resolved to a second user before it is reset. |
| `SessionRecords.GivenIdFails` | src/layers/analytics/engine/SessionStitcher.ts:138-172 | An event with a session id of its own, then one without: it fails. |
| `SessionRecords.ReusedIdentityFails` | src/layers/analytics/engine/SessionStitcher.ts:85-172 | An identity resolved to a user and then used as a user: it fails. |
| `SessionRecords.SecondUserFails` | src/layers/analytics/engine/SessionStitcher.ts:85-172 | An identity resolved to a second user without a reset: it fails. |
| `SessionRecords.JoinedRecords` | src/layers/analytics/engine/SessionStitcher.ts:247-257 | Identifying hands over every session record, in order of start, with only the subject rewritten. |
| `SessionRecords.JoinedSeen` | src/layers/analytics/engine/SessionStitcher.ts:85-120 | After an identification the user was last seen when either was; no other time changes. |
| `SessionRuns.RecordsAreSegments` | src/layers/analytics/engine/SessionStitcher.ts:138-170 | A run that only tracks, with session ids left to the stitcher, never fails, and the records of each subject are its events cut at every silence longer than the gap, each with first and last time and number. |
| `SessionRuns.RecordsAreWindows` | src/layers/analytics/engine/SessionStitcher.ts:138-170 | When the events come in time order, those records are the windows the session grouper reports for the same events. |
| `MetricRollup.Rollup.Add` | src/layers/analytics/engine/MetricRollup.ts:67-93 | The cells after a point are those of the specified update, at both grains. |
| `MetricRollup.Rollup.Total` | src/layers/analytics/engine/MetricRollup.ts:128-141 | The loop adds up the untagged cells of the metric, grain and range. |
| `MetricRollup.TotalIsPointSum` | src/layers/analytics/engine/MetricRollup.ts:67-141 | A total is the sum of the points of its metric whose bucket is in range, tagged or not, each once. |
| `MetricRollup.DayTotalIsHourTotal` | src/layers/analytics/engine/MetricRollup.ts:67-193 | A total over days is the total over their hours. |
| `MetricRollup.CellMeans` | src/layers/analytics/engine/MetricRollup.ts:67-141 | After any run there is a cell exactly where points fall, and it holds their number, sum, least and greatest value. |
| `ConsumerQuota.ChargesWholeUnits` | src/layers/api-gateway/engine2/ConsumerQuota.ts:70-73 | The charge is the least positive number of whole units that covers the cost. |
| `ConsumerQuota.ConsumerQuotaTracker.Charge` | src/layers/api-gateway/engine2/ConsumerQuota.ts:100-124 | Books and answer are those of the specified step; a denial debits nothing and names the time to wait. |
| `ConsumerQuota.WaitIsExact` | src/layers/api-gateway/engine2/ConsumerQuota.ts:100-124 | After a denial the same charge, with no other in between, is granted if and only if it is within the limit and, for windows from time zero on, the time named has run. |
| `ConsumerQuota.ConsumerQuotaTracker.StateFor` | src/layers/api-gateway/engine2/ConsumerQuota.ts:76-93 | The current window of the consumer, new or reset when needed, or none when the cap on consumers is reached. |
| `ConsumerQuota.ConsumerQuotaTracker.Sweep` | src/layers/api-gateway/engine2/ConsumerQuota.ts:160-170 | Removes exactly the windows that are over, and counts them. |
| `ConsumerQuota.SpendWithinLimit` | src/layers/api-gateway/engine2/ConsumerQuota.ts:76-170 | In every in-time run no consumer is granted more than the limit within one window, whatever sweeps, previews and other consumers do. |
| `ConsumerQuota.CheckTells` | src/layers/api-gateway/engine2/ConsumerQuota.ts:100-124 | In every in-time run what an answer calls used is what was granted in the present window, used and remaining make up the limit, and a further charge is granted if and only if it fits into what remains. |
| `ConsumerQuota.CappedExactly` | src/layers/api-gateway/engine2/ConsumerQuota.ts:76-93 | A call is turned away for the cap if and only if its consumer is new and the windows not over reach the cap. |
| `ConsumerQuota.OthersStay` | src/layers/api-gateway/engine2/ConsumerQuota.ts:76-93 | The windows of other consumers stay as they are, unless a new consumer comes at the cap: then those that are over go. |
| `ConsumerQuota.CapHolds` | src/layers/api-gateway/engine2/ConsumerQuota.ts:76-170 | No run tracks more consumers than the cap. |

## Left out

- BodyReshaper.Reshape: passing a body through is modelled for objects only; the program also starts from arrays, to which a write adds a named property, and from plain values.
- BodyReshaper.SetPath: writes into objects reached by several paths at once are not captured, because path writes and deletes work on values here; the program clones before it writes.
- FlowController.FlowController.AcquireOrQueue: the promise a waiter holds is a name here, not a continuation.
- FrameInspector.FrameInspector.Inspect: reason texts of verdicts are not modelled.
- P2Quantile.P2Quantile.Add: rounding, NaN and infinities are not modelled, here and in every module over `real`.
- Welford.OnlineZScoreDetector.Update: the square root is an input with its square given.
- Welford.OnlineZScoreDetector.Peek: likewise.
- Attribution.FillWeights: the exponential of time decay is any positive function of the age.
- Attribution.AttributionModeler.Attribute: the channels of the report are a map, not sorted by credit.
- Attribution.AttributionModeler.AttributeAll: likewise.
- RouteMatcher.RouteMatcher.Resolve: sorting the candidates is modelled as choosing their first element, and the version test is any test here; `RouteMatcher.MatchRequest` uses the one of `Versions`.
- RouteMatcher.RouteMatcher.MatchRequest: the version a request asks for is an input, since header, media type and path are searched by regular expression; what a text reads as when converted to a number is an input too.
- Versions.Compare: versions come split at their dots.
- CentroidDigest.RankUndoesQuantile: targets that fall exactly on the border of two centroids are left out, here and in the two lemmas beside it.
- EventLogs.SessionStitcher.Track: an event is its time, its ids and an item; its other properties do not matter to it.
- Query language: the character lexer (tokens are the input), the order of object values (an input of evaluation) and inherited properties.
- Router: splitting paths and upper-casing methods. The early returns for a missing child in unregister are never reached, so they are not there.
- Keys the program joins into strings are tuples here.
- Regular expressions on cache-control and the parsing of the vary header: their results are inputs.
- Sliding window: the top-N lists and clearing.
- Rate limiter, quota and breaker: peeking, usage and statistics, listeners, and the throwing forms.
- Sessions: statistics, activity and forgetting. The identity queries of the stitcher.
- Rollup: the query with tag filters.
- The facade around sampler and digest, the compression that is never reached, and snapshots.
- Clocks that run backwards.
- Funnels, health-aware balancing, anomaly scores, drift adaptation, traffic shifting and explanations; adapters, aggregation over the network, key management and the engine that calls the parts in order.
