# Fintech feature platform: verified model

This project models the part of the feature platform that decides which value a feature has, when
that value may be used, and how it travels between the online store, the offline history and the
workers. It proves the platform's central promise, "one definition, the same value in batch and
online, and no future data", together with the delivery protocols around it.

`dafny verify dfyconfig.toml` checks everything. Modules follow the program's components:

| modules | component |
|---|---|
| `Domain`, `Registry`, `Sorting`, `Graph`, `Fixpoint` | value objects, the feature registry, shared orders and graphs |
| `Semantics`, `Engine`, `Evaluation`, `Planner`, `Lineage` | the compute DAG: what a request means, the memoising engine, what a computed feature says, planning, leaf closure |
| `Pit`, `Dedup`, `Recompute`, `RecomputedRows`, `Batch`, `ModelBatch`, `ModelScores`, `Training`, `Lookahead` | the offline history: selection, duplicates, recomputing, staged batches, model scores, datasets, no lookahead |
| `WriteGuard`, `Consistency` | the guarded latest-value store and its agreement with history |
| `Dlq`, `OnlineWorker`, `OnlineEffects`, `OnlineDelivery`, `Deadline`, `OfflineWriter`, `OfflineEffects` | at-least-once delivery |
| `Partition`, `OnlinePartition`, `OfflinePartition` | cumulative commits: what a consumer of a partition passes over |
| `Propagation`, `Debounce`, `PropagationWorker`, `PropagationRunner`, `RunnerCalls`, `RunnerOffsets`, `Quiescence` | reactive propagation |
| `RocAuc`, `WheelStore`, `KeyCodec`, `ManifestJoin`, `TokenBucket` | self-contained algorithms |

How the pieces connect:

* `Semantics.Denotation` is the reference meaning of a feature: the least solution of the recursive
  equations of its registry. `Engine.ComputeCore.Resolve`, with its cache, skip marks and search
  stack, returns exactly that, on every registry, cyclic ones included. Recompute waves
  (`Recompute`), staged batches (`Batch`) and leaf closure (`Lineage`) are stated about the same
  meaning.
* A method is proved equal to a function of its inputs and the state before it. What these functions say is
  stated once more in the terms of the rows, fields and arguments alone: `Evaluation` for the engine,
  `RecomputedRows` for recomputes, `ModelScores` for model batches, `OnlineEffects` and `OfflineEffects` for
  deliveries, and
  lemmas named `...Mean` or `...Means` in the other modules.
* `Lookahead` runs arbitrary interleavings of imports, computations, wave recomputes and model
  batches over one append-only history with ghost provenance. Waves (`PropagationWorker`) and
  training datasets (`Training`) are tied to those runs.
* `OnlineDelivery` interleaves any number of online workers effect by effect, with crashes between
  any two effects, lost and unacknowledged publishes, and redelivery of any message at any time.
  Its latest values are those of `WriteGuard`.
* `OfflineWriter` and `PropagationRunner` keep commits behind durable effects; the rows they append
  and the updates they announce are those of `Dedup` and `Propagation`.
* `Partition` is the broker's side: commits are cumulative and a restarted process begins at the
  committed position. `OnlinePartition` and `OfflinePartition` run the deliveries of `OnlineDelivery`
  and `OfflineWriter` under it, `RunnerOffsets` the calls of `PropagationRunner`.

Modelling decisions: timestamps are integers (microseconds); SHA-256 hashes and fingerprints are
free constructors, so equal hashes mean equal contents; user functions and model runners are pure
functions that may fail; clocks, publish outcomes, store failures and crash points are parameters.
The class `Worker` of a module performs the effects of one process; the `System`, `State` and
`Books` values beside it are what all processes leave behind.

Properties that are false of the code as it stands are shown by a failing input next to the exact
condition under which they hold:

| property | holds if and only if | fails at |
|---|---|---|
| a bulk append stores what single appends store | `Dedup.BulkVersusOneByOne` | `Dedup.MixedCallsCanDiffer` |
| interrupted and repeated appends amount to one | `OfflineWriter.EffectivelyOnceIff` | `OfflineWriter.CollidingRowIsLost` |
| a staged batch step gives the online outcome | `Batch.StagedEqualsOnlineIff` | `Batch.OptionalInputTellsThemApart` |
| a later model score is never older | `ModelBatch.ScoreGetsOlderIff` | `ModelBatch.LateOptionalInputMakesScoreOlder` |
| the order of online writes does not matter | `WriteGuard.Convergence` | `WriteGuard.EqualFreshnessDiverges` |
| no values are written for a message that missed its deadline | `Deadline.DeliveryWritesIff`, `Deadline.ValuesAreWrittenIff` | `Deadline.EarlierDeliveryMayHaveWritten` |
| every commit of the propagation runner stands for completed work | `RunnerCalls.CommitsStaySettledIff` | `RunnerCalls.ReflushLosesWork` |
| an update left uncommitted is polled again by the propagation runner | `RunnerOffsets.NothingIsLeftBehindIff` | `RunnerOffsets.NextRoundOvertakes`, `RunnerOffsets.DeadLetterOvertakes` |
| a compute request left uncommitted is delivered again | `OnlinePartition.NothingIsLostIff` | `OnlinePartition.NextSuccessOvertakes` |
| an offline write left uncommitted is delivered again | `OfflinePartition.NothingIsLostIff` | `OfflinePartition.NextSuccessOvertakes` |
| a published wheel verifies | `WheelStore.WinnersVerifyIff` | `WheelStore.DishonestWinnerIsCaught` |
| an interval grants at most burst plus rate times its length | `TokenBucket.LimitHoldsIff` | `TokenBucket.BackwardClockBreaksTheLimit` |

Where the code and its documentation disagree the model follows the code: point-in-time selection
uses the claimed availability of a row when it has one (the training module's introduction speaks of
`calc_ts` only), the runner of the online worker does retry and dead-letter (its introduction says it
does not), and the ambiguity error of the manifest join counts clashing items, not entity/source
bindings (`ManifestJoin.RepeatedClashCountsTwice`). The propagation runner's main loop says that the
next round replays a failed wave; the next round goes on polling where the failed one stopped, so
only a restart replays it, and only if nothing was committed in between.

Rows of one event can collide (`OfflineWriter.CollidingRowIsLost`) only if two of its results carry
the same feature reference. Both producers of offline writes fill a dictionary by feature name, so
their events never do (`OfflineWriter.DistinctRefsNeverCollide`); an event written by hand can.

## Model

| member | source | states |
|---|---|---|
| Fixpoint.Stabilises | src/fintech_feature_platform/fs_core/compute/engine.py:121-248 | Recursion through the dependency graph needs at most as many rounds as there are features: iterating a monotone evaluation step that often reaches a fixpoint. |
| Semantics.MeaningIsFixpoint | src/fintech_feature_platform/fs_core/compute/engine.py:121-248 | The meaning of a registry satisfies the recursive equations of all its features, also when they are cyclic. |
| Semantics.MeaningIsLeast | src/fintech_feature_platform/fs_core/compute/engine.py:137-141 | Every solution of the equations agrees with the meaning wherever the meaning is not a cycle error: a cycle is the absence of any answer. |
| Engine.RequestContext.GetSource | src/fintech_feature_platform/fs_core/compute/context.py:47-51 | A source is loaded at most once per request; a failed load caches nothing. |
| Engine.RequestContext.CacheFeature | src/fintech_feature_platform/fs_core/compute/context.py:59-61 | A computation is cached under its name with its status, and everything else is kept. |
| Engine.ComputeCore.Resolve | src/fintech_feature_platform/fs_core/compute/engine.py:121-145 | Whatever an earlier resolution left in the context, a resolution that is not a cycle error equals the denotation, a cycle error means that every way of answering leads back to the search stack, and the stack is restored. |
| Engine.ComputeCore.ResolveDeps | src/fintech_feature_platform/fs_core/compute/engine.py:150-175 | The dependency pass with required and optional edges, staleness and degradation equals its denotation, or stops at a dependency that is blocked by the stack. |
| Engine.ComputeCore.Conclude | src/fintech_feature_platform/fs_core/compute/engine.py:176-248 | From payloads and dependency values the engine derives exactly the denoted value, freshness, fingerprint and availability, or the denoted error. |
| Engine.BlockedByDependency | src/fintech_feature_platform/fs_core/compute/engine.py:137-160 | A cycle error is never a false alarm: a feature whose next dependency is blocked by the feature itself or by the stack is blocked by the stack. |
| Engine.ComputeCore.Compute | src/fintech_feature_platform/fs_core/compute/engine.py:70-108 | The response of a request is a function of the registry, inputs and requested names alone, whatever the context held before. |
| Engine.RespondMeans | src/fintech_feature_platform/fs_core/compute/engine.py:82-108 | A request fails exactly when a requested feature fails; otherwise it returns exactly the requested features that were not skipped, each with its own denotation. |
| Engine.RequestOrderIsIrrelevant | src/fintech_feature_platform/fs_core/compute/engine.py:82-108 | The order of the requested features, and repetitions among them, never change the results. |
| Evaluation.ComputedMeans | src/fintech_feature_platform/fs_core/compute/engine.py:148-248 | A computed feature is what its user function returns for exactly the declared sources, each with its loaded report, and exactly the dependencies that have a value, each with that value; no edge fails or cuts it off, it is degraded exactly if an edge is missing, too old or degraded itself, and its freshness, fingerprint and availability summarise exactly these inputs. |
| Evaluation.StoppedMeans | src/fintech_feature_platform/fs_core/compute/engine.py:150-168 | The first edge that fails, or that is required and missing or too old, decides: the feature fails with its error or is skipped. |
| Evaluation.UnstoppedMeans | src/fintech_feature_platform/fs_core/compute/engine.py:176-248 | Without such an edge the feature fails at the first of a missing stamp, an unregistered dependency, an unknown user function, a raising one and no input at all, and is computed otherwise. |
| Evaluation.NodeStatusMeans | src/fintech_feature_platform/fs_core/compute/context.py:53-70 | The status recorded for a feature is skipped exactly without a value and degraded exactly if an edge degrades it; `Engine.ComputeCore.Compute` records one for every requested feature. |
| Planner.PlanFeatures | src/fintech_feature_platform/fs_core/planner.py:44-154 | A plan exists exactly when the request is non-empty, its groups and features are known and computable, and no reachable dependency chain closes a cycle or ends in an unknown or model feature; it lists the outputs once and the members of the requested groups. A refusal names the first fault in the order of the source, a bad dependency with its chain. |
| Planner.DependencyCheck.Visit | src/fintech_feature_platform/fs_core/planner.py:157-201 | The depth-first search either finishes a feature after all its dependencies or exhibits a bad chain from the bottom of its stack. |
| Domain.DedupeKeepsOrder | src/fintech_feature_platform/fs_core/planner.py:61-68 | Outputs appear in the order of their first mention. |
| Planner.AcceptedNeverBreaksTheEngine | src/fintech_feature_platform/fs_core/planner.py:157-201 | Features of an accepted plan never make the engine report a cycle or an unknown feature. |
| Planner.AcceptedMeaningIsUnique | src/fintech_feature_platform/fs_core/planner.py:157-201 | On an accepted plan the recursive equations have only one solution, so no evaluation order can matter. |
| Planner.NameErrorMeans | src/fintech_feature_platform/fs_core/planner.py:107-139 | The first name that is unknown, or that may not be requested, decides which of the two is reported. |
| Planner.SingleRequest | src/fintech_feature_platform/fs_core/planner.py:70-105 | A feature without dependencies may be requested exactly if a user function computes it and it is live, or in shadow and the caller allows that. |
| Planner.PlanMeans | src/fintech_feature_platform/fs_core/planner.py:141-154 | The outputs are the listed names in order, each with its own version; `ShadowMeans` says the same of the shadow list. |
| Lineage.LeafClosure | src/fintech_feature_platform/fs_core/compute/engine.py:176-246 | A feature's `data_ts` is the oldest report time over all transitively consumed reports, its availability the latest over them exactly when all are known, and it is trusted exactly when all of them are. |
| Lineage.TrustedIsNeverFromTheFuture | src/fintech_feature_platform/fs_core/models.py:327-347 | If reports cannot claim to be available before they were issued, a trusted value available at an observation was built only from reports issued by then. |
| Pit.SelectPit | src/fintech_feature_platform/fs_core/pit.py:61-86 | The selection loop returns the freshest eligible row and counts the rows about a later time; a negative gap is noticed exactly when there is a row. |
| Pit.PitIndexSelects | src/fintech_feature_platform/fs_core/pit.py:61-86 | The selected row is eligible, at least as fresh as every other eligible row, and the last among equally fresh ones; nothing is selected only if nothing is eligible. |
| Pit.SelectedIsUnique | src/fintech_feature_platform/fs_core/pit.py:61-86 | That property determines the selection. |
| Pit.PitRecordMeans | src/fintech_feature_platform/fs_core/pit.py:41-86 | Field by field: a query reads the one row of the entity, feature, version and view, old enough and available by the observation, to which every other such row gives way by data time, then computation time, then position; it reads none exactly if there is none. |
| Pit.FreshestOfMeans | src/fintech_feature_platform/fs_core/pit.py:61-86 | The same for the loop over rows that all answer the query. |
| Pit.FutureCountMeans | src/fintech_feature_platform/fs_core/pit.py:61-86 | The counter is the number of rows with a data time after the observation, eligible or not. |
| Pit.FutureRowsAreInvisible | src/fintech_feature_platform/fs_core/pit.py:41-58 | Rows that were not yet available at the observation, or describe data after its cut-off, never change what it sees. |
| Pit.OfflineStore.GetPit | src/fintech_feature_platform/fs_core/stores/offline.py:64-84 | Reading through the store selects in the whole history; a negative gap is refused exactly if the query has a stored row. |
| Dedup.PartitionNewResults | src/fintech_feature_platform/fs_core/dedup.py:83-107 | The loop keeps exactly the results that are neither represented in history nor exact repetitions within the call, and counts the others. |
| Dedup.KeptMeans | src/fintech_feature_platform/fs_core/dedup.py:31-107 | Field by field: the next result of a call is dropped exactly if a row of the view has the same entity, feature, version, data time and value, with fingerprints and source-provided availabilities equal or absent on a side, or if an earlier result of the call repeats it with both equal or absent on both sides. |
| Dedup.ReplayAppendsNothing | src/fintech_feature_platform/fs_core/dedup.py:64-107 | Once a call's rows are in the history, repeating the call appends nothing, whatever was appended in between. |
| Dedup.AppendRepresentsAll | src/fintech_feature_platform/fs_core/dedup.py:83-107 | After a bulk append every result of the call is represented in the history, kept or not. |
| Dedup.BulkVersusOneByOne | src/fintech_feature_platform/fs_core/dedup.py:31-107 | A bulk append stores the same rows as appending one by one if and only if no two kept results collide, and otherwise strictly more. |
| Dedup.UniformCallsAgree | src/fintech_feature_platform/fs_core/dedup.py:31-107 | Results that all carry, or all lack, a fingerprint and a trusted availability are stored alike in bulk and one by one. |
| Dedup.MixedCallsCanDiffer | src/fintech_feature_platform/fs_core/dedup.py:43-61 | Because a missing fingerprint matches any, a call that mixes both is stored twice in bulk and once one by one. |
| Dedup.ClaimedCallsCanDiffer | src/fintech_feature_platform/fs_core/dedup.py:49-61 | The same happens with a source-provided availability. |
| Recompute.FeatureStore.ComputeDependentFromOffline | src/fintech_feature_platform/fs_core/feature_store.py:242-321 | Recomputing from history returns the evaluation of the feature over the selected rows; a missing dependency of any kind yields no row. With a negative safety gap the first dependency decides between an error and no row. |
| Recompute.RowExplained | src/fintech_feature_platform/fs_core/feature_store.py:277-321 | A recomputed row is one evaluation over the rows selected at the computation time, one per declared dependency. |
| Recompute.FreshnessNeverGoesBackwards | src/fintech_feature_platform/fs_core/feature_store.py:277-321 | Over a growing history and a clock that does not go back, successive recomputes have pointwise nondecreasing `data_ts` and `max_input_data_ts`. |
| RecomputedRows.RecomputeMeans | src/fintech_feature_platform/fs_core/feature_store.py:242-321 | Field by field: a recompute stops at its first dependency without a row; otherwise it fails over a raw source, is skipped over a required row that is too old, and else the user function gets exactly the values of the rows read under their pins, and every field of the new row is stated from these rows. |
| Batch.F2TopologicalOrder | examples/credit_decision_demo/flow.py:115-135 | The search succeeds if and only if no chain of selected features closes a cycle or meets an unknown one; it returns every selected feature once, after its selected dependencies, or exhibits such a chain. |
| Batch.RunF2Batch | examples/credit_decision_demo/flow.py:138-167 | The batch leaves the history, counts and error of computing level by level in that order. |
| Batch.BatchMeans | examples/credit_decision_demo/flow.py:138-167 | Each level reads the history that the one before has left and appends the rows of the entities that have one, in their order; all entities of all levels are counted as computed or skipped; the first entity whose recompute is an error ends the batch, with the levels before it kept. |
| Batch.StagedEqualsOnlineIff | src/fintech_feature_platform/fs_core/feature_store.py:277-321 | One staged step gives the online outcome if and only if every dependency has a row, or some required one is missing or too old. |
| Batch.OptionalInputTellsThemApart | src/fintech_feature_platform/fs_core/feature_store.py:277-296 | A registry whose feature, lacking an optional input, is computed online and not at all from the rows of the same pass. |
| Batch.BatchEqualsOnline | examples/credit_decision_demo/flow.py:115-167 | Starting from a history that shows the online rows of what the batch reads and holds no row of the batch's own features for these entities, and with every feature meeting the condition of `StagedEqualsOnlineIff`, the batch leaves exactly the online row of every one of its features for every entity: same value, freshness, fingerprint and availability. |
| ModelBatch.ComputeModelFeatureBatch | src/fintech_feature_platform/api/model_feature_batch.py:100-226 | A model batch appends the new ones among the scored rows of its eligible inputs, accounts for every entity, and then announces every scored row that something reacts to; refused, also over a negative gap, it appends and announces nothing, and a failing publisher leaves the rows and the updates before the failure. |
| ModelScores.ScoresMean | src/fintech_feature_platform/api/model_feature_batch.py:100-267 | The model is called once, with one frame per entity that has a row for every required input and for at least one, in the order of the entities; the frame binds exactly the inputs with a selected row to its value; the i-th prediction becomes the row of the i-th of these entities, with data times, hash, fingerprint and model entry stated from the same rows; every refusal has its exact condition. |
| ModelBatch.ScoreGetsOlderIff | src/fintech_feature_platform/api/model_feature_batch.py:229-267 | A later score has an older `data_ts` if and only if an optional input that was missing has appeared with data older than all earlier inputs; its newest input never gets older. |
| ModelBatch.LateOptionalInputMakesScoreOlder | src/fintech_feature_platform/api/model_feature_batch.py:229-267 | A history of two rows in which the second score has older data than the first. |
| Lookahead.RunsKeepInvariant | src/fintech_feature_platform/fs_core/feature_store.py:277-321 | In every run of imports, computations, recomputes and model batches, each row is available no earlier than the rows it was computed from, and its metadata describes its source reports. |
| Lookahead.NoLookahead | src/fintech_feature_platform/fs_core/pit.py:41-86 | In every run, a row selected for an observation and all its transitive ancestors were available by the observation, and all known reports of a trusted row were issued by then. |
| Lookahead.AncestorsWereAvailable | src/fintech_feature_platform/api/model_feature_batch.py:173-193 | Availability of a row dominates that of its whole transitive provenance, model scores included. |
| Lookahead.RecomputedFromItsParents | src/fintech_feature_platform/fs_core/feature_store.py:277-321 | The parents recorded for a new recomputed row contain the row that supersedes all others for each dependency, so ancestry follows what was really read; `AncestorsAreClosed` says that ancestry is transitive. |
| Lookahead.LeavesStayKnown | src/fintech_feature_platform/fs_core/feature_store.py:277-321 | If the reports behind every row that a recompute reads are known, so are those of the new row. |
| Lookahead.ScoredFromItsParents | src/fintech_feature_platform/api/model_feature_batch.py:229-267 | The same for a scored row and its inputs. |
| Training.BuildTrainingDataset | src/fintech_feature_platform/fs_core/training.py:67-169 | A dataset is built exactly when the gap is non-negative, the features are known, every entity key is well formed and, under the error policy, nothing is missing; each row answers its observation cell by cell and carries its context, the counts are exact, and an error names the first fault. |
| Training.MissingMeans | src/fintech_feature_platform/fs_core/training.py:101-140 | The counter of missing values is the number of missing cells. |
| Training.CellMeans | src/fintech_feature_platform/fs_core/training.py:105-145 | A cell shows value, version and data time of the row of the registered version that supersedes all others readable at the observation, and is missing exactly if none is readable. |
| Training.LaterRowsDoNotLeak | src/fintech_feature_platform/fs_core/training.py:1-15 | Rows that became available after an observation never change its row of the dataset. |
| Training.CellsDoNotLookAhead | src/fintech_feature_platform/fs_core/training.py:105-145 | A present cell over any run comes from a row whose whole provenance was available by the observation. |
| WriteGuard.OnlineStore.Write | src/fintech_feature_platform/fs_core/write_guard.py:31-61 | A write stores its result exactly when the guard says so and touches no other key. |
| WriteGuard.DecisionMeans | src/fintech_feature_platform/fs_core/write_guard.py:31-61 | After any writes the next one is written exactly if it is fresher, by data time and then newest input, than all earlier ones of its key, and stale exactly if one of them is fresher; otherwise the stored one is replaced exactly if fingerprints differ or two source-provided availabilities do, and the write is a no-op if not. |
| WriteGuard.OutcomesMean | src/fintech_feature_platform/fs_core/stores/online.py:55-61 | A bulk write reports for each feature the decision of its last write, made against the values that the writes before it have left. |
| WriteGuard.FinalIsTop | src/fintech_feature_platform/fs_core/write_guard.py:24-52 | After any sequence of writes the stored freshness is the lexicographic maximum, and the stored result one of those attaining it. |
| WriteGuard.Convergence | src/fintech_feature_platform/fs_core/write_guard.py:31-61 | All orders and repetitions of the same writes end in the same value, fingerprint and trusted availability if and only if the freshest writes agree on them. |
| WriteGuard.EqualFreshnessDiverges | src/fintech_feature_platform/fs_core/write_guard.py:31-61 | Two equally fresh writes with different fingerprints: whichever comes last stays. |
| WriteGuard.StoreIsPerKey | src/fintech_feature_platform/fs_core/stores/online.py:55-61 | Bulk writes act on each key separately, in order. |
| WriteGuard.LaterRecomputeIsNeverStale | src/fintech_feature_platform/fs_core/write_guard.py:31-52 | The guard never rejects a later recompute of a feature as stale against an earlier one. |
| WriteGuard.AggregateOnlineStatus | src/fintech_feature_platform/fs_core/write_guard.py:64-76 | The request-level status is a write exactly when some outcome stored a value, and a no-op exactly when all outcomes are no-ops. |
| Consistency.CheckConsistency | src/fintech_feature_platform/fs_core/consistency.py:50-88 | The report has one item per requested feature, classifying the newest offline row against the online value. |
| Consistency.LatestOffline | src/fintech_feature_platform/fs_core/consistency.py:91-99 | The loop returns the last appended of the rows with the newest data time. |
| Consistency.StatusMeans | src/fintech_feature_platform/fs_core/consistency.py:91-137 | Each of the seven statuses is reported exactly under its condition on the rows of the whole history and the online value. |
| Consistency.AppendsAreReceived | src/fintech_feature_platform/fs_core/dedup.py:83-107 | After any sequence of bulk appends the history represents exactly what was sent for a view. |
| Consistency.StoresAgree | src/fintech_feature_platform/fs_core/consistency.py:102-137 | If history received the results in any bulk appends and the online store in any order, with duplicates dropped and other views in between, no item is missing on one side, stale or newer online, and an item is in order when the newest results share a value. |
| Dlq.ChainsAreShort | src/fintech_feature_platform/api/dlq.py:43-95 | A chain of retry copies carries one body and the same other headers, counts its attempts, and is shorter than the attempts left. |
| OnlineWorker.Worker.Handle | src/fintech_feature_platform/api/online_worker.py:70-263 | The handler's effects, in order: online write, offline event, completion; a late event only publishes a deadline completion; what fails stops the rest. |
| OnlineWorker.Worker.RetryOrDlq | src/fintech_feature_platform/api/online_worker_runner.py:121-162 | A failed attempt is republished with the next attempt while that is below the limit, else dead-lettered; the source is committed only after the acknowledgement. |
| OnlineWorker.Worker.ProcessNext | src/fintech_feature_platform/api/online_worker_runner.py:165-268 | The log of one delivery is exactly its trace, and the online store receives exactly the results that reached it. |
| OnlineWorker.CommitDecides | src/fintech_feature_platform/api/online_worker_runner.py:165-268 | The source offset is committed exactly for the statuses ok, deadline expired, retry republished and dead-lettered. |
| OnlineEffects.TraceMeans | src/fintech_feature_platform/api/online_worker.py:70-263 | Every kind of effect happens in a delivery exactly under its condition on the message, the deadline, the computation and the acknowledgements, with the content that the source gives it. |
| OnlineEffects.TraceIsOrdered | src/fintech_feature_platform/api/online_worker_runner.py:165-268 | Online writes, offline event, completion, stored result or its replacement, commit and final status happen in this order, each at most once; only the running status comes before. |
| OnlineEffects.StoreGetsTheWrites | src/fintech_feature_platform/api/online_worker.py:148-183 | The online store receives exactly the results whose writes are in the trace, in their order. |
| OnlineEffects.StatusMeans | src/fintech_feature_platform/api/online_worker_runner.py:121-268 | The returned status says exactly how the delivery ended. |
| OnlineDelivery.CommitIsCovered | src/fintech_feature_platform/api/online_worker_runner.py:165-268 | Whatever precedes a commit within a delivery covers the message: full success effects, a deadline completion, a bounded retry copy or a dead letter of its bytes. |
| OnlineDelivery.TraceIsBacked | src/fintech_feature_platform/api/online_worker.py:148-263 | Within a delivery values go online first, then towards history, and only then is a completion published or a result stored: every effect is backed by the effects before it. |
| OnlineDelivery.RunKeepsInvariant | src/fintech_feature_platform/api/online_worker_runner.py:121-268 | In every interleaving with crashes, redelivery and failing publishes, every committed message is covered by effects that have happened. |
| OnlineDelivery.NotLost | src/fintech_feature_platform/api/online_worker_runner.py:121-268 | Offset by offset, every message ever produced is uncommitted or settled, possibly as a bounded chain of retry copies. |
| OnlineDelivery.ProducedIsOnTopic | src/fintech_feature_platform/api/online_worker_runner.py:165-268 | Every message that was ever produced is one of these. |
| OnlineDelivery.DrainedIsSettled | src/fintech_feature_platform/api/online_worker_runner.py:121-268 | When each offset has a commit of its own, every event has been served, reported late or dead-lettered; `OnlinePartition.DrainedIsSettled` says the same of cumulative commits. |
| OnlineDelivery.CompletedIsReadable | src/fintech_feature_platform/api/online_worker_runner.py:206-239 | A request reported complete with values has its request-scoped result stored. |
| OnlineDelivery.HistoryNeverLeads | src/fintech_feature_platform/api/online_worker.py:148-212 | In every run, whatever has been sent to history is at most as fresh as the latest online value, from then on. |
| OnlineDelivery.ReportedIsInHistory | src/fintech_feature_platform/api/online_worker.py:185-263 | In every run, no completion with values is published before an offline event of the same message. |
| OnlineDelivery.ServedIsFresh | src/fintech_feature_platform/api/online_worker.py:165-263 | A committed request that was not late, retried or dead-lettered has its result and offline event stored, and the latest values are at least as fresh as the computed ones in every later state. |
| Deadline.LateDeliveryWritesNothing | src/fintech_feature_platform/api/online_worker.py:85-115 | A delivery that reports a missed deadline has itself written no value anywhere. |
| Deadline.DeliveryWritesIff | src/fintech_feature_platform/api/online_worker.py:85-263 | A delivery writes a value somewhere, online, towards history or as a stored result, if and only if it starts before the deadline, its computation succeeds and at least one write reaches its store. |
| Deadline.ValuesNeedAnOnTimeDelivery | src/fintech_feature_platform/api/online_worker.py:85-263 | In every run, interrupted and interleaved as it may be, a value of a message was written only by a delivery that was on time. |
| Deadline.ValuesAreWrittenIff | src/fintech_feature_platform/api/online_worker.py:85-263 | In runs of complete deliveries, values of a message are written if and only if one of its deliveries was on time. |
| Deadline.EarlierDeliveryMayHaveWritten | src/fintech_feature_platform/api/online_worker.py:85-115 | A run in which an earlier delivery of a message wrote its value and a later one reported a missed deadline. |
| OfflineWriter.Writer.Handle | src/fintech_feature_platform/api/offline_writer.py:42-112 | Append the new rows, then announce every result; a failure leaves exactly the part that landed. |
| OfflineWriter.Writer.ProcessNext | src/fintech_feature_platform/api/offline_writer_runner.py:160-209 | One delivery has exactly the effect of its action on history, announcements, copies, dead letters and commits; bytes that do not parse and events that cannot be read are dead-lettered; the status says how the delivery ended, and the message is committed exactly for the statuses ok, retry republished and dead-lettered. |
| OfflineEffects.DeliveryMeans | src/fintech_feature_platform/api/offline_writer_runner.py:89-209 | A delivery commits its message exactly after a complete handling, an acknowledged retry copy with the next attempt below the limit, or an acknowledged dead letter; it changes nothing about other messages. |
| OfflineEffects.DeliveryStores | src/fintech_feature_platform/api/offline_writer.py:57-112 | It appends the new rows of the event, a first part of them if it stops there, and nothing is announced before all are stored. |
| OfflineEffects.DeliveryAnnounces | src/fintech_feature_platform/api/offline_writer.py:57-112 | The updates are one for each result of a watched feature, stored before or not, in order, each after all rows of the event. |
| OfflineEffects.StatusMeans | src/fintech_feature_platform/api/offline_writer_runner.py:68-209 | The returned status says exactly how the delivery ended. |
| OfflineWriter.RunKeepsInvariant | src/fintech_feature_platform/api/offline_writer.py:57-112 | In every run each update was published only after all results of its event were represented in history, and each commit is backed by stored and announced results, a bounded copy or a dead letter. |
| OfflineWriter.RedeliveryAppendsNothing | src/fintech_feature_platform/api/offline_writer.py:57-72 | Once an event's append has succeeded, no later delivery of it appends a row, wherever it stops. |
| OfflineWriter.EffectivelyOnceIff | src/fintech_feature_platform/api/offline_writer.py:57-72 | However many deliveries an event took and wherever their appends stopped, the history ends as after a single append, if and only if no two of its new results collide. |
| OfflineWriter.CollidingRowIsLost | src/fintech_feature_platform/api/offline_writer.py:57-72 | If two new results collide, an append that stops before the second and is repeated stores fewer rows. |
| OfflineWriter.EventIsStoredOnce | src/fintech_feature_platform/api/offline_writer_runner.py:160-209 | In a stretch of a run with only one event being delivered, without collisions, a completed append leaves the history of a single append. |
| OfflineWriter.DistinctRefsNeverCollide | src/fintech_feature_platform/fs_core/models.py:186-200 | Results under distinct feature references never collide, whatever is in the history. |
| OfflineWriter.WriteSetIsStoredOnce | src/fintech_feature_platform/api/offline_writer_runner.py:160-209 | In a stretch of a run with only one write set being delivered, a completed append leaves the history of a single append. |
| OfflineWriter.NotLost | src/fintech_feature_platform/api/offline_writer_runner.py:111-209 | Offset by offset, every event ever produced is uncommitted, stored and announced, or dead-lettered, possibly as a bounded chain of retry copies. |
| OfflineWriter.DrainedIsSettled | src/fintech_feature_platform/api/offline_writer_runner.py:111-209 | When each offset has a commit of its own, every event is stored and announced, or dead-lettered; `OfflinePartition.DrainedIsSettled` says the same of cumulative commits. |
| Partition.NothingIsLostIff | src/fintech_feature_platform/fs_core/events/consumer.py:149-151 | A consumer loses no offset if and only if no poll commits after the same process has polled an offset that no poll has covered. |
| Partition.LostForGood | src/fintech_feature_platform/fs_core/events/consumer.py:149-151 | What the committed position has passed uncovered stays lost, whatever is polled or restarted afterwards. |
| Partition.StoppingLosesNothing | src/fintech_feature_platform/fs_core/events/consumer.py:149-151 | A process that stops whenever a poll did not cover its message loses nothing. |
| OnlinePartition.FinalCovers | src/fintech_feature_platform/api/online_worker_runner.py:165-268 | A stored result, a missed deadline, a dead letter or a retry copy within a delivery covers its request. |
| OnlinePartition.NothingIsLostIff | src/fintech_feature_platform/api/online_worker_runner.py:271-301 | No request is ever lost if and only if no delivery commits after the same process has polled a request that no delivery has ended. |
| OnlinePartition.AheadOrSettled | src/fintech_feature_platform/api/online_worker_runner.py:271-301 | Then each request lies at or beyond the committed position or is settled, possibly as a bounded chain of retry copies. |
| OnlinePartition.DrainedIsSettled | src/fintech_feature_platform/api/online_worker_runner.py:271-301 | Then, once the position is at the end of the partition, every request is settled. |
| OnlinePartition.NextSuccessOvertakes | src/fintech_feature_platform/api/online_worker_runner.py:265-301 | A request whose offline event was lost is passed by the commit of the next one: a restart begins behind both, and it is never finished. |
| OfflinePartition.NothingIsLostIff | src/fintech_feature_platform/api/offline_writer_runner.py:211-240 | No event is ever lost if and only if no delivery commits after the same process has polled an event that no delivery has left stored and announced, dead-lettered or copied. |
| OfflinePartition.AheadOrSettled | src/fintech_feature_platform/api/offline_writer_runner.py:211-240 | Then each event lies at or beyond the committed position or is stored and announced or dead-lettered, possibly as a bounded chain of retry copies. |
| OfflinePartition.DrainedIsSettled | src/fintech_feature_platform/api/offline_writer_runner.py:211-240 | Then, once the position is at the end of the partition, every event is stored and announced, or dead-lettered. |
| OfflinePartition.NextSuccessOvertakes | src/fintech_feature_platform/api/offline_writer_runner.py:205-240 | An event whose append failed is passed by the commit of the next one and is never stored. |
| Propagation.ReactiveDependents | src/fintech_feature_platform/fs_core/propagation.py:51-64 | The reverse index lists exactly the features that something reacts to, with the edges in declaration order. |
| Propagation.UpdatesAnnounce | src/fintech_feature_platform/fs_core/propagation.py:72-118 | Every result that something reacts to is announced under an id. |
| Propagation.UpdatesComeFromResults | src/fintech_feature_platform/fs_core/propagation.py:72-118 | Every announced update stems from a result that something reacts to. |
| Propagation.UpdatesMean | src/fintech_feature_platform/fs_core/propagation.py:72-118 | The updates are, in order and under consecutive ids, one for each result of a feature that some reactive edge leads to, with entity, version and both times of that result. |
| Propagation.PlanRecomputeWave | src/fintech_feature_platform/fs_core/propagation.py:180-215 | The planner's loops compute the wave of an update. |
| Propagation.WaveMeans | src/fintech_feature_platform/fs_core/propagation.py:180-215 | The candidates of an update are exactly the dependents with a reactive edge from it whose pin matches, in order of name and version. |
| Propagation.CandidatesMean | src/fintech_feature_platform/fs_core/propagation.py:180-215 | Field by field: a candidate is the registered version of a feature with a reactive edge to the updated one that is unpinned or pinned to the updated version, for the entity and view of the update. |
| Debounce.DebounceStore.Observe | src/fintech_feature_platform/fs_core/propagation.py:268-307 | Observing keeps the store a digest of everything observed since the last drain, and reports a new unit exactly for a new key. |
| Debounce.DebounceStore.Drain | src/fintech_feature_platform/fs_core/propagation.py:312-315 | Draining returns one unit per key in first-seen order and empties the store. |
| Debounce.DigestKeepsEverything | src/fintech_feature_platform/fs_core/propagation.py:268-307 | A unit lists every trigger, counts them, and its watermark is the newest data time with the id of the last update attaining it. |
| Debounce.UnitMeans | src/fintech_feature_platform/fs_core/propagation.py:245-315 | A drained unit stands for all observations with its entity, view, dependent and version, and no others: it has the first one's candidate, lists all updates in order, and carries the watermark of the last one with the newest data time. |
| Debounce.DebounceConserves | src/fintech_feature_platform/fs_core/propagation.py:245-315 | The counts of the units add up to the number of observations, keys are distinct, and every observation is a trigger of the unit of its key. |
| PropagationWorker.Worker.ExecuteWave | src/fintech_feature_platform/api/propagation_worker.py:115-232 | The wave drains the store and completes exactly when no unit is interrupted, leaving the history, announcements and tally of working through its units in order; interrupted, it leaves those of the units before, and of the interrupted one the row before its updates. |
| PropagationWorker.TallyAddsUp | src/fintech_feature_platform/api/propagation_worker.py:135-232 | In a completed wave every planned unit is computed, skipped or failed, exactly once, and every announcement is counted. |
| PropagationWorker.WaveAnnouncesExactly | src/fintech_feature_platform/api/propagation_worker.py:170-205 | A wave publishes exactly one update, in order, for every unit whose recompute yields a row of a feature that something reacts to, whether the row is new or was stored by an earlier attempt; the update has the fields of that row. |
| PropagationWorker.OutcomeMeans | src/fintech_feature_platform/api/propagation_worker.py:115-232 | A unit is computed, skipped, failed or raises exactly as its recompute or its one-entity model batch ends; a model without a runner is deferred. |
| PropagationWorker.UnitIsAnAction | src/fintech_feature_platform/api/propagation_worker.py:170-205 | A computed unit extends the history exactly as an action of the provenance runs. |
| PropagationWorker.WaveIsARun | src/fintech_feature_platform/api/propagation_worker.py:135-205 | In views without self-dependencies a whole wave over the history of a run is again a run, of allowed actions only. |
| PropagationWorker.WavesDoNotLookAhead | src/fintech_feature_platform/api/propagation_worker.py:135-205 | A row selected from the history that a wave leaves, and everything it was derived from, was available by the observation. |
| PropagationWorker.WaveAnnouncesStoredRows | src/fintech_feature_platform/api/propagation_worker.py:187-205 | The row behind every update that a wave has published is in the history. |
| PropagationWorker.InterruptedWaveAnnouncesStoredRows | src/fintech_feature_platform/api/propagation_worker.py:187-205 | That also holds at the point where a wave is interrupted. |
| PropagationWorker.InterruptionMeans | src/fintech_feature_platform/api/propagation_worker.py:135-232 | A wave stops at a unit exactly if its user function raises what the worker does not catch, or an outage hits it before its append or while it has something to publish. |
| PropagationWorker.StoppedMeans | src/fintech_feature_platform/api/propagation_worker.py:187-205 | It then leaves what the units before have done and, if the publish failed, also the appended row, with its update only if that landed. |
| PropagationWorker.WaveAnnouncesDependents | src/fintech_feature_platform/api/propagation_worker.py:187-205 | Whatever a wave announces is a recomputed dependent of one of its units that has reactive dependents of its own. |
| Quiescence.WaveIsARound | src/fintech_feature_platform/api/propagation_worker.py:51-205 | Observing updates and flushing a wave is a round: each announced update is caused by an observed one. |
| Quiescence.PropagationQuiesces | src/fintech_feature_platform/fs_core/propagation.py:51-64 | Without outside updates the rounds fall silent within the number of edges of the longest reactive path. |
| Quiescence.AcyclicViewsQuiesce | src/fintech_feature_platform/fs_core/registry/validator.py:97-132 | In an acyclic view that is fewer rounds than the view has features. |
| PropagationRunner.Runner.ProcessNext | src/fintech_feature_platform/api/propagation_worker_runner.py:109-134 | A polled update is observed for every dependent it makes due and held; a malformed one is committed only after its dead letter was acknowledged. The session is that of playing the call. |
| PropagationRunner.Runner.Flush | src/fintech_feature_platform/api/propagation_worker_runner.py:137-160 | Held messages are committed exactly when the wave completed, whatever was called before; commits stay justified if everything held is waiting in the debounce store. |
| PropagationRunner.Runner.Run | src/fintech_feature_platform/api/propagation_worker_runner.py:163-190 | A round is a new batch, some polls and a flush; it keeps every commit justified, whatever failed before. |
| PropagationRunner.RoundMeans | src/fintech_feature_platform/api/propagation_worker_runner.py:163-190 | A round works on everything the polled updates make due; if its wave completes it commits every polled update, in order, after the messages given up, and otherwise only the latter. |
| RunnerCalls.CommitsStaySettledIff | src/fintech_feature_platform/api/propagation_worker_runner.py:90-190 | In any sequence of polls, flushes, new batches and new debounce stores, every commit is justified at all times if and only if no flush completes after the store was drained of the dependents of a message that is still held and that no completed wave took along. |
| RunnerCalls.FreshBatchesLoseNothing | src/fintech_feature_platform/api/propagation_worker_runner.py:163-190 | A process that makes a new batch between a failed flush, or a new store, and the next flush loses no work. |
| RunnerCalls.ReflushLosesWork | src/fintech_feature_platform/api/propagation_worker_runner.py:137-160 | Polling a message, flushing into an outage and flushing the same batch again commits the message although nothing was recomputed. |
| RunnerOffsets.NothingIsLeftBehindIff | src/fintech_feature_platform/api/propagation_worker_runner.py:109-160 | Within a process, commits never pass over an unfinished message if and only if no call commits while the message of an earlier poll has neither a dead letter nor all its dependents recomputed. |
| RunnerOffsets.NextRoundOvertakes | src/fintech_feature_platform/api/propagation_worker_runner.py:221-240 | A round after a failed one commits past the messages of the failed one, although every commit is justified. |
| RunnerOffsets.DeadLetterOvertakes | src/fintech_feature_platform/api/propagation_worker_runner.py:77-134 | The commit of a dead-lettered message passes the updates that are held back for the next wave. |
| RocAuc.RankSum | examples/credit_decision_demo/model_lib.py:121-137 | The nested loops add up exactly the midranks of the positives. |
| RocAuc.RocAuc | examples/credit_decision_demo/model_lib.py:121-137 | Before rounding the result is the share of positive/negative pairs ranked correctly, ties counting half, and one half without positives or without negatives; there is no result exactly when the lists differ in length. |
| RocAuc.StatisticMeans | examples/credit_decision_demo/model_lib.py:121-137 | The statistic counts positions of the two lists: correctly ranked pairs and half the tied ones over all pairs of a positive and a negative. |
| RocAuc.MannWhitneyPermutes | examples/credit_decision_demo/model_lib.py:121-137 | The statistic is independent of the order of the sample. |
| RocAuc.MannWhitneyIsAProbability | examples/credit_decision_demo/model_lib.py:121-137 | The statistic lies between 0 and 1. |
| WheelStore.WheelStore.PutWheel | src/fintech_feature_platform/cli/artifact.py:252-286 | A publisher running alone writes its wheel, claims the release if it is free, and otherwise judges the existing record. |
| WheelStore.RunKeepsInvariant | src/fintech_feature_platform/cli/artifact.py:252-358 | In every interleaving of honest publishers each release record points at a stored wheel with its hash, and records never change. |
| WheelStore.WinnersStayVerified | src/fintech_feature_platform/cli/artifact.py:288-308 | Once a publisher has succeeded, reading its release back verifies at any later time. |
| WheelStore.WinnersAgree | src/fintech_feature_platform/cli/artifact.py:252-286 | All successful publishers of a name and version share one record; a publisher succeeds exactly if its hash is the released one. |
| WheelStore.SomeoneWins | src/fintech_feature_platform/cli/artifact.py:338-358 | A release record exists only because a publisher has succeeded with it. |
| WheelStore.ReadBackMeans | src/fintech_feature_platform/cli/artifact.py:288-308 | A release reads back exactly if its record names the hash and the place of a stored wheel that has this hash. |
| WheelStore.DishonestPutIsCaught | src/fintech_feature_platform/cli/artifact.py:288-308 | A put whose hash does not match its bytes can overwrite a wheel, and reading back then fails closed. |
| WheelStore.DishonestWinnerIsCaught | src/fintech_feature_platform/cli/artifact.py:252-308 | A publisher that misnames its bytes succeeds when it runs alone, and its release does not verify. |
| WheelStore.WinnersVerifyIff | src/fintech_feature_platform/cli/artifact.py:252-308 | Every successful publisher verifies in every interleaving if and only if every publisher names the hash of its own bytes. |
| KeyCodec.EncodeEntityKey | src/fintech_feature_platform/fs_core/keycodec.py:18-61 | The encoder accepts exactly well-formed parts with a matching order and joins them in that order. |
| KeyCodec.EncodeRejectsIff | src/fintech_feature_platform/fs_core/keycodec.py:18-61 | A key is rejected exactly if it is empty, has a blank part or one with a reserved character, or the order is not one of its names. |
| KeyCodec.JoinSnoc | src/fintech_feature_platform/fs_core/keycodec.py:18-40 | The text of a key is `name=value` for each part, with a bar between parts. |
| KeyCodec.JoinIsInjective | src/fintech_feature_platform/fs_core/keycodec.py:18-61 | Different ordered parts have different encodings. |
| KeyCodec.SameBindingsSameKey | src/fintech_feature_platform/fs_core/keycodec.py:18-40 | Under one key order the encoding depends on the bindings only, not on their order. |
| KeyCodec.DifferentBindingsDifferentKey | src/fintech_feature_platform/fs_core/keycodec.py:18-61 | Equal encodings come from equal bindings. |
| KeyCodec.CanonicalMeans | src/fintech_feature_platform/fs_core/keycodec.py:18-61 | For distinct key fields a canonical key exists exactly if there are any and each has a usable name and value, and it joins them in the order of the fields. |
| ManifestJoin.MultiManifestBatchItems | src/fintech_feature_platform/api/app.py:891-947 | For distinct key fields, as the registry demands, the join is accepted exactly when every considered item is well keyed and (canonical key, source) determines the report; its items hold exactly those bindings, one item per entity, in strictly increasing order of encoded keys. An ambiguity reports how many items differ from the first of their entity and source, and their sources. |
| ManifestJoin.BindingsMean | src/fintech_feature_platform/api/app.py:891-947 | The joined bindings are those of the items that landed or repeat a landed one, with a report and an encodable key, restricted to the key fields. |
| ManifestJoin.ClashSourcesDisagree | src/fintech_feature_platform/api/app.py:891-947 | The reported sources are exactly those for which two items disagree about an entity; the count is positive exactly if there is one. |
| ManifestJoin.RepeatedClashCountsTwice | src/fintech_feature_platform/api/app.py:918-926 | An item that repeats a clashing report is counted again. |
| ManifestJoin.JoinIgnoresOrder | src/fintech_feature_platform/api/app.py:891-947 | Neither the order of the items, nor repetitions, nor their distribution over manifests changes the result. |
| ManifestJoin.Chunk | src/fintech_feature_platform/api/app.py:1459-1464 | Chunks are non-empty, full except possibly the last, as many as the rounded-up quotient, and concatenate to the items. |
| TokenBucket.TokenBucketRateLimiter.TryAcquire | src/fintech_feature_platform/api/batch_controls.py:69-81 | A call refills up to the burst and grants as many whole tokens as asked for and available. |
| TokenBucket.TokensAreConserved | src/fintech_feature_platform/api/batch_controls.py:69-81 | Under a nondecreasing clock what is granted is paid for by stored and accrued tokens. |
| TokenBucket.WindowIsLimited | src/fintech_feature_platform/api/batch_controls.py:48-81 | Over any window of any sequence of calls at most burst plus rate times elapsed time is granted. |
| TokenBucket.EveryClockIsLimited | src/fintech_feature_platform/api/batch_controls.py:69-81 | Under any clock, also one that goes back, at most burst plus rate times the sum of its rises is granted. |
| TokenBucket.LimitHoldsIff | src/fintech_feature_platform/api/batch_controls.py:69-81 | The limit of an interval holds for every bucket and all requests if and only if the rises of the clock add up to no more than the length of the interval. |
| TokenBucket.BackwardClockBreaksTheLimit | src/fintech_feature_platform/api/batch_controls.py:69-73 | A full bucket of one token under a clock that goes back once grants three in an interval that allows two. |

## Left out

- HTTP routes, authentication, settings, command-line handling, scaffolding, metrics, logs and signal handling.
- Postgres, Valkey, MinIO and Kafka clients: only their contract (append, guarded write, acknowledged or failed publish, commit, redelivery) is modelled. `OnlineDelivery` and `OfflineWriter` let a commit concern one message; `OnlinePartition` and `OfflinePartition` take one partition at a time, with one consumer, and rebalancing only as a restart.
- JSON, ISO timestamps and time zones, floating point and real hashing: naive timestamps cannot occur, values are compared by their canonical text, the rounding of the AUC is left out, token buckets compute with reals.
- The value of an attempt header is a decimal number or something else; which odd strings the number parser accepts is not modelled.
- The online worker takes the answer of the compute core as a parameter of a delivery; what that answer is, `Engine` and `Planner` say. Building a write set from it, and the synchronous compute path that writes to both stores, are not modelled.
- Registry loading, bundles, promotion, the metadata writer, batch status stores and imports.
- Demo user functions, model training, dataset export.
- Input identifiers are tagged values, so a source and a feature with the same textual id cannot be confused, as they could be in the source's strings.
- Model lineage fields of a stored row (uri, digest, output name) other than through the fingerprint.
- A model runner is a total function; a runner that raises an exception of another kind is not modelled.
- The request-scoped status store: status updates are best-effort effects without a reader. The offline writer's own status updates are not modelled.
- OnlineDelivery.RunKeepsInvariant: the guard's answers that a completion event reports are arbitrary in interleaved runs; for one worker they are exact in OnlineWorker.Worker.ProcessNext.
