# Slurm Web Plus: a verified model of its stateful core

Slurm Web Plus puts a web interface and an agent in front of a Slurm cluster. This project models the parts of it that
keep state, rewrite stored data or count, and proves what a maintainer relies on when changing them. SQL tables and
Redis are maps, dates and times are integers, floats are exact reals, and whether a statement, a lookup or a provider
call succeeds is left open: what is proved holds whichever way it goes.

`dafny verify dfyconfig.toml` checks the whole project.

**Job history** (`JobRecords`, `JobsQueue`, `JobsQueueSafety`, `JobsQueueRows`, `JobsQueueFlush`, `JobsReconcile`,
`JobsStoreObject`, `JobsBackfill`). Request threads queue rows keyed by job id and submit time while one flusher takes
the whole queue, writes it in chunks of 500 with a row-by-row fallback, and puts failed rows back under newer ones. A
step system with a version per queued row covers every interleaving and every failure; a class holds the same
operations in the program's own form. `JobsQueueRows` ties the locked sections of the two together, and
`JobsQueueFlush` shows that whatever a whole flush may leave behind is the outcome of a run. The reconciler closes
jobs that vanished from Slurm, and the backfill fills null usage columns.

**Node sets** (`Nodeset`, `NodesetProofs`, `NodesetObjects`, `Decimal`, `DoubleCounting`). Folding sorted node names
into zero-padded ranges and expanding them back, with the two regular expressions, `parseInt`, `padStart` and double
rounding written out, and the exact reach of the round trip and of the counting loop.

**Hotspots** (`Hotspots`, `HotspotSpacing`, `HotspotQuery`). A one-pass loop with four pieces of mutable state equals
the declarative maximal hot runs, and with the step its caller picks the events returned for a node and metric never
overlap.

**User analytics** (`DailyStats`, `Rebuild`, `Rollup`, `RollupBounds`, `RollupKept`, `RollupOverall`, `Timeline`).
Jobs become rounded daily rows, daily rows become a rollup with a proved error bound, scoped rebuilds agree with a
full one, and bucket timelines account for every job.

**Permissions** (`PermissionRules`, `AccessControl`, `Text`). Rules with wildcards are ordered exactly by what they
include, and the startup rewrite of stored roles changes no permission answer.

**Cached reads** (`CachedReader`, `JobFilters`, `CacheAges`, `CacheCounters`). The cache refines the reader it speeds
up when operations do not overlap, job queries included; under a clock and any interleaving returned values have a
bounded age, with the exact condition under which an invalidation holds; the three-step counters balance.

**Assistant** (`ChatLoop`). The bounded loop's event stream obeys a grammar given as an independent reader.

**Resources** (`Resources`). The node, GPU, core and memory totals of the cluster are conserved.

## What the proofs found

- Every row the program queues gets its user id whatever rows share its chunk
  (`JobsReconcile.QueuedRowsKeepIdentity`). The boundary is a row with an id but no name, which no queued row is
  (`JobRecords.IdentityIndependentOfChunk`).
- A snapshot cycle leaves a record untouched exactly when it is neither pending nor live and no record's lookup
  reaches it; so a vanished record whose own lookup answers about another job stays active and as it was
  (`JobsReconcile.UntouchedIff`, `JobsReconcile.ForeignAnswerLeavesActive`). No live job is ever closed, whatever the
  lookups answer (`JobsReconcile.NoLiveJobClosed`).
- A number-less node name listed twice comes back once; numbered names come back up to 2^53 and not beyond, where one
  list folds to a range whose expansion never ends and another loses a node (`NodesetProofs.RoundTrip`,
  `NodesetProofs.RoundTripReach`, `NodesetProofs.LargeIdsAreLost`).
- A day on which a tool's jobs average under 0.005 of a metric drops out of its weighted mean; a tool's reported mean
  is always that of its remaining jobs, within 0.005 (`RollupKept.ReportedMean`,
  `RollupBounds.SmallBucketsBiasTheMean`). The overall mean is not: it weighs a tool's remaining mean by all of the
  tool's jobs. It is taken over the remaining jobs exactly when no tool has both a day kept and a day left out
  (`RollupOverall.OverallMean`, `RollupOverall.OverallIsRemainingIff`, `RollupOverall.MixedToolSkewsTheMean`).
- Timelines over UTC windows, the only ones the program asks for, never lose a job (`Timeline.UtcTimelineLosesNoJob`).
  The boundary is an offset that is no whole number of buckets, under which every job would be missing
  (`Timeline.TimelineLosesNoJob`).
- Hotspot events of one node overlap for some values as soon as samples two apart are closer than the step
  (`HotspotSpacing.NoOverlapIffSpaced`); at the step the query picks they never do (`HotspotQuery.QueryEventsApart`).
- An invalidation holds, whatever the new answers are, exactly when no reader still has to put a value it fetched
  before; such a reader brings the old value back (`CacheAges.InvalidationIff`,
  `CacheAges.LatePutOutlivesInvalidation`). A write whose deletions fail half way, or whose request raised after
  taking effect, leaves entries that are then served as if current; while operations do not overlap no other reply is
  wrong (`CachedReader.UndeletedIsServed`, `CachedReader.RepliesStandOrDoubt`).
- The rewrite of stored roles keeps every role's rules, and every permission answer of every possible user, exactly
  when no removed action is mapped to a rule; the built-in map maps none of them
  (`AccessControl.MigrationKeepsRulesIff`, `AccessControl.MigrationKeepsDecisionsIff`).
- A counted call labelled "keys" is refused half way, after its label is listed, and reading the metrics then fails
  until the next reset; one labelled "total" counts twice (`CacheCounters.CallCountsOnceIff`,
  `CacheCounters.ListingFailsIff`). No caller uses these labels.
- The fallback sentence stands in for an answer only when every round asked for another one or the provider returned
  blank text: a final answer with empty content shows the provider's raw text (`ChatLoop.FallbackIff`).

## Model

| member | source | states |
|---|---|---|
| JobRecords.IdentityIndependentOfChunk | slurmweb/persistence/jobs_store.py:1516-1547 | the user id a row is written with is independent of the other rows of its chunk if and only if the row carries no id without a name |
| JobRecords.UserIdsOfChunk | slurmweb/persistence/jobs_store.py:1516-1547 | a given name becomes the user id; without one, a row keeps its id only in a chunk that gives no name at all |
| JobRecords.UpsertAllIsMap | slurmweb/persistence/jobs_store.py:50-94 | with pairwise distinct keys a multi-row UPSERT is one application per key, in any order |
| JobRecords.UpsertMapUnion | slurmweb/persistence/jobs_store.py:1562-1565 | writing disjoint chunks one after the other is writing them together |
| JobRecords.UpsertedLatest | slurmweb/persistence/jobs_store.py:63-94 | column by column: a write takes the row's status, user and every usage value the row has, metrics rounded, and keeps the stored value of the others, first sighting and insert-only columns |
| JobRecords.UpsertedFirst | slurmweb/persistence/jobs_store.py:50-62 | a first write stores the row's columns, both times now |
| JobRecords.UpsertedEvolves | slurmweb/persistence/jobs_store.py:63-94 | no UPSERT of a stored record changes first sighting or insert-only columns, or turns a COALESCE column back to null |
| JobRecords.UpsertedStored | slurmweb/persistence/jobs_store.py:701-712 | every record an UPSERT leaves has rounded metrics and a user id that names its user |
| Common.RoundsHalfAway | slurmweb/persistence/jobs_store.py:673-677 | metrics are stored as the nearest hundredth, the one further from zero when two are as near |
| JobsQueue.StepsEnabled | slurmweb/persistence/jobs_store.py:1549-1631 | a request can queue a row at any moment; take and clean up only when idle; a chunk or row that is tried may fail or succeed |
| JobsQueue.SomeOrder | slurmweb/persistence/jobs_store.py:1549-1552 | the queue can always be taken in some order |
| JobsQueueSafety.RunInv | slurmweb/persistence/jobs_store.py:1081-1085 | in every interleaving, with every pattern of failures: rows in flight have distinct keys, pending rows are newer than those in flight, what is committed is older than both, each key's commits increase, and no newest row is lost |
| JobsQueueSafety.NewestNeverLost | slurmweb/persistence/jobs_store.py:1549-1567 | from an empty queue, each job's newest row is always pending, in flight, or the last row committed for the job, and the versions committed per job strictly increase |
| JobsQueueSafety.RunReplayed | slurmweb/persistence/jobs_store.py:1575-1631 | the table of every run equals its commits and cleanups replayed in order |
| JobsQueueSafety.DrainedShowsNewest | slurmweb/persistence/jobs_store.py:1549-1573 | once queue and batch are empty, every job's newest row was written and, unless cleanup removed the record since, the record shows its status, its user, the time of that write and every usage value it reports |
| JobsQueueSafety.ColumnShowsLastReport | slurmweb/persistence/jobs_store.py:50-94 | in every run a usage column shows what the last committed row that reported it said, unless cleanup removed the record since |
| JobsQueueSafety.RunEvolves | slurmweb/persistence/jobs_store.py:50-94 | over any run that does not clean a record up, its first sighting and insert-only columns stay and no usage value becomes null |
| JobsQueueRows.SubmitIsQueueRows | slurmweb/persistence/jobs_store.py:1081-1085 | a submit step changes the queue exactly as queueing that row does |
| JobsQueueRows.TakeIsTakeBatch | slurmweb/persistence/jobs_store.py:1550-1552 | a take step hands over each queued row once, with distinct keys, and leaves the queue empty |
| JobsQueueRows.RequeueIsRequeue | slurmweb/persistence/jobs_store.py:1569-1573 | a requeue step puts failed rows back under the rows queued meanwhile |
| JobsQueueFlush.FlushIsARun | slurmweb/persistence/jobs_store.py:1549-1631 | every table and queue a whole flush may leave, with any rows failing and the queue taken in any order, is what some run of the step system leaves, up to user ids already resolved |
| JobsQueueFlush.ChunksRun | slurmweb/persistence/jobs_store.py:1575-1631 | whichever rows of the batch fail, its chunks, bulk statements and fallbacks are a run that tries each row once |
| JobsQueueFlush.TriedEffect | slurmweb/persistence/jobs_store.py:1606-1629 | trying the rows of a batch writes each row that does not fail once and keeps the others |
| JobsStoreObject.JobsStore.QueueRows | slurmweb/persistence/jobs_store.py:1081-1085 | later rows replace earlier rows of the same key, other keys stay |
| JobsStoreObject.JobsStore.TakeBatch | slurmweb/persistence/jobs_store.py:1550-1552 | the batch lists every pending row once and the queue is left empty |
| JobsStoreObject.JobsStore.Requeue | slurmweb/persistence/jobs_store.py:1569-1573 | failed rows return, rows queued in the meantime win |
| JobsStoreObject.JobsStore.FlushRows | slurmweb/persistence/jobs_store.py:1606-1629 | the fallback writes exactly the rows it does not return, each once |
| JobsStoreObject.JobsStore.FlushChunk | slurmweb/persistence/jobs_store.py:1575-1631 | bulk statement or fallback, a chunk's rows are each written once or returned as failed |
| JobsStoreObject.JobsStore.Flush | slurmweb/persistence/jobs_store.py:1549-1573 | chunks, bulk writes and fallbacks together equal applying the UPSERT once to exactly the rows not left pending |
| JobsStoreObject.JobsStore.ActiveRecords | slurmweb/persistence/jobs_store.py:1087-1109 | lists exactly the active records, each once, last seen first |
| JobsReconcile.TerminalIff | slurmweb/persistence/jobs_store.py:1087-1109 | a state is terminal if and only if a part of it reads like one of the nine, any character at their underscores |
| JobsStoreObject.JobsStore.PrepareRows | slurmweb/persistence/jobs_store.py:1068-1079 | keeps the rows of jobs that have both key fields, in order |
| JobsReconcile.PreparedRowsAre | slurmweb/persistence/jobs_store.py:1068-1079 | the rows of a snapshot are those of its jobs with a key, in order |
| JobsReconcile.HasKeyIs | slurmweb/persistence/jobs_store.py:1072 | a job has a key when it has a number other than zero and a submit time |
| JobsStoreObject.JobsStore.ReconcileMissingActiveJobs | slurmweb/persistence/jobs_store.py:1111-1132 | queues one row per active record missing from the snapshot whose lookup calls for one, and nothing else |
| JobsStoreObject.JobsStore.Submit | slurmweb/persistence/jobs_store.py:764-765 | queues the prepared rows of the jobs |
| JobsStoreObject.JobsStore.SnapshotAndFlush | slurmweb/persistence/jobs_store.py:1053-1066 | the rows pending, of the snapshot and of the reconciliation are each written once or left pending; after a cycle that left nothing pending the table is that of one cycle, and every record that only its own lookup decides about is accounted for (see CycleAccounts) |
| JobsReconcile.ClosingKeepsColumns | slurmweb/persistence/jobs_store.py:1441-1476 | closing a vanished job leaves it COMPLETED with an end time and all other accounting columns as they were |
| JobsReconcile.AnswerDecides | slurmweb/persistence/jobs_store.py:1134-1171 | nothing is queued when slurmrestd failed or its detail names no job, a closing row when the job was not found or its id belongs to another submission, the detail's row otherwise |
| JobsReconcile.DetailColumns | slurmweb/persistence/jobs_store.py:569-645 | the row of a detail, column by column: what the detail tells and the record's own values elsewhere, blank texts telling nothing, start, end and exit code always told |
| JobsReconcile.CycleRecord | slurmweb/persistence/jobs_store.py:1053-1066 | what one record is after snapshot, reconciliation and flush, whatever the lookups answer: the row of a record whose reconciliation reaches it, else its snapshot row, else its pending row, else unchanged |
| JobsReconcile.CycleAccounts | slurmweb/persistence/jobs_store.py:1111-1171 | for a record only its own answer decides about: a live job shows its snapshot row; a vanished one is closed when its answer says it is gone, shows the detail column by column when it tells one, and stays as it was when the lookup failed or named no job; pending rows are written; whatever is still active is accounted for |
| JobsReconcile.LiveJobShown | slurmweb/persistence/jobs_store.py:1053-1085 | after a cycle whose writes succeed, a live job no other answer is about shows what the snapshot reported of it last, its stored usage kept but for the two times |
| JobsReconcile.UntouchedIff | slurmweb/persistence/jobs_store.py:1111-1171 | a cycle leaves a record as it was if and only if it is not pending, not in the snapshot, and no record's reconciliation reaches it |
| JobsReconcile.ForeignAnswerLeavesActive | slurmweb/persistence/jobs_store.py:1134-1171 | a vanished record that nothing else touches, whose lookup names a job, is left active and as it was if and only if that job is another one |
| JobsReconcile.NoLiveJobClosed | slurmweb/persistence/jobs_store.py:1111-1132 | whatever the lookups answer, a job of the snapshot is written with its snapshot row or with a detail some lookup returned for it, never with a closing row |
| JobsReconcile.NotFoundIsClosed | slurmweb/persistence/jobs_store.py:1134-1171 | a vanished job that was not found, or whose id belongs to another submission, is closed with its other columns kept, unless another record's answer describes it |
| JobsReconcile.QueuedRowsKeepIdentity | slurmweb/persistence/jobs_store.py:1516-1547 | every snapshot row and reconciled row gets the same user id whatever rows share its chunk |
| JobsBackfill.FillOnce | slurmweb/persistence/jobs_store.py:1252-1304 | a fill changes no non-null value, updates exactly when a null becomes non-null, and has nothing left to do afterwards |
| JobsBackfill.FillTakesDetail | slurmweb/persistence/jobs_store.py:1252-1304 | a missing figure is filled with the detail's own, in whole hundredths, only from a detail of the same submission; a figure that is there stays |
| JobsBackfill.CandidateIs | slurmweb/persistence/jobs_store.py:1185-1228 | which snapshots a scope asks for: finished, in its window, of its user and number, missing usage if only those are wanted |
| JobsBackfill.UpperIs | slurmweb/persistence/jobs_store.py:1198-1203 | states are compared in capitals |
| JobsBackfill.WindowsSplit | slurmweb/persistence/jobs_store.py:1210-1216 | two adjoining windows find each snapshot of the joint window exactly once |
| JobsBackfill.Query | slurmweb/persistence/jobs_store.py:1185-1250 | returns candidates by submit time and job id, the first of them up to the limit, all when the limit is not reached |
| JobsBackfill.BackfillUsageFields | slurmweb/persistence/jobs_store.py:1306-1407 | scanned is updated plus skipped, updated counts the records that gain a value, a dry run reports the same and changes nothing |
| JobsBackfill.BackfillTwice | slurmweb/persistence/jobs_store.py:1306-1407 | a second unlimited run with the same answers updates nothing |
| Decimal.PadOfValue | frontend/src/composables/Nodeset.ts:65-70 | printing a parsed digit string padded to its own width restores it, leading zeros included |
| NodesetProofs.ParseInjective | frontend/src/composables/Nodeset.ts:82-94 | a name is determined by its pattern and its ids |
| NodesetProofs.IsNextIffFollows | frontend/src/composables/Nodeset.ts:25-45 | isNext holds exactly when the name follows the group's last name |
| NodesetProofs.RunsAreMaximal | frontend/src/composables/Nodeset.ts:96-101 | the runs cover the names in order, hold only followers, and cannot be extended |
| NodesetProofs.GroupsAreRuns | frontend/src/composables/Nodeset.ts:76-102 | the folded groups are the maximal consecutive runs, one for one |
| NodesetProofs.ExpandOfFold | frontend/src/composables/Nodeset.ts:76-128 | expanding folded names gives them back in order, less immediate repeats of number-less names |
| NodesetProofs.RoundTrip | frontend/src/composables/Nodeset.ts:76-128 | for node names numbered below 2^53, expanding what was folded gives the sorted list back if and only if no number-less name comes twice |
| NodesetProofs.FoldedIsExpandable | frontend/src/composables/Nodeset.ts:107-128 | folded text only holds ranges whose counting loop ends |
| Nodeset.WordCharIs | frontend/src/composables/Nodeset.ts:107-112 | the characters of a bare name |
| NodesetProofs.LargeIdsAreLost | frontend/src/composables/Nodeset.ts:41-47 | two neighbours at 2^53 fold to the first of them alone |
| NodesetProofs.RoundTripReach | frontend/src/composables/Nodeset.ts:76-128 | every list of node names numbered below a bound, with no number-less name twice, comes back if and only if the bound is at most 2^53 |
| DoubleCounting.ToDoubleIsNearest | frontend/src/composables/Nodeset.ts:25-47 | a number is read as the nearest double, of two as near the one with the even significand |
| DoubleCounting.CountEndsIff | frontend/src/composables/Nodeset.ts:120-122 | counting from one double to another by one ends if and only if there is nothing to count, the last is below 2^53, or the only number is one the first step leaves |
| NodesetObjects.ConsecutiveNodes.constructor | frontend/src/composables/Nodeset.ts:15-24 | the new group holds one name's pattern, ids and number |
| NodesetObjects.ConsecutiveNodes.IsNext | frontend/src/composables/Nodeset.ts:25-45 | the loop over the ids decides the group's isNext |
| NodesetObjects.ConsecutiveNodes.AddOne | frontend/src/composables/Nodeset.ts:46-48 | only the last number moves, by one as doubles add |
| NodesetObjects.ConsecutiveNodes.Render | frontend/src/composables/Nodeset.ts:49-73 | the text of the group |
| NodesetObjects.ParseName | frontend/src/composables/Nodeset.ts:83-94 | the pattern and ids of the name's matches |
| NodesetObjects.FoldNodeset | frontend/src/composables/Nodeset.ts:76-105 | sorts the array in place and returns the fold of the sorted names |
| NodesetObjects.ExpandRange | frontend/src/composables/Nodeset.ts:116-122 | appends the padded names of one range, for exactly the ranges whose loop ends |
| NodesetObjects.ExpandNodeset | frontend/src/composables/Nodeset.ts:107-128 | the names of all matches, in order, for exactly the texts whose loops end |
| Hotspots.RunsToAreTheRuns | slurmweb/metrics/hotspots.py:30-91 | the runs are ordered, disjoint, maximal, and cover every hot sample and no cold one |
| Hotspots.RunsAreUnique | slurmweb/metrics/hotspots.py:30-91 | every maximal hot run is among them |
| Hotspots.PeakIsMaximum | slurmweb/metrics/hotspots.py:59-67 | the peak is the largest value of the run |
| Hotspots.EventsAreTheStretches | slurmweb/metrics/hotspots.py:22-91 | an event spans samples all at or above the threshold and no more than two steps apart, with neither neighbour belonging to them; its start, end, duration and peak are theirs; every hot sample lies in one |
| Hotspots.ExtractEvents | slurmweb/metrics/hotspots.py:22-91 | the loop with its mutable state returns exactly one event per maximal run, in order |
| Hotspots.TopEventsAreTheTop | slurmweb/metrics/hotspots.py:93-104 | the list is in descending order, as long as the limit allows, and nothing left out is above it |
| Hotspots.TopEventsAreTheNewest | slurmweb/metrics/hotspots.py:93-104 | later starts first, then longer durations, then higher peaks, and nothing left out goes before what is returned |
| Hotspots.BuildHotspotEvents | slurmweb/metrics/hotspots.py:13-104 | ValueError for a step that is not positive, else the top events of all series |
| HotspotSpacing.NoOverlapIffSpaced | slurmweb/metrics/hotspots.py:42-46 | for given sample times events never overlap, whatever the values, if and only if samples two apart are at least a step apart |
| HotspotSpacing.TotalDurationBound | slurmweb/metrics/hotspots.py:69-85 | the events of a spaced series last together at most last sample minus first plus one step |
| HotspotSpacing.QuerySeriesSpaced | slurmweb/persistence/node_hotspot_store.py:148-173 | with distinct sample times at least half a second apart, the step the query picks spaces every series |
| HotspotQuery.SeriesEventsApart | slurmweb/persistence/node_hotspot_store.py:148-173 | each event of a query's series is over before the next begins, and together they last at most last sample minus first plus one step |
| HotspotQuery.QueryEventsApart | slurmweb/persistence/node_hotspot_store.py:124-181 | in the list the query returns no two events of one node and metric overlap, whatever the readings, threshold and limit |
| HotspotSpacing.ChooseStep | slurmweb/persistence/node_hotspot_store.py:157-166 | the step is the smallest gap in whole seconds: at least one, otherwise no larger than any gap, and some gap is less than a second longer; without two sample times it is the snapshot interval, at least one |
| HotspotSpacing.CollectSeries | slurmweb/persistence/node_hotspot_store.py:144-155 | each node's series holds its non-null readings in order |
| HotspotSpacing.SamplesAreHeld | slurmweb/persistence/node_hotspot_store.py:144-155 | a node's series of a metric has exactly the readings its rows hold, in their order |
| HotspotSpacing.ListSeries | slurmweb/metrics/hotspots.py:28-29 | the series listed are those of the collected nodes, each once |
| HotspotSpacing.ClusterNodeHotspots | slurmweb/persistence/node_hotspot_store.py:124-181 | ValueError for an empty window, else the top events of the collected series with the chosen step |
| DailyStats.AggregateDailyRows | slurmweb/persistence/user_analytics_store.py:460-529 | one item per day, user and tool with a counted job, no key twice; the statistics count exactly the rows without identity, without memory, counted, and counted without a CPU or runtime figure |
| DailyStats.CountersAre | slurmweb/persistence/user_analytics_store.py:484-523 | which rows each statistics counter counts |
| DailyStats.BuildPayload | slurmweb/persistence/user_analytics_store.py:524-529 | exactly the buckets that counted a job, each with its daily figures |
| DailyStats.BucketCounts | slurmweb/persistence/user_analytics_store.py:500-508 | a bucket counts jobs exactly when a counted row has its key, one memory value per job |
| DailyStats.MedianIsMiddle | slurmweb/persistence/user_analytics_store.py:233-249 | the median is the middle of the values in ascending order, or the mean of the two in the middle |
| Rebuild.RangeTable | slurmweb/scripts/rebuild-user-tool.py:478-503 | day-by-day aggregation of a range gives the full aggregation cut to the range and user |
| Rebuild.DayTable | slurmweb/persistence/jobs_store.py:985-1006 | aggregating one day gives the full aggregation cut to that day |
| Rebuild.CoversIs | slurmweb/scripts/rebuild-user-tool.py:272-330 | a scope without filters covers everyone, one filter the user it names, two what both name |
| Rebuild.AllRowsAre | slurmweb/persistence/jobs_store.py:985-1006 | each job is one row under the day of its submission, with its own user, tool and figures |
| Rebuild.StatsStore.ReplaceScope | slurmweb/persistence/user_analytics_store.py:1100-1151 | delete then insert leaves the rows outside the scope and the payload inside, and no insert meets an existing row |
| Rebuild.StatsStore.RebuildScope | slurmweb/scripts/rebuild-user-tool.py:272-330 | a rebuild scoped by dates, user name and user id makes the table equal a full rebuild inside the scope, leaves it alone outside, and never reaches ON CONFLICT |
| Rebuild.WholeHistoryIsFull | slurmweb/scripts/rebuild-user-tool.py:478-503 | over the whole history's days and all users a scoped rebuild is the full rebuild |
| Rebuild.RebuildIsIdempotent | slurmweb/scripts/rebuild-user-tool.py:478-510 | rebuilding a scope again, or a scope inside it, changes nothing |
| Rollup.AggregateDailyStatRows | slurmweb/persistence/user_analytics_store.py:386-431 | one rollup per tool that occurs, merging all figures of that tool's rows |
| Rollup.RollIsSums | slurmweb/persistence/user_analytics_store.py:257-283 | each figure of a rollup, medians included, is the job-weighted sum over the tool's daily rows that have it |
| Rollup.ReportedIs | slurmweb/persistence/user_analytics_store.py:293-322 | a reported figure times its weight is its sum, null without weight |
| Rollup.BuildAnalysisResponse | slurmweb/persistence/user_analytics_store.py:286-355 | the overall figures merge all tools, the breakdown lists each with its figures, more jobs first and then by name, and no tool beats the busiest |
| Rollup.LinesAre | slurmweb/persistence/user_analytics_store.py:286-332 | one line for each tool with jobs, with its jobs and figures |
| Rollup.BusierIs | slurmweb/persistence/user_analytics_store.py:329 | the order of the breakdown: more jobs first, then the name |
| Rollup.BucketSums | slurmweb/persistence/user_analytics_store.py:494-508 | summed over distinct buckets, jobs and every metric are those of the counted rows in the buckets |
| RollupBounds.ToolFigures | slurmweb/persistence/user_analytics_store.py:257-283 | for a tool whose own buckets all average at least 0.005 GB: jobs exact, mean within 0.005 of the exact mean, mean at most maximum |
| RollupBounds.ToolMaximum | slurmweb/persistence/user_analytics_store.py:268-273 | for every tool, whatever its buckets, the maximum is the rounded maximum of its raw rows when that is positive and null otherwise |
| RollupBounds.SummaryMaximum | slurmweb/persistence/user_analytics_store.py:268-273 | likewise the overall maximum over the rows of all listed tools |
| RollupBounds.OverallFigures | slurmweb/persistence/user_analytics_store.py:286-355 | when every bucket averages at least 0.005 GB: jobs and maximum exact, mean within 0.005 of the exact mean of all jobs and at most the maximum (see OverallMean for the other cases) |
| RollupBounds.WeightIsCompleteIff | slurmweb/persistence/user_analytics_store.py:261-264 | the mean covers all of a tool's jobs if and only if each bucket averages at least 0.005 GB |
| RollupBounds.SmallBucketsBiasTheMean | slurmweb/persistence/user_analytics_store.py:257-283 | two jobs whose reported mean is 1.0 and exact mean 0.5005 |
| RollupKept.ReportedMean | slurmweb/persistence/user_analytics_store.py:257-283 | for every tool and for memory, CPU and runtime, with no condition: the weight counts the tool's jobs in buckets averaging at least 0.005, and the reported mean is within 0.005 of the exact mean of those jobs |
| RollupKept.CompleteMean | slurmweb/persistence/user_analytics_store.py:257-283 | when all of the tool's buckets do, the mean is within 0.005 of the exact mean of all its jobs |
| RollupOverall.OverallMean | slurmweb/persistence/user_analytics_store.py:286-355 | for memory, CPU and runtime, with no condition: the overall weight is all jobs of the tools with a kept bucket, and the overall mean is within 0.005 of those tools' exact kept means weighted that way, null when there is none |
| RollupOverall.OverallIsRemainingIff | slurmweb/persistence/user_analytics_store.py:286-355 | over all occurring tools, the weight is the number of jobs in kept buckets if and only if no tool has both kept and left-out buckets, and the mean is then within 0.005 of those jobs' exact mean |
| RollupOverall.KeptIsAllIff | slurmweb/persistence/user_analytics_store.py:257-283 | a tool's kept jobs are all its jobs if and only if all its buckets are kept |
| RollupOverall.MixedToolSkewsTheMean | slurmweb/persistence/user_analytics_store.py:286-355 | daily rows of one job each at 0.0 and 1.0 for one tool and 4.0 for another give 2.0 overall, where the kept jobs average 2.5 |
| Timeline.BuildSeries | slurmweb/persistence/user_analytics_store.py:673-680 | the align-and-step loop yields one point per cursor with that bucket's count |
| Timeline.SeriesTotal | slurmweb/persistence/user_analytics_store.py:673-680 | the series total is all jobs of the window when the offset is a whole number of buckets, and zero otherwise |
| Timeline.TimelineLosesNoJob | slurmweb/persistence/user_analytics_store.py:1218-1228 | the total equals the jobs if and only if there are none or the offset is a whole number of buckets |
| Timeline.UtcTimelineLosesNoJob | slurmweb/persistence/user_analytics_store.py:673-680 | over a UTC window the series total is the number of matched jobs |
| Timeline.ExplicitWindowPoints | slurmweb/persistence/user_analytics_store.py:609-620 | an explicit window of up to 48 hours has at most 49 points, of up to 62 days at most 63 |
| Timeline.WindowIs | slurmweb/persistence/user_analytics_store.py:602-636 | an explicit window needs both ends in order and its length picks the bucket; a named range starts an hour, a day or a week before now |
| Timeline.BucketStarts | slurmweb/persistence/user_analytics_store.py:673-680 | buckets start at whole minutes, hours and days |
| Timeline.WeekStarts | slurmweb/persistence/user_analytics_store.py:673-680 | weeks start at midnight on Mondays |
| Text.SplitConcat | slurmweb/slurmrestd/__init__.py:955 | splitting at a separator that is present splits both sides |
| PermissionRules.ParsedIsNormal | slurmweb/permission_rules.py:207-223 | what normalizing accepts has a resource that is neither empty nor an alias, and a known operation and scope |
| PermissionRules.ParseIs | slurmweb/permission_rules.py:207-223 | three parts, the first not empty, with a known operation and scope, are a rule, one alias resolved; other three parts are none |
| PermissionRules.ParsedHasThreeParts | slurmweb/permission_rules.py:207-223 | nothing but three parts is accepted |
| PermissionRules.ParseShow | slurmweb/permission_rules.py:207-223 | normalizing normalized text changes nothing |
| PermissionRules.AllowsIffGranted | slurmweb/permission_rules.py:230-251 | a rule grants viewing with any operation, edits only with edit, deletes only with delete, anything else only with a star; its own scope, or all; "*", its own resource, or what starts with what is before a final star |
| PermissionRules.CoversIffIncludes | slurmweb/permission_rules.py:230-251 | for normalized rules, one allows the other read as a request if and only if it allows every request the other does |
| PermissionRules.CoversIsPreorder | slurmweb/permission_rules.py:230-251 | the order is reflexive and transitive, through both wildcard forms |
| PermissionRules.KeepingDecidesTheSameIff | slurmweb/permission_rules.py:254-263 | keeping only some rules changes no decision if and only if a single kept rule covers each rule |
| PermissionRules.PermissionRulesToLegacyActions | slurmweb/permission_rules.py:302-319 | the sorted actions with at least one of their rules allowed, each once; ValueError exactly when some given rule is invalid |
| PermissionRules.LegacyActionIff | slurmweb/permission_rules.py:302-319 | an action is derived if and only if a given rule covers one of its mapped rules |
| PermissionRules.DroppingCoveredRule | slurmweb/permission_rules.py:302-319 | dropping a covered rule changes neither a decision nor the derived legacy actions |
| AccessControl.LegacyActionsToRules | slurmweb/permission_rules.py:291-299 | the normalized, sorted rules of the actions, ValueError when one is invalid |
| AccessControl.SortedRulesAreNormal | slurmweb/permission_rules.py:226-227 | sorting leaves only normalized rules, so the merged legacy map holds nothing else |
| AccessControl.LegacyRulesAreActionRules | slurmweb/permission_rules.py:291-299 | under a normalized map the actions' rules are exactly the mapped ones |
| AccessControl.MigratedTwice | slurmweb/persistence/access_control_store.py:64-72 | rewriting a rewritten role changes nothing |
| AccessControl.StoredRulesIff | slurmweb/persistence/access_control_store.py:64-72 | a rewritten role stores its own rules and those of its admin-manage and view-ai actions, nothing else |
| AccessControl.MigrationKeepsRulesIff | slurmweb/persistence/access_control_store.py:29-35 | every possible role keeps its rules if and only if no removed action maps to a rule |
| AccessControl.SecondRunUpdatesNothing | slurmweb/persistence/access_control_store.py:74-115 | a second run of the startup rewrite updates zero rows |
| AccessControl.ChangedCounts | slurmweb/persistence/access_control_store.py:74-115 | the count is the number of roles the rewrite makes another |
| AccessControl.AccessControlStore.NormalizeLegacyRoleActions | slurmweb/persistence/access_control_store.py:74-115 | every stored role is rewritten and the rows that changed are counted, or a statement or the commit fails and all roles are as before |
| AccessControl.UserPermissions | slurmweb/persistence/access_control_store.py:286-319 | the names, actions and stored or derived rules of the roles held |
| AccessControl.CustomRulesByRole | slurmweb/access_control.py:74-95 | the merged rules of a user are the rules of each held role |
| AccessControl.MigrationKeepsDecisions | slurmweb/access_control.py:97-142 | with no removed action mapped, the rewrite leaves every user's rules as they were, and the answer about an action changes exactly when the action is a removed one held by a role alone |
| AccessControl.MigrationKeepsDecisionsIff | slurmweb/access_control.py:149-164 | the rewrite changes no permission answer of any possible user, errors included, if and only if no removed action maps to a rule |
| AccessControl.MigrationDropsOnlyRemovedActions | slurmweb/persistence/access_control_store.py:64-67 | the actions a user loses are exactly the removed ones |
| CachedReader.KeysDistinct | slurmweb/slurmrestd/__init__.py:1210-1285 | two reads share a Redis key only if they are the same read |
| CachedReader.OutdatedIffTouched | slurmweb/slurmrestd/__init__.py:1287-1383 | a write deletes the keys of exactly the reads that depend on what it changes |
| CachedReader.ReadIs | slurmweb/slurmrestd/__init__.py:1144-1161 | a cache fault is raised exactly when it hits an operation the read performs; a fetched value is kept unless get or put failed; one hit or miss is counted for a value returned, none for an error |
| CachedReader.CountersShared | slurmweb/slurmrestd/__init__.py:1210-1285 | two reads share a counter only when they are counted together; no counter is named "total" or "keys" |
| CachedReader.UndeletedIsServed | slurmweb/slurmrestd/__init__.py:1163-1167 | a read whose key a write did not delete can be answered with the value from before the write, which is neither the present answer nor an error |
| CachedReader.WriteKeepsAgreementIff | slurmweb/slurmrestd/__init__.py:1287-1383 | after a write that deleted its first keys only, the cache agrees with the backend whatever the write did if and only if none of the remaining keys is cached |
| CachedReader.RepliesStandOrDoubt | slurmweb/slurmrestd/__init__.py:1144-1167 | over any run, with Redis failing in reads and in writes' deletes and requests raising, every reply is the direct one, a cache error, or about a read that a write outdated without deleting its entry |
| CachedReader.CachedRefinesDirect | slurmweb/slurmrestd/__init__.py:1144-1167 | when every write deletes all its keys or changes nothing, every reply of any run equals the one with the cache disabled, save cache errors when Redis fails in a read |
| CachedReader.SlurmrestdFilteredCached.Cached | slurmweb/slurmrestd/__init__.py:1144-1161 | a hit returns the entry, a miss fetches, stores and returns, an error stores nothing, a cached None is fetched again |
| CachedReader.SlurmrestdFilteredCached.InvalidateCachedKeys | slurmweb/slurmrestd/__init__.py:1163-1167 | deletes the keys up to the one that fails, none when disabled |
| CachedReader.SlurmrestdFilteredCached.PerformWrite | slurmweb/slurmrestd/__init__.py:1287-1383 | a write that does not raise deletes its outdated keys up to the one at which Redis fails |
| JobFilters.ValuesOfJoined | slurmweb/slurmrestd/__init__.py:1169-1178 | the values of two texts joined by a comma are the values of both, blanks dropped |
| JobFilters.MatchesIff | slurmweb/slurmrestd/__init__.py:1180-1208 | a job matches if and only if it has what each criterion asks for: some non-blank item reads like the field, letter case aside, singular names before plural ones |
| JobFilters.LowerIs | slurmweb/slurmrestd/__init__.py:1177 | values and fields are compared in small letters |
| JobFilters.CommaIsUnion | slurmweb/slurmrestd/__init__.py:1180-1208 | a comma-joined criterion admits what either part admits, a blank part dropping out instead of admitting everything |
| JobFilters.FilteredIsExact | slurmweb/slurmrestd/__init__.py:1180-1208 | exactly the matching jobs are kept, as often as they come |
| JobFilters.FilteredInOrder | slurmweb/slurmrestd/__init__.py:1208 | filtering keeps the order of the jobs |
| JobFilters.FiltersCommute | slurmweb/slurmrestd/__init__.py:1180-1208 | two filters apply in either order, one applied twice is applied once |
| JobFilters.QueryThroughCache | slurmweb/slurmrestd/__init__.py:1210-1214 | through an agreeing cache a query returns the matching ones among the jobs listed now |
| CacheAges.RunInv | slurmweb/slurmrestd/__init__.py:1144-1161 | in every interleaving each entry, each fetched value and each returned value was the backend's answer when fetched |
| CacheAges.UninterruptedRead | slurmweb/slurmrestd/__init__.py:1144-1161 | a read nobody interrupts returns and stores what the cached reader does on the entries that have not run out |
| CacheAges.ReturnedValuesAreRecent | slurmweb/cache.py:39-67 | a returned value was the backend's answer no longer ago than the expiration plus its fetch-to-put delay |
| CacheAges.BoundIsReached | slurmweb/cache.py:39-67 | for every expiration and delay some run attains that age |
| CacheAges.LatePutOutlivesInvalidation | slurmweb/slurmrestd/__init__.py:1155-1167 | one run in which a put after a write's invalidation restores the old value (see InvalidationIff) |
| CacheAges.FreshIff | slurmweb/slurmrestd/__init__.py:1144-1161 | in a world that no longer changes every continuation returns present answers only, if and only if the entries that can be hit and the fetched values that can be put are present answers |
| CacheAges.InvalidationIff | slurmweb/slurmrestd/__init__.py:1144-1167 | in an up-to-date state whose keys for some reads have just been deleted, whatever these reads now answer, every value every continuation returns is a present answer if and only if no reader holds a value of them still to be put |
| CacheCounters.CountersBalance | slurmweb/cache.py:69-79 | in any interleaving of calls with any labels, total plus calls between second and third operation is the per-label sum plus two for each call labelled "total"; at rest total and sum agree if and only if there was none; every counter's label is in the key set |
| CacheCounters.CallIsItsSteps | slurmweb/cache.py:69-79 | uninterrupted and on any store, the steps of a call with any label, up to the first refused one, are the counted call |
| CacheCounters.LabelCollidesIff | slurmweb/cache.py:69-79 | a label's counter shares a key with a total or key set exactly for "total" and "keys" |
| CacheCounters.CallCountsOnceIff | slurmweb/cache.py:69-79 | a call succeeds and adds one to the total if and only if its label is neither "total", which adds two, nor "keys", which fails before the total is touched |
| CacheCounters.ListingFailsIff | slurmweb/cache.py:81-100 | reading the listed counters raises if and only if the label "keys" is listed |
| CacheCounters.CachingService.CountCall | slurmweb/cache.py:69-79 | the three operations in turn, ended by the first that Redis refuses on a key of the wrong type |
| CacheCounters.CachingService.ListCounters | slurmweb/cache.py:81-100 | raises exactly on a set where an integer is expected or the reverse, and otherwise reports exactly the listed labels that have a counter, with its value |
| CacheCounters.CachingService.Reset | slurmweb/cache.py:109-127 | leaves no counter and no key set, and both totals reading zero, whatever labels were counted |
| CacheCounters.CleanedIsFresh | slurmweb/cache.py:109-127 | what a reset leaves satisfies every invariant of a new store, with balanced counters |
| ChatLoop.RuntimeSetting | slurmweb/ai/service.py:239-245 | round and chunk limits are the configured value, raised to one, or the default when it is no number |
| ChatLoop.ChunksOfText | slurmweb/ai/service.py:534-537 | chunks join to the text and hold between one and chunk-size characters |
| ChatLoop.RoundIs | slurmweb/ai/service.py:576-679 | what one round shows the client and the planner, by what the provider replied and how the tool ended |
| ChatLoop.TranscriptIsWellFormed | slurmweb/ai/service.py:565-710 | every finished run is accepted by the reader: conversation, matched tool pairs, then non-empty content and complete, or error, then done |
| ChatLoop.ClosedStreams | slurmweb/ai/service.py:565-710 | an accepted stream has one done, at its end, and one complete or error, right before it |
| ChatLoop.TranscriptAccount | slurmweb/ai/service.py:575-708 | tool starts and provider calls stay within the rounds, complete appears if and only if the message was stored, the deltas join to it |
| ChatLoop.TranscriptEnds | slurmweb/ai/service.py:616-676 | the tool ends in a stream are the answered calls of the reached rounds, in order, each with whether it succeeded |
| ChatLoop.FirstFinalRoundAnswers | slurmweb/ai/service.py:576-679 | a run answers exactly with the first round that does not ask for another, and its last provider call is that round's |
| ChatLoop.FallbackIff | slurmweb/ai/service.py:575-686 | the fallback sentence is used if and only if every round asked for another or the provider answered a reached round with blank text; otherwise the stored message is the first final answer |
| ChatLoop.AIService.Generate | slurmweb/ai/service.py:565-710 | the generator's loop emits the transcript and stores the message at most once |
| ChatLoop.ChunkText | slurmweb/ai/service.py:534-537 | the range loop cuts the text into those chunks |
| Resources.GpusOfConcat | slurmweb/slurmrestd/__init__.py:951-963 | the GPU count of two gres texts joined by a comma is the sum, and fails if and only if one of them does |
| Resources.GpuItem | slurmweb/slurmrestd/__init__.py:951-963 | an item gpu:model:n with an index suffix counts n |
| Resources.ParseIntIs | slurmweb/slurmrestd/__init__.py:951-963 | a number reads as its digits, negative after a minus, white space around it aside |
| Resources.GroupedIff | slurmweb/slurmrestd/__init__.py:962 | the digits a number may have: an underscore only between two of them |
| Resources.ParsedIntIsNumber | slurmweb/slurmrestd/__init__.py:962 | nothing but signed or unsigned digits, white space around them aside, reads as a number |
| Resources.PlainItems | slurmweb/slurmrestd/__init__.py:951-963 | an item without a model counts its number, an empty one or another resource none |
| Resources.NodeGresExtractGpus | slurmweb/slurmrestd/__init__.py:951-963 | the loop returns the sum over the items, ValueError when one is no number |
| Resources.ResourcesStates | slurmweb/slurmrestd/__init__.py:679-786 | one pass over the selected nodes |
| Resources.KeptAre | slurmweb/slurmrestd/__init__.py:717-724 | a report on a partition is on the nodes that list it |
| Resources.ResourcesConserved | slurmweb/slurmrestd/__init__.py:717-786 | node and GPU buckets and idle plus allocated memory sum to their totals; cores do if and only if MIXED nodes report no surplus |
| Resources.BucketsCountNodes | slurmweb/slurmrestd/__init__.py:736-772 | each bucket counts the nodes whose first matching state is its own |
| Resources.BucketIs | slurmweb/slurmrestd/__init__.py:736-772 | the first state of ERROR, FAIL, MIXED, ALLOCATED, DOWN, DRAIN, IDLE that a node has decides its bucket |
| Resources.ReportAddsUp | slurmweb/slurmrestd/__init__.py:717-786 | every figure is the sum of what each node gives it: all cores and GPUs to its own bucket, those of MIXED nodes and the GPUs of ALLOCATED ones divided, memory clamped and in gigabytes |

## Left out

- Flask views, the gateway, HTTP clients, LDAP, JWT, settings loading and the command line: plumbing over libraries.
- SQL text, connection pools, partitions and schema migrations: tables are maps, each statement succeeds or fails as a whole.
- User ids are represented by the user names they stand for.
- Rows of a batch: the user id written into them by an attempt is resolved once more by the next; the step system applies the resolved row.
- The clock of the database is read once per flush, not once per statement.
- A failing connection at the start of a chunk: the batch has then already left the queue, and the queue properties do not cover it.
- The single-record flush of a detail view (`_maybe_enrich_record`).
- JSON columns are opaque text; conversion of raw detail fields, job step statistics and state strings happens before the model.
- JobsReconcile.CycleAccounts: assumes every write succeeds and that no answer confuses the record with another; the effect of such answers is CycleRecord, NoLiveJobClosed, NotFoundIsClosed and UntouchedIff.
- JobsStoreObject.JobsStore.Flush: nobody queues rows during it; interleaving is the step system's, of which every flush is a run (FlushIsARun).
- JobsStoreObject.JobsStore.SnapshotAndFlush: nobody queues rows during it either.
- JobsQueueFlush.FlushIsARun: a flush in which nobody queues rows and whose rows share one clock reading; the step system itself allows both.
- NodesetProofs.RoundTrip: covers word-character names that are not all digits and either hold no digit or end in one; names with a suffix after their digits and names of digits only are outside it.
- NodesetObjects.ConsecutiveNodes.Render: prints numbers exactly, where JavaScript shortens those above 2^54, uses an exponent from 10^21 on, and prints Infinity.
- Hotspots: the order of nodes within a metric is the dictionary's; times are whole milliseconds.
- RollupKept.ReportedMean: the weighted mean of daily medians carries no bound; it approximates no exact figure of the raw rows.
- Tool names are given; the classification rules and the user name kept beside a daily row are not modelled.
- Timeline: calendar fields are arithmetic on milliseconds with a fixed offset, without daylight saving changes inside a window.
- The current-day summary at a midnight change.
- Reads with arguments other than a job query, which bypass the cache.
- JobFilters.QueryThroughCache: compares with filtering the direct list, not with a query answered by slurmrestd itself; lower case covers ASCII letters.
- Permission administration, user caches and role editing.
- CacheCounters.CachingService.Reset: no counted call is under way during it.
- ChatLoop: serialization always succeeds, a parsed "type" is text, and a client that stops reading is not modelled.
- Resources.NodeGresExtractGpus: digits of other scripts, which Python accepts, are refused.
- Response adapters for older Slurm versions, PromQL, crawlers and documentation generators.
