# A verified model of the panel's coordination logic

The panel runs as several cooperating processes (API workers, a scheduler, node workers) that share a
database and a NATS server. This project models the parts of it whose correctness depends on whole runs
or on all inputs, and proves what those parts are for:

- **Scheduler lease** - `KeyValue`, `LeaseProtocol`, `SchedulerLock`, `RenewalTiming`, `TimedLease`. A key/value
  record with compare-and-swap writes keeps a scheduled job from running in two processes. The protocol is a
  state machine in which reading the clock, reading the key, sending a write, the write taking effect and its
  answer are separate steps, operations may time out or crash, and their writes may arrive late. `TimedLease`
  runs it together with the renewal timer and the timeouts of every worker.
- **Rate limiter** - `FixedWindow`, `MemoryLimiter`, `LimiterRuns`, `CasLimiter`. One counter per key and window,
  kept in a bounded in-memory dictionary or in a shared record written by a retry loop.
- **Node user synchronisation** - `TagLists`, `UserTables`, `BulkUsers`, `IncrementalSync`, `UserChunks`. The
  bulk query with its outer joins and NULLs, the object-walking incremental updates, and the splitting of
  updates into commands of limited size.
- **Core configurations** - `SyntheticTags`, `Fallbacks`, `XrayConfig`, `OrderedDicts`, `CoreIndex`,
  `Replication`. The expansion of inbounds behind fallbacks into synthetic tags, the tag index derived from
  all cores, and the replication of cores between workers.
- **Usage accounting** - `UsageTotals`, `Sums`, `Upserts`, `UsageRecording`, `NodeUsage`. The threaded
  aggregation, the batched upserts, and the balance between the tables the two usage jobs charge.
- **Whole-run machines and a file format** - `Failover`, `PulseHealth`, `Webhooks`, `WebhookJob`, `EnvStore`.

`dafny verify dfyconfig.toml` checks everything.

## How the model is laid out

Code that updates objects in place is modelled by classes whose methods are proved against functions on
values (`SchedulerLockManager`, `InMemoryRateLimitBackend`, `NatsRateLimitBackend`, `XRayConfig`,
`CoreManager`, `UsageDb`, `NodeUsageDb`, `Pulse`, `WebhookQueue`); loops stay loops. What several processes do
to one another is modelled by explicit state machines, and the main results are about every run of them.
Clock readings, the database's answers, HTTP results, the healer's verdict and the certificate handlers
enter as parameters; `int(value * coefficient)` is an arbitrary non-negative function of node and value;
a serialized user is known by its compact JSON text. Dictionaries whose order matters are lists of
items, so results are compared down to their order.

## What the model shows about the code

Where the code does less than its documentation or its apparent intent, the model follows the code, gives an
input on which it falls short, and says exactly when it does not:

- Leases exclude each other if and only if no two processes share an owner id, since renew and release compare
  the owner and not the revision they were granted (`LeaseProtocol.ExclusionIffDistinctOwners`).
- A job is told of a lost lease in time if and only if the renewal interval and *two* operation timeouts fit
  into the lease; the settings validator asks for one (`RenewalTiming.LossIsSignalledInTime`,
  `RenewalTiming.ValidatorIsNotEnough`).
- No two of several processes ever run the job at once, along every run and with nothing assumed about their
  leases, if and only if both hold: owner ids are distinct and two timeouts fit (`TimedLease.JobsExcludeIff`).
- The two limiter back ends agree on every sequence of requests if and only if the limit is positive
  (`FixedWindow.BackendsAgree`); the settings ask for at least 1 (config.py:125-132), so only a policy built
  elsewhere can be otherwise. A span as long as the window holds at most `2 * limit - 1` admissions, and that
  bound is reached. The in-memory table keeps it for every key while it has room for all running windows
  (`LimiterRuns.TableSlidingBound`).
- A quota with a negative limit is closed for the bulk query and unlimited for the incremental update; nothing
  else tells the two views apart (`IncrementalSync.OnlyNegativeLimitsDisagree`). The API refuses negative limits
  (app/models/user.py:34), so such a row has to come from elsewhere. The single-user check takes admin id 0 for no
  admin; the batch check does not.
- Groups loaded without their quotas count as open. The updates of a served user with loaded groups are right,
  whatever inbounds the groups have, if and only if the quota of each of its enabled groups that a quota has closed is
  loaded (`IncrementalSync.UnloadedQuotasReopenGroups`); `IncrementalSync.ReopenedByNoload` is a user for whom an
  update carries a closed group's tag.
- Workers that converge on the same cores may still disagree on an inbound when two cores have the same tag
  with different settings, and only then (`Replication.OrderShowsIffConflict`,
  `Replication.ConcurrentCoresCanConflict`).
- A settings file reads back as written if and only if every value is free of line breaks and, when it is
  written bare, does not begin or end with white space or begin and end with a single quote
  (`EnvStore.FileRoundTrips`). Behind a quoted value a comment makes the quotes part of the value, and a comment
  that ends in the quote the value begins with becomes part of it too (`EnvStore.CommentedValueReads`).

## Model

| member | source | states |
|---|---|---|
| LeaseProtocol.LeaseIsBacked | app/scheduler_lock.py:85-148 | in every interleaving of acquire, renew and release steps with timeouts, crashes and late writes, a local lease that has not run out is backed by a stored record of its owner that runs out no earlier |
| LeaseProtocol.MutualExclusion | app/scheduler_lock.py:85-148 | two jobs never run under unexpired leases at the same time when owners are distinct |
| LeaseProtocol.ExclusionIffDistinctOwners | app/scheduler_lock.py:117-148 | exclusion holds along every run exactly when no two workers share an owner id |
| LeaseProtocol.SharedOwnerRun | app/scheduler_lock.py:117-134 | the run in which a stalled worker renews the record its namesake took over |
| LeaseProtocol.RunKeepsInv | app/scheduler_lock.py:85-148 | the invariant behind these: every write on the wire is justified by the record it can still replace |
| SchedulerLock.SchedulerLockManager.Acquire | app/scheduler_lock.py:85-115 | a grant is one atomic take-over of an absent or run-out record timed by a reading made during the call; a refusal wrote nothing and was either shown by the key a record unexpired at a clock reading made before it, or lost eight races; an undecodable record was shown by the key |
| SchedulerLock.SchedulerLockManager.Renew | app/scheduler_lock.py:117-134 | success is one atomic extension of the owner's own unexpired record and updates the local lease to what was stored; failure changes neither, and with no other write meanwhile it means the record was not the owner's or had run out |
| SchedulerLock.SchedulerLockManager.Release | app/scheduler_lock.py:136-148 | deletes at most one record, and only one this owner stored; with no other write meanwhile it deletes exactly when this owner stores it |
| RenewalTiming.LossIsSignalledInTime | app/scheduler_lock.py:150-213 | on every run the lease is unexpired while the job runs with `lost` unset, exactly when interval plus two timeouts is below the lease |
| RenewalTiming.SlowRun | app/scheduler_lock.py:150-169 | whenever they do not fit, a run in which the job outlives its lease |
| RenewalTiming.ValidatorIsNotEnough | config.py:143-150 | settings within the validator's ranges and accepted by it under which that happens |
| RenewalTiming.RenewUntilDone | app/scheduler_lock.py:150-169 | a loss is reported exactly when the first round that is no renewal succeeding in time is a renewal; when the loop stops and until when it held its lease are what the rounds add up to and what some run of the machine has, strictly before that lease runs out |
| TimedLease.JobsExclude | app/scheduler_lock.py:85-213 | with distinct owners and room for two timeouts no two jobs run at once on any timed run of all workers, with no assumption on their leases |
| TimedLease.JobsExcludeIff | app/scheduler_lock.py:85-213 | for two or more workers, no two jobs ever run at once exactly when owners are distinct and two timeouts fit |
| TimedLease.RunningIsLive | app/scheduler_lock.py:150-213 | a job that runs untold of a loss holds a lease that has not run out |
| TimedLease.SlowHolder | app/scheduler_lock.py:150-169 | whenever two timeouts do not fit, a run in which a hanging renewal leaves two workers running |
| TimedLease.LateRelease | app/scheduler_lock.py:136-148 | whenever two workers share an owner id, a run in which the stalled release of one frees the lease of the other and both run |
| FixedWindow.BackendsAgree | app/rate_limit.py:66-80 | the in-memory and the shared back end answer every request sequence alike exactly when the limit is positive |
| FixedWindow.ChargesWithinLimit | app/rate_limit.py:133-167 | the stored count is the number of admissions charged to the stored window, and no window is charged more than the limit |
| FixedWindow.WindowsAdvance | app/rate_limit.py:133-167 | along any run the reset time strictly grows at each reset and the count grows between resets |
| FixedWindow.SlidingBound | app/rate_limit.py:66-80 | no half-open interval of one window length holds 2 * limit admissions |
| FixedWindow.SlidingBoundIsTight | app/rate_limit.py:66-80 | for every limit and window a run that reaches 2 * limit - 1 |
| FixedWindow.RetryAfterIsExact | app/rate_limit.py:66-80 | a refused client is admitted k whole seconds later exactly when k is at least the announced delay |
| MemoryLimiter.InMemoryRateLimitBackend.Check | app/rate_limit.py:66-80 | the answer is the key's own fixed-window step, other keys change only through cleanup, and the table stays within its size |
| MemoryLimiter.InMemoryRateLimitBackend.Cleanup | app/rate_limit.py:82-92 | at most max_keys entries stay unchanged, run-out ones go first, and a live one goes only if room is needed and before every one that stays |
| MemoryLimiter.SortIsStable | app/rate_limit.py:89-92 | eviction order is by reset time, ties in dictionary order |
| LimiterRuns.KeysAreIndependent | app/rate_limit.py:66-92 | over any run of checks with many keys, a key is answered as if it were alone as long as none of its running windows was dropped |
| LimiterRuns.DropNeedsFullTable | app/rate_limit.py:82-92 | a running window is dropped only when more windows are running than the table may hold |
| LimiterRuns.EarliestIsDropped | app/rate_limit.py:82-92 | over any run, a running window that is dropped ends before every window that stays, or together with it and was inserted earlier |
| LimiterRuns.TableSlidingBound | app/rate_limit.py:66-92 | while there is room for all running windows, no key is admitted 2 * limit times within one window's length, whatever the others do |
| CasLimiter.CallsLinearize | app/rate_limit.py:133-167 | every concurrent run linearises to an atomic counter: each answered call has exactly one effect, its own answer, while it ran; failed calls have none |
| CasLimiter.ChargesMatchStoredCount | app/rate_limit.py:133-167 | in every concurrent run the stored count is the number of charges to the stored window and no window exceeds the limit |
| CasLimiter.ContentionMeansEightWrites | app/rate_limit.py:133-167 | the contention error means at least eight admissions by other calls during the call |
| CasLimiter.SoloCallAnswers | app/rate_limit.py:133-167 | wherever a run has come to, a call that nothing interferes with can be answered as the atomic counter answers, and leaves what that leaves |
| CasLimiter.NatsRateLimitBackend.Check | app/rate_limit.py:133-167 | the retry loop: an admission is one atomic charge of the value it replaced, a refusal is that step's answer on a counter the key showed during the call, and only admissions write |
| UserChunks.ChunkSerializedUsers | app/node/sync.py:18-47 | the chunks concatenate to the input, each is a single user or a rendered command within batch size and byte limit, which is never below 1024, and no such split has fewer chunks |
| UserChunks.GreedyIsOptimal | app/node/sync.py:18-47 | a greedy split is never longer than any other allowed split |
| TagLists.SplitUndoesJoin | app/node/user.py:229-230 | splitting the concatenated tags gives the list back exactly when no tag contains a comma |
| BulkUsers.AggregatedMeans | app/node/user.py:232-282 | the joined, filtered and grouped rows aggregate exactly the tags of the user's open groups that the filter lets through, for active and on-hold users whose admin does not block |
| BulkUsers.QuotaClauseMeans | app/node/user.py:265-272 | the three-valued quota clause on a row, read off the quota table |
| BulkUsers.AdminClauseMeans | app/node/user.py:273-280 | the three-valued admin clause on a row holds exactly when the user is not blocked, missing admins and roles included |
| BulkUsers.CoreUsers | app/node/user.py:286-301 | the append loop over the query's rows |
| BulkUsers.BulkListsExactly | app/node/user.py:217-301 | for comma-free tags `core_users` lists every user with tags other than the empty one, once, with exactly those tags |
| IncrementalSync.GroupIsQuotaLimited | app/db/models.py:916-923 | true exactly when a loaded quota closes the group |
| IncrementalSync.InboundsFromLoadedGroups | app/node/user.py:36-57 | the tags of the open groups, or nothing exactly when groups or the inbounds of an open group are not loaded |
| IncrementalSync.QueryInboundsMeans | app/db/models.py:311-337 | the inner-join query with NOT IN gives exactly the tags of the open groups |
| IncrementalSync.Inbounds | app/db/models.py:311-350 | query when attached, loaded attributes otherwise |
| IncrementalSync.SerializeUser | app/node/user.py:60-78 | which tags an update carries, by status and by what is loaded |
| IncrementalSync.SerializedTagsMean | app/node/user.py:36-78 | an update of an up-to-date object carries exactly the tags of the open groups of an active or on-hold user and none for any other |
| IncrementalSync.UserSyncBlockedMeans | app/node/sync.py:67-88 | the single-user check blocks exactly the users the query leaves out, except those of admin 0 |
| IncrementalSync.BlockedAdminIdsMean | app/node/sync.py:91-125 | the batch check blocks exactly the admins the query leaves out |
| IncrementalSync.NotSentIffBlocked | app/node/sync.py:91-125 | of up-to-date users the batch check keeps back exactly those the tables block |
| IncrementalSync.SyncUsers | app/node/sync.py:169-174 | sent are, in order, exactly the users without an admin or whose admin is not found blocked, each with its tags; of up-to-date objects, exactly those the tables do not block |
| IncrementalSync.BulkEqualsIncremental | app/node/user.py:217-301 | the bulk view lists a user with a tag set exactly when the user's update is not suppressed and its tags cut by the filter are that set |
| IncrementalSync.BulkEqualsBatch | app/node/sync.py:91-174 | the same for batch updates, admin 0 included |
| IncrementalSync.OnlyNegativeLimitsDisagree | app/db/models.py:911-923 | the views agree for all inbounds and filters exactly when no enabled group of the user has a reached negative limit |
| IncrementalSync.UnloadedQuotasReopenGroups | app/db/models.py:916-923 | for a served user with loaded groups, updates carry the right tags for all links and inbounds exactly when the quota of every enabled closed group of the user is loaded |
| IncrementalSync.OpenGroupsLoaded | app/db/models.py:916-923 | the loaded groups that count as open are the open groups exactly under that condition |
| IncrementalSync.ReopenedByNoload | app/db/models.py:916-923 | an object with groups and an empty list of quotas whose update carries the tag of a closed group |
| SyntheticTags.SyntheticIsUnambiguous | app/core/xray.py:470-484 | a synthetic tag determines child and parent and is never a validated tag |
| SyntheticTags.MarkedMeans | app/core/xray.py:113-114 | a tag is refused as marked exactly when it contains the separator |
| Fallbacks.FindFallbackInboundMeans | app/core/xray.py:119-128 | the parents found are those with a fallback whose dest is the inbound's listen or port, or 0 when it has none |
| Fallbacks.FallbacksAreParents | app/core/xray.py:154-176 | an inbound is expanded for all its matching parents, unless it has fallbacks of its own |
| Fallbacks.ReadAdds | app/core/xray.py:422-503 | reading one inbound adds its own tag and its synthetic tags that are not excluded, and nothing else |
| Fallbacks.ResolveIsExact | app/core/xray.py:416-521 | after a successful resolve the registered tags are exactly the supported real ones and the synthetic ones that are not excluded, each once, list and index alike, each entry describing its inbound |
| Fallbacks.EntriesAreDetermined | app/core/xray.py:470-521 | with unique tags an inbound's own entry has its protocol, port and security, and its synthetic entry has its protocol behind the parent's port and security |
| Fallbacks.ReadAllAppends | app/core/xray.py:416-503 | the list of tags is in the order of the inbounds, each behind its synthetic tags |
| Fallbacks.LoadsExactly | app/core/xray.py:416-503 | exactly the configurations load whose every inbound to be read has valid settings, a port, a socket or a parent, a security its protocol accepts, and parents with a port and such a security |
| Fallbacks.ErrorHasCause | app/core/xray.py:416-503 | every error has its cause in some inbound that is to be read |
| XrayConfig.XRayConfig.CollectFallbackInbounds | app/core/xray.py:82-98 | the parents are the first inbounds of the chosen tags and of those that define fallbacks |
| XrayConfig.XRayConfig.Validate | app/core/xray.py:100-117 | raises nothing exactly for configurations with inbounds, outbounds and allowed tags, and otherwise what is wrong first |
| XrayConfig.XRayConfig.HandlePortSettings | app/core/xray.py:154-176 | the fallbacks to expand, or the missing port |
| XrayConfig.XRayConfig.ReadInbound | app/core/xray.py:422-503 | the recursive method terminates and does to list and index what the specification says, errors included |
| XrayConfig.XRayConfig.Load | app/core/xray.py:75-80 | nothing is raised exactly for valid configurations whose every inbound is acceptable; then exactly the expected tags are registered, none with a comma, in order and, when unique, with the right port and security; an error has its cause in some inbound |
| OrderedDicts.PutKeepsOrder | app/core/manager.py:268-287 | a new core goes last and an updated one keeps its place |
| CoreIndex.MergeFindsProvider | app/core/manager.py:256-263 | the merged index finds a tag in the last core that has it, and misses it exactly when no core has it |
| CoreIndex.RemovalExposes | app/core/manager.py:304-313 | removing a core keeps every tag of the others and shows the inbounds it had shadowed |
| CoreIndex.IndexAgreesAtRest | app/core/manager.py:256-313 | under any interleaving of tasks, whenever none is between its two lock sections the index agrees with the cores and lists every tag once |
| CoreIndex.EndedTaskChangesNothing | app/core/manager.py:268-284 | a broken update and a removal of a missing core change nothing and leave no rebuild pending |
| CoreIndex.CoreManager.UpdateInbounds | app/core/manager.py:256-266 | rebuilds the index as the insertion-order merge |
| CoreIndex.CoreManager.StoreCore | app/core/manager.py:268-287 | the first lock section of an update |
| CoreIndex.CoreManager.DropCore | app/core/manager.py:304-310 | the first lock section of a removal |
| Replication.ReplicasConverge | app/core/manager.py:160-198 | once every change is published and handled, every worker holds the cores the log alone prescribes, whatever the interleaving |
| Replication.StepKeepsInStep | app/core/manager.py:268-322 | a worker differs from the replay on a core only while a change of its own to that core is on its way back |
| Replication.IndexesConverge | app/core/manager.py:256-322 | then the indexes agree too, unless cores conflict on a tag |
| Replication.OrderShowsIffConflict | app/core/manager.py:256-263 | insertion order shows in the index exactly when two cores have different inbounds under one tag |
| Replication.ConcurrentCoresCanConflict | app/core/manager.py:292-299 | a run of two workers that ends with equal cores and different indexes |
| UsageTotals.AddAllOfAddAll | app/jobs/record_usages.py:85-94 | adding up partial totals gives what adding the raw values gives, in the same order |
| UsageTotals.ProcessNodeChunk | app/jobs/record_usages.py:71-82 | the per-node aggregation |
| UsageTotals.MergeUsageDicts | app/jobs/record_usages.py:85-94 | the merge of partial results |
| UsageTotals.CalculateUsersUsage | app/jobs/record_usages.py:607-670 | sequential, threaded and tree-merged computation give the same list of totals in the same order, for any number of nodes |
| Upserts.UpsertsCompose | app/jobs/record_usages.py:116-225 | two upserts in a row equal one upsert of all rows, repeated keys included |
| Upserts.BatchesCompose | app/jobs/record_usages.py:431-446 | rows cut into batches of any size leave the table one upsert leaves |
| Upserts.SqliteUpsert | app/jobs/record_usages.py:228-304 | SQLite's two statements equal the one-statement upsert, and stopping between them changes no total |
| UsageRecording.UsageDb.CalculateAdminUsage | app/jobs/record_usages.py:581-604 | totals per admin of the users that exist and have one |
| UsageRecording.UsageDb.RecordUserStatsBatched | app/jobs/record_usages.py:396-446 | whatever the dialect's batch size, the table ends as after one upsert of all rows |
| UsageRecording.ChargesBalance | app/jobs/record_usages.py:714-749 | each admin's increment is the sum of the increments of its users, and admin 0 gains nothing |
| UsageRecording.RowsOfValidNodesBalance | app/jobs/record_usages.py:757-767 | each user's increment is the sum added to its per-node rows |
| UsageRecording.UpsertedRowsCharged | app/jobs/record_usages.py:396-446 | after the upsert each (user, node) row of the bucket has gained exactly the scaled statistics that node reported of that user |
| UsageRecording.UsageDb.RecordUserUsages | app/jobs/record_usages.py:673-767 | every user gains what all nodes report of it, every row of the bucket what its node reports of its user and no other row anything, and users, admins and rows balance |
| NodeUsage.UpsertTableTotal | app/jobs/record_usages.py:228-304 | an upsert moves the table's total by the upserted value, whether the row was there or not |
| NodeUsage.KnownNodesBalance | app/jobs/record_usages.py:840-876 | the system gains what its nodes gain together |
| NodeUsage.NodeUsageDb.RecordNodeStatsBatched | app/jobs/record_usages.py:449-491 | exactly the rows of the bucket gain their nodes' totals, uplink from the reported `up` and downlink from `down` |
| NodeUsage.NodeUsageDb.RecordNodeUsages | app/jobs/record_usages.py:814-886 | system, nodes and rows are each charged the reported `up` on the uplink and the reported `down` on the downlink, and balance |
| Failover.CannotFlap | app/jobs/hpx_pulse_health.py:60-192 | transitions of a primary alternate, a failback at least five minutes after the failover, a failover at least three after the failback |
| Failover.PassesActWhenDue | app/jobs/hpx_pulse_health.py:60-236 | over any run a pass makes exactly the transition it is due: a failover on an unhealthy looked-at pulse in service with auto-failover and another, enabled backup, a failback on one failed over with auto-failback, fresh agents and a status outside error and stopped, each once its cooldown is over |
| Failover.EveryTransitionWasDue | app/jobs/hpx_pulse_health.py:60-192 | every failover and failback of a run comes from a pass that called for it |
| Failover.TransitionsPerSpan | app/jobs/hpx_pulse_health.py:60-192 | a span of time holds at most two transitions per whole eight minutes and one more, or two if three minutes are left over |
| Failover.BoundIsTight | app/jobs/hpx_pulse_health.py:60-192 | for every length of span a run from a pulse that never failed over that has that many |
| PulseHealth.AttemptFailover | app/jobs/hpx_pulse_health.py:60-127 | fails over exactly with auto-failover, a backup id, no failover active, three minutes since the last transition and another, enabled backup; then sets the failover fields, and the backup's failover fields stay |
| PulseHealth.AttemptFailback | app/jobs/hpx_pulse_health.py:130-192 | fails back exactly with auto-failback, fresh agents, a backup id, a failover active for five minutes and a status outside error and stopped; then sets the failover fields |
| PulseHealth.CheckPulse | app/jobs/hpx_pulse_health.py:206-236 | the branch for one pulse is one pass of the failover machine |
| PulseHealth.HealthJob | app/jobs/hpx_pulse_health.py:195-238 | in a round exactly the first 500 pulses that are not skipped, or are woken by an earlier failover, make one pass each, with the settings, status, findings and backup they have then, and no other makes any; every pulse's fields are where its passes put them |
| PulseHealth.PulseCannotFlap | app/jobs/hpx_pulse_health.py:195-238 | over any number of rounds the transitions of each pulse object alternate and respect the bound |
| Webhooks.RunPartitions | app/jobs/send_notifications.py:51-119 | every drained item is in exactly one of delivered, requeued and dropped |
| Webhooks.EveryNotificationIsAccountedFor | app/jobs/send_notifications.py:51-119 | over any number of enqueues and runs every notification is queued, delivered or dropped as often as it was enqueued |
| Webhooks.AttemptsAreBounded | app/jobs/send_notifications.py:51-119 | none is sent more often than `recurrent` says and none is dropped before it was |
| Webhooks.RunFates | app/jobs/send_notifications.py:67-112 | each drained notification waits unchanged if not due, is dropped if expired, and otherwise is sent in its batch of fifty and delivered, requeued for the time of the failure plus the timeout, or dropped with its last try |
| Webhooks.RetriesWait | app/jobs/send_notifications.py:92-119 | over any number of runs a notification sent in vain is due the timeout after a failed attempt |
| WebhookJob.Drain | app/jobs/send_notifications.py:67-90 | the drain loop sorts the queue into ready, not yet due and expired |
| WebhookJob.SendBatches | app/jobs/send_notifications.py:92-112 | the batch loop marks and keeps exactly what no webhook accepted and may be tried again |
| WebhookJob.SendNotifications | app/jobs/send_notifications.py:51-119 | the queue is left with exactly what the run requeues |
| EnvStore.UnescapeEscape | copilot_env_store.py:34-52 | the reader's two replaces undo the writer's two for every string |
| EnvStore.ValueRoundTrips | copilot_env_store.py:34-52 | a value reads back exactly when it survives its quoting rule |
| EnvStore.MatchFormatted | copilot_env_store.py:17-40 | a formatted line is matched as its key and its raw value |
| EnvStore.WrittenLine | copilot_env_store.py:34-40 | a value is quoted exactly when it holds a blank, a hash, a double quote or a backslash, and then escaped character by character |
| EnvStore.MatchesExactly | copilot_env_store.py:17 | the lines matched are exactly those made of optional blanks, an optional hash, a key, an equals sign and a raw value |
| EnvStore.CommentedValueReads | copilot_env_store.py:43-52 | a bare value with a comment behind it reads as the value exactly when the comment does not end in the quote the value begins with |
| EnvStore.HandWrittenLine | copilot_env_store.py:55-65 | such a line sets its key to the value before the comment, commented out or not |
| EnvStore.LineEnds | copilot_env_store.py:59 | a line is read whole, whichever break ends it, CR LF included |
| EnvStore.FileRoundTrips | copilot_env_store.py:34-80 | a written file reads back as the merged settings cut to the known keys exactly when all their values are free of line breaks and survive |
| EnvStore.ReadEnvFile | copilot_env_store.py:55-65 | the reading loop |
| EnvStore.WriteEnvFile | copilot_env_store.py:68-80 | existing values overridden by new ones, cut to the known keys |

## Left out

- One shared clock: processes whose clocks differ are not modelled; with a skew larger than what is left of a lease, exclusion fails on real hosts.
- `_key` (app/scheduler_lock.py:78-80) may map two job ids to one key; the model has one key, so such jobs would only exclude each other more.
- A synchronous job runs in a thread (app/scheduler_lock.py:196, 215-218) and goes on after its cancellation; the model ends a job as soon as it is told of a loss.
- Without NATS a lease never runs out and nothing is stored; only the NATS branch is modelled.
- Keys of the bucket are modelled one at a time and a revision is the number of writes to the key; the server's global sequence numbers grow in the same order.
- LimiterRuns.TableSlidingBound: for a table with room for all running windows, as a key whose running window is evicted starts a new one.
- The entry time-to-live of the limiter's bucket, which may purge a counter whose window is long over.
- A serialized user is its compact JSON text, escaped to ASCII so that characters are bytes; the JSON encoder is not modelled.
- MySQL's `group_concat_max_len`, which would cut a long list of tags.
- The contents of a serialized user (credentials, limits, protocols) and the transport of node commands.
- A user status that is not loaded is awaited by the code; the model has it loaded.
- The shadowsocks and vless checks are one flag of the inbound, and the certificate, Reality and network handlers one arbitrary verdict per tag; files they read and the flags they strip from certificates are not modelled.
- A configuration whose keys have the wrong JSON type, and booleans or fractions as ports, are not modelled.
- `to_json` and `from_json` of a configuration, which copy fields.
- Validated cores are never empty dictionaries, so the truth test in `_remove_core_local` is a test for presence.
- `aiocache` results, the KV snapshots of the core state and reloads from them, lost or failed publishes, and core id 0, whose removal message reloads instead.
- `HostManager` replication, which publishes before it applies.
- UsageRecording.UsageDb.RecordUserUsages: every statement succeeds; deadlock retries, dropped statements, quota recording and the enforcement of admin limits after the job are not modelled.
- NodeUsage.NodeUsageDb.RecordNodeStatsBatched: the rows of different nodes are written one after the other, where the job writes them concurrently; they are different rows.
- Integer widths of the usage columns, and the parsing of the statistics a node sends.
- The healer, agent commands and messages of a pulse; a database that rounds the stored time.
- A malformed queue item, for which the code requeues the notification drained before it; only `enqueue_webhook` writes the queue.
- Webhooks.EveryNotificationIsAccountedFor: for runs that are not cancelled; one cancelled between drain and send loses the ready items, since only `failed_to_requeue` goes back (app/jobs/send_notifications.py:93-119).
- Notifications enqueued while a run is sending, which the model places before or after the run.
- Directories, permissions and encoding errors of the file.
- Telegram and Discord senders, SSH, Docker, HTTP routes, settings models and the dashboard: plumbing or single-branch code.
