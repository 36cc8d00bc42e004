# HTTP add-on: a verified model of its protocols

This project models the parts of the HTTP autoscaling add-on that hold state, protocol or
arithmetic, and proves what holds of them over every run and every input. Check it with
`dafny verify dfyconfig.toml`.

| file | what it models |
|---|---|
| `QueueProtocol.dfy`, `QueueHistory.dfy`, `QueueMemory.dfy` | the interceptor's pending-request counter with its cooldown: handlers, enforcer and clock as a step system; the in-memory queue whose methods take those steps |
| `QueueCounts.dfy`, `FanIn.dfy` | snapshots of counts and their totals; `fetchCounts` as a network of goroutines over unbuffered channels |
| `Scaler.dfy` | the pinger and the `IsActive` and `GetMetrics` handlers |
| `EndToEnd.dfy` | counters, fan-in, host list and handler put together |
| `WaitForReplicas.dfy` | the wait for ready replicas, against an informer that stores before it broadcasts |
| `HostStrings.dfy` | host lists in scaler metadata; the routing key made from a `Host` header and the caller's name |
| `RoutingTable.dfy`, `Propagation.dfy` | the routing table, its ConfigMap and the readers of it |
| `Finalizers.dfy`, `Reconciler.dfy`, `Operator.dfy` | the finalizer list and its in-place `remove`; reconciles under arbitrary API failures; the controller whose methods take those steps |
| `RoutingHistory.dfy`, `RouteOwnership.dfy` | what runs of reconciles mean for the operator's and the readers' tables; which routes an object leaves behind or takes from others |
| `Retry.dfy`, `Backoff.dfy` | the retry of connect errors; dialling with backoff and the estimate of its length |

A *run* is a sequence of states and of the steps between them, of any length and in any order the
guards allow. One step is one critical section of a lock, one channel operation, one call to the API
server or one read of the clock; only a reconcile is one step as a whole, because it reads its object
once and the readers see nothing of it but the one table it may publish
(`RoutingHistory.ReconcilePublishesOnce`). Where the code takes input from outside (API outcomes, backend
answers, clock readings, fetched counts, events), the model takes it as a parameter, and the theorems
hold for all of them. Counts and durations are mathematical integers.

Taken as given about code outside the repository: a routing table survives its JSON encoding
(`Propagation.RoundTrips`); a watch delivers the current object first and later versions in order,
repeating some of them in place, an informer stores a version before it broadcasts it; a read of the
API server gives the object as it is then; the reverse lookup is a function; a channel hands over
exactly once; `wait.Backoff.Step` returns at least the current duration, multiplies it and stops at
the cap; every HTTP request returns; reconciles run one at a time, and an update of an object that has
changed since it was read fails.

A run of the counter is called *exact* below if every commit finds the scanned counts still at one
(`QueueProtocol.CommitsStillOne`). That is when all its counts are right, and it holds of every *calm*
run, in which no request for a scanned host arrives between a scan and its commit.

## Where the code falls short of its promise

- The enforcer scans and commits in two critical sections. A request for a scanned host that arrives
  in between is zeroed while live, and its own decrement leaves minus one
  (`QueueHistory.RaceBreaksCount`); a later request then counts as zero and its app is reported
  inactive (`EndToEnd.RaceHidesTraffic`). The counts are exact in a whole run if and only if each commit
  finds the scanned counts still at one (`QueueProtocol.ExactIffCommitsStillOne`).
- Two overlapping finishes can both read two and leave no cooldown
  (`QueueHistory.OverlappingFinishesSkipCooldown`), and after the race above a request that is alone reads
  zero and leaves none either (`QueueHistory.RaceSkipsCooldown`). In every run a departing request leaves
  its host cooling down if and only if the host already was, or the cooldown is on and the count it read
  was one (`QueueHistory.LeavesCoolingIff`). In exact runs the count reads one if and only if the request
  is then alone on a host without entry (`QueueHistory.ExactLeavesCoolingIff`).
- `remove` is right for a list if and only if no two occurrences are neighbours and the list does not
  both end with the string and hold it before; in that last case it panics
  (`Finalizers.RemoveCharacterised`).
- Deletion unroutes what the `hosts` field lists at that time and nothing else
  (`RouteOwnership.ReleaseRoutes`). So an object leaves routes behind if and only if some host it has asked
  for is still routed and no longer listed (`RouteOwnership.ReleaseUnroutesIff`): the host of an object
  that uses the deprecated `host` field (`RouteOwnership.HostFieldLeaksRoute`), and every host that an
  edit has dropped from the list (`RouteOwnership.EditLeaksRoute`).
- Removal does not ask whose route it is. An object that lists a host of another one takes that route away
  in its deletion (`RouteOwnership.DeletionTakesSharedRoute`) and in the undo of its failed creation
  (`RouteOwnership.UndoTakesSharedRoute`); `Reconciler.RoutesAfterStep` says exactly when a route goes.
- `GetTable` reads the ConfigMap and replaces the table later, without a lock over both. A ping can put
  back a table that the watch loop has already replaced, and the interceptor then routes by it with no
  event left to correct it (`Propagation.FetchMakesStale`). A reader agrees with the ConfigMap whenever it
  has handled its events if and only if no fetch is installed at such a time after the ConfigMap has come
  to hold another table (`Propagation.InStepIffTimely`); the next event delivered repairs it
  (`Propagation.LastDeliveryMakesCurrent`).
- `MinTotalBackoffDuration` is called the minimum wait, but takes no notice of factor and cap. For a
  positive duration of whole milliseconds it is a lower bound at every number of steps from one on if and
  only if the factor is at least two and there is no cap (`Backoff.UnderestimatesAlwaysIff`); below two
  it fails at two steps (`Backoff.SlowGrowthFails`), with a cap after enough of them (`Backoff.CapFails`).
  Given both, it is a lower bound if and only if there is a step or less than a millisecond to wait
  (`Backoff.EstimateIsLowerBoundIff`), and at the factor of two the wait itself for one or two steps of
  whole milliseconds only (`Backoff.EstimateIsExactIff`).
- A failed fetch leaves goroutines behind for good; they all end if and only if no fetch fails
  (`FanIn.GoroutinesEndIff`; `FanIn.FailingRun` is a run).
- A ConfigMap without a data section makes a reconcile panic as soon as it writes into it, before its
  undo (`Operator.Controller.Reconcile`).
- The comment on `GetTable` (pkg/routing/config_map.go:64-67) promises to add hosts to the queue and to
  remove others; the body does neither, and the model follows the body.

## Model

| member | source | states |
|---|---|---|
| `QueueProtocol.CalmRunIsExact` | pkg/queue/queue.go:126-159 | every calm run is exact: each count is live requests plus one while cooling, none is negative, at most one finisher per host is about to postpone, and a commit zeroes only hosts with no live request |
| `QueueProtocol.ExactIffCommitsStillOne` | pkg/queue/queue.go:136-159 | in every run: all states are exact if and only if every commit finds each scanned count still at one |
| `QueueProtocol.CommitExactIff` | pkg/queue/queue.go:151-157 | one commit keeps exactness if and only if the scanned counts are still one, which is when no scanned host has a live request |
| `QueueProtocol.StepKeepsInv` | interceptor/middleware.go:109-135 | every step of a handler, the enforcer or the clock keeps the invariant, a commit under the above condition |
| `QueueProtocol.PostponesIffLast` | interceptor/middleware.go:123-128 | in exact runs, with the cooldown on: a finisher postpones if and only if it is the host's only live request and the host is not cooling |
| `QueueProtocol.ScanPicksIff` | pkg/queue/queue.go:139-149 | in exact runs: a scan picks a host if and only if its entry is overdue at the reading made for it and no request for it is live |
| `QueueHistory.CountIsConserved` | pkg/queue/queue.go:83-88 | in every interleaving without hypothesis: count = live requests + deadlines stored − counts overwritten by commits |
| `QueueHistory.DisabledCooldownCountsLive` | interceptor/middleware.go:123-134 | with the cooldown off nothing is ever postponed and every count is the number of live requests, in every interleaving |
| `QueueHistory.CooldownHolds` | pkg/queue/queue.go:126-157 | in exact runs: after a deadline is stored, every later state keeps it with a count of at least one, unless a commit cleared the host after a scan, its own, that came after the storing and read the clock past the deadline |
| `QueueHistory.HeldUntilDeadline` | interceptor/middleware.go:124-126 | in exact runs: as long as the clock has not passed the deadline, entry and count hold, whatever requests come and go |
| `QueueHistory.HeldForCooldown` | interceptor/middleware.go:124-127 | in exact runs: once stored, the hold lasts until the clock has passed the finisher's reading by more than the configured duration |
| `QueueHistory.RaceBreaksCount` | pkg/queue/queue.go:149-157 | a concrete run: a commit zeroes a host with a live request and its decrement gives minus one |
| `QueueHistory.LeavesCoolingIff` | interceptor/middleware.go:122-134 | in every run: a request that read the count at one step and leaves at a later one leaves its host cooling down if and only if the host already was, or the cooldown is on and the count it read was one |
| `QueueHistory.ExactLeavesCoolingIff` | interceptor/middleware.go:122-134 | in exact runs, with the cooldown on: that is if and only if the host already was, or the request was the only live one and the host had no entry when it read |
| `QueueHistory.RaceSkipsCooldown` | interceptor/middleware.go:122-134 | a concrete run beyond the race: a request alone on a host without entry reads zero and leaves no cooldown |
| `QueueHistory.OverlappingFinishesSkipCooldown` | interceptor/middleware.go:122-134 | a concrete calm run with the cooldown on that ends with no live request and no entry: both requests read while the other was live |
| `QueueMemory.Memory.Resize` | pkg/queue/queue.go:83-88 | the count of the host changes by delta, a missing host counting as zero; nothing else changes |
| `QueueMemory.Memory.Count` | pkg/queue/queue.go:116-124 | the count, zero for a missing host |
| `QueueMemory.Memory.Current` | pkg/queue/queue.go:108-114 | the map itself is handed out, not a copy, so its holder sees every later resize |
| `QueueMemory.Memory.PostponeResize` | pkg/queue/queue.go:126-130 | the deadline of the host is stored, counts untouched |
| `QueueMemory.Memory.ScanPostponed` | pkg/queue/queue.go:139-149 | collects exactly the hosts that are overdue with a count of one, in whatever order the map is visited |
| `QueueMemory.Memory.CommitResizes` | pkg/queue/queue.go:152-157 | zeroes exactly the given hosts and drops exactly their entries |
| `QueueMemory.OnArrive` | interceptor/middleware.go:120-122 | the handler's increment takes the queue from a state of the step system to its `Arrive` successor |
| `QueueMemory.OnFinishRead` | interceptor/middleware.go:123-124 | the deferred decision is the `FinishRead` step: postpone only if enabled and the count reads one |
| `QueueMemory.OnReadClock` | interceptor/middleware.go:126 | the deadline is the clock plus the cooldown, the `ReadClock` step |
| `QueueMemory.OnFinishPostpone` | interceptor/middleware.go:126-127 | storing the deadline is the `FinishPostpone` step |
| `QueueMemory.OnFinishDecrement` | interceptor/middleware.go:130-132 | the decrement is the `FinishDecrement` step |
| `QueueMemory.OnScan` | pkg/queue/queue.go:139-149 | the first critical section of the enforcer is the `Scan` step |
| `QueueMemory.OnCommit` | pkg/queue/queue.go:152-157 | the second one is the `Commit` step |
| `QueueCounts.Aggregate` | pkg/queue/queue_counts.go:29-35 | the sum of all counts, in whatever order they are visited |
| `QueueCounts.AddSnapshot` | scaler/queue_pinger.go:269-272 | adding one snapshot adds its counts host by host and keeps the running aggregate equal to the sum |
| `QueueCounts.AddUp` | scaler/queue_pinger.go:262-275 | totals per host are sums over the snapshots, their hosts the union, and the aggregate is the sum of the totals and of the snapshots' aggregates |
| `QueueCounts.TotalsSumUp` | scaler/queue_pinger.go:266-273 | summing per host first or per snapshot first gives the same aggregate |
| `QueueCounts.OrderOfArrivalIrrelevant` | scaler/queue_pinger.go:266-273 | the same snapshots in any order of arrival give the same totals and aggregate |
| `QueueCounts.TotalPositiveIff` | scaler/queue_pinger.go:266-273 | where no share is negative a total is positive if and only if some snapshot's share is |
| `FanIn.StepKeepsInv` | scaler/queue_pinger.go:208-260 | every step of the network keeps the invariant that ties fetchers, forwarders, closer and main together |
| `FanIn.NoSendAfterClose` | scaler/queue_pinger.go:242-255 | once the shared channel is closed every forwarder has delivered and exited, and main has got every answer as often as it was given |
| `FanIn.MainConsumesEachOnce` | scaler/queue_pinger.go:257-275 | main returns well if and only if no request failed; it has then consumed exactly the multiset of all endpoints' counts, so its totals are theirs |
| `FanIn.NeverDeadlocks` | scaler/queue_pinger.go:211-273 | in every reachable state in which main has not returned some step is enabled |
| `FanIn.StepLowersMeasure` | scaler/queue_pinger.go:211-273 | every step lowers the work that is left, by exactly one if no request fails |
| `FanIn.EveryScheduleEnds` | scaler/queue_pinger.go:187-276 | every schedule for n endpoints has at most 5n + 4 steps, one that cannot go on has main returned, and if no request fails main has returned if and only if exactly 5n + 4 steps were taken |
| `FanIn.FailedFetchLeaks` | scaler/queue_pinger.go:228-246 | after a failed request its forwarder stays blocked and the channel is never closed, in every later state |
| `FanIn.GoroutinesEndIff` | scaler/queue_pinger.go:228-260 | once main has returned, the channel is closed and every forwarder has exited if and only if no request failed; otherwise neither ever comes about |
| `FanIn.FailingRun` | scaler/queue_pinger.go:211-260 | a concrete run of one endpoint whose request fails: main returns the error, and forwarder and closer wait with no step left |
| `Scaler.GetHostCount` | scaler/hosts.go:15-27 | the lookup with fallback is a lookup in the merged counts |
| `Scaler.KnownIffReportedOrRouted` | scaler/hosts.go:20-26 | a host is known if and only if it is reported or routed; a reported one has its count, one only routed zero |
| `Scaler.MergeCountsWithRoutingTable` | scaler/queue_pinger.go:133-146 | the hosts that are reported or in the table and no others, each with its reported count, else zero |
| `Scaler.IsActive` | scaler/handlers.go:58-98 | with counts and table read anew for each host: true if `interceptor` is listed after known hosts only; otherwise an error if some host is unknown, else whether the summed counts are positive |
| `Scaler.GetMetrics` | scaler/handlers.go:178-220 | with counts, table and aggregate read anew for each host: an error if some host other than `interceptor` is unknown, else the sum along the list with the aggregate for an unknown `interceptor`, under the matching name |
| `Scaler.HandlersAgree` | scaler/handlers.go:69-97 | without `interceptor`, and given the same readings, both handlers answer exactly when all hosts are known, the metric is the sum of the merged counts, and active means metric above zero |
| `Scaler.MetricOfOne` | scaler/handlers.go:192-208 | the metric of a single host: its reported count, zero if it is only routed, the aggregate under the name `interceptor` for an unknown `interceptor`, else an error |
| `Scaler.MetricOfConcat` | scaler/handlers.go:190-210 | the metric of a list is made of those of its parts: an error if one is, else the values add up, under the name `interceptor` if one part has it |
| `Scaler.InterceptorDecides` | scaler/handlers.go:69-92 | the first `interceptor` of a list makes it active if every host before it is reported or routed, else the answer is an error |
| `Scaler.IdleAppIsKnown` | scaler/hosts.go:25-26 | an app whose hosts are all routed and none reported is not active and has the metric zero, no error |
| `Scaler.BusyIffSomeHostIs` | scaler/handlers.go:69-94 | with no negative count the sum is positive if and only if some listed host's count is |
| `Scaler.Pinger.constructor` | scaler/queue_pinger.go:50-72 | the first fetch is made at once; after a failed one both fields are empty |
| `Scaler.Pinger.FetchAndSaveCounts` | scaler/queue_pinger.go:156-176 | a failed fetch changes nothing; in every reachable state both fields come from the last successful fetch and the aggregate is the sum of the counts |
| `Scaler.Pinger.Start` | scaler/queue_pinger.go:89-122 | no event taken before the last is a cancellation or a failed tick, and if events are left the last one taken is; every event taken but a cancellation has made its fetch, in order, and both fields come from the last successful one |
| `Scaler.TakenIsFirstStop` | scaler/queue_pinger.go:91-121 | the loop ends at the first cancellation or failed tick, and goes on after a failed fetch for a fleet event |
| `EndToEnd.ActiveIffBusy` | scaler/handlers.go:58-98 | with exact counters and all listed hosts known, and each host read from a fetch of its own with any schedule of its fan-in: `IsActive` answers true if and only if `interceptor` is listed, or a listed host had a live request or was cooling on some interceptor when fetched |
| `EndToEnd.FleetTotals` | scaler/queue_pinger.go:262-275 | with exact counters no total is negative, and one is positive if and only if the host is live or cooling somewhere |
| `EndToEnd.RaceHidesTraffic` | pkg/queue/queue.go:149-157 | a concrete run after which one live request is reported as inactive |
| `WaitForReplicas.NoLostWakeup` | interceptor/forward_wait_func.go:25-71 | in every run, deletions that nobody announces included: parked with no event on its way means not ready in the store; ready in the store means a waking event is on its way |
| `WaitForReplicas.ReadyStoreWakesWaiter` | interceptor/forward_wait_func.go:50-60 | if from then on only the broadcaster and such a waiter move, in any order, they take at most as many steps as twice the pending events plus those in the channel, and when neither can move the waiter has returned, with no further change needed |
| `WaitForReplicas.DistributeKeepsInv` | pkg/k8s/deployment_cache_informer.go:53-98 | handing an event to a watcher through its filter loses no news about the watched deployment |
| `WaitForReplicas.ServedOnlyIfReady` | interceptor/forward_wait_func.go:46-60 | a return without error means the deployment was at some time stored with ready replicas, and a number other than zero is one that was stored |
| `WaitForReplicas.ColdStart` | interceptor/forward_wait_func.go:25-60 | a concrete run: the waiter parks at zero replicas and returns zero once the first is ready |
| `WaitForReplicas.Wait` | interceptor/forward_wait_func.go:35-70 | not found is an error, ready at once returns the number; otherwise the first ready event gives zero and the first done context an error, anything else is waited through |
| `WaitForReplicas.WaiterIsWait` | interceptor/forward_wait_func.go:35-70 | in every run, from its read of the store on, the waiter of the step system stands where that function stands: a missing deployment and a done context fail it, a ready one serves it |
| `HostStrings.Split` | scaler/hosts.go:37 | at least one piece, none holding the separator |
| `HostStrings.JoinOfSplit` | scaler/hosts.go:37 | joining the pieces gives back every string |
| `HostStrings.SplitOfJoinIff` | pkg/k8s/scaledobject.go:59 | splitting a join gives back the list if and only if it is non-empty and no element holds the separator |
| `HostStrings.HostListRoundTripIff` | pkg/k8s/scaledobject.go:57-60 | the metadata holds the scaler's address and the hosts; the scaler reads back the operator's host list if and only if it is non-empty and free of commas |
| `HostStrings.HostsNeedTheirField` | scaler/hosts.go:30-38 | there is a host list if and only if the metadata has the field, and it is the field cut at its commas |
| `HostStrings.GetHost` | interceptor/middleware.go:16-62 | there is no key if and only if an input is empty or the caller's namespace cannot be told |
| `HostStrings.KeyShape` | interceptor/middleware.go:49-61 | the key is a service and a non-empty namespace with one dot and no colon; for a `dp-` caller the namespace is the caller's |
| `HostStrings.KeyOfQualifiedHeader` | interceptor/middleware.go:65-80 | a header of two labels and anything after them gives the first with the second, or with the caller's namespace for a `dp-` caller or an empty second label |
| `HostStrings.KeyOfBareHeader` | interceptor/middleware.go:74-77 | a header of one label, with or without port, gives it with the caller's namespace |
| `HostStrings.NamespaceIsThirdLabel` | interceptor/middleware.go:83-100 | the parts of a caller's name are its first three labels |
| `HostStrings.ShortNameHasNoNamespace` | interceptor/middleware.go:93-99 | a caller's name of one or two labels gives no namespace |
| `HostStrings.CallerIsFirstName` | interceptor/middleware.go:21-44 | the caller is looked up by its address without the port, and the first name found decides its namespace |
| `HostStrings.KeyIsIdempotent` | interceptor/middleware.go:16-62 | the key as header gives the key again |
| `HostStrings.PortIsIgnored` | interceptor/middleware.go:30-33 | a port in the header never changes the key |
| `RoutingTable.KeyLookupIsExact` | pkg/routing/table.go:74-90 | for a key of the interceptor the lookup never falls back: it is an exact one |
| `RoutingTable.LookupPrefersPort` | pkg/routing/table.go:78-87 | a host with a port finds its own entry if there is one, also beside one without the port, else the entry without the last port; a host without a port finds its own or none |
| `RoutingTable.Table.Lookup` | pkg/routing/table.go:74-90 | the exact entry first, then the one without the last port, else none |
| `RoutingTable.Table.Hosts` | pkg/routing/table.go:32-40 | every host once, in whatever order |
| `RoutingTable.Table.HasHost` | pkg/routing/table.go:42-47 | whether the host has an entry of its own, without falling back |
| `RoutingTable.Table.AddTarget` | pkg/routing/table.go:96-111 | registers a free host and never overwrites |
| `RoutingTable.Table.RemoveTarget` | pkg/routing/table.go:115-124 | removes the host and says whether it was there |
| `RoutingTable.Table.Replace` | pkg/routing/table.go:131-135 | takes over the other table's map itself, so the two are one from then on |
| `RoutingTable.RoutedIffStanding` | pkg/routing/table.go:96-124 | after any history a host is routed if and only if some registration of it has not been removed since |
| `RoutingTable.TableIsFirstSinceRemoval` | pkg/routing/table.go:96-124 | after any history the target is that of the first registration since the last removal, and there is one if and only if the host is routed |
| `Propagation.SavedIsFetched` | pkg/routing/config_map.go:22-58 | saving sets the one key, which then decodes to the table, and leaves all others alone; without the key, or if it does not decode, nothing is fetched |
| `Propagation.WriteIsMove` | operator/controllers/http/routing_table.go:60-84 | every edit and every update of the ConfigMap, failed ones included, changes it only to hold the operator's table and queues an event for all who watch; readers may come between any two |
| `Propagation.InStepIffTimely` | pkg/routing/config_map.go:68-117 | in every run, with reading and replacing of a fetch as two steps: a reader agrees with the ConfigMap whenever it watches and has handled its events, throughout, if and only if no fetch is installed at such a moment that read a ConfigMap of another table |
| `Propagation.DrainedReaderIsCurrent` | pkg/routing/config_map_updater.go:49-81 | a reader that fetches only before it watches has the ConfigMap's table in every state in which it has no unhandled event, whatever versions and resyncs went before |
| `Propagation.LastDeliveryMakesCurrent` | pkg/routing/config_map_updater.go:53-66 | in every run, fetches or not, the delivery of the last queued event leaves the current ConfigMap's table |
| `Propagation.FetchMakesStale` | pkg/routing/table_rpc.go:43-50 | a concrete run for every codec: a ping reads, the operator publishes, the watch loop installs, the ping installs what it read; the reader watches, has no event left and lacks the routed host |
| `Propagation.ReaderTableWasPublished` | pkg/routing/config_map.go:36-58 | in every run a reader's table is empty, the first ConfigMap's, or one the operator has had |
| `Propagation.FollowEvents` | pkg/routing/config_map_updater.go:51-80 | the loop replaces the table from each ConfigMap in turn, passes over other objects and ends at one it cannot decode |
| `Propagation.FollowIsTurns` | pkg/routing/config_map_updater.go:53-66 | over any events the loop ends exactly where the reader's turns end, one for each ConfigMap, and a loop still running ends at the last ConfigMap's table |
| `Propagation.ReplaceFrom` | pkg/routing/config_map.go:36-58 | the table gets a map of its own with what the ConfigMap decodes to, and stays as it is if that fails |
| `Propagation.GetTable` | pkg/routing/config_map.go:68-117 | the table changes only if read and decoding succeed, and then to what was read |
| `Finalizers.RemoveCharacterised` | operator/controllers/http/finalizer.go:77-84 | `remove` panics if and only if the list ends with the string and holds it before; it returns the list minus the string if and only if it does not panic and no two occurrences are neighbours |
| `Finalizers.RemoveClearsIff` | operator/controllers/http/finalizer.go:77-84 | the list returned is free of the string if and only if no two occurrences were neighbours and it did not panic |
| `Finalizers.RemoveOfSingle` | operator/controllers/http/finalizer.go:77-84 | it is right whenever the string occurs at most once |
| `Finalizers.RemoveInPlace` | operator/controllers/http/finalizer.go:77-84 | the loop on the shared array, ranging over the original header, gives exactly that outcome and touches nothing past the header |
| `Finalizers.Contains` | operator/controllers/http/finalizer.go:66-73 | whether the string is in the list |
| `Finalizers.EnsureThenFinalize` | operator/controllers/http/finalizer.go:17-62 | ensuring keeps the finalizer at most once; finalizing then never panics and restores a list that lacked it |
| `Reconciler.DeletionIsSafe` | operator/controllers/http/httpscaledobject_controller.go:82-106 | over every run and every pattern of API failures: an object loses the finalizer, or vanishes, only through a reconcile of it under deletion that had unrouted every host of its `hosts` field in table and ConfigMap |
| `Reconciler.FinalizerGoesIff` | operator/controllers/http/finalizer.go:42-62 | for every finalizer list: the finalizer goes if and only if the object is being deleted, every call succeeds, and the list neither holds it twice side by side nor ends in a second one |
| `Reconciler.FinalizersAfter` | operator/controllers/http/finalizer.go:17-62 | what any reconcile stores: a live object gets the finalizer at the end of its list, one under deletion loses it and keeps all others, unless copies are side by side or the list ends in a second one; any failure leaves the list alone |
| `Reconciler.ReconcileSucceedsIff` | operator/controllers/http/httpscaledobject_controller.go:82-174 | which reconciles are a success, over the outcomes of the calls, the finalizer list and the two host fields |
| `Reconciler.SanitizedHosts` | operator/controllers/http/httpscaledobject_controller.go:185-206 | both host fields or neither are an error; else the hosts are the whole `hosts` list, or the one `host` |
| `Reconciler.BadSpecIsRejected` | operator/controllers/http/httpscaledobject_controller.go:115-117 | a reconcile of a live object with both fields or neither is an error and touches neither table nor ConfigMap |
| `RouteOwnership.ReleaseRoutes` | operator/controllers/http/app.go:83-90 | a step that takes the finalizer away leaves a host routed if and only if it was and is not in the object's `hosts` field, with the same target; the ConfigMap decodes to that table |
| `RouteOwnership.ReleaseUnroutesIff` | operator/controllers/http/app.go:83-90 | it leaves none of any given hosts routed if and only if each is listed then or was not routed |
| `RouteOwnership.HostFieldLeaksRoute` | operator/controllers/http/httpscaledobject_controller.go:185-206 | a concrete run for any object that uses `host`: create, reconcile, delete, reconcile, all calls succeeding: finalizer gone, host still routed and published |
| `RouteOwnership.EditLeaksRoute` | operator/controllers/http/httpscaledobject_controller.go:82-106 | a concrete run, all calls succeeding: an object lists a, is edited to list b, and is deleted; finalizer gone, a still routed and published |
| `RouteOwnership.DeletionTakesSharedRoute` | operator/controllers/http/routing_table.go:14-35 | a concrete run, all calls succeeding: deleting an object that lists the host of another live one removes that one's route, which stays as it was |
| `RouteOwnership.UndoTakesSharedRoute` | operator/controllers/http/httpscaledobject_controller.go:129-152 | a concrete run: the undo of a creation that failed at the ConfigMap removes the route of another live object |
| `Reconciler.SuccessRoutesAll` | operator/controllers/http/app.go:93-158 | a successful reconcile of a live object, which has exactly one host field set, routes every host of that field, in table and ConfigMap, to its own target where the host was free, and disturbs no other route |
| `Reconciler.FailedCreationUnroutesIff` | operator/controllers/http/httpscaledobject_controller.go:129-152 | after a failed creation the hosts are out of the table if and only if the undo got past deleting the ScaledObject or there was nothing to clear; if all its calls succeed, out of the ConfigMap too |
| `Reconciler.RoutesAfterStep` | operator/controllers/http/routing_table.go:14-58 | the table after any step, host by host: routed if and only if it was or is asked for and is not taken away by a deletion or an undo that lists it; old routes keep their target, new ones lead to the object's |
| `Reconciler.RemovalEffect` | operator/controllers/http/app.go:18-91 | a removal clears its hosts from the table unless deleting the ScaledObject fails, and publishes only if all calls succeed |
| `RoutingHistory.TableIsRunHistory` | operator/controllers/http/routing_table.go:14-58 | in every run of reconciles the table is what the registrations and removals of those reconciles, in order, make of the empty one |
| `RoutingHistory.RouteIsFirstSinceRemoval` | pkg/routing/table.go:96-124 | so in every run a host is routed if and only if a reconcile registered it and none has removed it since, and to the target of the first such registration |
| `RoutingHistory.ReconcilePublishesOnce` | operator/controllers/http/httpscaledobject_controller.go:129-152 | a reconcile changes the ConfigMap at most once, to the table it ends with, undone creations included, and readers hear of just that |
| `RoutingHistory.PublishedTableIsHistory` | operator/controllers/http/routing_table.go:60-84 | after a reconcile that publishes, the ConfigMap decodes to the table of the run's history; any other step leaves it alone |
| `RoutingHistory.RoutingSideRuns` | operator/controllers/http/routing_table.go:14-84 | state by state, the routing side of every run of reconciles is a run of the propagation system |
| `RoutingHistory.ReaderTableIsHistory` | pkg/routing/config_map_updater.go:49-81 | in every run of reconciles a reader's table is empty, the first ConfigMap's, or what the history had made of the table by some step |
| `RoutingHistory.DrainedReaderRoutesHistory` | pkg/routing/config_map_updater.go:49-81 | from objects to readers: a watching reader with no unhandled event and no outdated fetch routes exactly by the history up to the last reconcile that published |
| `Operator.SanitizeHosts` | operator/controllers/http/httpscaledobject_controller.go:185-206 | an error if both fields are set or neither, else the whole `hosts` list or the one `host` |
| `Operator.Controller.UpdateRoutingMap` | operator/controllers/http/routing_table.go:60-84 | the ConfigMap's table key is written if both calls succeed, else nothing; a ConfigMap without data panics once read |
| `Operator.Controller.RemoveAndUpdateRoutingTable` | operator/controllers/http/routing_table.go:14-35 | all hosts leave the table even if unknown, then the ConfigMap is updated, or the update panics |
| `Operator.Controller.AddAndUpdateRoutingTable` | operator/controllers/http/routing_table.go:37-58 | free hosts get the target and registered ones keep theirs, then the ConfigMap is updated, or the update panics |
| `Operator.Controller.RemoveApplicationResources` | operator/controllers/http/app.go:18-91 | exactly the removal's writes; success if and only if all calls succeed, a panic if and only if it gets to a ConfigMap without data |
| `Operator.Controller.CreateOrUpdateApplicationResources` | operator/controllers/http/app.go:93-158 | exactly the creation's writes; success if and only if all calls succeed, a panic if and only if it gets to a ConfigMap without data |
| `Operator.Controller.EnsureFinalizer` | operator/controllers/http/finalizer.go:17-40 | the finalizer is appended if missing and the update succeeds |
| `Operator.Controller.FinalizeScaledObject` | operator/controllers/http/finalizer.go:42-62 | the list after the in-place `remove` is stored if that did not panic and the update succeeds |
| `Operator.Controller.Reconcile` | operator/controllers/http/httpscaledobject_controller.go:60-174 | table, ConfigMap and objects go exactly to the next world of the reconciler's runs, for every outcome of every call, panics of `remove` included; only if it gets to a ConfigMap without data it panics there, leaving the finalizer it ensured |
| `Operator.PanicsIff` | operator/controllers/http/finalizer.go:42-62 | with data in the ConfigMap a reconcile panics if and only if it is a deletion whose calls succeed and whose finalizer list ends in a second copy |
| `Retry.RetryOutcome` | interceptor/request_forwarder.go:66-96 | at most `maxRetries` round trips, k(k+1) seconds of sleep over k of them; the result is the first round trip that settles the request, else the last response after all retries |
| `Retry.HTTPResponse.Buffer` | interceptor/request_forwarder.go:81-87 | reading the body uses it up, and a fresh body with the same bytes takes its place |
| `Retry.Retried` | interceptor/request_forwarder.go:66-96 | on responses whose bodies can be read once: exactly that outcome, and the response returned has every byte of its body still to be read |
| `Retry.ModifyInPlace` | interceptor/request_forwarder.go:42-62 | the hook leaves the client exactly that response, body unread, or an error |
| `Retry.ConnectErrorReachesClientIff` | interceptor/request_forwarder.go:42-62 | the client sees the connect error if and only if the backend began with it, its body could be read, and no retry settled the request |
| `Retry.WhatIsRetried` | interceptor/request_forwarder.go:80-92 | exactly a 503 whose body begins with the proxy's words is retried; any other answer, or a 503 that cannot be read, settles the request |
| `Retry.OtherResponsesAreLeftAlone` | interceptor/request_forwarder.go:42-61 | any status but 503 reaches the client as it is, as does a readable 503 without those words; an unreadable 503 is an error |
| `Retry.ConnectErrorIsRetried` | interceptor/request_forwarder.go:53-58 | a readable connect error ends as the first round trip below the limit that settles it says, else as the last response there was |
| `Retry.LastResponseIsLatest` | interceptor/request_forwarder.go:74-91 | that is the latest response a round trip brought |
| `Retry.LastResponseIsFirst` | interceptor/request_forwarder.go:74-91 | or the one before the retries if none did |
| `Backoff.MinTotalBackoffDuration` | pkg/net/backoff.go:11-19 | the whole milliseconds D of the duration times n(n+1)/2 for n steps, and D itself if there is no step |
| `Backoff.DurationsDouble` | pkg/net/dial_context.go:46-47 | at any factor from two on, cut to whole nanoseconds, the n-th duration is at least 2^n times the first, and exactly that at factor two |
| `Backoff.ClosedForms` | pkg/net/backoff.go:15-18 | the estimate is D n(n+1)/2 and the wait at factor two D(2^n − 1) |
| `Backoff.UnderestimatesAlwaysIff` | pkg/net/backoff.go:9-19 | for every factor and cap: the estimate of a positive duration of whole milliseconds is a lower bound at every number of steps from one on if and only if the factor is at least two and there is no cap |
| `Backoff.SlowGrowthFails` | pkg/net/backoff.go:11-19 | below the factor of two it is no lower bound at two steps |
| `Backoff.CapFails` | pkg/net/backoff.go:11-19 | with a cap it is none at twice as many steps as the larger of duration and cap has nanoseconds |
| `Backoff.EstimateIsLowerBoundIff` | pkg/net/backoff.go:9-19 | at any real factor from two on and without cap the estimate is a lower bound of the wait if and only if there is a step, or less than a millisecond |
| `Backoff.EstimateIsExactIff` | pkg/net/backoff.go:9-19 | in nanoseconds, at any real factor from two on and without cap: it is the wait itself if and only if the duration is whole milliseconds and there is one step, or two of which the second is twice the first, as always at factor two, or both are nothing |
| `Backoff.Dialer.Dial` | pkg/net/dial_context.go:29-60 | at most `steps` dials; the n-th sleep is the n-th of the captured schedule, for any factor and cap, plus jitter; the first connection or cancelled sleep ends it, else the last error is returned, none if there is no step |
| `Backoff.ExhaustedDialOutlastsEstimate` | pkg/net/dial_context.go:42-58 | a dial that fails after all its steps has slept at least the estimate |

## Left out

- Backoff.EstimateIsLowerBoundIff: takes a factor from two on and no cap, as all of the repository's schedules have; for other schedules only `Backoff.UnderestimatesAlwaysIff` decides, over all numbers of steps together.
- Backoff.EstimateIsExactIff: likewise.
- Machine overflow of counts and durations.
- The request that a retry sends again, whose body the first round trip has used up: the backend may answer it in any way.
- Unlocked reading of a map that `Current` or `Replace` has shared while another goroutine writes to it.
- A restart of the operator, which begins again with an empty table.
- `Ensure` and `Remove` of the queue, which have no caller in production.
- `GetMetricSpec`, `StreamIsActive`, `EndpointsForService`, `ServiceURL` and the choice of the target port: they would only add easy members.
- ScaledObjects themselves: they are created under the object's name and deleted under the deployment's, so deletion is no inverse of creation.
- Status conditions, logging, servers, configuration, generated code and the clients of the API server.
