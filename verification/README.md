# Verified model of the Bosch/Buderus heating integration

This project models the parts of the integration that stand between an unreliable cloud and the entities of
Home Assistant, and proves what they promise. The cloud is an adversary: wherever the program awaits a reply, the
model takes an arbitrary value, so every theorem holds for every sequence of successes, failures, rate limits, lost
replies and foreign changes. Only the methods that stand for the cloud extend the ghost logs of requests with
their replies, so what a contract says of such a log was really sent and received. Sections under the coordinator's
lock are single steps. Where a contract says `P(x) == true` it means `P(x)`; `Common.dfy` says what this is good for.

`dafny verify dfyconfig.toml` checks everything.

| file | what it models |
|---|---|
| `Discovery.dfy`, `DiscoveryDepths.dfy` | the bounded discovery of the resource tree: three queues, depth relaxation, shared path budget; how deep a path really is |
| `Polling.dfy`, `Snapshots.dfy` | the polling cycle: due groups, pauses, chunks, deferred work, backoff, circuit breaker; published snapshots |
| `SetpointRecovery.dfy` | the background series that recovers a missing manual setpoint, in every interleaving |
| `Faults.dfy` | the fault lifecycle: evidence, absences, events, storage |
| `StartupData.dfy`, `StartupReader.dfy`, `StartupSession.dfy` | supplementary reads: retries, path budget, batches, the recovery slot shared by gateways |
| `HolidayTimes.dfy`, `HolidayWrites.dfy` | calendar times as the gateway writes them; create, update and delete with read-back |
| `IcomHolidays.dfy` | multi-leaf transactions on older gateways |
| `SwitchPrograms.dfy`, `RrcPrograms.dfy` | weekly schedules, and editing one of them |
| `EnumTranslation.dfy` | display keys for wire codes |
| `Common.dfy` | optional values, sequences without repetition, a stable sort |

The style is the same throughout. Objects that the program updates are classes; their methods are proved against
functions on values (for example `Faults.Processed` or `Discovery.ExpandTrail`), and the promises are lemmas about
these functions and about whole histories: `Discovery.Scheduling` and `Discovery.Requesting`, `Polling.IsRun`,
`SetpointRecovery.Sound`, `Faults.Run`, `StartupData.Legal`, `StartupSession.SlotInvariant`,
`HolidayWrites.Justified` and `IcomHolidays.GoodWrites` say what every step keeps. Where a method and its
contract share a decision or a small function, a lemma, usually named `...Exactly`, says in other terms what that one does.

## Where code and documentation disagree

The model follows the code.

- `enum_value_to_pointt` is documented to restore the exact PointT spelling. It does so exactly under the condition of
  `EnumTranslation.RoundTripExactly`; the shipped table of system types does not meet it.
- `writable_enum_options` is documented to keep aliases from swallowing codes. A translation that itself carries the
  escape prefix defeats it (`EnumTranslation.PrefixedTranslationLoses`); the exact condition is
  `EnumTranslation.LosslessExactly`. No shipped table has such a translation.
- The stored fault baseline does not follow everything it contains: a time of occurrence learned by a later sighting of
  an active fault orders no write, so a restart may forget it (`Faults.KnownTimeIsForgotten`; the exact condition is
  `Faults.KnownTimeSurvivesExactly`).
- A restart is documented neither to repeat events nor to forget a source (docs/faults.md:115-119), except after an abrupt
  end of the process (docs/faults.md:88-91). A restart while a write is pending may report a fault as new again
  (`Faults.AppearsTwice`), restore an older incident (`Faults.FirstSightingIsLost`) and forget a source
  (`Faults.SourceIsForgotten`). Runs without such a restart keep the promise (`Faults.EventsReplay`,
  `Faults.IncidentKeepsTimes`, `Faults.RequiredForGood`). For any restart the exact conditions are
  `Faults.IncidentSurvivesExactly`, `Faults.FirstSightingSurvivesExactly` and `Faults.SourceSurvivesExactly`.
- Reference depth is documented to be limited with roots at depth zero (docs/request-behavior.md:78). A path that was
  already requested is not expanded again at a smaller depth, so a path may be given up although the shortest chain to it
  is within the limit (`DiscoveryDepths.GivesUpTooEarly`; the exact condition is `DiscoveryDepths.GivenUpExactly`).

## Model

| member | source | states |
|---|---|---|
| `Discovery.Discovery.Run` | custom_components/bosch_buderus_heating/discovery.py:457-657 | A whole run, whatever the cloud answers: it ends; it rejects bad bounds and only those; it never requests more than the maximum of paths nor overdraws the shared budget; the resources it keeps are exactly the usable results of the requests it sent; `completed` means that every root, every reference below the initially allowed roots of every discovered resource, every zone of the zone list, every fixed catalog child and everything else ever scheduled was requested, except the licence path and paths handed to start-up recovery; a run ends by the resource limit only while paths wait, and with the maximum of paths requested or the shared budget spent; it raises exactly the error of its last exchange, and no earlier one failed |
| `Discovery.CompleteIsClosed` | custom_components/bosch_buderus_heating/discovery.py:563-657 | The closure theorem behind `completed`, from the invariants that every step keeps |
| `Discovery.QueuedAtBest` | custom_components/bosch_buderus_heating/discovery.py:487-525 | A queued path is in one queue only, neither requested nor depth-limited; it waits in the queue of the best source ever reported for it, at the least depth ever scheduled, and both were really reported |
| `Discovery.AdvertisedFirst` | custom_components/bosch_buderus_heating/discovery.py:569-571 | While a path advertised by the gateway waits, only such paths are requested; while one of the catalog waits, no optional one is: told from the reports alone |
| `Discovery.PutKeepsOrder` | custom_components/bosch_buderus_heating/discovery.py:519-525 | A path joins its queue at the end, and keeps its place when it is reported again |
| `Discovery.WithoutKeepsOrder` | custom_components/bosch_buderus_heating/discovery.py:521-584 | What stays in a queue keeps its order when others leave |
| `Discovery.CatalogExactly` | custom_components/bosch_buderus_heating/discovery.py:527-546 | Which catalog children a site has: the fixed ones, below a zone also its program fields and, once, the program roots, elsewhere the program fields once programs are enabled |
| `Discovery.ProbesExactly` | custom_components/bosch_buderus_heating/discovery.py:547-556 | Every optional child is probed, except that a known water softener is only asked for its model and firmware below `/system` |
| `Discovery.RootsExactly` | custom_components/bosch_buderus_heating/discovery.py:457-485 | From where a run starts, and below which roots references are followed |
| `Common.UnderExactly` | custom_components/bosch_buderus_heating/discovery.py:739-740 | A path is below a root exactly if it is the root or follows it after a slash |
| `Discovery.SoftenerExactly` | custom_components/bosch_buderus_heating/discovery.py:642-646 | A gateway counts as water softener from the start or by the model that it reports |
| `Discovery.RepliesMean` | custom_components/bosch_buderus_heating/discovery.py:585-711 | Which items break off a run, which single replies do, and what is read once more: an envelope that cannot be used makes every item recoverable |
| `Discovery.ReportedIsKept` | custom_components/bosch_buderus_heating/discovery.py:494-525 | No scheduled path is lost: it is requested, queued, depth-limited or exempt; a depth-limited path was only ever reported beyond the bound |
| `Discovery.BestIsLeast` | custom_components/bosch_buderus_heating/discovery.py:120-126 | Best source and least depth, over the log of all reports, are lower bounds that some report attains |
| `Discovery.TooDeepInPlace` | custom_components/bosch_buderus_heating/discovery.py:509-518 | A report beyond the depth bound keeps the worklist invariant when the path is put aside |
| `Discovery.MovedInPlace` | custom_components/bosch_buderus_heating/discovery.py:519-525 | Relaxing the depth and moving a path to the queue of its best source keeps the worklist invariant |
| `Discovery.StaysInPlace` | custom_components/bosch_buderus_heating/discovery.py:495-508 | Reports of exempt or already requested paths leave the queues right as they are |
| `Discovery.Discovery.Schedule` | custom_components/bosch_buderus_heating/discovery.py:494-525 | One report keeps the invariant and extends the log by exactly this report; the licence path is noticed exactly when reported, and during recovery exactly the reported start-up paths are handed over |
| `Discovery.Discovery.Enqueue` | custom_components/bosch_buderus_heating/discovery.py:509-525 | `depth_limit_reached` holds exactly when a path is depth-limited |
| `Discovery.Discovery.ScheduleChildren` | custom_components/bosch_buderus_heating/discovery.py:527-556 | The children of a site are reported exactly once, in order: program roots, zone fields, catalog, then optional probes; a zone enables the program resources |
| `Discovery.Discovery.Follow` | custom_components/bosch_buderus_heating/discovery.py:638-653 | Exactly the allowed references are reported, each followed by its curated children; allowing changes on the way when a zone is met |
| `Discovery.Discovery.FollowLists` | custom_components/bosch_buderus_heating/discovery.py:629-641 | The identifier list of a zone list, or of any resource once programs are enabled, is followed |
| `Discovery.Discovery.NoticeSoftener` | custom_components/bosch_buderus_heating/discovery.py:642-646 | Model evidence adds the softener circuit once |
| `Discovery.Discovery.Expand` | custom_components/bosch_buderus_heating/discovery.py:616-653 | A discovered resource is kept, and reports exactly the trail of calls it leads to |
| `Discovery.ExpandFollows` | custom_components/bosch_buderus_heating/discovery.py:629-653 | That trail reports every allowed reference, every entry of the zone list and every fixed catalog child, one level below the resource |
| `Discovery.Discovery.ExpandAll` | custom_components/bosch_buderus_heating/discovery.py:616-653 | Every resource of a reply is kept under its path and expanded; earlier ones are untouched |
| `Discovery.Discovery.Admit` | custom_components/bosch_buderus_heating/discovery.py:572-579 | Only what the shared budget admits is requested; an empty result means that the budget is spent |
| `Discovery.Discovery.NextFrontier` | custom_components/bosch_buderus_heating/discovery.py:564-580 | A frontier is the head of its queue, as long as the bulk size and the remaining capacity allow; during recovery, what the budget admits of that |
| `Discovery.Discovery.Take` | custom_components/bosch_buderus_heating/discovery.py:581-584 | A frontier leaves its queue, counts as processed, and keeps all invariants |
| `Discovery.Discovery.Ask` | custom_components/bosch_buderus_heating/discovery.py:563-586 | The next request is the head of the first queue that is not empty: as many paths, in order, as a bulk request, the remaining capacity and the shared budget admit; nothing else is requested with it |
| `Discovery.TakeKeeps` | custom_components/bosch_buderus_heating/discovery.py:581-584 | Taking a frontier keeps the worklist and the record of requests |
| `Discovery.Discovery.Fetch` | custom_components/bosch_buderus_heating/discovery.py:585-615 | Any reply: a failed request or one rate-limited item ends the run; an unusable envelope is recovered path by path; the results are exactly what the logged exchanges returned, and an error is that of the last exchange |
| `Discovery.Discovery.Recover` | custom_components/bosch_buderus_heating/discovery.py:660-711 | Usable items are kept, and every recoverable one is read again exactly once, in order, and has what that read returned; authentication and transport errors end the run |
| `Discovery.Discovery.RecoverOne` | custom_components/bosch_buderus_heating/discovery.py:667-711 | One item: an individual read exactly if it is recoverable, and a fatal answer, and no other, is the error |
| `Discovery.Discovery.Deliver` | custom_components/bosch_buderus_heating/discovery.py:585-653 | The results of a request are kept and expanded, and nothing else is; a request that ends the run leaves what was found before |
| `Discovery.KeepsExactly` | custom_components/bosch_buderus_heating/discovery.py:616-626 | Of the results of a request, those that are missing leave what was found as it was, and each other one is kept under its path |
| `Discovery.Discovery.RecoveredEach` | custom_components/bosch_buderus_heating/discovery.py:667-711 | A kept resource comes from the bulk item or from the individual read, never from elsewhere |
| `Discovery.Discovery.Exhaust` | custom_components/bosch_buderus_heating/discovery.py:563-656 | The loop of a run: it ends when nothing waits, by the resource limit only when no further path may be requested, or by the error of the last exchange |
| `Discovery.Discovery.Advance` | custom_components/bosch_buderus_heating/discovery.py:563-653 | One turn requests from the first queue that is not empty and enlarges the processed set, also when the budget admits only part of a frontier: the termination measure of the loop; what is found stays exactly what the requests returned |
| `Discovery.NoPathTwice` | custom_components/bosch_buderus_heating/discovery.py:566-586 | No path enters two bulk requests |
| `Discovery.DerivesFromRoot` | custom_components/bosch_buderus_heating/discovery.py:494-653 | Every report derives, by a chain of reference, catalog or optional edges, one level at a time, from a root, or from the site `/swCircuits/sw1` of a gateway known to be a water softener |
| `Discovery.RequestedDerives` | custom_components/bosch_buderus_heating/discovery.py:515-586 | Every requested path derives so at its recorded depth, and no step of the chain exceeds the maximum depth |
| `DiscoveryDepths.TooDeepExactly` | custom_components/bosch_buderus_heating/discovery.py:507-525 | A depth-limited path really is too deep, on every chain of reported children, if and only if no stale call leads to it within the bound: a call that leaves a child deeper than one below the least depth of its parent |
| `DiscoveryDepths.GivenUpExactly` | custom_components/bosch_buderus_heating/discovery.py:507-525 | A depth-limited path lies within the bound on some chain if and only if a path on the way was passed over: it was requested at the depth recorded for it and reported at a smaller one afterwards, where the branch for requested paths skips it, and the rest of the chain is within the bound from there; a parent that gave no resource, or a child that not every expansion reports, counts by its stale call |
| `DiscoveryDepths.StaleIsLate` | custom_components/bosch_buderus_heating/discovery.py:507-508 | A call below a discovered resource can only be stale because the resource was requested before it was reported at a smaller depth |
| `DiscoveryDepths.DepthsAreLeastExactly` | custom_components/bosch_buderus_heating/discovery.py:507-525 | The least depth reported for a path is the length of the shortest chain to it, for all paths, if and only if no call is stale |
| `DiscoveryDepths.GivesUpTooEarly` | custom_components/bosch_buderus_heating/discovery.py:507-525 | A concrete run that ends with a path given up as too deep, although a chain within the bound leads to it: a path before it on the way was requested at depth three, and a catalog child reports it at depth two afterwards |
| `Polling.NeverStarves` | custom_components/bosch_buderus_heating/coordinator.py:953-1173 | Over any run of cycles, refusals, refresh requests and targeted reads: a path at position i of the deferred list is in a request that is sent within floor(i / 30) + 1 executed cycles, however earlier batches fail, while it stays in a polled group |
| `Polling.CycleMovesForward` | custom_components/bosch_buderus_heating/coordinator.py:988-1115 | An executed cycle requests a waiting path or moves it forward by at least one chunk, and keeps its group due and the path unpaused |
| `Polling.DeferredWaits` | custom_components/bosch_buderus_heating/coordinator.py:1111-1172 | Whatever a cycle leaves unread is waiting for the next one: in a due group, not paused, at its position |
| `Polling.DeferredMovesForward` | custom_components/bosch_buderus_heating/coordinator.py:988-998 | Resuming deferred work first never moves a path backwards |
| `Polling.WaitingIsRead` | custom_components/bosch_buderus_heating/coordinator.py:963-998 | A waiting path is among the paths of the next cycle, no later than its position |
| `Polling.Coordinator.Poll` | custom_components/bosch_buderus_heating/coordinator.py:953-1173 | One cycle is a step of such runs: the bulk requests in its log are the consecutive chunks of at most 30 of the due, unpaused paths, deferred ones first; the snapshots it publishes, whether it is usable, which groups are advanced and by how much, and whether a failed main cycle is reported are decided by the logged replies; it is refused exactly during backoff or an open circuit, ends in reauthentication exactly when a reply says so, goes on after each chunk exactly when its replies allow it, and leaves the backoff that the replies ask for |
| `Polling.LastWordIsPublished` | custom_components/bosch_buderus_heating/coordinator.py:1506-1600 | Told from the logged replies: if the last reply about a path read a value, the published snapshot has exactly this value, is fresh and available, and has the time of the poll; if it was a failure, the snapshot is stale and has the category of this very failure and the time of the poll; paths held back for the next cycle are marked so |
| `Polling.ReadIsKept` | custom_components/bosch_buderus_heating/coordinator.py:1518-1570 | A value read in a poll outlives the failures that follow it in the same poll, with its time and origin |
| `Polling.UnreadIsRemembered` | custom_components/bosch_buderus_heating/coordinator.py:1111-1170 | Where no reply gave a value, resource and time of the last success are as before; where none said anything, the whole snapshot is, unless the path was held back, which changes its availability and category only |
| `Polling.PathsDueExactly` | custom_components/bosch_buderus_heating/coordinator.py:963-998 | A cycle reads exactly the paths of its due groups that are not paused, each once, and those left over from earlier cycles first |
| `Polling.ConcludedAs` | custom_components/bosch_buderus_heating/coordinator.py:1085-1173 | How a cycle ends, in terms of its replies and of what it published: usable, which groups are done, and whether the main cycle failed |
| `Polling.BackoffExactly` | custom_components/bosch_buderus_heating/coordinator.py:1669-1683 | The backoff is what the server asks for, within a minute and an hour, and five minutes where it asks for nothing; the circuit breaker is untouched |
| `Polling.Coordinator.ReadDue` | custom_components/bosch_buderus_heating/coordinator.py:1004-1173 | A cycle with work: at least the first chunk is requested, unread paths are deferred, groups with unread paths are not advanced; the snapshots follow from the logged replies |
| `Polling.Coordinator.ReadAll` | custom_components/bosch_buderus_heating/coordinator.py:1011-1109 | Chunks are requested in order, and the attempts are what the replies say; the cycle ends before the last chunk exactly after replies that end it, every early end counts as a failed chunk, and the last chunk decides the backoff |
| `Polling.ChunkedIsFlat` | custom_components/bosch_buderus_heating/coordinator.py:1008-1013 | The requests of a cycle, one after the other, are the paths it attempted |
| `Polling.Coordinator.ReadChunk` | custom_components/bosch_buderus_heating/coordinator.py:1011-1109 | What each kind of bulk reply leads to: one bulk request and the individual reads after it, which ones and in what order, which attempts they record, exactly when the cycle goes on, ends early or is aborted, what becomes of the backoff, whether the gateway is suspected, and which paths count as interrupted |
| `Polling.Coordinator.UseFailure` | custom_components/bosch_buderus_heating/coordinator.py:1056-1082 | A chunk that failed as a whole: all its paths failed and are interrupted, the gateway is suspected, and the cycle goes on exactly if essential paths were then answered, none of them with a rate limit and not all of them with a server error |
| `Polling.Coordinator.UseItems` | custom_components/bosch_buderus_heating/coordinator.py:1075-1109 | A chunk with items: they are all recorded, recoverable ones may be read again, and a rate limit ends the cycle |
| `Polling.Coordinator.AfterRead` | custom_components/bosch_buderus_heating/coordinator.py:1094-1109 | Exactly when the results of a chunk end the cycle |
| `Polling.ResultsMean` | custom_components/bosch_buderus_heating/coordinator.py:1075-1109 | What the results of a request say as a whole: that some of them has a status, and that the gateway failed for every path |
| `Polling.FallbackMeans` | custom_components/bosch_buderus_heating/coordinator.py:1065-1109 | When individual reads after a failed request leave nothing to go on with: nothing was answered, a path is rate-limited, or the gateway failed for every path |
| `Polling.ChunkNext` | custom_components/bosch_buderus_heating/coordinator.py:1011-1109 | Over the log of a cycle: the chunks before the last did not end it, and it ends early exactly where the last one does |
| `Polling.Coordinator.ItemFallback` | custom_components/bosch_buderus_heating/coordinator.py:1413-1432 | Up to five recoverable items are read again, each once: all of them if they are fewer, and essential paths before others |
| `Polling.Coordinator.CoreFallback` | custom_components/bosch_buderus_heating/coordinator.py:1404-1411 | Exactly the essential paths of the chunk are read again, each once |
| `Polling.RecoverableExactly` | custom_components/bosch_buderus_heating/coordinator.py:1413-1420 | Recoverable are the items without a value that are malformed or have a server error |
| `Polling.Coordinator.SingleReads` | custom_components/bosch_buderus_heating/coordinator.py:1434-1484 | Individual reads are sent in order and stop exactly at the first rate limit, which starts the backoff, or at lost authentication; the results are what the replies say |
| `Polling.Coordinator.ApplyResults` | custom_components/bosch_buderus_heating/coordinator.py:1506-1600 | The snapshots of a cycle are what its attempts, in order, make of the ones it started from; the pauses are what each result makes of them after the snapshots before it, except that missing manual setpoints of circuits freshly in manual mode are not paused |
| `Polling.Coordinator.ApplyOne` | custom_components/bosch_buderus_heating/coordinator.py:1518-1589 | One result: its snapshot, its pause, and joining a regular group: the path is added to exactly this group, unless it is there |
| `Polling.Coordinator.JoinGroup` | custom_components/bosch_buderus_heating/coordinator.py:1536-1550 | A value seen first by a targeted read joins its regular group once |
| `Polling.PauseAfter` | custom_components/bosch_buderus_heating/coordinator.py:1551-1587 | No result touches the pause of another path |
| `Polling.PausedExactly` | custom_components/bosch_buderus_heating/coordinator.py:1551-1635 | For every result and every moment, whether the path is paused: never after a success, a day after a forbidden or missing resource, a quarter of an hour after a gateway timeout, with the exceptions for known values and for paths with a recovery of their own |
| `Polling.Coordinator.EligiblePaths` | custom_components/bosch_buderus_heating/coordinator.py:983-987 | Exactly the unpaused candidates, in order; pauses that have run out are forgotten |
| `Polling.Coordinator.Settle` | custom_components/bosch_buderus_heating/coordinator.py:1143-1173 | When a cycle is usable, what that does to the circuit breaker, and exactly which groups are advanced: every due group whose paths are all done; an interrupted path is done only if it was confirmed |
| `Polling.Coordinator.AdvanceGroups` | custom_components/bosch_buderus_heating/coordinator.py:1647-1656 | Exactly the given groups get their next due time |
| `Polling.Coordinator.RequestRefresh` | custom_components/bosch_buderus_heating/coordinator.py:293-300 | A refresh makes every polled group due and postpones none |
| `Polling.OpensAfterThreeFailures` | custom_components/bosch_buderus_heating/coordinator.py:1143-1154 | Over any run, the counter of the circuit breaker is the number of unusable cycles with a suspected gateway since the last cycle that read a value; the circuit is open only after the third of them, and each from the third on opens it for five minutes |
| `Snapshots.StaysCoherent` | custom_components/bosch_buderus_heating/coordinator.py:130-141 | In every snapshot, over every sequence of updates by polls, writes and start-up reads, `available` holds exactly when freshness is FRESH |
| `Snapshots.HistoryDecides` | custom_components/bosch_buderus_heating/coordinator.py:1514-1570 | A failed read never changes the resource: a snapshot holds the last confirmed value, and is available exactly when the last thing that happened to it was a confirmation |
| `Snapshots.CountsFailedReads` | custom_components/bosch_buderus_heating/coordinator.py:1563-1571 | The failure counter of a snapshot is the number of failed reads since its last confirmation; failed writes and deferrals do not count |
| `Snapshots.ChangedExactly` | custom_components/bosch_buderus_heating/coordinator.py:1563-1571 | What each kind of failure leaves of a snapshot: the value and the time of the last success always |
| `SetpointRecovery.OneLiveSeries` | custom_components/bosch_buderus_heating/coordinator.py:302-346 | In every interleaving, at most one series per manual setpoint is live |
| `SetpointRecovery.EpisodeIsShort` | custom_components/bosch_buderus_heating/coordinator.py:348-432 | In every episode of every run, at most three targeted reads are sent |
| `SetpointRecovery.OneSeriesInEpisode` | custom_components/bosch_buderus_heating/coordinator.py:307-346 | Between two series of the same setpoint its episode has ended: the target, or another mode, was seen |
| `SetpointRecovery.FinishedSound` | custom_components/bosch_buderus_heating/coordinator.py:430-432 | A task that ends, also a cancelled one, frees the lock it read under and never removes its successor from the register; all other tasks stay as they are |
| `SetpointRecovery.NewSeriesSound` | custom_components/bosch_buderus_heating/coordinator.py:329-338 | Starting a series keeps the invariant: there is one more live task, for this circuit, and nothing else changes |
| `SetpointRecovery.TakenSound` | custom_components/bosch_buderus_heating/coordinator.py:340-346 | Ending an episode keeps the invariant: exactly the live tasks of this circuit end, except the calling one, and other circuits are untouched |
| `SetpointRecovery.SendingSound` | custom_components/bosch_buderus_heating/coordinator.py:353-376 | Sending a targeted read keeps the invariant: the task holds the lock and has sent one more read |
| `SetpointRecovery.ClosedSound` | custom_components/bosch_buderus_heating/coordinator.py:434-441 | Unloading leaves no live series, and forgets every episode |
| `SetpointRecovery.Recovery.Queue` | custom_components/bosch_buderus_heating/coordinator.py:302-338 | What one sight of a circuit leads to, told from the sight and the history: an episode ends if the target is fresh or the mode freshly another one; a series starts exactly for a missing target of a circuit freshly in manual mode, outside an episode, and an unknown target only if it fits the budget |
| `SetpointRecovery.Recovery.Reset` | custom_components/bosch_buderus_heating/coordinator.py:340-346 | The episode ends: the registered task is cancelled unless it is the calling one |
| `SetpointRecovery.Recovery.ApplyOther` | custom_components/bosch_buderus_heating/coordinator.py:1592-1593 | A poll that applied results queues or ends a series |
| `SetpointRecovery.Recovery.Wake` | custom_components/bosch_buderus_heating/coordinator.py:353-376 | A woken series reads only while the circuit is manual, the target missing, and the cloud not to be spared |
| `SetpointRecovery.Recovery.Receive` | custom_components/bosch_buderus_heating/coordinator.py:377-432 | A series goes on exactly after a local error with fewer than three reads sent in its episode; a success ends the episode, a failed request changes nothing else, any other reply leaves the episode as it is |
| `SetpointRecovery.Recovery.DeliverCancel` | custom_components/bosch_buderus_heating/coordinator.py:430-432 | A delivered cancellation ends only its own task |
| `SetpointRecovery.Recovery.Unload` | custom_components/bosch_buderus_heating/coordinator.py:434-441 | After unloading no task is live |
| `Faults.ResolvedOnlyAfterTwoAbsences` | custom_components/bosch_buderus_heating/faults.py:480-563 | RESOLVED only after two complete cycles without the fault, and between them no sighting, no failed or deferred source, no `mark_unavailable`, no incomplete read and no restart |
| `Faults.ResolvedExactly` | custom_components/bosch_buderus_heating/faults.py:505-563 | A cycle resolves a fault if and only if it was active, the cycle is complete without it, and the standing evidence is a complete cycle without it |
| `Faults.ConfirmedIsExact` | custom_components/bosch_buderus_heating/faults.py:338-341 | `current_state_confirmed` if and only if the latest cycle that read a source was complete, nothing cast doubt since, and the active faults are the ones it reported |
| `Faults.EvidenceDecides` | custom_components/bosch_buderus_heating/faults.py:435-563 | Over every run, the flags and absence counts carry exactly the evidence of the history |
| `Faults.EvidenceStands` | custom_components/bosch_buderus_heating/faults.py:435-563 | Standing evidence is one complete cycle with nothing disturbing it since |
| `Faults.EventsReplay` | custom_components/bosch_buderus_heating/faults.py:520-563 | Over every run, folding the events from the silent baseline gives exactly the active faults, also across restarts with no write pending; nothing appears twice, only active faults resolve |
| `Faults.AppearsOnce` | custom_components/bosch_buderus_heating/faults.py:533-563 | Between two appearances of a fault it was resolved, or a restart came before a write that was ordered |
| `Faults.AppearsTwice` | custom_components/bosch_buderus_heating/faults.py:533-566 | A concrete run of the second kind: the same fault appears twice and is never resolved |
| `Faults.IncidentKeepsTimes` | custom_components/bosch_buderus_heating/faults.py:541-553 | Within one incident the first sighting never changes, also across restarts with no write pending, and a known time of occurrence does not change until a restart |
| `Faults.FirstSightingIsLost` | custom_components/bosch_buderus_heating/faults.py:555-566 | A concrete run in which a restart with a write pending restores an older incident with its older first sighting |
| `Faults.IncidentSurvivesExactly` | custom_components/bosch_buderus_heating/faults.py:623-638 | An incident outlives a restart if and only if it was in the store, or a write happened since, however the writes are delayed |
| `Faults.FirstSightingSurvivesExactly` | custom_components/bosch_buderus_heating/faults.py:528-638 | An incident comes back from a restart with its first sighting if and only if the store had it so, or a write happened since |
| `Faults.SourceSurvivesExactly` | custom_components/bosch_buderus_heating/faults.py:387-396 | A required source outlives a restart if and only if the store required it, or a write happened since |
| `Faults.StoreLatches` | custom_components/bosch_buderus_heating/faults.py:621-638 | What every write makes true of the store holds at a later moment without restart if and only if it held before or the store was written since |
| `Faults.KnownTimeSurvivesExactly` | custom_components/bosch_buderus_heating/faults.py:528-638 | A known time of occurrence outlives a restart if and only if the store had it, or a write happened since; a write stores the state of its own moment |
| `Faults.KnownTimeIsForgotten` | custom_components/bosch_buderus_heating/faults.py:528-566 | A concrete run in which it does not, with no write pending: a time learned by a later sighting orders no write |
| `Faults.PendingExactly` | custom_components/bosch_buderus_heating/faults.py:564-631 | Over every run, a write is pending if and only if a cycle ordered one and nothing was written or restarted since |
| `Faults.RequiredForGood` | custom_components/bosch_buderus_heating/faults.py:472-512 | Every source ever read successfully stays required, also across restarts with no write pending |
| `Faults.SourceIsForgotten` | custom_components/bosch_buderus_heating/faults.py:480-525 | A concrete run in which a restart with a write pending forgets a source |
| `Faults.RestartKeeps` | custom_components/bosch_buderus_heating/faults.py:372-407 | A restart with no write pending keeps the incidents, their first sightings, the required sources and the unverified faults, and believes nothing current |
| `Faults.LoadedStarts` | custom_components/bosch_buderus_heating/faults.py:372-407 | Whatever was stored, loading starts without current evidence, and loading again gives the same |
| `Faults.LegacyStoreResolvesNothing` | custom_components/bosch_buderus_heating/faults.py:397-511 | From a store without required sources, or with something else than a list of unverified faults, no fault at all is resolved in any run, across writes and restarts, until every stored incident was reported again |
| `Faults.ParsedIsReported` | custom_components/bosch_buderus_heating/faults.py:480-495 | A fault counts as reported exactly when a successful authoritative source reports it |
| `Faults.MergeKeeps` | custom_components/bosch_buderus_heating/faults.py:773-790 | Merging two reports keeps the identity, the greater severity, a concrete component and both sources |
| `Faults.MergeTakes` | custom_components/bosch_buderus_heating/faults.py:773-790 | The merged report is the more severe one, and the later one of two equally severe, with the component and the sources of both |
| `Faults.ParsedIsWorst` | custom_components/bosch_buderus_heating/faults.py:480-495 | What a cycle says of a fault: the most severe of its reports, the last of equally severe ones, with the sources of all of them |
| `Faults.SeverityOrder` | custom_components/bosch_buderus_heating/faults.py:839-847 | The order of the severities |
| `Faults.StoredContents` | custom_components/bosch_buderus_heating/faults.py:850-864 | What is written of a fault: everything but the identifier of its component and its sources |
| `Faults.CycleRecords` | custom_components/bosch_buderus_heating/faults.py:533-553 | For every fault that is active and reported again: severity, code, component and last sighting are those of the new report, the sources those of both, the first sighting is kept, and a time of occurrence that was unknown comes from the report; a new fault is as reported |
| `Faults.LatestReportShows` | custom_components/bosch_buderus_heating/faults.py:533-553 | Over every run: since the latest restart, an active fault has the severity, code, component and last sighting of the latest cycle that reported it, and at least the sources of that report |
| `Faults.CompleteExactly` | custom_components/bosch_buderus_heating/faults.py:480-512 | A cycle is complete exactly if every required source, and at least one, was read, no entry of a read source was unusable, and every unverified fault was reported |
| `Faults.SavesExactly` | custom_components/bosch_buderus_heating/faults.py:564-570 | When a cycle orders a write: the first one, or when the required sources, the unverified faults or the set of active faults change |
| `Faults.FaultTracker.Load` | custom_components/bosch_buderus_heating/faults.py:372-407 | Loading yields the specified tracker: the listed faults are unverified, none where the list is missing, and all where there is no list or no required source |
| `Faults.FaultTracker.Serialize` | custom_components/bosch_buderus_heating/faults.py:633-638 | What is written |
| `Faults.FaultTracker.Flush` | custom_components/bosch_buderus_heating/faults.py:424-426 | An explicit save writes the current baseline at once |
| `Faults.FaultTracker.Write` | custom_components/bosch_buderus_heating/faults.py:623-638 | The delayed save writes the baseline of the moment at which it happens, and only if one was ordered |
| `Faults.FaultTracker.RecordResults` | custom_components/bosch_buderus_heating/faults.py:435-453 | A failed authoritative result, anywhere in a cycle, withdraws the evidence; nothing else changes |
| `Faults.FaultTracker.RecordDeferred` | custom_components/bosch_buderus_heating/faults.py:455-461 | So does a deferred authoritative source |
| `Faults.FaultTracker.MarkUnavailable` | custom_components/bosch_buderus_heating/faults.py:350-354 | Becoming unavailable withdraws the evidence and resolves nothing |
| `Faults.FaultTracker.Process` | custom_components/bosch_buderus_heating/faults.py:463-570 | The step-by-step update of one cycle refines the specified one, emits exactly one event for each appeared and each resolved fault, the former with the report of this cycle, the latter with what was known, and orders a write exactly in the first cycle, or when a required source, an unverified fault or the set of active faults changes |
| `Faults.FaultTracker.TakeOver` | custom_components/bosch_buderus_heating/faults.py:533-553 | Taking over the reported faults, in any order |
| `Faults.FaultTracker.CountAbsent` | custom_components/bosch_buderus_heating/faults.py:555-563 | Counting absent faults, in any order; those counted twice are resolved |
| `StartupData.StartsKeepDelay` | custom_components/bosch_buderus_heating/startup_data.py:144-163 | Over every history of a read: after the k-th failure in a row, every later start waits at least the k-th (capped) delay |
| `StartupData.SuccessIsFinal` | custom_components/bosch_buderus_heating/startup_data.py:135-186 | A read that reached success stays there and is never started again, also over rediscoveries |
| `StartupData.CountsFailuresInARow` | custom_components/bosch_buderus_heating/startup_data.py:150-186 | The failure counter is the number of failures since the last accepted reply |
| `StartupData.TellsItsHistory` | custom_components/bosch_buderus_heating/startup_data.py:114-186 | Over every history of a read: its attempts are the requests started, its depth the least one reported, advertised and registered what any report said, and it is active exactly as a member of the present set-up |
| `StartupData.FailsExactly` | custom_components/bosch_buderus_heating/startup_data.py:150-163 | A failure gives the path up exactly after a local error of a read that is neither registered nor an advertised sensor; else the next request waits half an hour after a local error, and 1, 2, 5, 15, then 30 minutes after others |
| `StartupData.ReceivesExactly` | custom_components/bosch_buderus_heating/startup_data.py:165-186 | What a reply is kept as: a success exactly as the read-only scalar of a reviewed path, an ordinary resource exactly with another structure |
| `StartupData.DueExactly` | custom_components/bosch_buderus_heating/startup_data.py:135-142 | When a read may be requested |
| `StartupData.SchedulesExactly` | custom_components/bosch_buderus_heating/startup_data.py:286-303 | A read is held back exactly while it lies too deep and was never requested |
| `StartupData.RejoinsExactly` | custom_components/bosch_buderus_heating/startup_data.py:236-260 | A new set-up keeps outcomes, values and deadlines, except that an ordinary resource is read anew |
| `StartupData.DefersExactly` | custom_components/bosch_buderus_heating/startup_data.py:342-353 | When time is up, due reads that are not in flight wait one more minute, without a failure |
| `StartupData.QueueHoldsEachRead` | custom_components/bosch_buderus_heating/startup_data.py:309-312 | Ordering the reads loses and duplicates none |
| `StartupData.SelectsDue` | custom_components/bosch_buderus_heating/startup_data.py:305-323 | Only due reads are selected, each once, at most the limit; only unpaid ones are left out |
| `StartupData.SelectSpends` | custom_components/bosch_buderus_heating/startup_data.py:307-319 | A selection pays for every new path, within the budget, and leaves a path out only when the budget is spent |
| `StartupData.SelectsInTurn` | custom_components/bosch_buderus_heating/startup_data.py:309-323 | Nothing due is passed over, except behind a full selection of earlier reads |
| `StartupData.SelectsOldest` | custom_components/bosch_buderus_heating/startup_data.py:309-323 | Of two due reads, the unexpected child, or else the one due for longer, is selected before the other |
| `StartupData.SelectionReady` | custom_components/bosch_buderus_heating/startup_data.py:305-323 | A selection can be sent at once and keeps the distinct requested paths within the maximum |
| `StartupData.Choose` | custom_components/bosch_buderus_heating/startup_data.py:305-323 | The loop that selects computes exactly this selection |
| `StartupData.ReservedSelects` | custom_components/bosch_buderus_heating/startup_data.py:262-273 | Reserving admits given paths only, each once, and always those already paid for |
| `StartupData.ReservedWithinBudget` | custom_components/bosch_buderus_heating/startup_data.py:262-273 | Reserving never exceeds the maximum, and turns a path away only when it is reached |
| `StartupData.StartupGatewayData.BeginDiscovery` | custom_components/bosch_buderus_heating/startup_data.py:236-260 | Rediscovery rechecks membership of every read and keeps what succeeded |
| `StartupData.StartupGatewayData.ReserveDiscovery` | custom_components/bosch_buderus_heating/startup_data.py:262-273 | Ordinary discovery is charged to the same budget |
| `StartupData.StartupGatewayData.Schedule` | custom_components/bosch_buderus_heating/startup_data.py:275-303 | Adds or refreshes one reviewed path while there is room |
| `StartupData.StartupGatewayData.Due` | custom_components/bosch_buderus_heating/startup_data.py:305-323 | Selects the due reads; what does not fit the budget is left out for good |
| `StartupData.StartupGatewayData.Start` | custom_components/bosch_buderus_heating/startup_data.py:325-329 | Charges and marks exactly the paths sent |
| `StartupData.StartupGatewayData.Fail` | custom_components/bosch_buderus_heating/startup_data.py:331-334 | Ends exactly these requests as failed |
| `StartupData.StartupGatewayData.Receive` | custom_components/bosch_buderus_heating/startup_data.py:336-340 | Accepts exactly ordinary resources and scalars of the expected schema |
| `StartupData.StartupGatewayData.BudgetExpired` | custom_components/bosch_buderus_heating/startup_data.py:342-353 | Postpones due reads without counting a failure |
| `StartupReader.StartupReader.ReadBatch` | custom_components/bosch_buderus_heating/startup_reader.py:57-96 | Any reply: at most one request is sent, for exactly the selected due paths, none without time or during backoff; no path stays in `reading`, the budget holds, the outcome is what the logged reply says, and the reads afterwards are exactly what this reply makes of them |
| `StartupReader.StartupReader.Send` | custom_components/bosch_buderus_heating/startup_reader.py:71-96 | Sending charges the paths, settles each of them, and ends as the logged reply says |
| `StartupReader.StartupReader.Deliver` | custom_components/bosch_buderus_heating/startup_reader.py:72-127 | What each kind of reply makes of the outcome and of the reads |
| `StartupReader.StartupReader.ReceiveBatch` | custom_components/bosch_buderus_heating/startup_reader.py:98-127 | Only items of this gateway for requested paths count; one 401 fails the whole batch |
| `StartupReader.StartupReader.ReceiveItem` | custom_components/bosch_buderus_heating/startup_reader.py:129-150 | One reply: its verdict, and the reads it changes |
| `StartupReader.Verdict` | custom_components/bosch_buderus_heating/startup_reader.py:135-150 | A path succeeds exactly with a usable resource for this very path; otherwise the category says what is wrong |
| `StartupReader.CategoryExactly` | custom_components/bosch_buderus_heating/startup_reader.py:169-181 | Which failure belongs to which category: the status decides before the kind of the error |
| `StartupReader.LookupExactly` | custom_components/bosch_buderus_heating/startup_reader.py:105-109 | The answer for a path is the last entry of the reply for it that names this gateway |
| `StartupReader.AnyStatusExactly` | custom_components/bosch_buderus_heating/startup_reader.py:105-127 | A status counts exactly in the answer for a requested path |
| `StartupReader.ItemSettles` | custom_components/bosch_buderus_heating/startup_reader.py:129-150 | A reply settles its own read as its verdict says, with the deadline that this failure has, and unsettles no other |
| `StartupReader.StaysSettled` | custom_components/bosch_buderus_heating/startup_reader.py:152-166 | Following references of an unexpected container undoes no outcome |
| `StartupReader.QueuesReferences` | custom_components/bosch_buderus_heating/startup_reader.py:152-166 | Exactly the unknown references below the roots become active reads, unless the list is full |
| `StartupReader.StartupReader.QueueReferences` | custom_components/bosch_buderus_heating/startup_reader.py:152-166 | The loop over references computes exactly this, and notices the licence path |
| `StartupSession.ClaimIsFair` | custom_components/bosch_buderus_heating/startup_data.py:447-466 | Claims exclude each other, are at least 60 seconds apart, and no gateway claims again while another one eligible at that moment has not claimed since |
| `StartupSession.ServedSince` | custom_components/bosch_buderus_heating/startup_data.py:456-464 | The least last round is the gateway whose turn it is: the others have claimed since |
| `StartupSession.TurnExactly` | custom_components/bosch_buderus_heating/startup_data.py:456-464 | Comparing the recorded rounds is the same as comparing the history of the slot; gateways that never claimed come first, by name |
| `StartupSession.ReleaseIsFair` | custom_components/bosch_buderus_heating/startup_data.py:468-470 | Releasing keeps that |
| `StartupSession.StartupSession.Claim` | custom_components/bosch_buderus_heating/startup_data.py:447-466 | Grants exactly when the slot is free and due and, by the history of the slot, it is this gateway's turn among those that are healthy and have a due read: each of the others has claimed since it did; asking them leaves out of each what its budget no longer admits |
| `StartupSession.StartupSession.Eligible` | custom_components/bosch_buderus_heating/startup_data.py:456-460 | Exactly the healthy gateways with a due read, each asked once |
| `StartupSession.StartupSession.Data` | custom_components/bosch_buderus_heating/startup_data.py:443-445 | The data of a gateway is created once and shared with no other gateway |
| `StartupSession.StartupSession.Release` | custom_components/bosch_buderus_heating/startup_data.py:468-470 | Always frees the slot |
| `HolidayTimes.SpanRoundTrip` | custom_components/bosch_buderus_heating/holiday_writes.py:664-706 | What is written for a calendar event means exactly its two instants, in order: inclusive end dates are undone on reading |
| `HolidayTimes.SpanRefuses` | custom_components/bosch_buderus_heating/holiday_writes.py:673-705 | Exactly the events that PointT cannot hold are refused, and for the stated reason |
| `HolidayTimes.SpanIsCanonical` | custom_components/bosch_buderus_heating/holiday_writes.py:739-746 | Nothing that is written has the legacy midnight form |
| `HolidayTimes.CanonicalKeepsInstant` | custom_components/bosch_buderus_heating/holiday_writes.py:778-796 | Rewriting 24:00 (ISO 8601:2004, section 4.2.3) keeps the instant, also at month and year ends, and leaves nothing to rewrite |
| `HolidayTimes.InstantOfDateTime` | custom_components/bosch_buderus_heating/holiday_writes.py:846-857 | A written date and time reads back as itself |
| `HolidayTimes.InstantOfDate` | custom_components/bosch_buderus_heating/holiday_writes.py:847-851 | A written date reads back as its midnight, or as an end as the next one |
| `HolidayTimes.NextIsTomorrow` | custom_components/bosch_buderus_heating/holiday_writes.py:849-855 | The day after is one day later, across month, year and leap-year ends |
| `HolidayTimes.SecondsOrder` | custom_components/bosch_buderus_heating/holiday_writes.py:702-703 | Comparing wall times compares instants |
| `HolidayTimes.InstantExactly` | custom_components/bosch_buderus_heating/holiday_writes.py:846-857 | For every text and every moment: which texts mean it, as a start and as an end |
| `HolidayTimes.CalendarExactly` | custom_components/bosch_buderus_heating/holiday_writes.py:846-857 | The Gregorian calendar: the days of each month |
| `HolidayTimes.DateForm` | custom_components/bosch_buderus_heating/holiday_writes.py:847-855 | No other text is read as a date |
| `HolidayTimes.ClockForm` | custom_components/bosch_buderus_heating/holiday_writes.py:856-857 | No other text is read as a clock time |
| `HolidayTimes.DateRoundTrip` | custom_components/bosch_buderus_heating/holiday_writes.py:687-688 | ISO dates read back as themselves |
| `HolidayTimes.ClockRoundTrip` | custom_components/bosch_buderus_heating/holiday_writes.py:739-746 | Clock times read back as themselves |
| `HolidayWrites.CreationIsNotRepeated` | custom_components/bosch_buderus_heating/holiday_writes.py:145-219 | Over every run of calls for a gateway, under timeouts, lost replies and cancellation: between two POSTs the first was definitely rejected, or a list read between them settled it |
| `HolidayWrites.PostFollowsCleanList` | custom_components/bosch_buderus_heating/holiday_writes.py:147-174 | Every POST directly follows the read of a valid list that holds no period with the instant of the requested start and the requested set of circuits, and records the identifiers of that list |
| `HolidayWrites.OpenedBetween` | custom_components/bosch_buderus_heating/holiday_writes.py:174-219 | An open request is closed only by a settlement of its own |
| `HolidayWrites.CandidateIsUnique` | custom_components/bosch_buderus_heating/holiday_writes.py:195-202 | The reported candidate is the only new period of the list with the instant of the requested start and the requested set of circuits, whatever its end; it settles the request |
| `HolidayWrites.ConfirmationMeans` | custom_components/bosch_buderus_heating/holiday_writes.py:187-193 | A confirmed creation is a new numeric identifier with all requested times and settings |
| `HolidayWrites.HolidayWriteService.Create` | custom_components/bosch_buderus_heating/holiday_writes.py:133-223 | For every sequence of replies, what is sent and how a creation ends: the canonical draft if acceptable, one list, a POST if no period with this start and these circuits is there, and lists until one holds a new identifier with all requested values; nothing is sent while an earlier request is open |
| `HolidayWrites.HolidayWriteService.Post` | custom_components/bosch_buderus_heating/holiday_writes.py:147-182 | One list is read, then at most one POST is sent; the request is recorded before it is sent, and forgotten only on a definite rejection |
| `HolidayWrites.HolidayWriteService.Check` | custom_components/bosch_buderus_heating/holiday_writes.py:184-223 | An open request is settled only by a list that was read after it; one of another form is only reported, never taken for the new one |
| `HolidayWrites.HolidayWriteService.Confirm` | custom_components/bosch_buderus_heating/holiday_writes.py:375-430 | Read-back only reads lists: it ends with the first one that decides, or with the candidate of the latest valid list when all attempts are used |
| `HolidayWrites.MergeIsThreeWay` | custom_components/bosch_buderus_heating/holiday_writes.py:433-451 | The merge takes exactly the changed fields from the draft and all others from the live state, and is refused if and only if a field changed differently on both sides |
| `HolidayWrites.MergeKeepsOneSide` | custom_components/bosch_buderus_heating/holiday_writes.py:433-451 | One-sided or equal changes merge to that side |
| `HolidayWrites.CanonicalValuesMeanTheSame` | custom_components/bosch_buderus_heating/holiday_writes.py:778-796 | Canonical times keep both instants and every other field |
| `HolidayWrites.SameCreationExactly` | custom_components/bosch_buderus_heating/holiday_writes.py:799-807 | Two holidays are the same creation exactly with the same instant of the start and the same set of circuits |
| `HolidayWrites.MatchesExactly` | custom_components/bosch_buderus_heating/holiday_writes.py:810-826 | A period shows the requested values exactly with both instants, the set of circuits, every mode, the name, and a temperature within one part in a thousand million |
| `HolidayWrites.IsCloseExactly` | custom_components/bosch_buderus_heating/holiday_writes.py:825 | Temperatures are the same within one part in a thousand million of the greater one |
| `HolidayWrites.CreatedExactly` | custom_components/bosch_buderus_heating/holiday_writes.py:159-163 | A holiday counts as created before exactly if the list holds such a period |
| `HolidayWrites.ConfirmedExactly` | custom_components/bosch_buderus_heating/holiday_writes.py:187-193 | A creation is confirmed exactly by a new identifier of a period that shows the requested values |
| `HolidayWrites.UpdatedExactly` | custom_components/bosch_buderus_heating/holiday_writes.py:278-309 | An update is confirmed exactly by a period of this identifier that shows the payload |
| `HolidayWrites.PayloadExactly` | custom_components/bosch_buderus_heating/holiday_writes.py:225-277 | The payload of an update, field by field: the draft where the user changed it, else the live state, times without 24:00; none on a conflict, an unknown state or a malformed time |
| `HolidayWrites.AcceptedExactly` | custom_components/bosch_buderus_heating/holiday_writes.py:142-144 | What is sent of a draft: its canonical form, if that is acceptable |
| `HolidayWrites.GoalsExactly` | custom_components/bosch_buderus_heating/holiday_writes.py:375-430 | What each read-back waits for, and which period it reports otherwise |
| `HolidayWrites.OpenExactly` | custom_components/bosch_buderus_heating/holiday_writes.py:133-223 | A request is open exactly if it was the last one sent, was not rejected, and nothing settled it since |
| `HolidayWrites.HolidayWriteService.Update` | custom_components/bosch_buderus_heating/holiday_writes.py:225-309 | For every sequence of replies, what is sent and how an update ends: one list, the PUT of the merge with the state in it if that is acceptable, and lists until one shows this identifier with the payload |
| `HolidayWrites.HolidayWriteService.Delete` | custom_components/bosch_buderus_heating/holiday_writes.py:311-350 | For every sequence of replies, what is sent and how a deletion ends: with an expected state one list that shows exactly this state, the DELETE, and lists until one is without the identifier |
| `IcomHolidays.IcomHolidayWriteService.Write` | custom_components/bosch_buderus_heating/legacy_holiday_writes.py:33-154 | At every end, also an early one, each leaf is in exactly one of `confirmed` and `invalidated`, and what is confirmed was read after the last write. The logged replies decide the outcome: a request is refused before anything is sent exactly for the stated reasons; an accepted create or update returns normally if and only if no request failed and every read shows each write and no other change, and is otherwise told apart as a failed request, a change by others, or a write that is not confirmed; a deletion returns normally if and only if the slot then reads back empty |
| `IcomHolidays.RoundTrip` | custom_components/bosch_buderus_heating/holidays.py:488-526 | Writing values into the leaves and reading them back: for every slot and all values, the slot has exactly these values if and only if each typed leaf holds the value that is sent for them, and they fit the leaves of the slot |
| `IcomHolidays.AcceptedCanBeWritten` | custom_components/bosch_buderus_heating/holidays.py:529-610 | What the advertised metadata accept fits the leaves of the slot, and every leaf that it changes can be written: no accepted transaction meets a leaf that it may not write |
| `IcomHolidays.ConfiguredExactly` | custom_components/bosch_buderus_heating/holidays.py:529-577 | What a slot needs for being written at all |
| `IcomHolidays.AcceptableExactly` | custom_components/bosch_buderus_heating/legacy_holiday_writes.py:85-106 | What a request may ask for |
| `IcomHolidays.DeletableExactly` | custom_components/bosch_buderus_heating/holidays.py:578-607 | When a slot can be deleted |
| `IcomHolidays.DatesExactly` | custom_components/bosch_buderus_heating/legacy_holiday_writes.py:172-189 | Valid are two dates in the years 2000 to 2100, in order, that are not the marker of an unused slot |
| `IcomHolidays.InUseExactly` | custom_components/bosch_buderus_heating/legacy_holidays.py:70-105 | A slot is in use exactly if it holds two valid dates, and then it is not free |
| `IcomHolidays.IcomHolidayWriteService.Preflight` | custom_components/bosch_buderus_heating/legacy_holiday_writes.py:53-106 | The refusals before anything is sent, in order |
| `IcomHolidays.Concluded` | custom_components/bosch_buderus_heating/legacy_holiday_writes.py:150-154 | When all leaves were treated, the slot has the requested values, unless a leaf that was written reads back malformed |
| `IcomHolidays.ReadAfterWrite` | custom_components/bosch_buderus_heating/legacy_holiday_writes.py:131-149 | A full read after a write is consistent with the log exactly if it shows the value sent and every other leaf as before |
| `IcomHolidays.IcomHolidayWriteService.Read` | custom_components/bosch_buderus_heating/legacy_holiday_writes.py:156-170 | Knowledge after a read that may stop at any leaf |
| `IcomHolidays.IcomHolidayWriteService.Send` | custom_components/bosch_buderus_heating/legacy_holiday_writes.py:131-138 | A write invalidates every leaf |
| `IcomHolidays.IcomHolidayWriteService.Step` | custom_components/bosch_buderus_heating/legacy_holiday_writes.py:126-149 | One leaf: a full read equal to the plan, the write, and a full read that shows this change alone; a differing first read means a change by others, a differing second one that the write is not confirmed |
| `IcomHolidays.IcomHolidayWriteService.Treat` | custom_components/bosch_buderus_heating/legacy_holiday_writes.py:114-149 | Leaves that are absent or already as desired are not written; one that is not writable ends the run; every early end for its own reason |
| `IcomHolidays.IcomHolidayWriteService.Edit` | custom_components/bosch_buderus_heating/legacy_holiday_writes.py:107-154 | An accepted request: all writes are good ones, it is never refused halfway, and its end is decided by the replies |
| `IcomHolidays.IcomHolidayWriteService.Remove` | custom_components/bosch_buderus_heating/legacy_holiday_writes.py:71-84 | One deletion; normal return exactly if the slot reads back as empty |
| `IcomHolidays.WriteIsGood` | custom_components/bosch_buderus_heating/legacy_holiday_writes.py:126-138 | A write follows two full reads equal to the state the plan relied on, with no write in between |
| `IcomHolidays.WrittenOnce` | custom_components/bosch_buderus_heating/legacy_holiday_writes.py:107-149 | Each leaf is written at most once, and nothing after `startStop` |
| `IcomHolidays.DatesComeLast` | custom_components/bosch_buderus_heating/legacy_holiday_writes.py:107-149 | The dates are sent only after the last reads showed every other leaf as desired: a run that stops earlier never sent them |
| `IcomHolidays.ReadsAreHarmless` | custom_components/bosch_buderus_heating/legacy_holiday_writes.py:156-170 | Reading between the steps keeps what holds of the writes |
| `SwitchPrograms.LevelUntilSwitch` | custom_components/bosch_buderus_heating/switch_programs.py:63-81 | Every weekday and time before the next switch, in whatever week, has the same active level, and the minutes to the switch count down |
| `SwitchPrograms.LevelAtSwitch` | custom_components/bosch_buderus_heating/switch_programs.py:63-99 | The weekday and time of the next switch has the level of the one point that stands there |
| `SwitchPrograms.ActiveExactly` | custom_components/bosch_buderus_heating/switch_programs.py:63-99 | At any moment of a calendar, the level for its weekday and time is that of the point that occurred last: no other point occurred since |
| `SwitchPrograms.NextExactly` | custom_components/bosch_buderus_heating/switch_programs.py:72-81 | After as many minutes as the program says a point occurs, and none before |
| `SwitchPrograms.LastPointExactly` | custom_components/bosch_buderus_heating/switch_programs.py:90-99 | The active point and the moment at which it switched are the only ones with that property |
| `SwitchPrograms.ConstantUntilSwitch` | custom_components/bosch_buderus_heating/switch_programs.py:63-81 | The active point stays for all minutes before the next switch |
| `SwitchPrograms.SwitchTakesOver` | custom_components/bosch_buderus_heating/switch_programs.py:72-99 | At the next switch exactly one point stands, and it takes over |
| `SwitchPrograms.SoonestAhead` | custom_components/bosch_buderus_heating/switch_programs.py:72-81 | The next switch is always 1 to 10080 minutes away, and no point is nearer |
| `SwitchPrograms.LastPoint` | custom_components/bosch_buderus_heating/switch_programs.py:90-99 | The active point is the one that switched last |
| `SwitchPrograms.OrderDoesNotMatter` | custom_components/bosch_buderus_heating/switch_programs.py:63-99 | The answers do not depend on the order of the points |
| `SwitchPrograms.WeekRepeats` | custom_components/bosch_buderus_heating/switch_programs.py:63-99 | Whole weeks change nothing |
| `SwitchPrograms.BackAndAhead` | custom_components/bosch_buderus_heating/switch_programs.py:78-99 | Time since and until a point complete the week |
| `SwitchPrograms.Assess` | custom_components/bosch_buderus_heating/switch_programs.py:102-176 | A program is supported if and only if limits, entries, times and days are all in order; then its points are exactly the listed ones |
| `SwitchPrograms.PointExactly` | custom_components/bosch_buderus_heating/switch_programs.py:162-176 | What an entry must say, and which point it then is |
| `SwitchPrograms.LevelKeyExactly` | custom_components/bosch_buderus_heating/switch_programs.py:18 | A key begins with a small letter; small letters and digits follow, 32 characters at most |
| `SwitchPrograms.LimitsExactly` | custom_components/bosch_buderus_heating/switch_programs.py:119-138 | Which limits are accepted |
| `SwitchPrograms.Schedule` | custom_components/bosch_buderus_heating/switch_programs.py:83-88 | Each weekday with points maps to its points in order |
| `SwitchPrograms.ScheduleShowsAll` | custom_components/bosch_buderus_heating/switch_programs.py:83-88 | Every point is shown exactly once, under its day |
| `SwitchPrograms.DayIsOrdered` | custom_components/bosch_buderus_heating/switch_programs.py:86-87 | The points of a day come in the order of their times |
| `RrcPrograms.AcceptedEditIsCorrect` | custom_components/bosch_buderus_heating/rrc_programs.py:111-143 | Every accepted edit: a strictly increasing day that parses as editable again and is the old day with exactly one entry replaced |
| `RrcPrograms.EditedDayHolds` | custom_components/bosch_buderus_heating/rrc_programs.py:135-143 | An accepted day holds an entry with exactly the submitted time, the submitted temperature and the old further fields of the edited point, and otherwise exactly the other entries of the old day |
| `RrcPrograms.ChangesExactly` | custom_components/bosch_buderus_heating/rrc_programs.py:198-211 | The edited day equals the old one exactly if the submitted time and temperature are those of the point |
| `RrcPrograms.ReadableExactly` | custom_components/bosch_buderus_heating/rrc_programs.py:61-94 | Which entries are read: a weekday, a time in minutes and a temperature |
| `RrcPrograms.AcceptsExactly` | custom_components/bosch_buderus_heating/rrc_programs.py:111-134 | Which times and temperatures are accepted |
| `RrcPrograms.HalfDegrees` | custom_components/bosch_buderus_heating/rrc_programs.py:111-134 | Temperatures in steps of half a degree |
| `RrcPrograms.EditedDayIsEditable` | custom_components/bosch_buderus_heating/rrc_programs.py:111-143 | The edited day is strictly increasing and editable |
| `RrcPrograms.EditReplacesOne` | custom_components/bosch_buderus_heating/rrc_programs.py:135-143 | As multisets, old and edited day differ in the one entry |
| `RrcPrograms.IdentityEdit` | custom_components/bosch_buderus_heating/rrc_programs.py:111-143 | Submitting a point's own time and temperature changes nothing |
| `RrcPrograms.ParseSchedule` | custom_components/bosch_buderus_heating/rrc_programs.py:61-108 | Readable if and only if every entry is; editable if and only if it is also plain, strictly increasing per day and writable |
| `RrcPrograms.EditPoint` | custom_components/bosch_buderus_heating/rrc_programs.py:111-143 | Refused exactly for unsupported values or an occupied time; otherwise the edited day |
| `RrcPrograms.RrcProgramService.Edit` | custom_components/bosch_buderus_heating/rrc_programs.py:198-260 | Over the log of requests and replies: accepted exactly if the week the user saw is editable and the new point fits; at most one PUT, after week and day were read as the user saw them; every outcome is decided by the replies: without a change exactly if time and temperature are those of the point, else normal return exactly if the week read last, after the PUT, has the day as desired |
| `RrcPrograms.RrcProgramService.Transact` | custom_components/bosch_buderus_heating/rrc_programs.py:212-260 | The one PUT carries the desired day and follows a fresh week and a fresh day |
| `RrcPrograms.RrcProgramService.Preflight` | custom_components/bosch_buderus_heating/rrc_programs.py:212-234 | Both reads must be editable and unchanged |
| `RrcPrograms.RrcProgramService.ReadBack` | custom_components/bosch_buderus_heating/rrc_programs.py:243-260 | At most three reads; confirmation is the reply of the last one, and has the day as desired |
| `RrcPrograms.RrcProgramService.Select` | custom_components/bosch_buderus_heating/rrc_programs.py:170-196 | Program list and selection are read, then at most one PUT of an offered program is sent; normal return carries the selection read last, which is the program |
| `RrcPrograms.OffersExactly` | custom_components/bosch_buderus_heating/rrc_programs.py:146-155 | Which programs can be selected |
| `EnumTranslation.LosslessExactly` | custom_components/bosch_buderus_heating/enum_translation.py:105-126 | For every alias table, different codes have different keys if and only if no entry of the table has a translation that reads like the escape of an escaped code |
| `EnumTranslation.UnprefixedTranslationsAreLossless` | custom_components/bosch_buderus_heating/enum_translation.py:105-126 | Translations without the escape prefix are enough |
| `EnumTranslation.PrefixedTranslationLoses` | custom_components/bosch_buderus_heating/enum_translation.py:105-126 | A concrete table with a prefixed translation that swallows a code |
| `EnumTranslation.KeyForms` | custom_components/bosch_buderus_heating/enum_translation.py:118-124 | A translated key names its code; a plain key is no translation and carries no prefix |
| `EnumTranslation.KeyExactly` | custom_components/bosch_buderus_heating/enum_translation.py:105-126 | A code has its translation as key exactly if no earlier entry gives this translation to another code; it is its own key exactly if the table does not mention it and it does not look escaped |
| `EnumTranslation.WritableOptions` | custom_components/bosch_buderus_heating/enum_translation.py:105-126 | Every code has its key, every key a code of its own |
| `EnumTranslation.LookupReturnsCode` | custom_components/bosch_buderus_heating/enum_translation.py:105-126 | Looking up a code's key returns that code |
| `EnumTranslation.AsManyKeysAsCodes` | custom_components/bosch_buderus_heating/enum_translation.py:105-126 | There are as many keys as different codes |
| `EnumTranslation.KeysAreStable` | custom_components/bosch_buderus_heating/enum_translation.py:108-113 | A key still leads to its code when other codes are added or withdrawn |
| `EnumTranslation.RoundTripExactly` | custom_components/bosch_buderus_heating/enum_translation.py:95-102 | The plain translation restores a code if and only if it is the last one with its translation, or an unknown code that is no translation |
| `EnumTranslation.SystemTypeIsNotRestored` | custom_components/bosch_buderus_heating/enum_translation.py:81-102 | One of the shipped tables loses a spelling |

## Left out

- Home Assistant glue, HTTP, OAuth, the PointT client and its parsers: oracles here. Requests answer arbitrarily; a bulk
  reply holds one result for each requested path, in order, or is a failure as a whole.
- The reviewed tables of paths (`is_startup_path`, catalog and optional children, poll groups) and the hashes of paths,
  gateways and faults: parameters and injective keys.
- Diagnostics, metrics, capability counters, energy-counter resets, log texts, labels of switch points.
- Discovery: `device_profile`, and the glue around a run in
  `_async_discover_data` (probing of fault resources, placeholders, first snapshots). The budget shared with start-up
  reads is the set of paid paths.
- Polling: which manual setpoints are missing is a parameter, and which are under recovery is arbitrary there (decided in
  `SetpointRecovery`); fault tracking is not called from the cycle. Cycles that end in an authentication failure are not
  executed cycles of the fairness theorem, because they publish nothing. Guards of control writes are left out.
- SetpointRecovery: the sleep times, and the content of the snapshots beyond mode and target of a circuit.
- Faults: parsing of fault resources, listeners, and failures of the storage itself. A delayed write comes at any time
  or, if the process ends before, never.
- StartupSession: identifiers of gateways are ordered like numbers instead of strings.
- Holiday lists and names: parsing, and the validation of new-style holidays against advertised capabilities, are
  parameters. For the older slots it is modelled, except that a parameter judges whether a temperature meets the limits
  and the step of its leaf, where the program compares floating-point numbers with a tolerance. Each
  service is used under the coordinator's lock, so its calls do not overlap; cancellation can strike at every await and
  is one of the failures.
- HolidayTimes.Instant: one zone of fixed offset, and the exact forms `YYYY-MM-DD` and `YYYY-MM-DDThh:mm:ss`; Python also
  reads week dates, compact forms and offsets. Nonexistent and ambiguous wall times are left out with the zone database.
- HolidayWrites.IsClose: real arithmetic instead of floating point.
- RRC: the spelling of a JSON number (20 or 20.0) is not distinguished when a schedule is compared with the one the user
  saw.
- Dew point, unit scaling, wallbox parsing, naming and inventory: straight-line code.
