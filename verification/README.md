# webhook-runner: verified model of the server's state machines

The runner is a server that loads a fleet of hooks from a git tree, runs them in containers, and
keeps several small pieces of shared state while it does so. This project models those pieces in
Dafny and proves what they promise over every history of calls:

- **Concurrency groups** (`Groups`, `GroupSafety`, `GroupTheorems`, `GroupLimits`, `GroupViews`,
  `ConcurrencyManager`): counting semaphores whose limit is swapped live, re-binding waiters, and the advisory holder and waiter
  lists, as atomic steps that interleave freely.
- **The CI reload gate** (`GateModel`, `GateSafety`, `GateOrder`, `GateDecisions`, `ReloadGate`):
  what may be checked out and served. Every external effect (git reset, state write, fleet load) is a step of
  its own, a crash can fall between any two, and polls overlap with deliveries.
- **The fleet load** (`Fleet`): a whole tree or nothing. `GateFleet`, `FleetSafety` and `FleetRuns` follow
  the fleet through every run of the gate and of the watcher's reloads, each of which reads a commit
  at one moment and writes five stores at later ones, between any two effects or writes of the gate.
- **The work queue and its dispatcher** (`QueueModel`, `QueueLaws`, `WorkQueue`).
- **The run archive and the merged listing** (`KeyCodec`, `Buckets`, `Archive`, `Listing`,
  `RunList`, `RunWalk`, `RunPages`, `RunStore`).
- **The manager inbox** (`InboxModel`, `InboxLaws`, `ManagerInbox`), **the run-owned locks**
  (`Locks`, `LockTable`) and **the batch backlog** (`BacklogModel`, `BacklogLaws`, `BacklogStore`).
- **Settings overrides** (`Pointer`, `SettingsTree`, `Settings`) and **JSONC stripping** (`Jsonc`).

Each component has a specification module made of values and functions, theorems about all of its
runs, and, where the source updates state step by step, a class or looping methods proved against
the specification. Main results are stated from the actions and the fields, so that they do not
merely repeat what the specification functions compute. Go's clock readings, random ids, file writes, git answers and load results are
parameters, so the theorems hold for all of them. Byte strings are `string`s, one character a byte.

## Where the code does not do what its documentation says

- `internal/concurrency/manager.go:304-310` promises `onQueue` a fresh view on every change. It fails in
  two ways. A named run that takes a slot on the fast path while others wait changes the holder list
  and tells nobody (`GroupViews.StaleViewRun`). And a caller without a run id, which lines 301-303
  allow, is told its view once and never again, whatever the holders do
  (`GroupViews.NamelessStaleRun`). `GroupViews.ViewsStayFreshUnless` and `GroupViews.ViewsFreshOverRuns`
  show that there is no third way.
- `internal/kv/lock.go:48` calls an expired lock free to `AcquireLock`. The code refuses with
  `ErrLockExpired` (`Locks.ExpiredIsNotFree`); `Locks.GrantedExactly` says when an acquire is granted.
- `internal/backlog/backlog.go:142-169` loads the file of a fully drained namespace, `null`, as a
  nil map, and the next push to that namespace panics. `BacklogLaws.DrainedReloadPanics` is the
  history, `BacklogLaws.PanicsExactly` says when it happens, and `BacklogLaws.NullForever` that the
  namespace stays unusable through any later calls and restarts.
- `internal/managers/inbox.go:336` overwrites the checked-out slot when two `Next` calls of one
  instance overlap; the first event is then never settled. `InboxLaws.OverlapLosesDelivery` is such a
  run from the start, and `InboxLaws.OverlapLosesExactly` says from which states it can happen.
- `internal/cli/loadapply.go:21-27` says that a load updates concurrency groups, scheduler and registry
  atomically. Nothing locks the load: the watcher (`internal/cli/serve.go:306-323`,
  `internal/hooks/watcher.go:74-77`) runs it beside the gate and beside itself. A reload that read one
  commit can swap it in after the gate has moved to another and loaded that
  (`FleetRuns.LateSwapServesOldCommit`), and one that is interrupted between its writes can leave the
  schedules of one commit beside the hooks of the other (`FleetRuns.StraddlingReloadMixes`).
  `FleetSafety.StoresAreCommits` says exactly when a store is left behind HEAD,
  `FleetSafety.FleetIsOneCommit` and `FleetSafety.WholeExactly` when the fleet is one commit's.
- `README.md:318` promises that pages tile with no gap when a client goes on from the oldest `started`
  it holds. The unpaged window shows every active run, so an active run older than a finished run
  the window cut off makes the walk skip that run (`RunWalk.WalkMissesRuns`).
  `RunWalk.WindowWalkExact` says exactly when the walk is complete.
- `internal/hooks/settingsoverride.go:191` and `:225` read array indices with `strconv.Atoi`, so
  "0" and "00" name one element: the later pin wins (`Settings.AliasOverwrites`), and a shallow pin
  can be applied after a deeper one and bury it (`Settings.AliasBuriesDeeper`).
  `SettingsTree.UndisturbedExactly` says when two places are independent.
- `internal/runstore/runstore.go:122-157`: an id recorded again under another time or hook leaves
  stale index rows (`Archive.ReusedIdDisagrees`); ids are fresh in practice.

## Model

| member | source | states |
|---|---|---|
| `GroupTheorems.TokenAccounting` | internal/concurrency/manager.go:316-418 | after any interleaving each semaphore ever created holds one token per acquire that took from it and has not returned it, never more than its limit, so a release never blocks |
| `GroupTheorems.RunningWithinLimit` | internal/concurrency/manager.go:192-274 | a group's running count is at most the effective limit plus what still runs on semaphores that swaps retired |
| `GroupTheorems.SwapOvershoots` | internal/concurrency/manager.go:231-252 | why the previous bound needs its second term: lowering a limit under two holders admits a third |
| `GroupTheorems.RetiresOnlyCurrent` | internal/concurrency/manager.go:206-223 | a retired channel is closed at most once, only when its semaphore stops being current |
| `GroupTheorems.NoStrandedWaiter` | internal/concurrency/manager.go:350-402 | a blocked acquire can re-bind if its semaphore was replaced; otherwise it is stuck exactly while as many others own a slot as the effective limit allows |
| `GroupTheorems.SwapAdmitsWaiter` | internal/concurrency/manager.go:376-398 | after a limit change a queued run gets a slot of the new semaphore without any release |
| `GroupTheorems.AdvisoryAgreement` | internal/concurrency/manager.go:330-368 | tokens over all semaphores equal listed holders plus unregistered takers and anonymous holders minus undropped returners |
| `GroupTheorems.ListedRuns` | internal/concurrency/manager.go:95-114 | a run id is listed as often as it has calls holding or returning a slot |
| `GroupTheorems.WaitingLine` | internal/concurrency/manager.go:116-152 | the waiting list is exactly the named queued acquires in registration order and the reported positions are 1..n |
| `GroupLimits.LimitInForce` | internal/concurrency/manager.go:192-274 | after every run a group has a semaphore exactly if the last configuration declares it; it remembers that declared limit even under an override, and its limit is the standing override or else the declared one |
| `GroupLimits.SwapsExactlyOnChange` | internal/concurrency/manager.go:206-223 | a semaphore with its holders is kept across a step if and only if the limit in force stays |
| `GroupLimits.AcquireOutcome` | internal/concurrency/manager.go:316-348 | a new acquire fails for an undeclared group, has a slot at once if fewer than the limit in force run on the current semaphore, and queues otherwise |
| `GroupLimits.RebindOutcome` | internal/concurrency/manager.go:376-401 | a waiter woken by a swap is refused if the group is gone, and else admitted or queued by the same rule |
| `GroupLimits.CallOutcome` | internal/concurrency/manager.go:361-415 | a cancelled acquire ends as cancelled, a taken slot as held on its semaphore, a release as released |
| `GroupViews.ViewsStayFreshUnless` | internal/concurrency/manager.go:301-310 | once every queued caller with a callback has a current view, run id or not, a step keeps it so if and only if it is neither a named fast-path take while a listed waiter watches nor a change of the holders while a caller without a run id watches |
| `GroupViews.HoldersChange` | internal/concurrency/manager.go:95-114 | which steps change the holder list |
| `GroupViews.ViewsFreshOverRuns` | internal/concurrency/manager.go:301-310 | from the start, all views are current after every step of a run if and only if no step of it is one of those two |
| `GroupViews.StaleViewRun` | internal/concurrency/manager.go:330-338 | a run after which a waiter's last view misses a holder |
| `GroupViews.NamelessStaleRun` | internal/concurrency/manager.go:340-347 | a run after which a queued caller without a run id still sees a holder that has gone |
| `GroupViews.NotifyingStepIsFresh` | internal/concurrency/manager.go:154-165 | every step that shortens the line or drops a holder refreshes all listed waiters' views |
| `GroupSafety.StepKeeps` | internal/concurrency/manager.go:316-418 | each of the fourteen atomic steps keeps the token, limit, line and holder invariants |
| `ConcurrencyManager.Manager.Update` | internal/concurrency/manager.go:192-226 | every group ends reconfigured as the new configuration says, undeclared ones without a semaphore; `GroupLimits.LimitInForce` says what that means over runs |
| `ConcurrencyManager.Manager.SetLimitOverride` | internal/concurrency/manager.go:231-252 | limits below 1 are refused without change; otherwise the override is recorded and the semaphore kept or swapped |
| `ConcurrencyManager.Manager.ClearLimitOverride` | internal/concurrency/manager.go:257-274 | the declared limit is back in force |
| `ConcurrencyManager.Manager.BeginAcquire` | internal/concurrency/manager.go:316-348 | an empty group gates nothing; otherwise fails, takes a slot at once or joins the line, and tells a watching caller its view |
| `ConcurrencyManager.Manager.RegisterTaken` | internal/concurrency/manager.go:361-368 | the taker leaves the line, joins the holders and everyone waiting is told |
| `ConcurrencyManager.Manager.FinishCancelled` | internal/concurrency/manager.go:369-375 | a cancelled acquire leaves the line and holds nothing |
| `ConcurrencyManager.Manager.RebindWaiter` | internal/concurrency/manager.go:376-401 | re-binds to the current semaphore, takes a free slot there, or fails if the group is gone |
| `ConcurrencyManager.Manager.DropReturned` | internal/concurrency/manager.go:411-415 | the releasing run leaves the holder list and the line is told |
| `ConcurrencyManager.DropHolderFrom` | internal/concurrency/manager.go:102-114 | removes the first occurrence of the id, and nothing for an empty or absent one |
| `ConcurrencyManager.DropWaiterFrom` | internal/concurrency/manager.go:116-130 | removes the waiter's record |
| `ConcurrencyManager.QueueStateOf` | internal/concurrency/manager.go:132-152 | the holders and the waiter's 1-based place, 0 if it is not in line |
| `ConcurrencyManager.NotifyWaiters` | internal/concurrency/manager.go:154-165 | every listed waiter with a callback gets the current view, nobody else's changes |
| `ConcurrencyManager.ReachableIsOpen` | internal/concurrency/manager.go:206-223 | in every reachable state the current semaphore is open, so closing it cannot panic |
| `GateSafety.VouchingSafety` | internal/reloadgate/gate.go:255-405 | through overlapping polls, failed writes, crashes and restarts, `verified` in memory and on disk holds only for commits reported green or forced by an operator |
| `GateSafety.AutomaticServesGreen` | internal/reloadgate/poll.go:34-141 | at every effect of a delivery, poll or watcher reload the served commit is the old one or one reported green |
| `GateSafety.RecordMatchesTree` | internal/reloadgate/startup.go:58-112 | after every completed operation and startup, crashes included, the recorded commit is empty or HEAD |
| `FleetRuns.RegistryIsCleanCommit` | internal/reloadgate/apply.go:27-97 | in every run of the gate and of reloads between its operations, crashes and failed rollbacks included, the registry of a running process is the load of one commit that loads cleanly, and it is HEAD exactly when HEAD loads if and only if HEAD does not load or no swap of another clean commit, read before the last tree move, was the last load |
| `FleetSafety.StoresAreCommits` | internal/cli/loadapply.go:81-166 | over every run, with any number of reloads reading and writing between any two effects of a gate operation and any two writes of its load, each of the five stores is empty or holds its part of one clean commit, which is HEAD exactly when HEAD loads, if and only if HEAD does not load or no reload that read another commit before the last tree move wrote the store last |
| `FleetSafety.HeadUnlessLate` | internal/cli/loadapply.go:81-166 | after every run in which no write of a commit read before the last tree move follows that move, a store is HEAD's exactly when HEAD loads |
| `FleetSafety.FleetIsOneCommit` | internal/cli/loadapply.go:21-27 | whenever nobody is writing and no load has straddled the last one that began alone, the fleet is nothing or, store by store, the groups, hooks, managers (registered and supervised) and interval schedules of one clean commit |
| `FleetSafety.WholeExactly` | internal/cli/loadapply.go:158-166 | after any run the fleet is the whole of a commit if and only if every store agrees with it where it was last written from |
| `GateFleet.WriteSettlesExactly` | internal/cli/loadapply.go:158-166 | writing a commit read earlier keeps a store in step with HEAD if and only if it is HEAD or HEAD does not load |
| `FleetRuns.LateSwapServesOldCommit` | internal/cli/serve.go:306-323 | for any two commits that load, a run after which tree and record are at one and the fleet is the other's |
| `FleetRuns.StraddlingReloadMixes` | internal/cli/loadapply.go:21-27 | a run after which the groups and schedules are of one commit and the hooks and managers of another |
| `FleetRuns.SwapAlone` | internal/cli/loadapply.go:158-166 | a reload whose writes nothing interrupts leaves its commit whole, whatever was there |
| `FleetRuns.GateLoadAlone` | internal/reloadgate/apply.go:66-97 | so does a gate load that no reload interrupts |
| `FleetRuns.FleetIsRegistry` | internal/reloadgate/apply.go:66-97 | with reloads that read at once and swap at once between gate operations, the fleet is the load of the registry's commit that the gate's steps record |
| `GateSafety.SwitchEnds` | internal/reloadgate/gate.go:376-404 | the four ways a switch ends: all three on the new commit, all three rolled back with the old verified flag, rolled back but not loadable, or stuck |
| `GateSafety.FleetFallsBehindExactly` | internal/reloadgate/apply.go:66-97 | one operation that starts with fleet and tree agreeing parts them exactly when its commit does not load and cannot be rolled back, or it swaps in a commit read before the tree moved on |
| `GateSafety.PrunedBounds` | internal/reloadgate/verdicts.go:40-59 | pruning keeps only recorded, unexpired verdicts, at most the cap; it drops an unexpired one only if that many newer or equally old ones stay |
| `GateOrder.InOrderIsNewer` | internal/reloadgate/gate.go:350-375 | a commit that passes the ordering rule is not older than the serving one, also when that has left the 100-commit window |
| `GateOrder.MonotoneDeploys` | internal/reloadgate/gate.go:337-405 | on a linear append-only branch no sequence of deliveries and polls in one process serves an older commit than before |
| `GateDecisions.InOrderExactly` | internal/reloadgate/gate.go:361-375 | a green passes if and only if its commit is in the fetched history and the serving one does not stand ahead of it |
| `GateDecisions.InOrderByPosition` | internal/reloadgate/gate.go:350-375 | on a linear branch: if and only if it is one of the newest hundred and not older than the serving commit |
| `GateDecisions.GreenDeploys` | internal/reloadgate/gate.go:337-405 | such a green, if git resets and the commit loads, ends served, checked out, loaded, verified and on disk |
| `GateDecisions.NewerGreenDeploys` | internal/reloadgate/gate.go:337-405 | so on a linear branch every newer commit of the last hundred is deployed by its green |
| `GateDecisions.OtherGreensIgnored` | internal/reloadgate/gate.go:361-379 | every other green for another commit, and a failed reset, has no effect at all |
| `GateDecisions.GreenVerifiesServing` | internal/reloadgate/gate.go:337-349 | a green for the serving commit sets its verified flag, persists it once and moves nothing |
| `GateDecisions.SwitchWritten` | internal/reloadgate/gate.go:376-404 | a switch keeps the pending commit if and only if it stands ahead of the one switched to; the file holds the new record, or after a rollback that could write, the old one |
| `GateDecisions.PushHolds` | internal/reloadgate/gate.go:193-243 | a push of another tip leaves it pending with state "pending", in memory and on disk; of the serving one, nothing pending |
| `GateDecisions.RedHolds` | internal/reloadgate/gate.go:313-333 | a red replaces the hold exactly for the pending commit, or for another than the serving one if none is pending |
| `GateDecisions.VerdictRecalled` | internal/reloadgate/verdicts.go:21-59 | below the cap a recorded verdict is what is recalled for its commit at that time |
| `GateDecisions.BootRestores` | internal/reloadgate/startup.go:76-93 | a start serves the recorded commit again, with its verified flag, if it is checked out or can be fetched and reset to; the file still says so |
| `GateDecisions.BootFallsToTip` | internal/reloadgate/startup.go:94-112 | only if it cannot, the branch tip, unverified and written down |
| `GateDecisions.BootServesTree` | internal/reloadgate/startup.go:100-106 | only if that fails too, what is checked out, unverified, with the record of the last good commit kept |
| `GateDecisions.BootFresh` | internal/reloadgate/startup.go:58-75 | with nothing recorded, what is checked out, unverified and written down |
| `GateDecisions.GreenStatusDeploys` | internal/reloadgate/gate.go:255-310 | a green status delivery deploys its commit |
| `GateDecisions.GreenPollDeploys` | internal/reloadgate/poll.go:73-88 | a poll that reads green deploys the tip |
| `GateDecisions.RedPollHolds` | internal/reloadgate/poll.go:89-100 | a poll that reads red leaves the tip held as red, whatever was pending, and moves nothing |
| `GateDecisions.PendingPollHolds` | internal/reloadgate/poll.go:101-110 | a poll that reads anything else leaves the tip pending and moves nothing |
| `GateDecisions.BlindPollRecalls` | internal/reloadgate/poll.go:122-141 | a poll that cannot read goes by the recorded unexpired verdict, and does nothing without one |
| `GateDecisions.CurrentPollSettles` | internal/reloadgate/poll.go:46-59 | a poll that finds the serving commit at the tip leaves nothing pending |
| `GateDecisions.PickExactly` | internal/reloadgate/manual.go:139-200 | an operator's pick is applied exactly if it is overridden or green with sources, and otherwise leaves no trace |
| `ReloadGate.Gate.ApplyOrRollback` | internal/reloadgate/apply.go:66-97 | loads, or resets, restores serving and verified (not pending), persists and reloads, in that order |
| `ReloadGate.Gate.ForceApply` | internal/reloadgate/apply.go:27-64 | an operator's switch has exactly its listed effects; on success tree, record and fleet are on the commit |
| `ReloadGate.Gate.TrySwitchTo` | internal/reloadgate/gate.go:337-405 | a green verifies what serves; for another commit it is ignored exactly if the commit is not in the fetched history or the serving one stands ahead of it, and switches otherwise if git can reset |
| `ReloadGate.Gate.HandlePush` | internal/reloadgate/gate.go:193-243 | a push of another tip than the serving one is held as pending, of the serving one clears the hold; the tree never moves |
| `ReloadGate.Gate.HoldOnRed` | internal/reloadgate/gate.go:313-333 | a red is held exactly for the pending commit, or for one other than serving if none is pending, and never moves the tree |
| `ReloadGate.Gate.RecordVerdict` | internal/reloadgate/verdicts.go:21-38 | upserts, prunes and persists the verdict |
| `ReloadGate.Gate.Startup` | internal/reloadgate/startup.go:19-56 | the effects of a start in order; the recorded commit comes back with its verified flag if it is checked out or can be fetched and reset to, else the tip unverified, else HEAD unverified |
| `ReloadGate.Gate.Restore` | internal/reloadgate/startup.go:76-112 | stays on or resets to the last good commit, verified flag and file untouched; only if that fails the tip, and only if that fails HEAD, both unverified |
| `ReloadGate.ClassifyStatus` | internal/reloadgate/gate.go:255-310 | which status deliveries count as green and which as red, with the truncated branch list |
| `ReloadGate.FindIndex` | internal/reloadgate/gate.go:555-566 | the first position of a commit, -1 exactly if it is empty or absent |
| `ReloadGate.Upsert` | internal/reloadgate/verdicts.go:21-38 | replaces the commit's verdict in place or appends it |
| `ReloadGate.PruneVerdicts` | internal/reloadgate/verdicts.go:40-59 | drops the expired, then the oldest until the cap holds |
| `Fleet.Runner.LoadAndApply` | internal/cli/loadapply.go:81-185 | exactly which faults refuse a tree, without any change; a tree with none has all its groups, hooks and managers served and supervised, and a schedule for each hook with an interval |
| `Fleet.CleanIsCoherent` | internal/cli/loadapply.go:89-122 | a tree that is applied has no dangling group or spawn target, no ambiguous id, and a schedule for exactly the hooks with an interval |
| `Fleet.CleanExactly` | internal/cli/loadapply.go:89-145 | a tree is refused for no other reason: read without error, it is applied exactly if serving all of it leaves nothing dangling or ambiguous |
| `QueueLaws.SchedulingLaw` | internal/queue/queue.go:227-270 | from the actions alone: a key is outstanding from an accepted enqueue until it fires, is deleted or pruned, and is due at the earliest `now + delay` asked for since, or MinInterval after its last fire if that is later; it keeps the first enqueue time, the count and the newest payload |
| `QueueLaws.EarliestIsLeast` | internal/queue/queue.go:259-262 | the earliest time asked for is one of those asked for, and no later than any |
| `QueueLaws.FiresSpaced` | internal/queue/queue.go:347-385 | for any clock readings two successive fires of a key that is not pruned in between are MinInterval apart |
| `QueueLaws.EnqueuesConserved` | internal/queue/queue.go:227-270 | each successful enqueue is counted once, in the outstanding, a fired or a dropped entry |
| `QueueLaws.NamespaceBounded` | internal/queue/queue.go:277-285 | no namespace ever exceeds MaxPerNamespace |
| `QueueLaws.NoLostWakeup` | internal/queue/dispatcher.go:79-119 | over every run, restarts included, whenever the loop is blocked and an entry is due, the wake slot is full, the timer has expired or a committed enqueuer will still signal |
| `QueueLaws.ArmedFor` | internal/queue/dispatcher.go:86-101 | the timer is armed for now if what was read is due, and otherwise for the sooner of that and the idle bound |
| `QueueLaws.EntryKeyRoundTrip` | internal/queue/queue.go:184-191 | a storage key decodes to its entry if and only if the namespace has no NUL |
| `QueueLaws.EntryKeyInjective` | internal/queue/queue.go:184-191 | accepted keys never collide in the bucket |
| `QueueLaws.PrefixSelectsNamespace` | internal/queue/queue.go:277-285 | the prefix test selects exactly one namespace |
| `WorkQueue.Queue.Enqueue` | internal/queue/queue.go:207-275 | each refusal by its reason; otherwise the entry field by field: `now + delay` under the MinInterval floor, never later than it was, first time kept, newest payload |
| `WorkQueue.Queue.Claim` | internal/queue/queue.go:347-385 | removes and stamps exactly the entries due by now, returns each once by due time, and leaves the rest as they are |
| `WorkQueue.Queue.NextDue` | internal/queue/queue.go:388-403 | the least due time, none exactly for an empty queue |
| `WorkQueue.Queue.NamespaceCount` | internal/queue/queue.go:277-285 | how many entries the namespace has |
| `WorkQueue.Queue.Delete` | internal/queue/queue.go:296-302 | the entry is gone, its fire stamp is not |
| `WorkQueue.Queue.PruneNamespaces` | internal/queue/queue.go:409-433 | keeps exactly the entries and stamps of live namespaces; an empty set prunes nothing |
| `WorkQueue.Queue.SignalWake` | internal/queue/queue.go:436-441 | the slot is full afterwards and the call never blocks |
| `KeyCodec.KeyRoundTrip` | internal/runstore/runstore.go:463-477 | splitKey inverts timeKey if and only if the time is not before the epoch |
| `KeyCodec.KeyOrder` | internal/runstore/runstore.go:463-465 | byte order of index keys is order by time, then id |
| `KeyCodec.SeekSeparates` | internal/runstore/runstore.go:285-293 | the seek key separates strictly older keys from the rest, for every instant |
| `KeyCodec.SummaryRoundTrip` | internal/runstore/runstore.go:480-509 | a summary reads back if and only if its status has no space and its start is not the epoch |
| `KeyCodec.HookIsNoSummary` | internal/runstore/runstore.go:259-264 | a bytime value is never mistaken for a summary |
| `Archive.RecordAgrees` | internal/runstore/runstore.go:122-157 | recording a fresh id, or an id again with the same time and hook, keeps the four buckets in agreement |
| `Archive.ReusedIdDisagrees` | internal/runstore/runstore.go:122-157 | any other reuse of an id breaks it |
| `Archive.SweepAgrees` | internal/runstore/runstore.go:367-444 | a sweep keeps the agreement |
| `Archive.SweepKeepsNewest` | internal/runstore/runstore.go:367-444 | a sweep leaves each hook exactly its newest unexpired runs up to the cap, although the passes overlap |
| `Archive.ArchiveAgrees` | internal/runstore/runstore.go:122-157 | after any records and sweeps meta, bytime and the per-hook buckets describe the same terminal runs |
| `Archive.ArchiveAlwaysAgrees` | internal/runstore/runstore.go:77-114 | so from the empty archive on the buckets always agree |
| `Listing.SeekBefore` | internal/runstore/runstore.go:285-293 | lands on the newest key strictly older than the instant |
| `Listing.CollectBefore` | internal/runstore/runstore.go:244-282 | the walk that rejects on the index summary returns what filtering full metadata and cutting to max returns |
| `Listing.AgreeingIndexes` | internal/runstore/runstore.go:244-282 | agreeing buckets give the walk the order and the true statuses it relies on |
| `RunList.FastEqualsFull` | internal/server/runlist.go:165-222 | asking the store for max rows gives the page that asking for all rows gives |
| `RunList.FullEqualsSimple` | internal/server/runlist.go:165-222 | filtering before deduplicating gives what deduplicating first gives |
| `RunList.FastEqualsSimple` | internal/server/runlist.go:165-222 | the merged listing is the simple specification: deduplicate, filter, sort, cut |
| `RunList.ActiveAlwaysShown` | internal/server/runlist.go:146-160 | an unpaged listing contains every active run that is not excluded |
| `RunWalk.PageIsOlder` | internal/server/runlist.go:155-160 | a history page is the newest max rows of the history older than the cursor |
| `RunWalk.CursorVisitsAll` | internal/server/runlist.go:155-160 | a walk over mergedRuns' history pages from any instant shows every older run exactly once, in order |
| `RunWalk.WalkEnds` | internal/server/runlist.go:155-160 | such a walk always reaches an empty page |
| `RunWalk.WindowWalkShows` | README.md:318 | the documented walk shows the unpaged window and then everything older than its oldest row |
| `RunWalk.WindowWalkExact` | README.md:318 | it shows the whole history, in order and once, if and only if the window cut nothing off or every active run is newer than the newest row it cut off |
| `RunWalk.WindowWalkDescends` | README.md:318 | its pages never overlap, complete or not |
| `RunWalk.WalkMissesRuns` | internal/server/runlist.go:150-160 | the family of failing walks: one active run older than more than max finished ones |
| `RunPages.PageExactly` | internal/server/runlist.go:146-222 | a page is newest first and holds only runs that are live, or stored without a live copy, within cursor and filter; it leaves one out only if it counts and max others that count, none older, are shown |
| `RunPages.PageShowsOnce` | internal/server/runlist.go:197-205 | and shows none more often than it is live, or if it is not, stored |
| `RunPages.HistoryExactly` | internal/server/runlist.go:165-222 | the history that walks are measured by is every such run, newest first |
| `RunPages.FullExactly` | internal/runstore/runstore.go:244-282 | the listing of an index shows exactly the runs on record whose row is unexpired, before the cursor, and of a status wanted |
| `RunPages.StoredExactly` | internal/runstore/runstore.go:202-242 | over agreeing buckets the store contributes exactly the unexpired runs on record, of the hook if one is named |
| `RunPages.SweepSpares` | internal/runstore/runstore.go:425-444 | a sweep leaves metadata and output of what it keeps untouched |
| `RunStore.Store.Record` | internal/runstore/runstore.go:122-157 | a terminal run goes to every bucket, its output only if there is some; any other is refused |
| `RunStore.Store.Sweep` | internal/runstore/runstore.go:367-444 | collecting and then deleting victims one by one is the sweep and keeps agreement; the count adds both passes, so a victim of both counts twice |
| `RunStore.SurplusRows` | internal/runstore/runstore.go:400-424 | per hook exactly the rows below the newest MaxPerHook |
| `RunStore.ExpiredRows` | internal/runstore/runstore.go:383-398 | the expired prefix of the chronological bucket |
| `RunStore.SummariesByHook` | internal/runstore/runstore.go:303-337 | the index alone tells of every retained run what its metadata would |
| `RunStore.MergedRuns` | internal/server/runlist.go:165-222 | mergedRuns over the store's own walk returns the simple specification's page |
| `RunStore.Partition` | internal/server/runlist.go:173-196 | the active rows, the capped rows and the ids seen |
| `InboxLaws.Conservation` | internal/managers/inbox.go:249-353 | over every interleaving events leave in push order and each pushed event is in exactly one of queued, checked out, finished, overwritten |
| `InboxLaws.SerialConservation` | internal/managers/inbox.go:279-353 | with one Next in flight per instance nothing is overwritten and what was pushed is, in order, finished, checked out, queued |
| `InboxLaws.OverlapLosesExactly` | internal/managers/inbox.go:323-345 | no later serial run overwrites an event if and only if each instance has at most one Next in flight and none of the bound one while an event is out |
| `InboxLaws.OverlapLosesDelivery` | internal/managers/inbox.go:279-345 | a run from the start in which two overlapping calls of one instance overwrite a delivery |
| `InboxLaws.LostNeverSettles` | internal/managers/inbox.go:336 | an overwritten event is never settled |
| `InboxLaws.SettlesOnce` | internal/managers/inbox.go:71-85 | each delivery has at most one settle call, made or owed, and its handle shows its fate |
| `InboxLaws.FinishedBy` | internal/managers/inbox.go:146-188 | an event is finished only out of the slot: processed by its receiver's next Next, abandoned by bind or unbind |
| `InboxLaws.TicksCoalesce` | internal/managers/inbox.go:233-242 | with non-overlapping PushTick calls at most one tick is queued and the flag says whether |
| `InboxLaws.StepKeeps` | internal/managers/inbox.go:249-353 | every critical section keeps order, accounting, parking and settling |
| `ManagerInbox.Delivered.Settle` | internal/managers/inbox.go:71-85 | the first call decides, later ones change nothing |
| `ManagerInbox.Inbox.Push` | internal/managers/inbox.go:249-269 | appends, flags a tick, and arms the watchdog exactly for a live, idle, absent consumer |
| `ManagerInbox.Inbox.BindInstance` | internal/managers/inbox.go:146-160 | the slot is emptied and its event handed back to be abandoned |
| `ManagerInbox.Inbox.UnbindInstance` | internal/managers/inbox.go:174-188 | likewise, with no instance left bound and the queue untouched |
| `ManagerInbox.Inbox.BeginNext` | internal/managers/inbox.go:280-294 | refuses a foreign or empty instance without change; otherwise the checked-out event is the caller's finished one |
| `ManagerInbox.Inbox.TryNext` | internal/managers/inbox.go:323-352 | when it is stale, pops the head, gives up or keeps waiting, and what each leaves |
| `Locks.HoldHistory` | internal/kv/lock.go:151-188 | every hold goes back to one granted take with its acquiredAt, is pinned exactly if the owner's last word was a pin, and expires as its latest take said |
| `Locks.TenureEnded` | internal/kv/lock.go:110-274 | a run that lost a key lost it to a steal of an unpinned or expired hold, its own release, the release of all its locks or a reap of an expired hold |
| `Locks.EndsExactly` | internal/kv/lock.go:151-274 | those calls end a tenure and no others do |
| `Locks.PassesByStealOnly` | internal/kv/lock.go:151-188 | a key passes straight from one run to another only by such a steal |
| `Locks.HoldEvolves` | internal/kv/lock.go:110-188 | within a tenure acquiredAt never changes and only the owner's calls move pin and expiry |
| `Locks.TakenFromFree` | internal/kv/lock.go:170-187 | a free key becomes held only by a granted take that names it |
| `Locks.GrantedExactly` | internal/kv/lock.go:151-188 | a take is granted if and only if the key is free with room for its namespace, is the run's own, or is stolen while unpinned or expired |
| `Locks.TakeLasts` | internal/kv/lock.go:134-187 | a granted take expires after the time it asks for, or after 15 minutes if it asks for none; a first take is the run's from now, pinned as asked |
| `Locks.ExpiredIsNotFree` | internal/kv/lock.go:155-159 | after another run's take, an acquire is refused with ErrLockExpired however late it comes, and changes nothing |
| `Locks.AfterSound` | internal/kv/lock.go:170-176 | over every history namespaces stay within MaxNamespaces and every lock has an owner |
| `LockTable.LockStore.TakeLock` | internal/kv/lock.go:49-97 | acquire, take-and-pin and steal: when each is granted, with which owner, take time, expiry and pin; which refusal otherwise, naming which holder and changing nothing |
| `LockTable.LockStore.PinLock` | internal/kv/lock.go:110-132 | which refusal and when; else the pin alone changes, for the owner only |
| `LockTable.LockStore.ReleaseLock` | internal/kv/lock.go:191-211 | which refusal and when; else the owner's lock alone goes and its namespace stays |
| `LockTable.LockStore.ReapExpiredLock` | internal/kv/lock.go:214-231 | drops the lock exactly if it is expired and still the named holder's |
| `LockTable.LockStore.ReleaseRunLocks` | internal/kv/lock.go:234-254 | frees exactly the run's locks, counts them, and drops empty namespaces |
| `LockTable.LockStore.ReapExpiredLocks` | internal/kv/lock.go:257-274 | drops exactly the expired locks of runs that are gone, nothing without a liveness oracle |
| `BacklogLaws.Conservation` | internal/backlog/backlog.go:175-289 | under any failed writes, crashes after any effect and restarts, what left a queue followed by what it holds is what the pushes that reached its file added, in order |
| `BacklogLaws.AtMostOnce` | internal/backlog/backlog.go:20-23 | so every accepted item was handed out once, lost once in a crash of the very take that removed it, or is still held; without such a crash, in order |
| `BacklogLaws.AfterAgrees` | internal/backlog/backlog.go:231-287 | after every call memory and disk agree on every queue, and no queue has duplicates or exceeds MaxDepth |
| `BacklogLaws.MergedLaw` | internal/backlog/backlog.go:210-229 | a push keeps queued items in place, adds no duplicate, respects the depth, and leaves out an item only at the depth |
| `BacklogLaws.MergedUnion` | internal/backlog/backlog.go:15-19 | below the depth a push is a set union |
| `BacklogLaws.RePush` | internal/backlog/backlog.go:15-19 | pushing the same candidates again changes nothing |
| `BacklogLaws.MergedExactly` | internal/backlog/backlog.go:210-229 | a push appends the items not queued yet, each once, in the order offered, as many as fit |
| `BacklogLaws.PushExactly` | internal/backlog/backlog.go:175-240 | exactly which pushes succeed, what the queue then is in memory and on disk, and that any other changes nothing |
| `BacklogLaws.TakeExactly` | internal/backlog/backlog.go:245-289 | a written take leaves the queue without its first count items, in memory and on disk; any other changes nothing |
| `BacklogLaws.NoPanicInOneProcess` | internal/backlog/backlog.go:194-228 | without a restart no push meets a nil map |
| `BacklogLaws.DrainedReloadPanics` | internal/backlog/backlog.go:142-169 | push, take, restart: the next push panics, for every namespace, queue and item |
| `BacklogLaws.PanicsExactly` | internal/backlog/backlog.go:194-228 | an acceptable push panics if and only if the namespace is in memory and its file is null |
| `BacklogLaws.NullForever` | internal/backlog/backlog.go:142-169 | such a namespace stays so through all later calls and restarts |
| `BacklogStore.Backlog.Push` | internal/backlog/backlog.go:175-240 | which error, which panic, the counts, and that a failed write is rolled back completely |
| `BacklogStore.Backlog.Rollback` | internal/backlog/backlog.go:313-326 | restores the queue, and removes a queue or namespace just made |
| `BacklogStore.Backlog.Take` | internal/backlog/backlog.go:245-289 | the min(count, depth) items at the head and how many are left; refused exactly for bad names or a failed write that had something to remove, and then nothing changes |
| `BacklogStore.AddItems` | internal/backlog/backlog.go:210-229 | the merged queue, and counts that add up with duplicates counted exactly |
| `BacklogStore.CheckItems` | internal/backlog/backlog.go:182-189 | no error exactly if every item is acceptable, and else the first bad item's |
| `Pointer.ParsePointer` | internal/hooks/settingsoverride.go:159-173 | splitting and the two replacement passes give the one-pass decoding of the tokens |
| `Pointer.UnescapeDecodes` | internal/hooks/settingsoverride.go:168-171 | the two passes in this order decode every string as one left-to-right pass does |
| `Pointer.PointerRoundTrip` | internal/hooks/settingsoverride.go:159-173 | parsing inverts the escaping of section 3 of RFC 6901 |
| `Pointer.PointerRewrite` | internal/hooks/settingsoverride.go:159-173 | a pointer is rewritten identically if and only if it obeys the escape grammar |
| `Pointer.ExtensionSortsLater` | internal/hooks/settingsoverride.go:130-137 | sorted order puts a pointer before any whose tokens extend it |
| `SettingsTree.SetWhereGet` | internal/hooks/settingsoverride.go:208-252 | a write succeeds exactly where a read resolves, so nothing is created |
| `SettingsTree.ReadsItem` | internal/hooks/settingsoverride.go:189-195 | the decimal number of an array position reads that item, and nothing beyond the end |
| `SettingsTree.ReadsField` | internal/hooks/settingsoverride.go:183-188 | a field name reads that field of an object, and nothing if there is none |
| `SettingsTree.ReadWritten` | internal/hooks/settingsoverride.go:208-252 | at and below the written place the new value is read |
| `SettingsTree.DivergingUntouched` | internal/hooks/settingsoverride.go:208-252 | every path that turns off elsewhere reads as before |
| `SettingsTree.StructureUntouched` | internal/hooks/settingsoverride.go:203-207 | every container not replaced keeps its fields or length |
| `SettingsTree.UndisturbedExactly` | internal/hooks/settingsoverride.go:182-200 | of two places that resolve, writing one leaves the other, whatever is written, if and only if their walks do not enter the same children as far as both go |
| `Settings.UnmetReadsBack` | internal/hooks/settingsoverride.go:42-81 | a pin that no later pin meets, in the document it is applied to, reads back after the merge |
| `Settings.TurnExactly` | internal/hooks/settingsoverride.go:53-65 | that condition is exact: a later pin leaves an earlier one's place, whatever value it carries, if and only if the two do not meet |
| `Settings.PinReadsBack` | internal/hooks/settingsoverride.go:42-81 | with canonical pointers a pin with no pin below it reads back after the merge |
| `Settings.DeeperAfter` | internal/hooks/settingsoverride.go:50-65 | a pin is applied after every pin whose place its path goes through |
| `Settings.OtherPathsUntouched` | internal/hooks/settingsoverride.go:5-13 | paths that diverge from every pin read as before the merge |
| `Settings.StructureKept` | internal/hooks/settingsoverride.go:9-13 | places no pin replaces keep their structure |
| `Settings.MergeSucceeds` | internal/hooks/settingsoverride.go:53-65 | pins that diverge from each other succeed together if and only if each resolves |
| `Settings.HasReferenceExactly` | internal/hooks/settingsoverride.go:120-128 | a pin is refused as a reference exactly if "${" occurs anywhere in its text |
| `Settings.AliasOverwrites` | internal/hooks/settingsoverride.go:242-247 | two spellings of one array index: the later pin wins |
| `Settings.AliasBuriesDeeper` | internal/hooks/settingsoverride.go:130-137 | a shallow pin spelled with another index text is applied after a deeper one and replaces it |
| `Settings.OrderUnique` | internal/hooks/settingsoverride.go:130-137 | the order of application does not depend on map iteration |
| `Settings.SortedPointers` | internal/hooks/settingsoverride.go:130-137 | all pointers, strictly sorted |
| `Settings.GetAtPointer` | internal/hooks/settingsoverride.go:176-201 | the value at the pointer, nothing where it does not resolve |
| `Settings.SetAtPointer` | internal/hooks/settingsoverride.go:208-252 | succeeds exactly where the pointer resolves, with the written document; otherwise names the first token that leads nowhere and why |
| `Settings.Overlay` | internal/hooks/settingsoverride.go:53-65 | applies all pins or names the first failing pointer in sorted order, and whether a reference, bad JSON or the pointer failed it |
| `Settings.Hook.ApplySettingsOverrides` | internal/hooks/settingsoverride.go:42-81 | any failure leaves settings and manifest unchanged; success is exactly merge plus schema; the manifest's document is never lost |
| `Jsonc.Strip` | internal/jsonc/jsonc.go:14-71 | the loop keeps exactly the pieces of the input that are not comments |
| `Jsonc.PiecesDivide` | internal/jsonc/jsonc.go:25-69 | every byte string divides into code, literals and comments |
| `Jsonc.DivisionUnique` | internal/jsonc/jsonc.go:25-69 | in one way only |
| `Jsonc.StrippedPieces` | internal/jsonc/jsonc.go:28-44 | nothing that is left fuses into a new comment |
| `Jsonc.StripIdempotent` | internal/jsonc/jsonc.go:14-71 | stripping twice is stripping once, on every byte string |
| `Jsonc.StripIdentity` | internal/jsonc/jsonc.go:10-13 | a text is unchanged if and only if no comment opens outside its literals |
| `Jsonc.LiteralsSurvive` | internal/jsonc/jsonc.go:10-13 | string literals survive byte for byte and in order |

## Left out

- HTTP handlers, SSE, dashboard, CLI, authentication and token code: input and output around the modelled state.
- git, docker, sops and ssh processes: git is HEAD plus a history, a fleet load is its result.
- `internal/concurrency/global.go`, `internal/scheduler`, the poller's ticking, `internal/events`, `internal/overrides`, `internal/spool`: delegation or one-step facts.
- `internal/kv/kv.go` entry operations: the write-through and rollback pattern of the backlog again.
- Logging, activity events, attention entries, `since` stamps and the poll's blind marker: no effect on the modelled state.
- Arm, disarm and the three select outcomes of a blocked acquire are steps of `Groups` only, since they are channel and atomic operations, not methods.
- ConcurrencyManager.Manager.BeginAcquire: a nil Manager, which fails closed, is not an object and is not modelled.
- FleetSafety.StoresAreCommits: a load reads the whole tree at one instant; a read that spans a tree move, and so mixes two commits, is not modelled.
- FleetRuns.RegistryIsCleanCommit: whether a commit loads is a function of the commit; loads that fail for a passing reason, such as an unreadable disk, are not modelled here (`GateSafety.SwitchEnds` covers every answer).
- `pruneQueue` deletes an empty advisory record; the model keeps it, which reads the same.
- ConcurrencyManager.Manager.Update: the source's loop over declared groups and its loop over undeclared ones are one loop over all names, which touches each name once as they do.
- Reconcile is the sequence of poll tasks of `GateModel`, not a method, because it drops the lock between its reads and writes; a watcher reload is two steps beside it.
- GateOrder.MonotoneDeploys: assumes git reports the branch as it is and the branch is append-only, as the ordering rule does; without this "older" has no meaning.
- Fleet.Runner.LoadAndApply: merging settings overrides into loaded entities is `Settings`, and never refuses a tree; the two are not composed. A refused load at startup ends the process, which the model leaves running without a fleet.
- Corrupt JSON rows in the queue and the run store, and bbolt's refusal of empty bucket names: bbolt transactions are atomic updates of sorted maps.
- Go's zero time used as a clock reading, and instants whose UnixNano overflows int64.
- RunStore.SummariesByHook: works on decoded summaries; `KeyCodec.SummaryRoundTrip` says when the bytes decode to them.
- RunStore.MergedRuns: the tracker's snapshots are a parameter, consistent with the persisted copies of the same runs, which is the fixed state the listing is promised for; attachWaiters is not modelled.
- The inbox watchdog's arming and disarming outside the lock, and tick coalescing under overlapping `PushTick` calls, where the flag check and the push are separate sections.
- Items that are not valid UTF-8, which Go's JSON encoder rewrites, and a MaxDepth lowered between restarts.
- Settings.SetAtPointer: the decoded document is a tree without sharing, so writing through a cursor is modelled as the tree with the value at that path replaced; update in place is not captured.
- JSON decoding and encoding of settings (numbers become float64) and JSON Schema validation are library calls; the schema is a parameter.
