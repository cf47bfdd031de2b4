# Verified models of QEMU's vCPU exclusive sections, block layer, jobs and image tools

This project models five stateful parts of QEMU in Dafny and proves what they promise over whole
runs, for every schedule, every graph and every image.

- **Exclusive sections** (`ExclusiveSection`, `ExclusiveProgress`). The stop-the-world lock of the vCPU threads as a state
  machine: one program counter per thread, one step per access to a shared variable, any number of
  threads, CPUs plugged and unplugged at any time.
- **Block graph** (`Reachability`, `BlockGraph`, `GraphWalks`, `Permissions`, `GraphEdits`,
  `Transactions`, `GraphChanges`, `GraphResults`, `BackingChains`, `FrozenChains`, `NewNodes`,
  `InheritedOptions`, `BlockLayer`). Nodes, edges with permission masks, `inherits_from`, reference counts and
  undo logs. `BlockLayer.Layer` is the mutable block layer; its
  methods follow the functions of `block.c`, and the specification functions on `Transactions.Txn` say
  what one step of a transaction does.
- **AioContext changes and inactivation** (`AioContexts`, `Inactivation`, `InactivationOrders`). The two
  graph traversals with side effects.
- **Jobs** (`JobPause`, `JobTransactions`). The pause count that four kinds of clients share, the
  transition table, and groups of jobs that complete together.
- **Image tools** (`Alignment`, `ImageBuffers`, `ImageCompare`, `ImageRebase`, `ConvertProtocol`,
  `ConvertProgress`, `ConvertChunks`). Comparison, safe rebase, and conversion by several coroutines.

Conventions. Lists of children and parents are sets, and code that walks such a list takes its
elements in an arbitrary order; inactivation, whose result depends on the order, adds it. What the
block layer, a driver or a callback answers is a function constant or a parameter, with its contract
stated where it is used. Assertions of the C code on graph, roles, references, permissions, chunks and jobs
are preconditions that the callers in the model discharge, or an explicit result such as `Tripped` or
`TooLarge` where they can fail; those on drained sections, locks and the calling thread are not part of the model.

Where the code does less than its comments or its design suggest, the model follows the code and says
exactly when:

- `is_allocated_sectors` is documented to return true only if the first sector is not zero; a zero run
  that ends inside an alignment unit is reported as allocated (`ImageBuffers.ZeroSectorReportedAllocated`;
  the contract of `IsAllocatedSectors` says exactly when).
- `bdrv_freeze_backing_chain` with a NULL base does not protect the end of the chain. An operation leaves the
  chain as it is if and only if its arguments spare the last node; otherwise the assertion of the later
  unfreeze trips (`FrozenChains.EndKeptExactly`, `FrozenChains.EndKeptOverRun`, `FrozenChains.EndCanGrow`).
- A job transaction is all-or-none except when the first `prepare` callback that fails belongs to another
  job than the one being finalized; then the finalized job is committed and the others are aborted
  (`JobTransactions.JobGroup.DoFinalize`, `JobTransactions.LateFailureSplitsGroup`).
- The abort of a job transaction never returns if another member was never started
  (`JobTransactions.JobGroup.Exit`, `JobTransactions.JobGroup.Cancel`, `JobTransactions.NeverStartedHangs`).
- A job that fails early can leave a group behind in which all jobs wait for each other
  (`JobTransactions.JobGroup.EarlyFail` says exactly when, `JobTransactions.EarlyFailStrands`).
- `bdrv_inactivate_recurse` asserts that the node is still active. It holds for every order of the lists if
  and only if no child edge of a node leads to something another child edge of it also leads to
  (`InactivationOrders.TripsExactly`, `InactivationOrders.TriangleTrips`).
- The assertion of `block_job_iostatus_reset_locked` fails if an error stop falls between the driver's
  `user_resume` callback and the rest of a resume or cancel (`JobPause.LateErrorTrips`).
- Safe rebase widens a region to whole units without regard to the size of its two buffers. It fits them if
  and only if the end of the region, rounded up to a unit and cut at the end of the image, is at most the
  buffer size after its start, rounded down (`ImageRebase.Rebaser.WidenRegion`, `ImageRebase.Rebaser.Rebase`,
  `ImageRebase.Rebaser.CutUnitTooLarge`).

## Model

| member | source | states |
|---|---|---|
| ExclusiveSection.MutualExclusion | qemu/cpu-common.c:181-319 | in every run, while one thread is in its exclusive section no other thread is in guest code or in an exclusive section |
| ExclusiveSection.PendingCounts | qemu/cpu-common.c:192-319 | whenever the list lock is free, `pending_cpus` is 0 with no `has_waiter` set, or 1 plus the number of CPUs with `has_waiter` |
| ExclusiveSection.NoLostWakeup | qemu/cpu-common.c:183-319 | whoever sleeps on one of the two condition variables still has the reason it went to sleep for |
| ExclusiveSection.CountedWillLeave | qemu/cpu-common.c:205-318 | every CPU counted in `pending_cpus` is between `cpu_exec_start` and the decrement in `cpu_exec_end` and does not sleep |
| ExclusiveSection.NoDeadlock | qemu/cpu-common.c:181-319 | if any thread is inside the protocol, some thread inside it can step |
| ExclusiveProgress.WaitShrinks | qemu/cpu-common.c:219-318 | while a thread awaits the CPUs it counted, nobody joins the count and no counted CPU gets further away from leaving it, over any stretch of any run |
| ExclusiveProgress.OwnStep | qemu/cpu-common.c:247-318 | every step of a counted CPU brings it one nearer to leaving, and the last one takes it off the count |
| ExclusiveProgress.OtherStep | qemu/cpu-common.c:181-319 | a step of any other thread leaves a counted CPU where it is and counts nobody new |
| ExclusiveProgress.CountedIsNear | qemu/cpu-common.c:247-318 | a counted CPU leaves after at most eight of its own steps |
| ExclusiveSection.RunInv | qemu/cpu-common.c:181-319 | the invariant of the protocol holds in every state of every run |
| ExclusiveSection.StepKeepsInv | qemu/cpu-common.c:181-319 | every step of every thread keeps the invariant |
| ExclusiveSection.PlugKeepsInv | qemu/cpu-common.c:82-96 | adding a CPU to the list at any time keeps the invariant |
| ExclusiveSection.UnplugKeepsInv | qemu/cpu-common.c:98-109 | removing an idle CPU from the list keeps the invariant |
| GraphWalks.RecurseHasChild | qemu/block.c:4299-4318 | true if and only if the second node is reachable from the first |
| GraphWalks.TopologicalDfs | qemu/block.c:2278-2312 | prepends part of the subtree so that no node occurs twice, every parent precedes its children and the list is closed under children |
| GraphWalks.SortSubtrees | qemu/block.c:2609-2621 | repeated searches give one topologically sorted list of exactly the subtrees of the roots |
| GraphWalks.SortedHoldsSubtrees | qemu/block.c:2278-2312 | a sorted list holds the whole subtree of each of its nodes |
| GraphWalks.ShouldUpdateChild | qemu/block.c:5198-5275 | false if and only if the edge is pinned or lies in the subtree of the new node |
| Permissions.RefreshMakesConsistent | qemu/block.c:2577-2599 | after a successful refresh of a sorted list every listed node is free of conflicts, accepts its cumulative masks, and its child edges carry the masks derived from them, all in the final graph |
| Permissions.RefreshFindsMasks | qemu/block.c:2577-2599 | if some choice of masks makes all listed nodes consistent, the refresh succeeds with it |
| Permissions.RefreshExact | qemu/block.c:2577-2599 | the refresh gives g' if and only if g' is the graph with other masks below the listed nodes in which all of them are consistent |
| Permissions.RefreshSubtrees | qemu/block.c:2609-2621 | the same for the subtrees of a list of roots |
| Permissions.RefreshedOutside | qemu/block.c:2609-2621 | outside of the refreshed subtrees no conflict appears or disappears |
| Permissions.NoNewConflict | qemu/block.c:2609-2621 | an edit that gives new parents only inside refreshed subtrees brings no conflict |
| GraphEdits.RedirectWf | qemu/block.c:2917-2984 | moving an edge keeps lists, slots and edges consistent with each other |
| GraphEdits.RedirectBack | qemu/block.c:2421-2447 | moving an edge back restores the whole graph |
| GraphEdits.RedirectAcyclic | qemu/block.c:2917-2984 | moving an edge to a node that does not reach its owner keeps the graph acyclic |
| GraphEdits.AttachBack | qemu/block.c:3010-3044 | detaching and freeing a new edge restores the whole graph |
| Transactions.ReplaceOpen | qemu/block.c:2468-2489 | redirecting an edge in a transaction keeps everything a transaction keeps: well-formed, acyclic, undoable to the start, every reference accounted for |
| Transactions.AttachOpen | qemu/block.c:3064-3156 | so does attaching a new edge |
| Transactions.MasksOpen | qemu/block.c:2335-2351 | so does setting the masks of an edge |
| Transactions.InheritsOpen | qemu/block.c:3303-3337 | so does changing inherits_from, as long as it closes no loop; following inherits_from always ends |
| Transactions.MarkerOpen | qemu/block.c:5277-5307 | so does recording that an edge is to be freed, or that the driver was asked |
| Transactions.UndoAllIsStart | qemu/util/transactions.c:60-79 | running the abort callbacks last-in first-out leads back to the graph at the start |
| Transactions.UndoneSound | qemu/block.c:2421-2447 | each abort callback can run without tripping an assertion or dropping a last reference, and keeps the reference equation |
| Transactions.SettledClosing | qemu/block.c:2413-2419 | each commit callback keeps the reference equation, frees no edge twice and leaves the final graph unchanged |
| Transactions.ReferencePassedOn | qemu/block.c:7142-7148 | turning a caller's reference into a scheduled unref keeps the reference equation |
| GraphChanges.SubtreeKept | qemu/block.c:5198-5275 | moving an edge from outside a subtree to its root leaves that subtree alone, so later decisions of the loop agree with the first |
| GraphChanges.EdgesDetermineGraph | qemu/block.c:2917-2984 | a consistent graph is determined by its edges: all lists and slots follow |
| GraphChanges.ClearedReach | qemu/block.c:3490-3506 | detaching the old child does not change what reaches the node, so the cycle check after it decides as before it |
| GraphChanges.SlotFacts | qemu/block.c:3436-3506 | what replacing a backing or file child relies on: the old child is attached to the node, and there is room after detaching it |
| GraphChanges.SameOtherWay | qemu/block.c:3355-3363 | below the first edge it does not matter which edge the search for another way leaves out, because the graph has no loops |
| GraphChanges.DisownedAll | qemu/block.c:3339-3368 | clearing a node and the subtrees of its children is clearing its subtree |
| GraphChanges.MayInherit | qemu/block.c:3509-3515 | letting the new child inherit directly closes no loop of inherits_from, because it did so on some way before |
| GraphResults.AttachResult | qemu/block.c:3242-3273 | a successful attach moves no frozen edge and brings no conflict |
| GraphResults.RootResult | qemu/block.c:3203-3232 | a successful attach to a block backend or a job moves no frozen edge and brings no conflict |
| GraphResults.SetBackingResult | qemu/block.c:3530-3552 | a successful change of the backing file moves no frozen edge and brings no conflict |
| GraphResults.SetBackingMeans | qemu/block.c:3436-3552 | in terms of edges: the old backing edge is gone, the new one is there with its role, no other edge differs in more than its masks; in terms of inherits_from: the new backing file inherits from the node directly if it did so on some way, the nodes below the old one that are no other child of the node no longer inherit from it, and all others inherit as before |
| GraphResults.ReplaceResult | qemu/block.c:5363-5418 | a successful replacement moves exactly the movable parents, no frozen edge, and brings no conflict |
| GraphResults.DropResult | qemu/block.c:5363-5444 | a successful drop of a filter moves its movable parents to its child, frees the edge between them, moves no frozen edge and brings no conflict |
| GraphResults.ParentsMovedUnique | qemu/block.c:5316-5348 | there is one graph in which the movable parents are moved |
| GraphResults.AppendResult | qemu/block.c:5458-5500 | a successful append links the new node to the old top and moves the movable parents, no frozen edge, and brings no conflict |
| GraphResults.NewEdgeStays | qemu/block.c:5476-5487 | the edge from the new node to the old top is not moved by the append itself |
| GraphResults.RefreshedWithout | qemu/block.c:5277-5285 | freeing detached edges after the refresh leaves all permission results as they are |
| BlockLayer.Layer.constructor | qemu/util/transactions.c:38-45 | the empty block layer satisfies the invariant, outside of any transaction |
| BlockLayer.Layer.NewNode | qemu/block.c:411-440 | a node without edges joins the graph and belongs to the caller; it may inherit from another one |
| BlockLayer.Layer.RootAttachChild | qemu/block.c:3203-3232 | fails exactly if no AioContext suits both ends or no masks fit, and then leaves the graph as it was; otherwise the edge is there and the masks fit; the reference equation holds either way |
| BlockLayer.Layer.CumulativeMasks | qemu/block.c:2623-2639 | union of what the parents need, intersection of what they share |
| BlockLayer.Layer.ParentPermsConflict | qemu/block.c:2234-2276 | true if and only if some parent needs what another does not share |
| BlockLayer.Layer.ChildSetPerm | qemu/block.c:2335-2351 | sets the masks and logs the old ones |
| BlockLayer.Layer.DrvSetPerm | qemu/block.c:2385-2406 | succeeds if and only if the driver accepts, and adds exactly one record then |
| BlockLayer.Layer.NodeRefreshPerm | qemu/block.c:2498-2568 | succeeds if and only if the node accepts its cumulative masks, and then sets the derived masks on its children |
| BlockLayer.Layer.SetChildPerms | qemu/block.c:2557-2565 | gives every child edge the masks derived from the cumulative masks |
| BlockLayer.Layer.DoRefreshPerms | qemu/block.c:2577-2599 | computes the refresh of a list |
| BlockLayer.Layer.RefreshPerms | qemu/block.c:2609-2621 | success leaves the subtrees of the roots consistent; failure means that no masks would |
| BlockLayer.Layer.OwnerDetach | qemu/block.c:1481-1497 | removes the edge from the children and from the slot it occupied |
| BlockLayer.Layer.OwnerAttach | qemu/block.c:1439-1479 | adds the edge to the children and to the slot of its role, where the asserted conditions on role, driver and slots hold |
| BlockLayer.Layer.ReplaceChildNoperm | qemu/block.c:2917-2984 | moves the edge with all lists and slots, through the detach and attach callbacks |
| BlockLayer.Layer.ReplaceChildTran | qemu/block.c:2468-2489 | moves the edge as one undoable step; the old target's reference goes into the record |
| BlockLayer.Layer.RemoveChild | qemu/block.c:5277-5307 | detaches the edge and schedules it for freeing |
| BlockLayer.Layer.AttachChildCommon | qemu/block.c:3064-3156 | creates an attached edge as one undoable step, or none if no AioContext suits both ends |
| BlockLayer.Layer.AttachChildNoperm | qemu/block.c:3167-3194 | refuses if and only if the edge would close a loop or no AioContext suits both ends |
| BlockLayer.Layer.ChangeInherits | qemu/block.c:3320-3337 | changes inherits_from of a node as one undoable step |
| BlockLayer.Layer.InheritsFrom | qemu/block.c:3395-3405 | ends, and is true if and only if following inherits_from leads from the one node to the other |
| BlockLayer.Layer.HasOtherWay | qemu/block.c:3355-3362 | whether another child edge leads to the same node |
| BlockLayer.Layer.UnsetInherits | qemu/block.c:3339-3368 | the recursion over all paths clears inherits_from of exactly the nodes of the subtree that inherit from the root and are no other child of it |
| BlockLayer.Layer.TakeSlot | qemu/block.c:3490-3494 | detaches the child in the slot and disowns what is below it |
| BlockLayer.Layer.GiveSlot | qemu/block.c:3500-3515 | attaches the new child and lets it inherit directly if it inherited on some way before |
| BlockLayer.Layer.SetFileOrBackingNoperm | qemu/block.c:3436-3521 | every error case in order, and otherwise the old child detached, the new one attached and inherits_from updated |
| BlockLayer.Layer.ReplaceNodeNoperm | qemu/block.c:5316-5348 | succeeds if and only if no movable parent is frozen and the others may be skipped, and then has moved exactly the movable parents |
| BlockLayer.Layer.AbortLast | qemu/util/transactions.c:60-79 | runs the abort callback of the newest record |
| BlockLayer.Layer.Abort | qemu/util/transactions.c:60-79 | restores the graph of the start of the transaction exactly: edges, lists, slots, masks and inherits_from |
| BlockLayer.Layer.CommitLast | qemu/util/transactions.c:81-100 | runs the commit callback of the newest record |
| BlockLayer.Layer.Commit | qemu/util/transactions.c:81-100 | frees exactly the removed edges and turns the references of the records into scheduled unrefs |
| BlockLayer.Layer.ScheduleUnref | qemu/block.c:7142-7148 | passes the caller's reference on |
| BlockLayer.Layer.AttachChild | qemu/block.c:3242-3273 | fails exactly if the edge would close a loop, no AioContext suits both ends or no masks fit, and then leaves the graph as it was; otherwise the edge is there and the masks fit; the reference equation holds either way |
| BlockLayer.Layer.SetBackingHd | qemu/block.c:3530-3574 | the same for changing the backing file, where also a frozen link or a driver without backing files makes it fail; a failure leaves inherits_from of all nodes as it was |
| BlockLayer.Layer.ReplaceNode | qemu/block.c:5363-5424 | fails exactly if a movable parent is frozen, another one may not be skipped or no masks fit, and then leaves the graph as it was; otherwise exactly the movable parents have moved and the masks fit |
| BlockLayer.Layer.DropFilter | qemu/block.c:5363-5444 | the same for dropping a filter, whose edge to its child is freed on success |
| BlockLayer.Layer.Append | qemu/block.c:5458-5500 | the same for inserting a node on top of another one |
| BlockLayer.Layer.FreezeBackingChain | qemu/block.c:5769-5798 | freezes all links down to the base or none, and succeeds if and only if no link is frozen or leads to a node that must not be frozen |
| BlockLayer.Layer.UnfreezeBackingChain | qemu/block.c:5806-5820 | its assertion trips if and only if some link of the chain is not frozen; otherwise it clears the flag of exactly those links |
| BackingChains.ChainKept | qemu/block.c:5769-5820 | while the links from a node to a base are frozen and nobody touches them, the chain between the two does not change, whatever happens to other edges and to new nodes |
| BackingChains.ChainKeptOverRun | qemu/block.c:5769-5820 | the same after any number of such steps |
| BackingChains.ChainToEndKept | qemu/block.c:5769-5820 | with a NULL base the chain differs if and only if its last node has got a link |
| BackingChains.EndGrows | qemu/block.c:5769-5820 | giving the last node a backing file keeps every frozen edge and yet makes the chain longer |
| FrozenChains.UnfreezeRestores | qemu/block.c:5769-5820 | freezing a chain down to a base, any steps that leave its links alone, and unfreezing it: the links are those of the start, all still frozen at the end, so that no assertion trips, and then each is as it was |
| FrozenChains.RunHolds | qemu/block.c:5769-5820 | every run of operations, among them creating nodes and freezing and unfreezing other chains, consists of such steps |
| FrozenChains.DidHolds | qemu/block.c:5769-5820 | an operation that succeeds leaves frozen links alone, unless it is the one that unfreezes them |
| FrozenChains.NewNodeKeeps | qemu/block.c:411-440 | a new node leaves all other nodes and every frozen edge as they are |
| FrozenChains.EndKeptExactly | qemu/block.c:5769-5820 | with a NULL base, a successful operation leaves the chain as it is if and only if its arguments spare the last node: no set-backing with a backing file on it, no append of it, no attach of a child to it in the role of a link; otherwise, or if one of its links was unfrozen by somebody else, the later unfreeze trips its assertion |
| FrozenChains.EndKeptOverRun | qemu/block.c:5769-5820 | over any run of operations in which nobody else unfreezes the links the chain is what it was at all times if and only if all operations spare its last node |
| FrozenChains.EndCanGrow | qemu/block.c:3530-3574 | two nodes and a successful bdrv_set_backing_hd after which the frozen chain has grown by a link that is not frozen |
| FrozenChains.DidAsTold | qemu/block.c:1439-1479 | whether a node without a link gets one is told by the arguments of the operation, for attach, root attach, set-backing, append, replace, drop-filter, a new node, freeze and unfreeze |
| AioContexts.ContextChange.Visit | qemu/block.c:7515-7631 | a successful visit has covered both ends of every edge it marked; a failed one has met a linked user that refuses; terminates because every call marks an edge |
| AioContexts.ContextChange.TryChange | qemu/block.c:7640-7677 | succeeds if and only if no linked block backend refuses; then exactly the linked nodes are in the new context (a link does not go on behind a node that is already there), otherwise none changed; every drained section is ended |
| AioContexts.AllLinkedRecorded | qemu/block.c:7590-7631 | after a successful walk everything linked to the start is recorded or was already in the new context |
| Inactivation.Inactivator.HasBdsParent | qemu/block.c:6940-6956 | whether a node has a parent node, or one that is still active |
| Inactivation.Inactivator.Recurse | qemu/block.c:6958-7020 | the flags of the nodes change as Visit says, for which the rows below state the properties |
| Inactivation.Inactivator.InactivateAll | qemu/block.c:7022-7046 | inactive nodes are listed once each and after all their parents; success makes every node inactive whose topmost ancestors are all enumerated; failure has a cause; in a reduced graph the assertion holds |
| Inactivation.VisitKeeps | qemu/block.c:6958-7020 | a visit touches only the subtree, keeps parents before children, and forgets no node whose parents are all inactive, except where an edge is still to be looked at; in a reduced graph it does not trip |
| Inactivation.RestKeeps | qemu/block.c:7011-7019 | the same for the loop over the children, from any point on |
| Inactivation.AllKeeps | qemu/block.c:7022-7046 | the same for the enumeration of the nodes, from any point on |
| Inactivation.ListedInactive | qemu/block.c:7022-7046 | no node is left over once nothing is left to look at |
| InactivationOrders.TripsExactly | qemu/block.c:6958-7046 | the assertion holds for every order of the lists if and only if the graph is reduced: no child edge of a node leads to something another child edge of it also leads to |
| InactivationOrders.OrderTrips | qemu/block.c:6958-7046 | in every other graph, putting the ancestors of the node last everywhere and the redundant edge last in its list trips the assertion |
| InactivationOrders.VisitSpares | qemu/block.c:6958-7020 | with such an order, as long as nothing trips, the node with the redundant edge stays active |
| InactivationOrders.TripsAt | qemu/block.c:6976-7017 | with such an order, the visit that makes this node inactive trips |
| InactivationOrders.TriangleTrips | qemu/block.c:6958-7046 | three nodes without parallel edges for which some order trips |
| JobPause.PauseCountBalanced | qemu/job.c:684-752 | in every interleaving the pause count is 1 if not started, plus 1 if user-paused, plus the open drained sections |
| JobPause.PauseAssertionsHold | qemu/job.c:698-752 | so the assertions on the pause count never fail |
| JobPause.NothingTrips | qemu/blockjob.c:557-578 | unless an error stop falls between the halves of a resume or a cancel, an I/O error implies a user pause and no assertion fails |
| JobPause.LateErrorTrips | qemu/blockjob.c:557-624 | from any state in which a command is between the halves of a resume or a cancel, an error stop there makes the assertion on the I/O status fail three events later |
| JobPause.LateErrorIsReachable | qemu/blockjob.c:557-624 | such a run exists |
| JobTransactions.CompletedStays | qemu/job.c:59-72 | the transition table never leads from a completed status to one that is not |
| JobTransactions.GroupAbortedIs | qemu/job.c:923-963 | after an abort, no job is committed while another is aborted if and only if the job on whose behalf it ran failed or was cancelled, or is alone |
| JobTransactions.LateFailureSplitsGroup | qemu/job.c:990-1002 | two pending jobs for which the failing prepare of one leaves the other committed |
| JobTransactions.NeverStartedHangs | qemu/job.c:923-963 | a job that failed and one that was never started, where the abort does not return |
| JobTransactions.EarlyFailStrands | qemu/job.c:755-786 | a job that waits and one that was created and fails early, after which nobody is left to end the wait |
| JobTransactions.LateJoinTrips | qemu/job.c:840-844 | a job that joins while another one is pending cannot be finalized with it |
| JobTransactions.SucceededGoesOn | qemu/job.c:1031-1055 | after a success, not all jobs of the group wait for each other |
| JobTransactions.JobGroup.constructor | qemu/job.c:114-120 | a new transaction has no jobs |
| JobTransactions.JobGroup.CancelOthers | qemu/job.c:942-951 | everyone else in the transaction is force-cancelled |
| JobTransactions.JobGroup.FinishAll | qemu/job.c:952-959 | every member is run to its end and finalized by its own fate, unless one of them was never started |
| JobTransactions.JobGroup.CompletedTxnAbort | qemu/job.c:923-963 | everyone else ends aborted, the job itself by its own fate; it hangs if and only if another member was never started |
| JobTransactions.JobGroup.PrepareAll | qemu/job.c:966-981 | calls the prepare callbacks up to the first one that fails |
| JobTransactions.JobGroup.FinalizeAll | qemu/job.c:840-877 | every member is concluded, committed or aborted by its own result |
| JobTransactions.JobGroup.DoFinalize | qemu/job.c:990-1002 | commits all if no prepare fails, otherwise aborts all, except that the finalized job itself is committed if and only if the first failing prepare belongs to another job |
| JobTransactions.JobGroup.CompletedTxnSuccess | qemu/job.c:1031-1055 | waits while another job is not completed; otherwise all become pending, and are finalized if and only if none wants manual finalization |
| JobTransactions.JobGroup.Create | qemu/job.c:385-447 | a new job joins the transaction, not started; the group is as it should be if and only if the job comes in time: no member is pending, nobody was finalized or aborted |
| JobTransactions.JobGroup.Start | qemu/job.c:1115-1129 | a created job runs |
| JobTransactions.JobGroup.EnterPause | qemu/job.c:603-626 | running or ready becomes paused or standby, so that resuming restores the job exactly |
| JobTransactions.JobGroup.LeavePause | qemu/job.c:626-629 | and goes back to what it was |
| JobTransactions.JobGroup.BecomeReady | qemu/job.c:1023-1028 | a running job becomes ready |
| JobTransactions.JobGroup.EndRun | qemu/job.c:1106-1112 | the coroutine ends and the exit is scheduled |
| JobTransactions.JobGroup.Exit | qemu/job.c:1057-1090 | completes or aborts the transaction; the abort leaves all aborted; no transition trips the table, completed jobs stay completed, and it hangs if and only if it aborts while another member was never started |
| JobTransactions.JobGroup.Cancel | qemu/job.c:1131-1157 | a concluded job is dismissed; the whole transaction is aborted if and only if the job was not started, or is done and cancelled by force; otherwise only the request is recorded; it hangs if and only if it aborts while another member was never started |
| JobTransactions.JobGroup.UserCancel | qemu/job.c:1159-1165 | refused without any effect exactly in the states the verb table excludes, otherwise as Cancel |
| JobTransactions.JobGroup.Finalize | qemu/job.c:1004-1011 | refused without any effect unless pending, otherwise finalizes the whole transaction as DoFinalize |
| JobTransactions.JobGroup.Dismiss | qemu/job.c:755-779 | a concluded job goes away, any other request changes nothing |
| JobTransactions.JobGroup.EarlyFail | qemu/job.c:755-786 | a created job goes away and leaves the transaction to the others; this leaves jobs behind that all wait for each other if and only if there are others and all of them wait, and no other command or callback does that |
| JobTransactions.JobGroup.Complete | qemu/job.c:1217-1234 | the driver is told to complete if and only if the job is ready or on standby, not cancelled, and has the callback |
| ImageBuffers.FindNonzero | qemu/qemu-img.c:1153-1167 | the start of the first sector with a non-zero byte, -1 if and only if there is none, also for a short last sector |
| ImageBuffers.IsAllocatedSectors | qemu/qemu-img.c:1179-1230 | a run reported as not allocated is zero; a run that ends early ends aligned, less than a unit from where the contents change; and exactly when a zero sector is reported as allocated |
| ImageBuffers.IsAllocatedSectorsMin | qemu/qemu-img.c:1237-1274 | as IsAllocatedSectors at the front; a run to be written ends aligned and only before a gap of at least the minimum size or zeroes up to the end, and holds no gap longer than the minimum plus two alignment units |
| ImageBuffers.ZeroSectorReportedAllocated | qemu/qemu-img.c:1169-1230 | a zero sector that is reported as allocated |
| ImageBuffers.CompareBuffers | qemu/qemu-img.c:1284-1309 | the length of the longest prefix of chunks with the same answer as the first |
| ImageCompare.CheckEmpty | qemu/qemu-img.c:1328-1349 | identical only if the region is zero, different only if it is not, and a read error exactly if it cannot be read |
| ImageCompare.CompareData | qemu/qemu-img.c:1552-1573 | the verdict on a piece of data is that on its contents, and a read error exactly if one of the images cannot be read |
| ImageCompare.CompareChunk | qemu/qemu-img.c:1537-1588 | the verdict on a chunk is that on its contents, whatever the block status says |
| ImageCompare.CompareCommon | qemu/qemu-img.c:1511-1591 | the verdict on the common part; in strict mode identical only if the block status agrees at every offset that the loop visits |
| ImageCompare.CheckRest | qemu/qemu-img.c:1593-1628 | the verdict on what only the longer image has |
| ImageCompare.Compare | qemu/qemu-img.c:1505-1631 | without errors, identical if and only if the shorter image extended with zeroes equals the longer one and, in strict mode, also the sizes agree and the block status agrees at every offset that the loop visits |
| ImageRebase.Rebaser.IsAllocated | qemu/qemu-img.c:3859-3871 | a run of uniform allocation |
| ImageRebase.Rebaser.Write | qemu/qemu-img.c:3957-3968 | a write, even one that stops halfway, leaves what is visible over the old backing file as it was |
| ImageRebase.Rebaser.WidenRegion | qemu/qemu-img.c:3902-3915 | widening to whole units keeps the region unallocated, which is the assertion there; says exactly when the result fits the two buffers |
| ImageRebase.Rebaser.CopyDifferences | qemu/qemu-img.c:3948-3975 | afterwards the region no longer depends on which backing file is below it; what is written lies within the buffer, which is the assertion there |
| ImageRebase.Rebaser.RebaseRegion | qemu/qemu-img.c:3902-3975 | the same for the widened region, which may begin before the current offset; gives up exactly if it does not fit the buffers |
| ImageRebase.Rebaser.FindPiece | qemu/qemu-img.c:3859-3900 | what may be skipped does not depend on the backing file, and the rest is unallocated |
| ImageRebase.Rebaser.Round | qemu/qemu-img.c:3855-3977 | one round of the loop moves on to where the next one begins and leaves everything before that independent |
| ImageRebase.Rebaser.Rebase | qemu/qemu-img.c:3855-3990 | at every moment the image over the old backing file reads as at the start; after success it reads the same over the new one, whatever the sizes; and if the block layer reports no error it succeeds if and only if every region that it meets fits the two buffers, which they do if all sizes are in units |
| ImageRebase.Rebaser.FitSame | qemu/qemu-img.c:3855-3977 | which regions the loop meets from an offset on is told by the allocation from there on |
| ImageRebase.Rebaser.InUnitsFit | qemu/qemu-img.c:3902-3915 | if units divide the buffers and all queries stop at the end of a unit, then every region fits |
| ImageRebase.Rebaser.CutUnitTooLarge | qemu/qemu-img.c:3902-3960 | a query that stops within a unit, after which a region does not fit |
| ImageRebase.SwitchBacking | qemu/qemu-img.c:3980-3990 | an overlay that does not depend on the difference may change its backing file |
| ConvertProtocol.ContentCorrect | qemu/qemu-img.c:1972-2093 | if the conversion reports success the target reads as the concatenated sources, for every schedule and every answer of the block layer; in salvage mode a damaged sector may read as zero instead |
| ConvertProtocol.ClaimedOnce | qemu/qemu-img.c:1996-2018 | the claimed chunks follow each other without gap or overlap |
| ConvertProtocol.OrderedWrites | qemu/qemu-img.c:2040-2083 | in ordered mode writes follow each other without gap or overlap, with one writer at a time |
| ConvertProtocol.NoStrandedWaiter | qemu/qemu-img.c:2040-2083 | whoever waits for a sector waits for the end of a chunk that is still being worked on, also after an error |
| ConvertProtocol.NeverStuck | qemu/qemu-img.c:1972-2093 | unless all coroutines have left, one of them can go on |
| ConvertProgress.RunsAreShort | qemu/qemu-img.c:1972-2093 | the conversion ends: no schedule takes more than thirty steps for each sector and three for each coroutine, whatever fails, is retried or sleeps |
| ConvertProgress.StepFalls | qemu/qemu-img.c:1972-2093 | every step of every coroutine lowers the measure that counts the sectors to claim and the work left on each chunk |
| ConvertProgress.PublishedRest | qemu/qemu-img.c:2068-2083 | setting the write offset and entering the next coroutine leaves nobody else with more to do |
| ConvertProgress.EndOfRun | qemu/qemu-img.c:1972-2093 | a run that cannot go on is over: all coroutines have left, and it reports a failure, or success with the sources on the target |
| ConvertProtocol.RunInv | qemu/qemu-img.c:1972-2093 | the invariant holds in every state of every run |
| ConvertProtocol.StepKeeps | qemu/qemu-img.c:1972-2093 | every step of every coroutine keeps the invariant |
| ConvertProtocol.WrittenDelivers | qemu/qemu-img.c:1877-1939 | whatever convert_co_write skips or zeroes, the chunk then reads as the source |
| ConvertChunks.Converter.SelectPart | qemu/qemu-img.c:1704-1714 | the part that holds a sector, and where it begins |
| ConvertChunks.Converter.AskStatus | qemu/qemu-img.c:1751-1778 | the answer holds, also the one that salvage mode makes up after shorter and shorter queries have failed |
| ConvertChunks.Converter.QueryStatus | qemu/qemu-img.c:1738-1801 | the cached status holds for every sector up to where it is cached; fails only if the block layer does, and never in salvage mode |
| ConvertChunks.Converter.IterationSectors | qemu/qemu-img.c:1716-1821 | a non-empty chunk inside the image whose status holds for every sector and that fits the buffer if it is data; whole clusters if compressed, else it does not cross the end of the target backing file; fails only if the block layer does |
| ConvertChunks.Converter.LimitChunk | qemu/qemu-img.c:1803-1820 | a chunk limited to the buffer and to whole clusters still carries a status that holds for each of its sectors |
| ConvertChunks.Converter.ReadNext | qemu/qemu-img.c:1830-1871 | one piece of the sources, or a single sector after a longer read has failed |
| ConvertChunks.Converter.CoRead | qemu/qemu-img.c:1823-1874 | the contents of the sources, across their boundaries; fails only if the block layer does; in salvage mode never, and only what cannot be read even as a single sector is replaced by zeroes |
| ConvertChunks.Converter.CoWrite | qemu/qemu-img.c:1877-1939 | touches only the chunk, and writes, zeroes or skips each sector as the protocol allows; fails only if the block layer does |
| ConvertChunks.Converter.CoCopyRange | qemu/qemu-img.c:1941-1970 | copies the chunk, or on failure leaves each sector as it was or copied |

## Left out

- Inactivation.Inactivator.Recurse: which nodes refuse is given from outside, so the effect of inactive parents on the permissions that are still needed is not modelled.
- ConvertProtocol.OrderedWrites: a write or copy of a chunk is one step; the chunks are disjoint and nobody reads the target.
- ImageRebase.Rebaser.Rebase: takes the write alignment as the granularity of allocation, and ends where a region does not fit the two buffers; what the code then does is not modelled.
- JobTransactions.JobGroup.Exit: driver callbacks do not use the job interface for the same transaction, a cancel request that is forced or concerns a job that was not started is taken as forced, and waiting for a started job ends.
- BlockLayer.Layer.SetFileOrBackingNoperm: option dictionaries and request limits are not modelled.
- BlockLayer.Layer.AttachChildNoperm: a driver that has a filtered child without being a filter is required to have no backing files, as the one such driver does.
- BlockLayer.Layer.AttachChildCommon: whether some AioContext suits both ends is given from outside; the change itself is modelled apart.
- BlockLayer.Layer.DropFilter: `detach_subchain` is modelled for its only use, where the new target is the child of the filter.
- BlockLayer.Layer.NewNode: that the identity of a new node is fresh is required, and opening its driver is not modelled.
- AioContexts.ContextChange.TryChange: edge classes of nodes without a `change_aio_ctx` callback, which refuse when they are reached from below, are not modelled.
- The reopen queue, op blockers, drain counters of the block graph, removing root edges, running the scheduled unrefs and closing nodes.
- The default permission functions of the drivers; a driver's `bdrv_child_perm` is any function of node, role and cumulative masks.
- Reads and writes below sector granularity in conversion; sectors are values and 0 is the zero sector.
- Memory ordering below sequential consistency in the exclusive sections; the barriers of the code justify it.
- Events, timers, progress reports, error messages and command lines.
