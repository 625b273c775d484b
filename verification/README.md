# SR-IOV network operator: a Dafny model

This project models the parts of the SR-IOV network operator and of its config daemon where several
writers share state or where a destructive update has to keep a promise, and proves what they promise.

**The drain handshake.** On every node the config daemon asks for a drain or a reboot by writing an
annotation on the Node and then one on the NodeState. The operator answers by writing the current-state
annotation (Idle, Draining, DrainComplete), a status condition, and the cordon. `NodeHandshake` has one
step for each of these API reads and writes, so the two sides interleave freely; a failed call, a requeue
and a crash are the step that abandons the call in flight. `DrainCluster` puts one such handshake on every
node and adds the mutex around tryDrainNode, the pool of each node (`PoolLookup`) and the loop that reads the
other nodes one at a time; `DrainLimits` says what that means for each kind of pool setting. `DrainController` and `DrainDispatch` are the controller's methods themselves, with
arbitrary other workers and daemons acting between any two calls; a ghost run ties every call to the step
machine.

At this granularity some promises of the handshake fail when one side acts on something that is no longer so.
`NodeHandshake.Race` names the four ways: the operator marks a node for a request that has changed since it was
read (StaleMark); the daemon writes a new request on a node that has left Idle since it looked (StaleWrite); the
daemon's request reaches the Node and not the NodeState (CutWrite); a node is marked and the DrainCompleted
condition of an earlier drain is not taken back (LostReset). For every set K of kinds, with all runs that commit
races of these kinds only, `DrainRaces` and, for the nodes of whole clusters, `ClusterRaces` prove

- every reboot finds the whole node drained if and only if K is empty;
- no request stands while the operator undoes a drain if and only if K lacks StaleMark, StaleWrite or CutWrite;
- DrainComplete under a request is a drained and secured node, and configuration that needs a drain is applied
  on such a node as long as the request stands, if and only if K lacks LostReset and lacks one of the other three.

The failing direction of each is a run of the only node of a cluster. The holding direction of the first starts
anywhere the node is quiet, so a race endangers no reboot beyond the next quiet point. If the operator reads and
marks in one step, the daemon reads and annotates both objects in one step (`WritingAtOnceIsClean`) and condition
writes succeed, there are no races. Once a drain stands, nothing undoes it before the daemon withdraws its
request, races or not (`StandingDrainIsStable`). What the daemon decides is stated in full (`DecisionIs`), and
`DrainEscalation` gives the way from a partial drain through Idle to a reboot. Outside that rule, with the request withdrawn, the daemon may
apply while the operator uncordons the node (`ApplyWhileUncordoning`).

**The MachineConfigPool pause.** `PoolPause` has one step per API call of BeforeDrainNode and
AfterCompleteDrainNode, between which the machine-config operator, the daemons, failures and operator
restarts may act; `Orchestrator` is the pair of methods. Only the operator pauses the pool, and a node belongs
to one pool.

**Generations and reboots.** `DaemonGenerations` is the daemon's reconcile loop in daemon mode, against a
spec that changes at any point; `RebootTracker` is the counter file, which the loop reads and writes. The
daemon's client has no cache (cmd/sriov-network-config-daemon/start.go:234); the model lets its reads lag all
the same, as long as they do not go back.

**Policies.** `VfRange`, `Policies`, `Stacking`, `PolicyFold`, `Bridges`, `NodeState` and `PolicySync` go from
the text of a VF range to the NodeState spec the controller writes, and `PolicyMeaning` says what that spec
means in terms of the policies. Policies arrive sorted as sort.Sort promises: a permutation in which no later
element is less than an earlier one. A network filter is taken after its regular expression has been matched.
Integers are unbounded, with the 64-bit limit of strconv.Atoi written out. `NeedUpdate` is the drift check that compares such a spec with a PF.

**Firmware, GUIDs and requirements.** `Mellanox` holds the firmware settings of a NIC; `MellanoxPass`,
`MellanoxSweep` and `MellanoxPlugin` the plugin's two loops, with the orders in which Go maps yield the NICs as
parameters; `Guid` the packing and the allocation of InfiniBand GUIDs on 64 bits; `Requirements` how the daemon puts together what the plugins require.

Throughout, draining is enabled, there is no external drainer, pools, nodes and the existence of NodeStates
are fixed during a run, the annotations exist, and there is one operator process.

Where code and comments differ, the model follows the code. The comment above the priority comparison says
the equal-priority flag only matters for VF partitions; in the code it also keeps the larger MTU and VF count
whenever it is set (`PolicyFold.Merged`). The comment on the mellanox plugin's OnNodeStateChange says that it
returns whether the node needs a reboot; in the code the flag holds the answer of the last NIC visited
(`MellanoxPlugin.RebootIsReportedIff`).

## Model

| member | source | states |
|---|---|---|
| `DrainCluster.SlotsNeverExceeded` | controllers/drain_controller_helper.go:211-296 | In every state of every run and interleaving, no pool with a limit has more nodes Draining or DrainComplete than its limit |
| `DrainLimits.AtMostOneWithoutPool` | controllers/drain_controller_helper.go:368-386 | In every state of every run at most one of the nodes that no pool selects is Draining or DrainComplete |
| `DrainLimits.AtMostNumber` | api/v1/helper.go:962-975 | At most v nodes of a pool whose setting is the number v |
| `DrainLimits.AtMostPercent` | api/v1/helper.go:951-975 | At most the given percentage of the nodes of a pool whose setting is a percentage |
| `DrainLimits.BusyNodesAreKnown` | controllers/drain_controller_helper.go:219-230 | Only a node that has an answer to which pool it belongs, and with which limit, can take a slot |
| `DrainCluster.RunKeepsInv` | controllers/drain_controller_helper.go:211-296 | The mutex, handshake, count and slot invariants hold together in every state of every run |
| `DrainCluster.ActKeepsInv` | controllers/drain_controller_helper.go:211-296 | Every step of every worker and daemon keeps them |
| `DrainCluster.TallyStep` | controllers/drain_controller_helper.go:236-254 | A count in progress never falls below the number of nodes busy now among those already read, whatever other nodes do meanwhile |
| `DrainCluster.SlotsStep` | controllers/drain_controller_helper.go:270-287 | Marking a node after a count with room keeps every pool inside its limit |
| `DrainCluster.OnlyMarkAddsBusy` | controllers/drain_controller_helper.go:283-287 | No step but the Draining annotation makes a node take a slot |
| `DrainCluster.PoolsOfIsConsistent` | controllers/drain_controller_helper.go:298-386 | The limits and lists all nodes get form a partition, with every node in its own list and no node listed twice |
| `DrainCluster.WaiversNeedOneNode` | controllers/drain_controller_helper.go:116-131 | A whole-node drain is waived only when the cluster has one node |
| `NodeHandshake.StepKeepsInv` | controllers/drain_controller.go:149-180 | Every operator and daemon step, races included, keeps what is known about where the worker stands and what the daemon holds |
| `NodeHandshake.RunKeepsInv` | controllers/drain_controller.go:83-184 | The same in every state of every run of a node |
| `NodeHandshake.StandingDrainIsStable` | controllers/drain_controller.go:149-180 | Once a drain stands, no interleaving, races included, uncordons the node, frees its slot or changes what was drained before the daemon itself writes Idle |
| `NodeHandshake.WritingAtOnceIsClean` | pkg/daemon/daemon.go:846-871 | A daemon that reads, decides and writes both annotations without interruption commits no race |
| `NodeHandshake.DecisionIs` | pkg/daemon/daemon.go:279-309 | Exactly when the daemon withdraws a drain request for a reboot (while the partial drain is going on or when it is done), asks for a drain or a reboot, applies, waits, or does nothing |
| `DrainEscalation.EscalationIsOpen` | pkg/daemon/daemon.go:642-653 | From a partial drain, going on or done, there is a way through Idle, with the slot given back, to a drain of the whole node with the daemon about to reboot it |
| `DrainEscalation.EscalationHappens` | pkg/daemon/daemon.go:623-669 | A run without races takes that way from a drain in progress |
| `DrainSafety.CleanRunsRebootDrainedNodes` | pkg/daemon/daemon.go:623-669 | In a run without races from any quiet point, every reboot finds the whole node drained, through every escalation from drain to reboot |
| `DrainSafety.RequestInvHolds` | controllers/drain_controller_helper.go:27-60 | With StaleMark, StaleWrite or CutWrite ruled out, no request stands while the operator undoes a drain |
| `DrainSafety.StandingHolds` | pkg/daemon/daemon.go:299-309 | With LostReset and one of the other three kinds ruled out, DrainComplete and applying under a request both mean a standing drain |
| `DrainRaces.RebootsAreSafeIff` | pkg/daemon/daemon.go:826-843 | For every set of race kinds: every reboot finds the whole node drained if and only if the set is empty |
| `DrainRaces.CompletionSeesNoRequestIff` | controllers/drain_controller_helper.go:27-60 | For every set of race kinds: no request stands during completion if and only if one of StaleMark, StaleWrite and CutWrite is missing |
| `DrainRaces.CompleteIsStandingIff` | controllers/drain_controller_helper.go:83-87 | For every set of race kinds: DrainComplete under a request is a standing drain if and only if LostReset and one of the other three are missing |
| `DrainRaces.ApplyNeedsStandingDrainIff` | pkg/daemon/daemon.go:299-309 | The same condition, exactly, for applying under a standing request |
| `DrainRaces.RunsAreClosed` | controllers/drain_controller.go:149-180 | What runs with races of given kinds can reach contains the fresh node and is closed under the steps of a lone node, so the next six lemmas speak about real runs |
| `DrainRaces.OperatorActsOnStaleRequest` | controllers/drain_controller_helper.go:211-296 | With StaleMark alone: a reboot after a drain of the SR-IOV pods only |
| `DrainRaces.DaemonActsOnStaleView` | pkg/daemon/daemon.go:663-668 | With StaleWrite alone: the same |
| `DrainRaces.AnnotationsTorn` | pkg/daemon/daemon.go:846-871 | With CutWrite alone: the same |
| `DrainRaces.LeftoverConditionSkipsDrain` | controllers/drain_controller_helper.go:103-114 | With LostReset alone: a reboot, and an apply under DrainComplete, with nothing drained |
| `DrainRaces.RequestDuringCompletion` | controllers/drain_controller_helper.go:27-60 | With StaleMark, StaleWrite and CutWrite together: a request appears while the operator is about to uncordon, and the daemon applies under it |
| `DrainRaces.ApplyWhileUncordoning` | pkg/daemon/daemon.go:626-640 | With no race at all: the daemon applies on an uncordoned node after the request was withdrawn |
| `ClusterRaces.ClusterPromises` | controllers/drain_controller.go:83-184 | The four exact conditions, on every node of every cluster |
| `ClusterRaces.NodeRun` | controllers/drain_controller.go:231-250 | Seen from one node, every cluster run is a run of the handshake with the same kinds of races |
| `ClusterRaces.ClusterRebootsNeedFullDrain` | pkg/daemon/daemon.go:826-843 | In a cluster run without races every reboot finds all pods drained, or the only node there is |
| `DrainController.DrainReconcile.TryDrainNode` | controllers/drain_controller_helper.go:211-296 | Under any interference and with any call failing the slots stay respected; a grant leaves the node Draining for the request read, a refusal leaves it Idle; undisturbed, it waits exactly when the pool is full |
| `DrainController.DrainReconcile.CountDraining` | controllers/drain_controller_helper.go:236-254 | The counting loop, one read per member with interference in between; undisturbed, the count is exactly the number of busy members |
| `DrainController.DrainReconcile.TakeSlot` | controllers/drain_controller_helper.go:283-295 | Annotates, then resets the condition: the node is Draining and every pool inside its limit, also when the second write fails |
| `DrainController.CountExactly` | controllers/drain_controller_helper.go:236-254 | Reading one more member adds one exactly when it is busy |
| `DrainDispatch.HandleNodeIdle` | controllers/drain_controller_helper.go:27-74 | On success the node is Idle, uncordoned, its condition cleared; on failure its state is the old one or Idle, and the old one if the orchestrator is not done |
| `DrainDispatch.DrainNode` | pkg/drain/drainer.go:71-113 | On success the drain has the extent the request asked for and the node is cordoned, or the drain was waived on a one-node cluster; nothing is touched unless the orchestrator agrees |
| `DrainDispatch.HandleNodeDrainOrReboot` | controllers/drain_controller_helper.go:76-209 | Which of the outcomes each current-state leads to; DrainComplete is left alone, a finished drain is adopted as it is, a drain made here serves the request read, a node without a slot stays Idle |
| `DrainDispatch.Reconcile` | controllers/drain_controller.go:83-184 | A busy node is let go only for an Idle request and an idle one taken only for a drain or reboot request, whatever fails in between; a drain made here serves the request; undisturbed, one call goes all the way |
| `PoolLookup.FindNodePoolConfig` | controllers/drain_controller_helper.go:298-386 | The two passes compute the pool that alone selects the node and its nodes, the default pool and the unselected nodes, or an error |
| `PoolLookup.SelectingMeans` | controllers/drain_controller_helper.go:311-331 | A pool selects a node exactly when it is no hardware-offload object and its selector, if it has one, matches |
| `PoolLookup.LookupPartitions` | controllers/drain_controller_helper.go:298-386 | A node with an answer is in its own list, and every node of that list with an answer gets the same pool and the same list |
| `PoolLookup.DefaultListExcludesPooled` | controllers/drain_controller_helper.go:362-386 | The default list holds exactly the nodes that no pool selects |
| `PoolLookup.MembersDistinct` | controllers/drain_controller_helper.go:298-386 | No node is listed twice |
| `PoolLookup.PercentLimit` | api/v1/helper.go:943-975 | A percentage limit is accepted exactly from 1 to 100, is the floor of that share, and lies between 0 and the node count |
| `PoolLookup.NumberLimit` | api/v1/helper.go:943-975 | A plain number is the limit itself for any number of nodes, a negative one is refused, no setting is no limit |
| `PoolLookup.TextLimit` | api/v1/helper.go:951-963 | A text that does not end in a percent sign is refused |
| `PoolPause.PauseHoldsInEveryRun` | pkg/orchestrator/openshift/openshift.go:82-261 | After every prefix of writes, failures and restarts: a paused pool carries the annotation, and a pool with a granted, standing request is paused |
| `PoolPause.ActKeepsInv` | pkg/orchestrator/openshift/openshift.go:82-261 | Every API call, failure, restart, rollout and daemon write keeps the pause invariant |
| `PoolPause.UnpauseNeedsIdlePool` | pkg/orchestrator/openshift/openshift.go:182-261 | In every run, the pool is unpaused only by reverting a pause under which nothing was granted, or by a completion that has listed the pool and found every other node Idle; and never while a grant stands |
| `PoolPause.CompletionHasListed` | pkg/orchestrator/openshift/openshift.go:215-258 | A completion about to unpause has listed the nodes of the pool, found all others Idle, and made no other call since |
| `Orchestrator.OpenshiftOrchestrator.BeforeDrainNode` | pkg/orchestrator/openshift/openshift.go:82-176 | True implies paused and annotated, under any interference, and on a fresh pause that no rollout was going on when the pool was read back; undisturbed, true exactly when the pool is paused already or can be between two rollouts, and false changes nothing |
| `Orchestrator.OpenshiftOrchestrator.PauseFirst` | pkg/orchestrator/openshift/openshift.go:136-175 | The first pause, with its second look: granted means paused and annotated, refused means neither |
| `Orchestrator.OpenshiftOrchestrator.AfterCompleteDrainNode` | pkg/orchestrator/openshift/openshift.go:182-261 | Keeps the pause invariants; undisturbed, unpauses exactly when the operator paused the pool and every other node is Idle |
| `DaemonGenerations.StepKeepsInv` | pkg/daemon/daemon.go:143-309 | Every step keeps the generation and reboot-counter invariant |
| `DaemonGenerations.EarlyExitOnlyWhenApplied` | pkg/daemon/daemon.go:176-238 | "Nothing drifted" is concluded only about the generation whose own spec was the last the plugins started on and finished |
| `DaemonGenerations.LastAppliedWasApplied` | pkg/daemon/daemon.go:502-510 | lastAppliedGeneration names a generation whose own spec was applied, even when the metadata has moved on |
| `DaemonGenerations.RebootsAreBounded` | pkg/daemon/daemon.go:430-455 | At most five reboots per generation between two successful applies, across crashes, restarts and failed reboots |
| `DaemonGenerations.NoEarlyExitAfterRestart` | pkg/daemon/daemon.go:203-238 | A restarted daemon takes no early exit before it has completed an apply |
| `DaemonGenerations.NodeReconciler.Reconcile` | pkg/daemon/daemon.go:143-309 | Which answers lead to which outcome: early exit exactly for the applied generation without drift, requeue exactly for a newer spec or an unfinished drain, and otherwise what apply comes to; and what each outcome leaves of the generations applied, the counter and the reboots |
| `DaemonGenerations.NodeReconciler.ApplyChanges` | pkg/daemon/daemon.go:395-513 | What apply comes to, for all answers; failed plugins leave everything as it was, a generation counts as applied exactly when its plugins succeed without a reboot |
| `DaemonGenerations.OutcomesAre` | pkg/daemon/daemon.go:395-513 | Applied exactly when plugins, status write and counter reset succeed and no reboot is needed; a reboot exactly when one is needed and is on record below the limit |
| `RebootTracker.Tracker.GetRebootCount` | pkg/host/internal/reboottracker/reboot_tracker.go:37-46 | How many reboots of that generation have been put on record since the last reset and since any other generation was, across restarts; or the read error |
| `RebootTracker.Tracker.IncrementRebootCounter` | pkg/host/internal/reboottracker/reboot_tracker.go:48-66 | One more reboot on record, and the single stored record still answers for every generation; a failed call changes nothing |
| `RebootTracker.Tracker.ResetRebootCounter` | pkg/host/internal/reboottracker/reboot_tracker.go:68-77 | Afterwards no generation has a reboot on record; a failed call changes nothing |
| `DaemonGenerations.NodeReconciler.RebootOrFail` | pkg/daemon/daemon.go:430-455 | A reboot is started only with fewer than five on record, and only after it has been put on record itself |
| `VfRange.ParsePrinted` | api/v1/helper.go:545-556 | A printed range parses back to the same pair |
| `VfRange.OverlappingMeansSharedIndex` | api/v1/helper.go:483-497 | On readable ranges the overlap test holds exactly when some VF index lies in both |
| `VfRange.FindRange` | api/v1/helper.go:499-532 | The loop finds the range of the first entry naming the PF, or all VFs, with its error and out-of-range cases |
| `VfRange.FirstEntryDecides` | api/v1/helper.go:505-520 | The first entry that names the PF gives its range, or all VFs if it has none; an unreadable entry before that is the error |
| `VfRange.NoEntryMeansAll` | api/v1/helper.go:521-524 | A PF that no entry names gets every VF |
| `VfRange.EntryText` | api/v1/helper.go:560-581 | How an entry is read: a name alone, or a name and a range behind the separator |
| `VfRange.AdmitsExactly` | pkg/webhook/validate.go:228-255 | A name alone is admitted, and a name with a range exactly when the range is not empty and ends below the VF count |
| `VfRange.AdmittedEntryParses` | pkg/webhook/validate.go:228-255 | An admitted pfNames entry parses, with a range inside the VFs or none |
| `VfRange.AdmittedRangeInBounds` | pkg/webhook/validate.go:228-255 | Every range an admitted policy gives a PF exists and satisfies 0 <= start <= end < numVfs |
| `Policies.AdmittedGroup` | api/v1/helper.go:499-532 | The VF group of an admitted policy is built without error, and its printed range reads back inside the VFs |
| `Policies.Selected` | api/v1/helper.go:592-622 | The chain of checks picks exactly the NICs that meet every criterion given |
| `Policies.CriterionByCriterion` | api/v1/helper.go:592-622 | Each criterion alone picks exactly the NICs that meet it; a PF name also goes by alternative names |
| `Policies.CriteriaCombine` | api/v1/helper.go:592-622 | Several criteria pick the NICs that meet all of them |
| `Policies.ListsUnite` | api/v1/helper.go:598-616 | Listing more devices or names picks the NICs of either list |
| `NodeState.GroupIsReadable` | api/v1/helper.go:525-531 | The text of a group's range reads back as the range computed for the PF |
| `NodeState.EmptySelectorUpdatesNothing` | api/v1/helper.go:348-352 | A policy without any criterion updates no NIC and no bridge |
| `Stacking.StackClosedForm` | api/v1/helper.go:457-481 | A destructive newest-first fold is exactly the list of arrivals no later arrival conflicts with |
| `Stacking.Spare` | api/v1/helper.go:462-468 | The loop over the older groups keeps, in order, exactly those that do not conflict with the new one |
| `PolicyFold.FoldIsPerPf` | api/v1/helper.go:347-387 | The shared interface list refines one independent fold per PF |
| `PolicyFold.FoldClosedForm` | api/v1/helper.go:347-387 | A PF has an entry exactly when some policy updates it, and its VF groups are those no later update conflicts with, newest first |
| `PolicyFold.MergedIsPartitioned` | api/v1/helper.go:457-481 | Merging an admitted policy keeps ranges disjoint, resource names distinct and every VF index below the merged VF count, whatever the equal-priority flag |
| `PolicyFold.FoldIsPartitioned` | api/v1/helper.go:457-532 | The same for every entry after any sequence of updates |
| `PolicyFold.ConflictMeans` | api/v1/helper.go:463-465 | On readable ranges two groups conflict exactly when they share the resource name or a VF |
| `PolicyFold.PfFoldIsLargest` | api/v1/helper.go:469-480 | The merged MTU and VF count are the largest since the last update that shared no priority and left no earlier group |
| `NodeState.MergeConfigs` | api/v1/helper.go:457-481 | The in-place merge computes the merged entry |
| `NodeState.State.Apply` | api/v1/helper.go:347-387 | On success the interfaces are the fold of the policy's updates over the old ones; otherwise which error |
| `NodeState.State.ApplyBridgeConfig` | api/v1/helper.go:390-451 | Succeeds exactly on sane bridge policies; the bridges are then the fold of the updates over the old ones, still sorted |
| `Bridges.BinarySearch` | api/v1/helper.go:440-442 | Finds the lower bound of a name in a sorted list and whether the name is there |
| `Bridges.PutAtLowerBound` | api/v1/helper.go:443-447 | Replacing or inserting at the lower bound is insert-or-replace by name |
| `Bridges.FoldIsSorted` | api/v1/helper.go:390-451 | The bridge list is always strictly sorted by name, and every bridge carries the name of its own uplink |
| `Bridges.FoldRefinesMap` | api/v1/helper.go:390-451 | A PF has a bridge exactly when the last policy selecting it defines one, with that policy's settings |
| `Bridges.NoUnderscoreNoCollision` | api/v1/helper.go:979-981 | PCI addresses without an underscore never share a bridge name |
| `Bridges.CollisionLosesBridge` | api/v1/helper.go:979-981 | If two PFs do share a name, the later bridge replaces the earlier one |
| `PolicySync.SortForgetsOrder` | api/v1/helper.go:273-288 | Sorting by priority and name gives the same list for every permutation of distinctly named policies |
| `PolicySync.SamePriorityMeans` | controllers/sriovnetworknodepolicy_controller.go:466-480 | The equal-priority flag says that a policy of the same priority has been applied to the node before, or, for the first one, that its priority is 100 |
| `PolicySync.FoldPolicies` | controllers/sriovnetworknodepolicy_controller.go:458-482 | The loop with its equal-priority flag computes the specification, or stops at the first policy that cannot be applied |
| `PolicySync.SyncForgetsOrder` | controllers/sriovnetworknodepolicy_controller.go:410-498 | What a sync writes does not depend on the order in which the policies are listed |
| `PolicySync.SyncNodeState` | controllers/sriovnetworknodepolicy_controller.go:434-497 | The method computes the result of a sync |
| `PolicySync.SyncStoresTheDesired` | controllers/sriovnetworknodepolicy_controller.go:434-497 | A sync fails exactly when the spec cannot be generated, leaves exactly the desired object stored, and writes exactly when the one found differs from it |
| `PolicySync.SyncStoresTheSpec` | controllers/sriovnetworknodepolicy_controller.go:484-497 | With a status, the stored object carries the generated spec and the right owners and no keep-until mark, and it is written exactly when one of the three differs |
| `PolicySync.SecondSyncWritesNothing` | controllers/sriovnetworknodepolicy_controller.go:484-491 | A second sync with the same policies in any order, pools and status performs no update |
| `PolicySync.GeneratedSpecIsPartitioned` | controllers/sriovnetworknodepolicy_controller.go:458-482 | With admitted policies the fold succeeds and every PF of the NodeState has disjoint, in-range, distinctly named VF groups |
| `PolicyMeaning.GeneratedGroups` | controllers/sriovnetworknodepolicy_controller.go:458-482 | A NIC has an entry exactly when some applied policy gives it VFs, and its VF groups are those of the policies selecting it that no later one conflicts with, newest first |
| `PolicyMeaning.GeneratedIdentity` | api/v1/helper.go:355-363 | Address, name, link type, e-switch mode and external management are those of the NIC and of the last applied policy giving it VFs |
| `PolicyMeaning.GeneratedSizes` | api/v1/helper.go:457-481 | MTU and VF count are each that of some applied policy, and the largest since the last policy that shared no priority and left no earlier group |
| `PolicyMeaning.GroupsFitTheEntry` | api/v1/helper.go:499-532 | Every VF group in an entry carries the settings of an applied policy giving the NIC VFs, and neither its MTU nor that policy's VF count exceeds the entry's |
| `PolicyMeaning.SmallerPriorityNumberWins` | api/v1/helper.go:279-284 | Of two applied policies that compete for a NIC, the one with the larger priority number, or among equals the smaller name, loses its group |
| `PolicyMeaning.PolicyWithoutEffect` | controllers/sriovnetworknodepolicy_controller.go:459-463 | The default policy, and a policy asking for a label the node does not have, change nothing wherever they stand in the list |
| `PolicyMeaning.NoEntryWithoutNic` | controllers/sriovnetworknodepolicy_controller.go:458-482 | There is no entry for an address the node does not have |
| `PolicyMeaning.GeneratedRest` | controllers/sriovnetworknodepolicy_controller.go:449-451 | The node-wide settings come from the pools alone, and without bridge management there are no bridges |
| `PolicyMeaning.GeneratedBridgesAreSorted` | api/v1/helper.go:390-451 | The bridges of the generated NodeState are strictly sorted by name, each named after its own uplink |
| `PolicyMeaning.GeneratedBridges` | api/v1/helper.go:390-451 | The bridge of a NIC is exactly the one defined by the last applied policy that selects it, with the settings of that policy, and there is none if that policy defines none |
| `PolicyMeaning.GeneratedBridgeSettings` | api/v1/helper.go:418-435 | The bridge carries the bridge and uplink settings of that policy, the NIC's name and address, and the policy's MTU if it has one |
| `Bridges.BridgeNameFormat` | api/v1/helper.go:977-981 | The format of the generated names |
| `NeedUpdate.NeedToUpdateSriov` | api/v1/helper.go:192-271 | The nested loops with their early returns and first-match break compute the verdict |
| `NeedUpdate.VfDiffers` | api/v1/helper.go:219-264 | The chain of per-VF checks answers true exactly when the VF does not conform to its group |
| `NeedUpdate.SetUpConforms` | api/v1/helper.go:219-264 | A VF set up as its group asks conforms, unless its kernel-driven PF is externally managed |
| `NeedUpdate.DifferencesAreNoticed` | api/v1/helper.go:219-264 | Every way of not being set up is noticed |
| `NeedUpdate.PfSetUpConforms` | api/v1/helper.go:193-214 | A PF that is up in the right mode with the right VFs and MTU conforms, and every difference is noticed |
| `NeedUpdate.OwnerIsUnique` | api/v1/helper.go:217-219 | In disjoint groups the first group covering a VF is the only one, so the break is sound |
| `NeedUpdate.UpdateIffNotConforming` | api/v1/helper.go:192-271 | For disjoint groups an update is due exactly when the PF checks fail or some VF does not conform to a group covering it |
| `NeedUpdate.GroupOrderIsIrrelevant` | api/v1/helper.go:192-271 | Rearranging disjoint groups keeps them disjoint and does not change the answer |
| `NeedUpdate.OverlapMakesOrderMatter` | api/v1/helper.go:265 | Without disjointness the order decides the answer |
| `NeedUpdate.GeneratedSpecIsCheckedExactly` | api/v1/helper.go:192-271 | For every PF of a spec generated from admitted policies the answer is exact |
| `Mellanox.OtherPortIsInvolution` | pkg/vendors/mellanox/mellanox.go:434-444 | The other port's other port is the port itself exactly on functions 0 and 1 |
| `Mellanox.RequestedIsLarger` | pkg/vendors/mellanox/mellanox.go:276-287 | The VF count requested of a dual-port NIC is the larger of the two ports' counts, and otherwise the port's own |
| `Mellanox.WriteEffect` | pkg/vendors/mellanox/mellanox.go:193-207 | What a write leaves in the stored configuration, field by field |
| `Mellanox.OneRoundConverges` | pkg/vendors/mellanox/mellanox.go:274-335 | On a NIC not externally managed with the right links, one write and at most one reboot leave the firmware with the requested VF count now and next and SR-IOV on exactly if there are VFs, and nothing to ask for, except in the one stuck configuration |
| `Mellanox.AtRestMeansProvided` | pkg/vendors/mellanox/mellanox.go:303-336 | There is nothing to ask for exactly when the firmware provides what is requested |
| `Mellanox.ExternallyManagedIsChecked` | pkg/vendors/mellanox/mellanox.go:291-301 | An externally managed NIC is never written a VF count or link type; asking for more VFs than it has is the error |
| `Mellanox.LinksAsked` | pkg/vendors/mellanox/mellanox.go:338-376 | A link type is written, and a reboot asked for, exactly for the ports that show another one than they are to have |
| `Mellanox.LinkChangeConverges` | pkg/vendors/mellanox/mellanox.go:338-376 | Once the link types asked for are in force every specified port has the one it is to have |
| `Mellanox.StuckForEver` | pkg/vendors/mellanox/mellanox.go:194-200 | That configuration asks for a reboot in every further round |
| `Mellanox.SomeHostIsStuck` | pkg/vendors/mellanox/mellanox.go:320-336 | A NIC in that configuration: no VFs asked for, none configured, SR-IOV enabled |
| `Mellanox.TwinsAgree` | pkg/vendors/mellanox/mellanox.go:274-318 | Both ports of a dual-port NIC give the same outcome, except exactly when one of them alone is externally managed and something is to change |
| `MellanoxPlugin.Plugin.OnNodeStateChange` | pkg/plugins/mellanox/mellanox_plugin.go:78-190 | Both loops, in any orders of the maps, gather the resets, the settings and the flag, or fail |
| `MellanoxPlugin.RecordedSettings` | pkg/plugins/mellanox/mellanox_plugin.go:128-182 | What is recorded: for an evaluated port with something to change, what it asks for; for a NIC without a spec that the operator had configured, the removal; and nothing else |
| `MellanoxSweep.Search` | pkg/plugins/mellanox/mellanox_plugin.go:216-257 | The two searches through a NIC's ports succeed on the first match that no unreadable entry precedes, and fail on an unreadable one otherwise |
| `MellanoxSweep.SearchIgnoresOrder` | pkg/plugins/mellanox/mellanox_plugin.go:216-257 | When every entry can be read the order of the ports does not matter |
| `MellanoxSweep.RemovalMeans` | pkg/plugins/mellanox/mellanox_plugin.go:138-182 | A NIC without a spec is removed exactly when some port was configured here, none is managed elsewhere, the device is supported and SR-IOV is left over |
| `MellanoxSweep.RemovalConverges` | pkg/plugins/mellanox/mellanox_plugin.go:178-182 | One write of the removal leaves nothing to remove |
| `MellanoxPass.ChangesAreTheWrites` | pkg/plugins/mellanox/mellanox_plugin.go:128-130 | The first loop records settings for exactly the evaluated ports with something to change |
| `MellanoxPass.FailsInSomeOrder` | pkg/plugins/mellanox/mellanox_plugin.go:88-126 | The first loop fails in some order exactly when some port cannot be evaluated |
| `MellanoxPass.FailsInEveryOrder` | pkg/plugins/mellanox/mellanox_plugin.go:88-126 | It fails in every order exactly when some NIC has no port that can be evaluated |
| `MellanoxPass.ResetInSomeOrder` | pkg/plugins/mellanox/mellanox_plugin.go:132-134 | A NIC is reset in some order exactly when one of its ports asks for a reboot |
| `MellanoxPass.ResetInEveryOrder` | pkg/plugins/mellanox/mellanox_plugin.go:132-134 | A NIC is reset in every order exactly when it has ports with a spec and all of them ask |
| `MellanoxPlugin.RebootIsReportedIff` | pkg/plugins/mellanox/mellanox_plugin.go:107-114 | The report says rightly, in every order, whether some NIC asks for a reboot exactly when every port can be evaluated, the second loop goes through, and all ports ask or none does |
| `MellanoxPass.RebootCanBeMissed` | pkg/plugins/mellanox/mellanox_plugin.go:107-114 | Two NICs and an order in which a reset is recorded and no reboot flagged |
| `Requirements.RebootImpliesDrain` | pkg/plugins/generic/generic_plugin.go:144-158 | Every plugin that asks for a reboot asks for a drain |
| `Requirements.AnswersAre` | pkg/plugins/generic/generic_plugin.go:144-158 | The generic plugin drains when it needs a drain or a reboot, the others for their own reason, and a failed check is an error |
| `Requirements.CheckOnNodeStateChange` | pkg/daemon/daemon.go:314-343 | Fails exactly when a plugin fails; otherwise a reboot or drain is required exactly when some plugin requires it |
| `Requirements.Settle` | pkg/daemon/daemon.go:257-276 | What comes out is always a requirement the handshake may start from; with systemd, a reboot exactly when a drain |
| `Guid.Parse` | pkg/host/internal/infiniband/guid.go:19-32 | Accepts exactly eight octets and packs them into the number they write |
| `Guid.HardwareAddr` | pkg/host/internal/infiniband/guid.go:40-49 | Fills in the eight octets whose number is the GUID |
| `Guid.RoundTrip` | pkg/host/internal/infiniband/guid.go:19-49 | Packing and unpacking undo each other on every GUID and on every eight octets |
| `Guid.RangeAllocation` | pkg/host/internal/infiniband/ib_guid_pool.go:53-59 | A VF that fits gets Start + vf inside the range; what is handed out lies inside the range exactly when Start + vf does not pass 64 bits |
| `Guid.ListAllocation` | pkg/host/internal/infiniband/ib_guid_pool.go:37-51 | A list hands out its entries by VF index and nothing beyond its end; without list, range or pool there is an error |
| `Guid.WrapsBelowTheRange` | pkg/host/internal/infiniband/ib_guid_pool.go:53-59 | A range at the top whose second VF gets the all-zero GUID |
| `Guid.AllocationsAreDistinct` | pkg/host/internal/infiniband/ib_guid_pool.go:37-63 | Two VFs of a PF get the same GUID exactly when the configured list repeats it |

## Left out

- MellanoxPlugin.Plugin.OnNodeStateChange: starts from the two maps that the first lines of the method build from status and spec.
- Mellanox.OneRoundConverges: does not model a pending link type change or a NIC in DPU mode; the observed link types stay as they are across the reboot.
- Mellanox.SomeHostIsStuck: needs a NodeState with an entry for zero VFs, which the policy fold never produces and a hand-written NodeState may.
- DaemonGenerations.NodeReconciler.Reconcile: does not model systemd mode, where the host service applies the configuration; that the drain is done is an answer, since the drain handshake is modelled on its own.
- Requirements.RebootImpliesDrain: how each plugin decides that it needs a drain or a reboot is a parameter, except for the Mellanox plugin.
- Guid.Parse: starts from the octets; splitting the text is the Go standard library's net.ParseMAC.
- PolicySync.SortForgetsOrder: sort.Sort is specified, not modelled.
- DrainDispatch.DrainNode: what the orchestrator answers is a parameter; its own protocol is the subject of PoolPause and Orchestrator.
- Eviction of pods, kubectl drain and external drainers: DrainNode cordons and then succeeds or gives up.
- Draining disabled by configuration, creation of missing annotations, deletion of nodes and NodeStates during a run.
- The message list built from drain errors, events, logs and observed generations of conditions.
- HyperShift clusters, where the pool is not paused.
- Rendering of device plugin configuration, network attachment definitions and manifests.
- Discovery of devices, sysfs, netlink, systemd units, OVSDB and kernel arguments: input and output.
- Pairwise webhook validation of policies: disjointness comes from the fold, not from admission.
- Liveness beyond a single undisturbed call: nothing says that every request is eventually served.
