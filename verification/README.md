# Verified model of the virt-hwe tree

A Dafny model of the parts of this repository whose correctness is hardest to
see: four components of its QEMU 10.2.1 tree and two text transformations of its
Debian scripts. `dafny verify dfyconfig.toml` checks the whole project.

| files | what they model |
|---|---|
| Exclusive | the vCPU exclusive-section protocol, as a step relation over any number of vCPUs |
| Common | options, lists without duplicates |
| BlockGraph, BlockPerm, BlockRefresh, BlockTran, BlockLinks, BlockLayer | the block graph: edges and lists, permissions in topological order and when they can be had, rollback transactions, references, and the operations attach, detach, replace node, append and set permissions |
| AioContext | the change of the AioContext of a connected component |
| Jobs, JobTransactions | the job state machine, pauses, and job transactions |
| Bytes, Rebase, Compare, Convert, ConvertCo | safe rebase, compare, and sparse convert with its coroutines |
| Text, ControlText, ControlUpdate | reading, writing and updating a control file |
| Rename, RenameStanza | renaming packages in relationship fields |

## Conventions

- A protocol of threads or coroutines is a step relation; a theorem about it is
  about every state of every finite sequence of steps.
- A structure that the source changes in place is a class whose methods keep
  `Valid()`. An assertion of the source becomes a precondition or an `assert`
  that is proved, so that a verified method is one in which it cannot fail.
- Code outside the model appears as a parameter with a contract: `bdrv_block_status_above`,
  `bdrv_is_allocated`, drivers' `.bdrv_child_perm` and `.bdrv_check_perm`, jobs'
  `.prepare` and `.cancel`, read and write errors.

What the contracts assume:

- Exclusive: sequential consistency, and a fixed set of CPUs.
- BlockLayer: `.bdrv_child_perm` and `.bdrv_check_perm` are pure; replacing a node by
  itself is excluded, as the source asserts that the target of an edge changes.
- AioContext: at the start each connected component shares one context, and a job
  the context of its nodes.
- Jobs: `.cancel` returns true if forced or if the job is not ready; ready is
  entered at most once, from running; callbacks are not interleaved with
  commands; members are fixed once one has started. Waiting inside
  `job_completed_txn_abort_locked` is a state of its own (`unwinding`), during
  which all other events may happen.
- Rebase: no prefix chain; allocation is constant on each block of the write
  alignment, which divides the buffer size.
- Convert: no salvage mode, no copy offload, a positive count from block
  status, and a backing file of the target that equals the source's.
- ConvertCo: block status, reads and writes may yield; nothing else does. A read or
  write that is under way comes to an end.
- Text: newline is the only line separator, white space and letter case are
  those of ASCII.

## Properties that do not hold as one might expect

- A job transaction is not all or nothing when `.prepare` fails in a job other than
  the one that finalize was called on: that one commits. `Jobs.AllOrNothing` gives
  the exact condition, `JobTransactions.InitiatorCommitsAlone` a transaction in
  which it happens.
- The update of a control file is not idempotent for a package name with a
  comma. `ControlUpdate.UpdateTwice` gives the exact condition,
  `ControlUpdate.CommaExample` a file.
- `bdrv_child_try_set_perm` may report success although nothing has changed: that
  happens if and only if the request only loosens and the graph cannot be right with
  it. `BlockLayer.BlockLayer.ChildTrySetPerm` states this, and
  `BlockLayer.HiddenFailure` has a graph in which it happens.
- `pending_cpus` is one more than the flags suggest while a CPU has cleared its
  flag and has not yet decremented; `Exclusive.PendingCounts` counts that CPU, and
  `Exclusive.LateDecrement` is a run in which there is one.
- The regular expression of create-hwe.py does not rename whole words if the
  package name has a character that no word has, such as an underscore.
  `Rename.WholeWordsIff` gives the exact condition.

## Model

| member | source | states |
|---|---|---|
| `Exclusive.StepKeepsInv` | gencontrol/qemu/cpu-common.c:183-325 | Every single step (one shared access, lock operation or condition wait) of any thread keeps the invariant that ties `running`, `has_waiter`, `pending_cpus`, the lock and all program counters together. |
| `Exclusive.RunInv` | gencontrol/qemu/cpu-common.c:183-325 | The invariant holds in every state of every interleaving, for any number of vCPUs. |
| `Exclusive.MutualExclusion` | gencontrol/qemu/cpu-common.c:192-325 | While a thread is past `start_exclusive` and has not ended its section, no other vCPU is in guest execution and no other thread is exclusive, although both fast paths read `pending_cpus` without the lock. |
| `Exclusive.RunIsTraced` | gencontrol/qemu/cpu-common.c:192-249 | Every run can be labelled with the returns of `start_exclusive` and the calls of `end_exclusive`, so that the next three hold of all runs. |
| `Exclusive.NestingCounts` | gencontrol/qemu/cpu-common.c:201-204 | In every state of every labelled run, `exclusive_context_count` of a thread is the number of sections it has started less the number it has ended. |
| `Exclusive.UnendedIsExclusive` | gencontrol/qemu/cpu-common.c:192-249 | As long as a thread has started more sections than it has ended, it is inside, `pending_cpus` is 1, no other vCPU is in guest execution and no other thread has a section that is not ended. |
| `Exclusive.LeftByLastEnd` | gencontrol/qemu/cpu-common.c:236-249 | The section is left by the `end_exclusive` that leaves nothing unended, and by no other step; an inner `end_exclusive` changes the count alone. |
| `Exclusive.PendingCounts` | gencontrol/qemu/cpu-common.c:209-232 | Outside the scan `pending_cpus` is 0 with no `has_waiter` set, or 1 plus the number of flags plus the one CPU between clearing its flag and decrementing; no flagged CPU is in `exclusive_idle`. |
| `Exclusive.LateDecrement` | gencontrol/qemu/cpu-common.c:192-325 | A concrete run of two CPUs, from `start_exclusive` to the section, in which `pending_cpus` is 2 for a moment although no flag is set. |
| `Exclusive.WaiterHasReleaser` | gencontrol/qemu/cpu-common.c:223-225 | A requester waiting for `pending_cpus > 1` always has another CPU that must still decrement it. |
| `Exclusive.ReadyCanStep` | gencontrol/qemu/cpu-common.c:250-325 | A thread inside the protocol that neither sleeps nor wants a held lock can take a step. |
| `Exclusive.NoDeadlock` | gencontrol/qemu/cpu-common.c:183-325 | Whenever a thread is inside the protocol, some thread can take a step that is not a spurious wake-up, or a section is really in progress, or a CPU that was told to leave the guest is still in it: there is no deadlock and no lost wake-up. |
| `BlockGraph.ReplaceChildKeeps` | gencontrol/qemu/block.c:2947-3007 | Moving an edge to another node keeps `parents` and `children` consistent with the edges and changes nothing but the target. |
| `BlockGraph.ListsFollowEdges` | gencontrol/qemu/block.c:2947-3007 | Two consistent graphs with the same edges have the same parent and child lists up to the order of siblings, so restoring the edges restores the lists. |
| `BlockGraph.NoCycles` | gencontrol/qemu/block.c:3205-3236 | In a graph with a ranking no path leads from a node back to itself. |
| `BlockGraph.AddingEdge` | gencontrol/qemu/block.c:3216-3220 | A new edge u to v keeps the graph free of cycles if v does not reach u. |
| `BlockGraph.RecurseIsReaches` | gencontrol/qemu/block.c:4340-4356 | `bdrv_recurse_has_child` holds if and only if a path leads from the node to the child. |
| `BlockGraph.ShouldUpdateChild` | gencontrol/qemu/block.c:5241-5318 | The breadth-first search returns true if and only if the edge is not a job's and does not hang off a node that `to` reaches. |
| `BlockPerm.CumulativeMeaning` | gencontrol/qemu/block.c:2646-2662 | A permission is required if and only if some user requires it, and shared if and only if every user shares it. |
| `BlockPerm.ParentPermsConflict` | gencontrol/qemu/block.c:2257-2281 | Reports a conflict if and only if two different users of the node do not tolerate each other. |
| `BlockPerm.TopologicalDfs` | gencontrol/qemu/block.c:2312-2335 | From a duplicate-free, descendant-closed, parents-first list, the recursion makes another that also holds the node and exactly what it reaches besides. |
| `BlockPerm.TopoClosed` | gencontrol/qemu/block.c:2301-2311 | A sorted list holds everything that its members reach. |
| `BlockPerm.BelowIsApart` | gencontrol/qemu/block.c:2593-2622 | An edge below a node of a sorted list is neither above nor below an earlier node or a node outside the list. |
| `BlockPerm.RefreshKeeps` | gencontrol/qemu/block.c:2593-2622 | Refreshing one node of a sorted list leaves the permissions right at all earlier nodes and at all nodes outside the list. |
| `BlockPerm.NodeOkIsRight` | gencontrol/qemu/block.c:2521-2591 | The checks on the lists of a node hold if and only if its edges are right: users tolerate each other; if one writes, the node is writable, and of aligned size unless one may resize it; the driver agrees; and every child edge carries what the driver asks for, or shares everything if the child forces sharing. |
| `BlockRefresh.TracksNext` | gencontrol/qemu/block.c:2593-2622 | Refreshing the next node of a sorted list keeps the graph in agreement with every solution on the edges dealt with so far. |
| `BlockRefresh.TracksFails` | gencontrol/qemu/block.c:2593-2622 | If the check of a node fails during the refresh, no choice of permissions makes all listed nodes right. |
| `BlockRefresh.TracksEnd` | gencontrol/qemu/block.c:2593-2622 | A refresh that gets to the end has found the only solution. |
| `BlockRefresh.CanRefreshIff` | gencontrol/qemu/block.c:2947-3007 | Whether a refresh is possible depends on the edges alone, not on the order of siblings. |
| `BlockRefresh.SolvesIff` | gencontrol/qemu/block.c:2593-2622 | A solution, in terms of the edges alone: only permissions of edges below listed nodes with a driver differ, and every listed node is right. |
| `BlockTran.UndoKeeps` | gencontrol/qemu/block.c:2343-2351 | Each abort callback keeps the lists consistent and puts back target, `perm` and `shared_perm` of its edge, or removes the edge it had attached. |
| `BlockTran.ReplaceCounts` | gencontrol/qemu/block.c:2947-3007 | Redirecting an edge moves exactly one entry between the parents lists. |
| `BlockTran.AbortStep` | gencontrol/qemu/block.c:2444-2470 | Aborting the last record leaves a transaction that still leads back to the same base, with every reference accounted for. |
| `BlockTran.CommitStep` | gencontrol/qemu/block.c:2436-2442 | Committing a record turns the reference parked in it into a scheduled unref, so that the account stays balanced. |
| `BlockTran.ReplaceStep` | gencontrol/qemu/block.c:2491-2512 | Replacing a child inside a transaction keeps it restorable, even if the same edge was changed before, and the old reference is parked in the record. |
| `BlockTran.SetPermStep` | gencontrol/qemu/block.c:2358-2374 | Setting permissions inside a transaction keeps it restorable and the references balanced. |
| `BlockTran.AttachStep` | gencontrol/qemu/block.c:3160-3190 | Attaching a new edge inside a transaction keeps it restorable; the child gains one reference for one edge. |
| `BlockTran.RedirectKeepsAcyclic` | gencontrol/qemu/block.c:5372-5388 | Redirecting an edge to a node that does not reach the edge's parent keeps the graph acyclic. |
| `BlockLayer.BlockLayer.RollBack` | gencontrol/qemu/block.c:2444-2470 | Undoing the records in reverse order gives back exactly the edges of the beginning, on consistent lists and with balanced references. |
| `BlockLayer.BlockLayer.Abort` | gencontrol/qemu/block.c:2444-2470 | After `tran_abort` the edges are those of the beginning and the graph is acyclic again. |
| `BlockLayer.BlockLayer.Commit` | gencontrol/qemu/block.c:2436-2442 | After `tran_commit` every reference is held by an edge, an outside holder or a scheduled unref. |
| `BlockLayer.BlockLayer.Finalize` | gencontrol/qemu/block.c:2713-2715 | Success keeps the graph, failure restores the edges. |
| `BlockLayer.BlockLayer.ChildSetPerm` | gencontrol/qemu/block.c:2358-2374 | Only `perm` and `shared_perm` of the edge change, and the change can be rolled back. |
| `BlockLayer.BlockLayer.ReplaceChildTran` | gencontrol/qemu/block.c:2491-2512 | Only the target of the edge changes; the graph stays acyclic and the change can be rolled back. |
| `BlockLayer.BlockLayer.AttachCommon` | gencontrol/qemu/block.c:3091-3190 | Fails exactly if more than consistent reads is asked of an inactive node; otherwise one new edge with the given permissions. |
| `BlockLayer.BlockLayer.AttachChildNoperm` | gencontrol/qemu/block.c:3204-3236 | Fails exactly if the edge would close a cycle, if an inactive child would get an active parent, or if it would need more than consistent reads on an inactive child; otherwise the new edge has the permissions the parent's driver asks for. |
| `BlockLayer.BlockLayer.NodeRefreshPerm` | gencontrol/qemu/block.c:2521-2591 | Succeeds if and only if, in terms of the edges, the users of the node tolerate each other, the node is writable and of fitting size in case one of them writes, and the driver agrees; then each child edge carries exactly what the driver gives; failure changes nothing. |
| `BlockLayer.BlockLayer.DoRefreshPerms` | gencontrol/qemu/block.c:2600-2622 | Over a sorted list the refresh succeeds if and only if the permissions of the edges it may set can be chosen so that every listed node is right, and then it finds the only such choice; nodes outside the list that were right stay right. |
| `BlockLayer.BlockLayer.RefreshPerms` | gencontrol/qemu/block.c:2699-2718 | Succeeds if and only if the permissions below `bs` can be made right, and then they are right at every node that `bs` reaches, in terms of the edges; edges of other nodes are untouched. |
| `BlockLayer.BlockLayer.ListRefreshPerms` | gencontrol/qemu/block.c:2632-2644 | The same for everything that either of two nodes reaches. |
| `BlockLayer.BlockLayer.ChildTrySetPerm` | gencontrol/qemu/block.c:2720-2752 | If the graph can be right with the requested permissions, they are set and everything below is right. If it cannot, no edge changes, and success is reported if and only if nothing more is required and nothing less is shared than before. Writing to a node that is not writable is never granted. |
| `BlockLayer.HiddenFailure` | gencontrol/qemu/block.c:2720-2752 | A concrete graph: a request to give up Resize on a writable node of odd size reports success, and the edge keeps Resize. |
| `BlockLayer.OddSizeNeedsResize` | gencontrol/qemu/block.c:2553-2563 | In that graph the request cannot be met. |
| `BlockLayer.BlockLayer.AttachChild` | gencontrol/qemu/block.c:3288-3319 | Succeeds if and only if the edge is admitted and the permissions below the parent can be made right with it; then there is one new edge and everything below the parent is right, otherwise all edges are as before. The reference of the caller is given up in both cases; never a cycle. |
| `BlockLayer.BlockLayer.RootAttachChild` | gencontrol/qemu/block.c:3247-3276 | The same for a job or a user outside the graph, whose edge has exactly the permissions given; it fails whenever writing is asked of a node that is not writable. |
| `BlockLayer.BlockLayer.RootUnrefChild` | gencontrol/qemu/block.c:3327-3351 | The edge is gone and every reference is still accounted for; everything below its target is right if that is possible without the edge, otherwise no other edge changes. |
| `BlockLayer.BlockLayer.RunScheduledUnref` | gencontrol/qemu/block.c:7162-7187 | The reference count is positive when a scheduled unref takes effect; a node that reaches zero has no edge, no outside holder and no transaction record left. |
| `BlockLayer.BlockLayer.ReplaceNodeNoperm` | gencontrol/qemu/block.c:5359-5391 | Succeeds if and only if every user of `from` may move and is not frozen, or may be skipped; then exactly the movable edges, judged on the graph at the beginning, point to `to`. |
| `BlockLayer.BlockLayer.ReplaceNode` | gencontrol/qemu/block.c:5403-5441 | Succeeds if and only if every user of `from` moves or may be skipped and the permissions below both nodes can be made right afterwards. Success leaves jobs and nodes below `to` where they are, which is possible with auto-skip only, moves every other user of `from`, none of which is frozen, and makes everything below both nodes right; failure restores all edges; never a cycle. |
| `BlockLayer.BlockLayer.Append` | gencontrol/qemu/block.c:5481-5517 | Succeeds if and only if the edge to `top` is admitted, every user of `top` moves or may be skipped, and the permissions below the new node can be made right afterwards. Success adds that edge and moves the users of `top` that are no jobs and not below the new node; failure restores all edges. |
| `BlockLinks.MovingKeepsBelow` | gencontrol/qemu/block.c:5372-5388 | Redirecting an edge that hangs off no node below `to` does not change what `to` reaches, so the answers of the search do not change during the replacement. |
| `BlockLinks.MovableBefore` | gencontrol/qemu/block.c:5496-5507 | Attaching the backing edge first does not change which users of `top` may move to the new node. |
| `BlockLinks.AdmitsIff` | gencontrol/qemu/block.c:3204-3236 | An edge is admitted if and only if it closes no cycle and, for an inactive child, the parent is inactive and its driver asks for no more than consistent reads. |
| `AioContext.FoundAll` | gencontrol/qemu/block.c:7653-7689 | When the recursion has ended, every node connected to the start through parents, children and job siblings has been collected. |
| `AioContext.MovedWhole` | gencontrol/qemu/block.c:7645-7739 | What was collected is exactly the connected component, no user in it refuses, and moving it keeps contexts uniform. |
| `AioContext.ContextChange.ChangeNode` | gencontrol/qemu/block.c:7653-7689 | Success collects the node and keeps the search invariant, failure exhibits a refusing user of the component; the recursion ends because each level visits a new edge. |
| `AioContext.ContextChange.ChangeParent` | gencontrol/qemu/block.c:7569-7595 | The same for the user of a node, which may be a node, a job or an outside user. |
| `AioContext.ContextChange.ChangeChild` | gencontrol/qemu/block.c:7608-7618 | The same for an edge whose parent is being dealt with. |
| `AioContext.ContextChange.ChangeJob` | gencontrol/qemu/blockjob.c:147-171 | All nodes of a job are collected together with the job. |
| `AioContext.ContextChange.Commit` | gencontrol/qemu/block.c:7627-7635 | Every collected node and job gets the new context, and nothing else changes. |
| `AioContext.ContextChange.TryChange` | gencontrol/qemu/block.c:7702-7739 | All or nothing: it fails if and only if a user in the component refuses; success moves exactly the component of the node, failure moves nothing; contexts stay uniform. |
| `Jobs.FinalizeOutcome` | gencontrol/qemu/job.c:804-883 | A job ends with one clean and exactly one of commit and abort: abort if and only if it failed or was force-cancelled; a forced cancel without an error becomes -ECANCELED; the job is dismissed if and only if that is automatic or it was never started. |
| `Jobs.CancelBecomesHard` | gencontrol/qemu/job.c:888-924 | A cancel request that is forced or meets a job that is not ready becomes a forced one, and keeps the pause count consistent. |
| `Jobs.CompletedFails` | gencontrol/qemu/job.c:929-969 | No member of an aborting transaction can take the success path. |
| `Jobs.CompletedSucceeds` | gencontrol/qemu/job.c:1037-1061 | A job that completes without error does so while the transaction is still working, and may become waiting. |
| `Jobs.CompletedIsWaiting` | gencontrol/qemu/job.c:1045-1052 | In a working transaction a completed member is waiting and has no error. |
| `Jobs.FirstLeaves` | gencontrol/qemu/job.c:846-883 | Finalizing the first member takes it out of the transaction and keeps all other members as they should be. |
| `Jobs.AbortedOutcome` | gencontrol/qemu/job.c:929-969 | At the end of an aborted transaction every member but the initiator has aborted, each was cleaned once, and the initiator aborted if and only if it had an error, as it has when force-cancelled. |
| `Jobs.AllOrNothing` | gencontrol/qemu/job.c:972-1008 | Finalizing is all or nothing if and only if every `.prepare` succeeds or the first one that fails is that of the job on which finalize was called. |
| `Jobs.CommittedIff` | gencontrol/qemu/job.c:972-1008 | All members commit if and only if the `.prepare` of every member succeeds. |
| `Jobs.StatusTable` | gencontrol/qemu/job.c:59-72 | The allowed status changes are the entries of `JobSTT`, row by row. |
| `Jobs.VerbTable` | gencontrol/qemu/job.c:74-84 | The statuses in which a command is accepted are the entries of `JobVerbTable`, row by row. |
| `JobTransactions.JobTxn.FinalizeCompleted` | gencontrol/qemu/job.c:958-965 | Members are finalized in order as long as they have completed; each gets the callbacks its own result asks for; a member that is waited for has been cancelled. |
| `JobTransactions.JobTxn.Unwind` | gencontrol/qemu/job.c:958-968 | The abort goes on until it has to wait or the transaction is empty, with a balanced reference count. |
| `JobTransactions.JobTxn.TxnAbort` | gencontrol/qemu/job.c:929-969 | All other members are force-cancelled; if all had completed, all others abort and the initiator ends according to its own result. |
| `JobTransactions.JobTxn.Prepare` | gencontrol/qemu/job.c:972-987 | Every member before the one it stops at was prepared without error, and that one was not; only that member becomes aborting. |
| `JobTransactions.JobTxn.DoFinalize` | gencontrol/qemu/job.c:996-1008 | The transaction ends empty; all commit if and only if every `.prepare` succeeds; otherwise all abort except the job it was called on, if another one failed first. |
| `JobTransactions.JobTxn.CommitAll` | gencontrol/qemu/job.c:1005-1007 | Every member commits exactly once and none aborts. |
| `JobTransactions.JobTxn.Completed` | gencontrol/qemu/job.c:1064-1075 | An error or a forced cancel leads to an aborting transaction, success to what the other members determine. |
| `JobTransactions.JobTxn.TxnFailure` | gencontrol/qemu/job.c:1064-1075 | A member of an aborting transaction only records its error; otherwise the job becomes the initiator of an abort. |
| `JobTransactions.JobTxn.TxnSuccess` | gencontrol/qemu/job.c:1037-1061 | The job waits if a member is still working; otherwise all members, otherwise unchanged, become pending, and are finalized if all are automatic. |
| `JobTransactions.JobTxn.AllCompleted` | gencontrol/qemu/job.c:1045-1052 | True if and only if all members have completed, and then all are waiting. |
| `JobTransactions.JobTxn.ToPending` | gencontrol/qemu/job.c:1020-1061 | All members become pending by an allowed status change. |
| `JobTransactions.JobTxn.Exit` | gencontrol/qemu/job.c:1081-1096 | Completion in the main loop: an error is recorded or starts an abort with this job as initiator, success has the joint outcome; every status change is allowed by `JobSTT`. |
| `JobTransactions.JobTxn.ContinueAbort` | gencontrol/qemu/job.c:958-968 | Once the awaited member has completed, at least one more member leaves. |
| `JobTransactions.JobTxn.UserCancel` | gencontrol/qemu/job.c:1137-1171 | Accepted exactly in created, running, paused, ready, standby, waiting and pending. A job that is not started or has completed makes the transaction abort, with that job as initiator, and then every member of a pending transaction aborts exactly once; a job whose `.run` has returned does so if and only if the request is or becomes a forced one. A running job loses the pause by the user, is marked and is woken; the mark is a forced one exactly if the request is forced, the job is not ready or its driver says so. |
| `JobTransactions.JobTxn.UserFinalize` | gencontrol/qemu/job.c:1010-1017 | Accepted exactly when pending; then all members commit if and only if every `.prepare` succeeds, and otherwise all abort except the job it was called on, if another one failed first. |
| `JobTransactions.JobTxn.UserDismiss` | gencontrol/qemu/job.c:774-785 | Accepted exactly when concluded; the callbacks made are not repeated. |
| `JobTransactions.JobTxn.UserPause` | gencontrol/qemu/job.c:722-733 | Accepted exactly in created, running, paused, ready and standby, if the user has not paused; adds the user's pause and wakes the job unless it is paused. |
| `JobTransactions.JobTxn.UserResume` | gencontrol/qemu/job.c:740-758 | Accepted exactly in the same statuses, if the user has paused; removes the user's pause and the I/O error, and wakes the job if that was the last pause and no timer is pending. |
| `JobTransactions.JobTxn.DrainBegin` | gencontrol/qemu/blockjob.c:93-97 | One more drained section, one more pause; the job is woken unless it is paused. |
| `JobTransactions.JobTxn.DrainEnd` | gencontrol/qemu/blockjob.c:123-127 | One drained section less; the assertion of resume holds; the job is woken if that was the last pause and no timer is pending. |
| `JobTransactions.JobTxn.ErrorStop` | gencontrol/qemu/blockjob.c:608-620 | Stopping on an error pauses for the user at most once and records the error. |
| `JobTransactions.JobTxn.PausesHaveSources` | gencontrol/qemu/job.c:690-714 | Between any two events, the pause count is one if not started, plus one if paused by the user, plus the outstanding drained sections; an I/O error implies a user pause. |
| `JobTransactions.JobTxn.Start` | gencontrol/qemu/job.c:1121-1135 | A created job starts running and loses its initial pause. |
| `JobTransactions.JobTxn.PausePoint` | gencontrol/qemu/job.c:609-632 | Pauses if and only if a pause is requested and the job is not force-cancelled; ready jobs become standby, others paused. |
| `JobTransactions.JobTxn.PauseReturns` | gencontrol/qemu/job.c:632-635 | The status after a pause is the one before it. |
| `JobTransactions.JobTxn.SleepReturns` | gencontrol/qemu/job.c:578-606 | A job that was woken from its sleep goes on. |
| `JobTransactions.JobTxn.ToReady` | gencontrol/qemu/job.c:1029-1034 | A running job becomes ready. |
| `JobTransactions.JobTxn.RunReturns` | gencontrol/qemu/job.c:1112-1118 | The result is stored and completion is left to the main loop. |
| `JobTransactions.JobTxn.Create` | gencontrol/qemu/job.c:391-456 | A new member, created and paused, with its own two flags and one more reference to the transaction. |
| `JobTransactions.JobTxn.EarlyFail` | gencontrol/qemu/job.c:787-792 | Any created member of a transaction that has not failed disappears from it, with its reference; the others stay in their order. |
| `JobTransactions.JobTxn.Release` | gencontrol/qemu/job.c:128-139 | The reference of the creator is given up. |
| `JobTransactions.InitiatorCommitsAlone` | gencontrol/qemu/job.c:972-1008 | A concrete transaction of two jobs in which one commits and the other aborts: the second cannot be prepared when finalize is called on the first. |
| `Bytes.CompareBuffers` | gencontrol/qemu/qemu-img.c:1264-1289 | The longest prefix of whole chunks that all agree or all differ, of positive length; agreement means equal bytes. |
| `Rebase.ExtendUnallocated` | gencontrol/qemu/qemu-img.c:4073-4086 | Aligning a region outwards to whole clusters adds no allocated byte. |
| `Rebase.WriteKeepsProgress` | gencontrol/qemu/qemu-img.c:4122-4140 | Writing the old backing file's bytes into unallocated whole clusters changes nothing visible through the old backing file, and settles the bytes for the new one. |
| `Rebase.CopyRegion` | gencontrol/qemu/qemu-img.c:4088-4146 | Every write keeps the visible content; afterwards the region reads the same through both backing files; it fails only on an I/O error. |
| `Rebase.CompareBacking` | gencontrol/qemu/qemu-img.c:4122-4126 | The next bytes all agree, or differ in every block. |
| `Rebase.SafeRebase` | gencontrol/qemu/qemu-img.c:4026-4161 | After every single write, and wherever it stops, the image reads as at the start; every block that is written is one in which the two backing files differ; on success the image stands on the new backing file and still reads the same, for backing files of any length; it fails only on an I/O error. |
| `Compare.FindNonzero` | gencontrol/qemu/qemu-img.c:1133-1147 | The first sector with a nonzero byte, or -1 if and only if there is none. |
| `Compare.CheckEmptySectors` | gencontrol/qemu/qemu-img.c:1308-1329 | 0 if and only if the bytes are all zero, 1 otherwise, 4 on a read error. |
| `Compare.CompareRegion` | gencontrol/qemu/qemu-img.c:1541-1584 | Settles a positive number of bytes: 0 only if they are equal, 1 only if the images differ. |
| `Compare.CheckTail` | gencontrol/qemu/qemu-img.c:1589-1623 | 0 if and only if the longer image goes on with zeroes. |
| `Compare.ImgCompare` | gencontrol/qemu/qemu-img.c:1507-1627 | Without I/O errors the non-strict result is 0 exactly if the images, extended with zeroes to the longer length, are equal, for every way block status splits them. Strict success also needs equal length and block statuses that agree on every byte; strict 1 has a different length, a different status or different content behind it. |
| `Convert.IsAllocatedSectors` | gencontrol/qemu/qemu-img.c:1159-1210 | The first run of zero or other sectors, aligned: data goes on to the next boundary, zeroes end at the last one, and zeroes without a boundary count as data; data is never declared zero. |
| `Convert.IsAllocatedSectorsMin` | gencontrol/qemu/qemu-img.c:1217-1254 | Data is cut off only before enough zero sectors, or before a rest of zeroes; and what counts as data has no run of zeroes of the threshold plus twice the alignment. |
| `Convert.SelectPart` | gencontrol/qemu/qemu-img.c:1700-1710 | Finds the source that holds the sector, and where that source begins. |
| `Convert.ConvertState.QueryStatus` | gencontrol/qemu/qemu-img.c:1734-1797 | The status follows from the answer for the right sector of the right source, and is true of every sector up to the cached end; it fails only if block status does. |
| `Convert.ConvertState.NextExtent` | gencontrol/qemu/qemu-img.c:1712-1803 | A positive number of sectors of one status, within the buffer if they are data; the extent ends with the cached status, at the end of the source or of the backing file, or at the largest request. |
| `Convert.ConvertState.IterationSectors` | gencontrol/qemu/qemu-img.c:1712-1817 | The same for compressed targets, where the extent is whole clusters or reaches the end. |
| `Convert.ConvertState.CoRead` | gencontrol/qemu/qemu-img.c:1819-1870 | Reads exactly the sectors of the concatenated sources, across source boundaries. |
| `Convert.ConvertState.WriteExtent` | gencontrol/qemu/qemu-img.c:1891-1911 | What is not written as data is zero; what is has data in it and, unless compressed, no long run of zeroes; with sparse threshold 0 all is written. |
| `Convert.ConvertState.WriteOnce` | gencontrol/qemu/qemu-img.c:1879-1931 | Makes some sectors of the target equal to the source; it writes data only where that is worth it, zeroes only if the target does not read as zeroes anyway, and nothing where the backing file shows through. |
| `Convert.ConvertState.CoWrite` | gencontrol/qemu/qemu-img.c:1873-1935 | The chunk of the target becomes the source's and nothing else changes, although zero runs are skipped, split or widened; chunks of zeroes or of the backing file are not written as data. |
| `Convert.ConvertState.ClaimChunk` | gencontrol/qemu/qemu-img.c:1992-2014 | A claimed chunk is not empty, has a true status, and fits the buffer if it has to be written; there is none only if block status fails. |
| `Convert.ConvertState.CopyChunk` | gencontrol/qemu/qemu-img.c:2016-2062 | A claimed, untouched chunk is copied exactly; one of the backing file is left unallocated, and one of zeroes is, too, if the target reads as zeroes and a sparse threshold is set. |
| `ConvertCo.RunInv` | gencontrol/qemu/qemu-img.c:1968-2089 | The invariant of the coroutines holds in every state of every interleaving of the loop test, the claim under the lock, reads, waits and the single writes of a chunk, with errors at any point. |
| `ConvertCo.CopyIsComplete` | gencontrol/qemu/qemu-img.c:2091-2152 | When the result is 0 the target equals the concatenated sources. |
| `ConvertCo.ChunksTile` | gencontrol/qemu/qemu-img.c:2005-2014 | Claimed chunks are disjoint and are together exactly the sectors below `sector_num`. |
| `ConvertCo.WritesInOrder` | gencontrol/qemu/qemu-img.c:2036-2062 | With in-order writes and no error, the chunk being written is the first unfinished one and starts at `wr_offs`. |
| `ConvertCo.WriterFindsChunkUntouched` | gencontrol/qemu/qemu-img.c:2045-2062 | Whoever makes a turn of the write loop finds the rest of its chunk untouched and its status true, as `WriteOnce` requires. |
| `ConvertCo.SleeperWillBeWoken` | gencontrol/qemu/qemu-img.c:2036-2043 | Below every sleeping coroutine there is one that holds an earlier chunk and is awake, with and without errors. |
| `ConvertCo.PublishWakesSuccessor` | gencontrol/qemu/qemu-img.c:2064-2079 | Publishing a chunk wakes the coroutine that holds the next one, and `wr_offs` becomes its start. |
| `ConvertCo.RunsEnd` | gencontrol/qemu/qemu-img.c:1968-2089 | No run has more than 8 steps per sector and 4 per coroutine, whatever the interleaving, the sizes of the chunks and the errors. |
| `ConvertCo.SomeoneMoves` | gencontrol/qemu/qemu-img.c:1986-2081 | Unless all coroutines have exited, one of them can take a step, and one without a new error. |
| `ConvertCo.ExitedHaveResult` | gencontrol/qemu/qemu-img.c:2082-2089 | Once all coroutines have exited, the copy has failed, or the result is 0 and the target equals the concatenated sources. |
| `ConvertCo.StuckIsDone` | gencontrol/qemu/qemu-img.c:1968-2089 | A run that cannot be continued has a result and all its coroutines have exited: no coroutine is left asleep or waiting for the lock. |
| `ControlText.ParseControlParagraph` | hwe-gencontrol.py:7-35 | The loop returns the fields of the paragraph, each with its continuation lines, or an error, as the recursive meaning `Parse` has it. |
| `ControlText.FirstFieldIsRead` | hwe-gencontrol.py:7-35 | For every list of lines: blank lines in front are skipped; an indented line or one without a colon is then an error; otherwise it is the first field, with the stripped name, and with what follows the colon and all lines that continue it as its value, before the fields of the rest. |
| `ControlText.LinesOfText` | hwe-gencontrol.py:12 | The lines of a text hold no newline and make up the text again, but for a last newline. |
| `ControlText.RoundTripIff` | hwe-gencontrol.py:7-53 | A list of fields survives being written and read if and only if it is well-formed: trimmed names without colon or newline, values whose further lines are indented and not blank. |
| `ControlText.ParsedIsOk` | hwe-gencontrol.py:7-35 | Whatever is read is well-formed. |
| `ControlUpdate.RelationsJoin` | hwe-gencontrol.py:46-49 | Relations that are joined with commas are found again. |
| `ControlUpdate.RelationsAreParts` | hwe-gencontrol.py:46-49 | The relations of any value are the parts between its commas, stripped, without the blank ones, in their order. |
| `ControlUpdate.FindFieldIndex` | hwe-gencontrol.py:38-43 | Finds the first field of the name, whatever the case of its letters. |
| `ControlUpdate.NamedIff` | hwe-gencontrol.py:38-43 | Names match if and only if they are equal letter by letter, whatever the case. |
| `ControlUpdate.AmendField` | hwe-gencontrol.py:66-83 | The first field of the name keeps its relations in their order and gets the item in front of or behind them, unless it is among them; no other field changes; a missing field is added behind the others. |
| `ControlUpdate.UpdateControl` | hwe-gencontrol.py:56-91 | There is an error exactly if the text cannot be read or has no Package field. Otherwise the output reads as the old fields, except that Depends has "ubuntu-virt" in front of its old relations and Replaces the package name with "-hwe" behind them, unless they were there; missing fields are added; the flag says whether the text differs. |
| `ControlUpdate.UpdateKeepsOk` | hwe-gencontrol.py:56-85 | Updated fields are well-formed, including values over several lines and relations split across lines. |
| `ControlUpdate.SecondUpdate` | hwe-gencontrol.py:56-85 | A second update finds the same package, and Depends already as it should be. |
| `ControlUpdate.CommaNeverSettles` | hwe-gencontrol.py:75-83 | An item with a comma is added again by every update. |
| `ControlUpdate.UpdateTwice` | hwe-gencontrol.py:56-91 | Updating the output again changes nothing if and only if the package name has no comma. |
| `ControlUpdate.CommaExample` | hwe-gencontrol.py:56-91 | A concrete file, with the package name "a,b", that every update changes. |
| `Rename.RenamedPieces` | create-hwe.py:74-80 | Renaming maps the maximal words of the text and keeps every other character in its place. |
| `Rename.SubRenames` | create-hwe.py:78-79 | Substituting with the regular expression of one name renames exactly the maximal words equal to it. |
| `Rename.SubLeftmost` | create-hwe.py:78-79 | For any package name, the leftmost place where it stands with no word character on either side gets the suffix, and the search goes on behind it. |
| `Rename.SubNowhere` | create-hwe.py:78-79 | A text in which the name stands nowhere is not changed. |
| `Rename.WholeWordsIff` | create-hwe.py:78-79 | The substitution renames exactly the maximal words equal to the name, in every text, if and only if the name consists of word characters. |
| `Rename.ByLengthSorts` | create-hwe.py:76 | The names are sorted by falling length, none is lost or made up, and names of one length stay in their order. |
| `Rename.InOrderIsRenamed` | create-hwe.py:74-80 | Renaming one name after the other equals renaming all at once if no name is the renamed form of an earlier one. |
| `Rename.RenamePackageWords` | create-hwe.py:74-80 | For any package names: the substitutions are made one after the other, the longest names first; if the names are words, that renames all of them at once. |
| `Rename.OrderIndependent` | create-hwe.py:76-79 | If no name ends in "-hwe", the order of the names does not matter. |
| `Rename.RenamedTwice` | create-hwe.py:74-80 | Renaming again changes nothing if no renamed name is a name itself. |
| `Rename.ChainsRenameAgain` | create-hwe.py:207-208 | If the renamed form of a name is a name too, renaming again does change the text. |
| `Rename.BuildMapping` | create-hwe.py:192-213 | The mapping holds exactly the packages that are not skipped; it is refused if and only if one of them ends in "-hwe", so renaming with it is idempotent. |
| `RenameStanza.FindFieldBlock` | create-hwe.py:63-71 | The first line of the field and all lines that continue it. |
| `RenameStanza.RenameBlock` | create-hwe.py:94-114 | In the block, a continuation line is renamed as a whole unless its first character that is not white space is "#"; the first line keeps all up to its first colon, and the rest is renamed; no other line changes; the number of changed lines is counted. |
| `RenameStanza.NewLineIs` | create-hwe.py:95-114 | What becomes of any line: comments stay, other continuation lines are renamed as a whole, other lines behind their first colon. |
| `RenameStanza.RenameStanzaFields` | create-hwe.py:83-116 | For any package names, exactly the lines of the nine relationship fields are renamed in that way, each once, whatever the order of the fields; names that are words are renamed all at once; the result counts the lines that differ. |
| `RenameStanza.BlocksDisjoint` | create-hwe.py:63-71 | The blocks of different fields have no line in common. |
| `RenameStanza.KindKept` | create-hwe.py:95-114 | For any package names, renaming does not make a line the beginning or the continuation of a field, or stop it from being one. |
| `RenameStanza.StanzaTwice` | create-hwe.py:83-116 | Renaming a stanza again changes nothing, if the names are words and none is the renamed form of another. |
| `RenameStanza.SortedIsProper` | create-hwe.py:192-213 | For a mapping of words without chains, as it is built, applying it line by line renames all names at once, and `StanzaTwice` applies. |

## Left out

- Weak memory beyond sequential consistency, CPU hotplug, and the work queue of cpu-common.c.
- BlockLayer.BlockLayer.RunScheduledUnref: does not delete the node that has lost its last reference; `bdrv_close` and the block drivers are not part of this model. For the same reason an unref during a rollback leaves an unused node in the graph.
- BlockLayer.BlockLayer.AttachCommon: does not move contexts when those of parent and child differ; the AioContext change is modelled by itself in AioContext.
- BlockLayer.BlockLayer.AttachChildNoperm: does not fail because contexts cannot be moved, for the same reason.
- BlockLayer.BlockLayer.RootUnrefChild: does not move the node back to the main context.
- BlockLayer.BlockLayer.NodeRefreshPerm: takes no reopen queue; reopen, option dictionaries and filenames of block.c are not part of this model.
- AioContext.ContextChange.TryChange: without `ignore_child`; an outside user is willing or not, and its own context is not tracked.
- Draining, quiesce counters and the graph lock: the operations are modelled as atomic, as the write lock makes them.
- JobTransactions.JobTxn.UserCancel: the reference count of the job itself, its events, progress and timers are not modelled; `job_cancel_sync` and its callers are not part of this model.
- `job_complete_locked` and the speed and change commands: they only check a verb and call the driver.
- Termination of `job_finish_sync_locked`: the abort goes on once the awaited job has completed, but that it completes is up to its driver.
- Rebase.SafeRebase: no prefix chain, no compressed rebase of images with subclusters, no progress output; a write that fails changes nothing.
- Convert.ConvertState.CoRead: no read errors and no salvage mode; errors appear in ConvertCo as a failed result.
- Convert.ConvertState.CoWrite: no write errors; in ConvertCo a failed write may damage its own chunk.
- Rename.RenamePackageWords: package names without a backslash, which would be read as an escape in the replacement.
- Sectors of qemu-img convert are single values, 0 being a sector of zeroes; bytes inside a sector are not modelled.
- Copy offload, compression itself, and all command-line handling of qemu-img.c.
- `ensure_field_token` and the other edits of create-hwe.py, the renaming of Source and Package, and splitting a file into stanzas: they would only add easy members.
- gen-hwe.py, the other scripts, and the QEMU files not named in the table.
