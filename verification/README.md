# Block graph, stop-the-world protocol, image copying and jobs of QEMU

A Dafny model of four pieces of QEMU and proofs about them.

**The block graph** (`qemu/block.c`). Nodes are joined by edges that carry permissions. Graph changes are tentative:
each step leaves a record in a transaction, and aborting it undoes the records in the opposite order.
`BlockLayer.BlockLayer` is the block layer with its edges, reference counts, scheduled unrefs and open transaction as
mutable state. Every operation keeps one invariant (`BlockState.Inv`): the graph is acyclic, every reference count is
exactly what edges, pending records, scheduled unrefs and outside users account for, nobody refers to a freed node, and
undoing the records leads back to the state in which the transaction began. On top of that stand the permissions
(`RefreshPerms`, `GraphEdits`): after every successful or failed change no user of a node is denied what it holds, and
no edge carries less than its own node's users need, with the one exception named below. `BlockLayer.RunBottomHalves`
shows that the reference counting frees exactly what is no longer in use.

**The stop-the-world protocol** (`qemu/cpu-common.c`). `Exclusive` has one program point per atomic access of the five
functions, so that every interleaving of any number of threads is a run. Mutual exclusion, the exact value of
`pending_cpus`, absence of deadlock and a bound on the work left are proved for all runs. `ExclusiveEntry` bounds the time
until the owner of the exclusive section gets in, whatever new calls the other threads make. `ExclusiveCalls` says what
callers can rely on in terms of the calls they have made, nested ones included.

**Copying images** (`qemu/qemu-img.c`). `Convert` has the sequential parts of `convert`; `ConvertRun` lets any number of
coroutines copy at once, in order or not, with errors at every point. `Rebase` is the copy loop of `rebase`, `Compare`
is `compare`.

**Jobs** (`qemu/job.c`, `qemu/blockjob.c`). `Jobs.JobManager` is the job list with its transactions. While the abort loop
of a transaction waits for a member, the event loop runs other jobs, which may complete and abort transactions of
their own: these methods call each other recursively, as the code does. `JobWindow` has what other threads may do to a
job while a driver's callback runs without the lock. All assertions of the code on these paths are
assertions of the model.

Findings, each with a lemma:

- A refresh after taking a user away can fail, although the code expects it only to loosen restrictions: if the user
  that leaves held the right to resize and the size of the image is not aligned (`LooseningCanFail`). In every graph that
  these operations build it fails exactly if that leaves a misaligned writer or a driver that refuses, never for a
  conflict or a read-only node, and the invariant survives the ignored failure (`RootUnrefChild`, `LooseningFailsIff`).
- Exchanging a node with `force_share` for one without it can leave the edge of a parent node sharing everything, because
  the refresh starts below that edge (`RedirectCanBreakCover`). Exchanging a node or putting one on top keeps the
  permissions in order exactly if every user that moves already carries what its owner would derive for an edge to the
  new node (`ReplacePerms`, `AppendPerms`, used in `ReplaceNode` and `Append`); that is so whenever the new node shares as
  much as the old one (`ShareCompatibleCovers`).
- `rebase -c` aligns to clusters; where the overlay allocates smaller units the assertion that the region to copy is
  unallocated can fail (`MixedClusterAborts`). `rebase` also extends a region to whole blocks after it has been cut to the
  size of the buffers: with clusters larger than the buffers (`LargeClusterIsTooLong`), or in a chain in which a change
  begins inside of a cluster (`UnalignedChangeIsTooLong`), it is longer than they are. Without I/O errors, and if queries
  answer for as many bytes as they can or blocks are larger than the buffers, the loop gets to its end exactly if every
  byte to copy lies in a block of which nothing is allocated and no region is too long (`CopyLoop`). Without a common
  chain that means: blocks are allocated as a whole (`CanCopyIff`), and they divide the buffers or no more bytes in a row
  are unallocated than a buffer holds (`LongWithoutChain`).
- When the prepare callback of another job fails, the job that drives the finalization commits while the others abort
  (`PrepareFailureSplits`); finalizing is all or nothing exactly if nothing fails or the driving job fails first
  (`AllOrNothingIff`).
- The lock is given up while the `user_resume` callback runs, both in `job_user_resume_locked` and in
  `job_cancel_async_locked`. Whatever other threads do to the job in this window, it is in order afterwards exactly if no
  error stops it between the reset of its iostatus and the end of the callback; otherwise the stop is lost: the iostatus
  tells of an error, but the job is not paused for it (`ResumeIff`, `CancelIff`, `StopCanGetLost`).
- A job that fails or is cancelled while another member of its transaction has never been started waits for that member
  forever: whatever the event loop does, its abort loop does not come to an end (`TxnAbortHangs`). Otherwise it does
  (`TxnAbort`).
- A node can keep inheriting options from a node that has been freed: exactly if it was not below that node any more when
  it was deleted (`StaleIff`), for example because it had been exchanged for another one (`ExchangeStrands`). No node ever
  inherits from itself, so the walk along the pointers ends (`BlockState.Inv`, `InheritsFromRecursive`).

## Model

| member | source | states |
|---|---|---|
| Permissions.DefaultPermsMonotone | qemu/block.c:2750-2898 | for every role and all flags, looser users give looser permissions on the child: no more needed, no less shared |
| Permissions.DefaultNeeds | qemu/block.c:2750-2898 | for every role, all flags and all users: exactly when each permission is needed on the child; a copy-on-write child is never written or resized |
| Permissions.DefaultShares | qemu/block.c:2750-2898 | exactly when each permission is shared on the child |
| RefreshPerms.DefaultDriversMonotone | qemu/block.c:2877-2898 | a set of drivers that all use the default permissions meets the one assumption on drivers made below |
| Graph.NewArrowAcyclic | qemu/block.c:3181-3185 | one more arrow from a parent to a child closes no cycle if the parent is not below the child |
| GraphSearch.RecurseHasChild | qemu/block.c:4302-4318 | true exactly if there is a path from the node to the other one; terminates on acyclic graphs |
| GraphSearch.ShouldUpdateChild | qemu/block.c:5198-5275 | the breadth-first search finds the edge below the new node exactly if it hangs there, so an edge is moved exactly if that is allowed and closes no loop |
| GraphSearch.TopologicalDfs | qemu/block.c:2289-2312 | nodes are listed once, before everything below them, and with everything below them |
| GraphSearch.TopologicalDfsAll | qemu/block.c:2609-2621 | the same for a list of roots: exactly the nodes below the roots |
| RefreshPerms.GetCumulativePerm | qemu/block.c:2623-2639 | union of what the users need and intersection of what they share |
| RefreshPerms.ParentPermsConflict | qemu/block.c:2234-2258 | conflict exactly if some user needs what another one does not share |
| RefreshPerms.VerdictIff | qemu/block.c:2498-2599 | exactly when each verdict of the refresh of a node arises, in terms of what its users need and share: conflict, writer on a read-only node, writer that may not resize an unaligned node, driver that refuses |
| RefreshPerms.RefreshEstablishes | qemu/block.c:2577-2599 | after a successful refresh of a sorted list every listed node has compatible users and its children carry exactly what its driver derives from the final permissions of its users |
| RefreshPerms.RefreshStaysInside | qemu/block.c:2577-2599 | edges to nodes outside the list are not touched |
| RefreshPerms.RefreshSucceedsIff | qemu/block.c:2498-2599 | the refresh succeeds exactly if in the graph that recomputing everything leads to the users of every listed node get along, writers are allowed, sizes fit and the driver accepts; it then leads to that graph |
| RefreshPerms.RefreshRestoresInv | qemu/block.c:2577-2621 | a successful refresh after a local edit restores the permission invariant of the whole graph, also outside the list: users are compatible, edges carry what their owners need, read-only nodes have no writers |
| RefreshPerms.BackingFileIsOnlyRead | qemu/block.c:2763-2806 | with default drivers, a node that is used as a backing file only is never written to nor resized once its overlays are refreshed, and passes the read-only and the alignment check |
| RefreshPerms.WritersReachTheData | qemu/block.c:2750-2898 | with default drivers and permissions in order, who writes to a node writes to everything below that holds its data or metadata, so none of that is read-only |
| RefreshPerms.RemovalKeepsInv | qemu/block.c:3283-3289 | edges can be taken away without any refresh and the permission invariant of the whole graph holds |
| RefreshPerms.LooseningNeverConflicts | qemu/block.c:3283-3289 | a refresh after taking users away meets no permission conflict at any depth, nor a writer on a read-only node |
| RefreshPerms.LooseningFailsIff | qemu/block.c:2524-2545 | exactly when such a refresh fails all the same |
| RefreshPerms.LooseningCanFail | qemu/block.c:2524-2545 | a graph in which it does |
| Transactions.Recorded | qemu/util/transactions.c:47-58 | recording an edit that the record undoes keeps the way back to the start of the transaction |
| BlockState.StepBackInv | qemu/util/transactions.c:60-79 | undoing the last record is possible, leads one step back, keeps all counts exact and never drops a node's last reference |
| BlockState.CommittedInv | qemu/util/transactions.c:81-100 | after a commit all counts are exact, the graph is acyclic and no edge points nowhere |
| BlockState.NothingLeaks | qemu/block.c:7115-7132 | when no unref is pending, every node is reachable from a user outside the graph |
| BlockState.FreedInv | qemu/block.c:5535-5552 | a node without references has no parents, and freeing it keeps the invariant once it has no children |
| GraphEdits.MovableUnchanged | qemu/block.c:5316-5348 | which users may be moved does not depend on which have been moved already |
| GraphEdits.AttachPerms | qemu/block.c:3242-3273 | attaching a child keeps the permissions of the whole graph in order |
| GraphEdits.RootAttachPerms | qemu/block.c:3203-3232 | so does attaching a user from outside |
| GraphEdits.ReplacePerms | qemu/block.c:5363-5418 | after exchanging a node the permissions of the whole graph are in order exactly if every user that moves carries what its owner derives for the new node |
| GraphEdits.MovedFromAbove | qemu/block.c:5316-5418 | the owner of a user that moves is not among the nodes whose permissions are refreshed |
| GraphEdits.ShareCompatibleCovers | qemu/block.c:2261-2276 | a new node that shares as much as the old one always meets that condition |
| GraphEdits.RedirectCanBreakCover | qemu/block.c:5363-5418 | a graph in which the condition fails and the permissions are not in order |
| GraphEdits.AppendPerms | qemu/block.c:5458-5500 | the same exact condition, on the graph before the call, for putting a node on top |
| GraphEdits.AppendOnTop | qemu/block.c:5458-5500 | afterwards the old top has no users but the new node, those that stay at their node and those below the new node |
| GraphEdits.NewChildPerms | qemu/block.c:3530-3552 | exchanging the backing file keeps the permissions in order, although the old one is not refreshed |
| Inheritance.InheritsFromRecursive | qemu/block.c:3395-3405 | true exactly if following the inherits_from pointers of the child leads to the parent; ends because nobody inherits from itself, which every operation keeps |
| Inheritance.NewPointer | qemu/block.c:3508-3515 | a pointer to a node that does not inherit from this one closes no circle |
| Inheritance.NotBothWays | qemu/block.c:3442-3515 | of two nodes at most one inherits from the other, so the pointer that is set for a new child closes no circle |
| GraphEdits.DisowningNext | qemu/block.c:3344-3380 | what giving up one more child clears, whatever the order of the children |
| GraphEdits.StaleIff | qemu/block.c:5118-5146 | exactly which nodes inherit from a node that has been deleted |
| GraphEdits.ExchangeStrands | qemu/block.c:5316-5348 | exchanging a node leaves it inheriting from a node that it is no longer below |
| GraphEdits.UnlinkPerms | qemu/block.c:3276-3301 | taking a user away keeps the permissions in order, whether the refresh succeeds or is rolled back, and exactly when it fails |
| BlockLayer.BlockLayer.NewNode | qemu/block.c:411-440 | a new node with one reference that its creator holds; it may inherit from an existing node |
| BlockLayer.BlockLayer.Ref | qemu/block.c:7106-7110 | one more outside reference |
| BlockLayer.BlockLayer.ChildSetPerm | qemu/block.c:2335-2351 | the edge has the new permissions, and the log can bring the old ones back |
| BlockLayer.BlockLayer.ReplaceChildTran | qemu/block.c:2468-2489 | the edge points to the other node; the old node's reference is held by the log |
| BlockLayer.BlockLayer.AttachChildCommon | qemu/block.c:3064-3156 | a new edge that owns a reference to its node |
| BlockLayer.BlockLayer.AttachChildNoperm | qemu/block.c:3167-3194 | refuses exactly if the edge would close a cycle, and then changes nothing |
| BlockLayer.BlockLayer.RemoveChild | qemu/block.c:5295-5307 | the edge points nowhere and is freed on commit only |
| BlockLayer.BlockLayer.SetInheritsFrom | qemu/block.c:3321-3337 | the pointer is set, and the log can bring the old one back |
| BlockLayer.BlockLayer.UnsetInheritsFrom | qemu/block.c:3344-3368 | exactly the nodes below the edge that inherit from the root and to which the root has no other edge stop inheriting |
| BlockLayer.BlockLayer.AbortLast | qemu/block.c:2320-2328 | one undo step of any kind of record |
| BlockLayer.BlockLayer.TranAbort | qemu/util/transactions.c:60-79 | edges, permissions, inheritance and net reference counts are those at the start of the transaction |
| BlockLayer.BlockLayer.AbortAndRun | qemu/util/transactions.c:60-79 | once the unrefs that the abort has scheduled have run, the reference counts themselves are those at the start, and edges and inheritance still are |
| BlockLayer.BlockLayer.TranCommit | qemu/util/transactions.c:81-100 | removed edges are gone and held references are scheduled to be dropped |
| BlockLayer.BlockLayer.NodeRefreshPerm | qemu/block.c:2498-2568 | which check fails first, exactly, in terms of what the users of the node need and share; the new permissions of its children, all undoable |
| BlockLayer.BlockLayer.DoRefreshPerms | qemu/block.c:2577-2599 | the loop computes the refresh of the list, all undoable |
| BlockLayer.BlockLayer.RefreshPermsBelow | qemu/block.c:2609-2695 | the refreshed list is sorted and is exactly what lies below the roots |
| BlockLayer.BlockLayer.AttachChild | qemu/block.c:3242-3273 | succeeds exactly if no cycle arises and the refresh does; on failure only the caller's reference is gone; permissions stay in order |
| BlockLayer.BlockLayer.RootAttachChild | qemu/block.c:3203-3232 | the same for a user outside the graph, also one that stays at its node; the new edge carries exactly the permissions asked for |
| BlockLayer.BlockLayer.ReplaceNodeNoperm | qemu/block.c:5316-5348 | succeeds exactly if every user may move and is not frozen, or may be skipped; then exactly the movable users have moved |
| BlockLayer.BlockLayer.ReplaceNode | qemu/block.c:5363-5418 | succeeds exactly if all users may move and the refresh does; all or nothing; permissions stay in order exactly if it fails or every user that moves stays covered, in particular if the new node shares as much |
| BlockLayer.BlockLayer.Append | qemu/block.c:5458-5500 | succeeds exactly if no cycle arises, in particular if the nodes differ, all users may move and the refresh does; all or nothing; permissions stay in order exactly if it fails or every user that moves stays covered |
| BlockLayer.BlockLayer.SetFileOrBackingNoperm | qemu/block.c:3436-3521 | succeeds exactly if there is a driver, the role is known, the old edge is not frozen and no cycle arises; the new edges and inheritance are spelled out; the new child inherits from the parent exactly if it did so before, directly or not |
| BlockLayer.BlockLayer.SetBackingHd | qemu/block.c:3530-3552 | succeeds exactly if the tentative edit and the refresh do; all or nothing; permissions stay in order |
| BlockLayer.BlockLayer.RootUnrefChild | qemu/block.c:3276-3301 | the edge is gone, its reference scheduled to be dropped, permissions stay in order although a failed refresh is ignored; it fails exactly if an unaligned writer or a refusing driver is left |
| BlockLayer.BlockLayer.UnrefChild | qemu/block.c:3371-3380 | the same, and inheritance through the edge is cleared |
| GraphSearch.WalkChain | qemu/block.c:5783-5796 | the walk from a node down to its base ends, and takes exactly the edges of the chain |
| BlockLayer.BlockLayer.FreezeBackingChain | qemu/block.c:5769-5798 | all edges of the chain from the node to the base are frozen, or none; fails exactly if one is frozen already or leads to a node that may not be frozen |
| BlockLayer.BlockLayer.UnfreezeBackingChain | qemu/block.c:5806-5820 | all edges of the chain from the node to the base are thawed |
| BlockState.FreezeRoundTrip | qemu/block.c:5769-5820 | thawing what was frozen leaves no trace |
| BlockLayer.BlockLayer.Delete | qemu/block.c:5118-5146 | exactly the node and its child edges are gone, one unref is scheduled per child, nothing points to the node, and exactly the nodes below it stop inheriting from it |
| BlockLayer.BlockLayer.RunScheduledUnref | qemu/block.c:7115-7132 | the count is positive; the node is deleted exactly at its last reference, and then had no users; otherwise one count and one scheduled unref are gone and nothing else has changed |
| BlockLayer.BlockLayer.RunBottomHalves | qemu/block.c:7127-7148 | running all scheduled unrefs ends; left are exactly the nodes that were reachable from users outside the graph, with all their edges, accounted for exactly; if every node keeps a reference then edges and inheritance do not change; permissions stay in order |
| BlockState.OnlySurvivors | qemu/block.c:7115-7148 | whatever the order in which nodes are deleted, those that are left are exactly those that an outside user reached at the beginning |
| Exclusive.NextKeepsInv | qemu/cpu-common.c:183-319 | every atomic step of every thread keeps the protocol invariant |
| Exclusive.ExclusionOnEveryRun | qemu/cpu-common.c:192-319 | nobody executes guest code and nobody else is exclusive while a thread is inside the exclusive section |
| Exclusive.AccountingOnEveryRun | qemu/cpu-common.c:192-319 | with the lock free, the counter is zero or exactly one more than the threads that the exclusive section still waits for |
| Exclusive.SomeoneEnabled | qemu/cpu-common.c:183-319 | unless all threads are idle, one can go on |
| Exclusive.NoDeadlock | qemu/cpu-common.c:183-319 | no reachable state is deadlocked, even without new calls and spurious wakeups |
| Exclusive.StepUsesPotential | qemu/cpu-common.c:183-319 | every step that is not a new call or a spurious wakeup uses up a bounded amount of work |
| Exclusive.DrainIsBounded | qemu/cpu-common.c:183-319 | without new calls only a bounded number of steps is left |
| Exclusive.EveryoneGetsThrough | qemu/cpu-common.c:183-319 | when no step is left, every waiting thread was let through |
| ExclusiveEntry.EveryStepCounts | qemu/cpu-common.c:192-319 | once the counter is set, every step of every thread, even a new call, uses up one of the few steps the thread has before it is stuck |
| ExclusiveEntry.EntryIsBounded | qemu/cpu-common.c:192-233 | from then on start_exclusive waits for at most 33 steps per thread and three per spurious wakeup, whatever new calls are made |
| ExclusiveEntry.EntryIsPossible | qemu/cpu-common.c:192-233 | while it waits, some thread can go on |
| ExclusiveCalls.EveryRunHasEvents | qemu/cpu-common.c:183-319 | every run is a sequence of calls and steps of the threads |
| ExclusiveCalls.NestingOnEveryRun | qemu/cpu-common.c:192-244 | a thread has called end_exclusive at most as often as start_exclusive; it is inside its section, or on its way in, exactly as long as it has called it less often |
| ExclusiveCalls.NestedExclusion | qemu/cpu-common.c:192-244 | until as many calls of end_exclusive as of start_exclusive, no CPU executes guest code and no other thread is inside a section |
| ExclusiveCalls.ExecutionOnEveryRun | qemu/cpu-common.c:247-319 | calls of cpu_exec_start and cpu_exec_end alternate, and a thread executes or waits to do so exactly in between |
| ExclusiveCalls.NoLockWithoutExclusive | qemu/cpu-common.c:247-319 | as long as nobody has called start_exclusive, no CPU takes the lock or waits |
| ExclusiveCalls.LastOneSignals | qemu/cpu-common.c:292-319 | the waiter is signalled only when nobody is left that it waits for |
| Convert.IsAllocatedSectors | qemu/qemu-img.c:1179-1230 | a buffer of nothing but zeroes or data is answered as a whole; otherwise the answer is about the part before the first change, where zeroes that fill no block count as data, zeroes are rounded down to a block and data is rounded up |
| Convert.IsAllocatedSectorsMin | qemu/qemu-img.c:1237-1274 | the same when short runs of zeroes are ignored: an answer of data ends with data up to less than a block, holds no gap longer than the limit up to a block at either end, and is cut only before enough zeroes; terminates |
| Convert.SelectPart | qemu/qemu-img.c:1704-1714 | finds the source that holds the sector; the assertion on the index holds |
| Convert.CoRead | qemu/qemu-img.c:1823-1874 | the buffer holds what the concatenated sources hold, across their boundaries |
| Convert.StatusCache.IterationSectors | qemu/qemu-img.c:1716-1821 | at least one sector, never past the end, whole clusters if compressed, and the status, cached or not, is true of all of them; exactly which status an answer leads to, how far it is used, and when the query fails |
| Convert.StatusCache.WholeClusters | qemu/qemu-img.c:1801-1818 | less than a cluster becomes a cluster of data, or the rest of the image; anything else is cut to whole clusters and keeps its status |
| Convert.NextPiece | qemu/qemu-img.c:1884-1911 | a piece is written exactly if it has data that is not zero, unless everything is written; compressed requests are not split |
| Convert.CoWrite | qemu/qemu-img.c:1877-1939 | every sector is dealt with once and then shows what was wanted; nothing outside the request changes, even on failure |
| ConvertRun.NextChunk | qemu/qemu-img.c:1996-2016 | what happens inside the lock is a claim step of the coroutine machine, and the status cache stays true |
| ConvertRun.ReadChunk | qemu/qemu-img.c:2026-2039 | reading is a read step, and the buffer holds what is to be written, also where zeroes are written as data |
| ConvertRun.IterationIsWriteStep | qemu/qemu-img.c:1881-1935 | each iteration of the write loop is a write step of the coroutine machine, also where zeroes are written as data |
| ConvertRun.NextKeepsInv | qemu/qemu-img.c:1972-2093 | every step of every coroutine keeps chunks, order, locks and contents consistent |
| ConvertRun.CopyIsCorrect | qemu/qemu-img.c:1972-2156 | when all coroutines are gone the result is success exactly if nothing failed, and then the target equals the concatenated sources |
| ConvertRun.ChunksFitBuffer | qemu/qemu-img.c:1996-2016 | on every run what goes through the buffer fits into it |
| ConvertRun.ZeroesOnlyIfNeeded | qemu/qemu-img.c:1913-1930 | on every run zeroes are written neither to a target that starts out zeroed nor where its backing file shows |
| ConvertRun.ClaimsPartition | qemu/qemu-img.c:1996-2019 | in every reachable state the claimed chunks partition the sectors before the shared counter |
| ConvertRun.EntersNextOnly | qemu/qemu-img.c:2068-2083 | only a parked coroutine is ever entered, and if the owner of the next chunk is parked it is the one |
| ConvertRun.WritesAreSequential | qemu/qemu-img.c:2040-2064 | with ordered writes, a write goes exactly where everything before is copied and nothing after it touched |
| ConvertRun.FirstIsNotParked | qemu/qemu-img.c:2040-2047 | the owner of the lowest unfinished chunk is never parked, also after failures |
| ConvertRun.WaitsForRunner | qemu/qemu-img.c:2040-2083 | every parked coroutine waits for one that is not |
| ConvertRun.NoDeadlock | qemu/qemu-img.c:1972-2093 | some coroutine can always go on until all are gone, also after failures |
| ConvertRun.RunsAreBounded | qemu/qemu-img.c:1972-2093 | a run has at most a fixed number of steps per sector and coroutine |
| ConvertRun.MaximalRunIsCorrect | qemu/qemu-img.c:1972-2156 | a run that cannot go on has ended with the right result |
| Rebase.CopyDifferences | qemu/qemu-img.c:3948-3974 | blocks that differ between the backing files are stored, also past the end of the old one, and only those; what the image shows does not change; the assertion on the buffer holds |
| Rebase.Extend | qemu/qemu-img.c:3910-3913 | the smallest region of whole blocks around the bytes, cut at the end of the image, and exactly when it is longer than a buffer |
| Rebase.CopyLoop | qemu/qemu-img.c:3855-3977 | whatever happens the image shows the same over the old backing file; when the loop is done it shows the same over the new one; it stops at the assertion or at a region longer than the buffers only if there is such a block or region, and gets done exactly if there is neither; only blocks that differ between the backing files are stored |
| Rebase.LongIff | qemu/qemu-img.c:3853-3913 | the region that starts at a byte is too long exactly if what has to be copied there reaches past the last block that fits |
| Rebase.LongWithoutChain | qemu/qemu-img.c:3853-3913 | without a common chain a region is too long exactly if blocks do not divide the buffers and more bytes in a row are unallocated than a buffer holds |
| Rebase.AlignedNeedsFit | qemu/qemu-img.c:3872-3913 | with a common chain no region is too long if blocks divide the buffers and what needs copying is made of whole blocks |
| Rebase.LargeClusterIsTooLong | qemu/qemu-img.c:3853-3946 | an empty image whose clusters are larger than the buffers |
| Rebase.UnalignedChangeIsTooLong | qemu/qemu-img.c:3872-3946 | an empty image with ordinary clusters in a chain where a change begins inside of a cluster |
| Rebase.CanCopyIff | qemu/qemu-img.c:3903-3915 | without a common chain that condition says that blocks are allocated as a whole; with one that is sufficient |
| Rebase.MixedClusterAborts | qemu/qemu-img.c:3705-3915 | on an image with one allocated and one unallocated subcluster in a cluster the assertion fails |
| Compare.FindNonzero | qemu/qemu-img.c:1153-1167 | the first sector boundary with a byte that is not zero, or none exactly if all are zero |
| Compare.CompareBuffers | qemu/qemu-img.c:1284-1309 | the longest prefix of chunks with the outcome of the first chunk |
| Compare.CheckEmpty | qemu/qemu-img.c:1328-1349 | same exactly if the range is empty, unless reading fails |
| Compare.CompareChunk | qemu/qemu-img.c:1511-1590 | one round is right about the contents of a non-empty part, fails exactly if a status query fails, goes on by exactly what the answers allow, and in strict mode compares the statuses |
| Compare.Compare | qemu/qemu-img.c:1500-1631 | without errors and outside strict mode, same exactly if the images are equal after padding with zeroes; in strict mode exactly if they have the same length and contents and the same block status at every offset that the comparison looks at; which error is reported |
| JobState.UpdateRcOk | qemu/job.c:798-809 | a job that failed or was cancelled becomes ABORTING by an allowed transition; it keeps its own error, and has ECANCELED only if it had none |
| JobState.TransitionsExact | qemu/job.c:59-72 | a transition is in the table exactly if a step of some job makes it |
| JobState.VerbsExact | qemu/job.c:74-84 | which commands a job accepts in which part of its life, for every status |
| JobState.FinalizeSingleOk | qemu/job.c:840-877 | finalizing keeps every other job, all lists and all counts in order, and the job sees commit or abort and then clean, once |
| Jobs.AllOrNothingIff | qemu/job.c:990-1002 | exactly when finalizing a transaction commits all or aborts all |
| Jobs.PrepareFailureSplits | qemu/job.c:939-1002 | two jobs are created, started and end; one commits and the other aborts |
| Jobs.AllCommit | qemu/job.c:990-1002 | if all prepare callbacks succeed every member commits and is cleaned once |
| Jobs.JobManager.FailedRunAborts | qemu/job.c:1058-1113 | if the run of a job returns an error then every member of its transaction sees abort and clean, once, and nobody commits |
| Jobs.JobManager.GoodRunsCommit | qemu/job.c:1031-1113 | if the runs of all members return 0, in any order, and all prepare callbacks do, then every member sees prepare, commit and clean, once |
| JobWindow.WindowAsserts | qemu/job.c:894-904 | whatever happens to the job while the lock is not held, the assertions on its pause counter hold |
| JobWindow.ResumeIff | qemu/job.c:745-751 | for every sequence of steps in the window: the job is in order after the resume exactly if no error has stopped it since its iostatus was reset; otherwise that stop is lost |
| JobWindow.CancelIff | qemu/job.c:894-917 | the same for cancelling a job that the user has paused |
| JobWindow.EmptyWindow | qemu/job.c:745-751 | if nothing happens in the window, both paths are the single steps that the job manager makes |
| JobWindow.StopCanGetLost | qemu/blockjob.c:610-622 | a job for which that happens, on either path |
| Jobs.JobManager.TxnAbortHangs | qemu/job.c:923-963 | if a member was never started, the abort loop of a failed job has not ended after any number of rounds and events |
| JobState.StableIdle | qemu/job.c:923-963 | whatever the event loop does, if no abort loop was in progress then none is afterwards |
| JobState.IdleJob | qemu/job.c:923-963 | then no job belongs to a transaction that is being aborted |
| Jobs.JobManager.Create | qemu/job.c:385-450 | a created, paused job with the given options in its transaction; all is in order exactly if the transaction is neither being aborted nor about to be finalized |
| Jobs.JobManager.Start | qemu/job.c:1115-1129 | the start assertions and the transition are allowed; the pause counter loses the reason not-started |
| Jobs.JobManager.PausePoint | qemu/job.c:603-636 | the job rests exactly if it has a reason to pause and is not cancelled by force, a ready one in STANDBY and any other in PAUSED, and is unchanged otherwise; the transition is allowed |
| Jobs.JobManager.AfterPause | qemu/job.c:626-628 | the transition back is allowed, to READY exactly from STANDBY |
| Jobs.JobManager.TransitionToReady | qemu/job.c:1023-1028 | the transition is allowed |
| Jobs.JobManager.RunReturns | qemu/job.c:1096-1113 | exactly the result is stored, the exit is due, and nothing else changes |
| Jobs.JobManager.DrainedBegin | qemu/blockjob.c:93-97 | one more reason to pause |
| Jobs.JobManager.DrainedEnd | qemu/blockjob.c:123-127 | one less; the counter was positive |
| Jobs.JobManager.UserPause | qemu/job.c:716-727 | accepted exactly before the job has completed and if not paused by the user already |
| Jobs.JobManager.UserResume | qemu/job.c:734-752 | accepted exactly if paused by the user before the job has completed; all is in order afterwards exactly if no error has stopped the job in the window |
| Jobs.JobManager.ErrorAction | qemu/blockjob.c:580-624 | the job is paused by the user's name once, whatever the number of errors |
| Jobs.JobManager.IostatusReset | qemu/blockjob.c:557-565 | its assertion holds |
| Jobs.JobManager.Unref | qemu/job.c:457-479 | a job is freed only in NULL and outside of any transaction |
| Jobs.JobManager.FinalizeOne | qemu/job.c:840-877 | all transitions on the way are allowed; the job sees abort and clean exactly if it failed or was cancelled, and otherwise commit and clean; it is CONCLUDED exactly if it was started and waits to be dismissed; it keeps its own error |
| Jobs.JobManager.TxnAbort | qemu/job.c:923-963 | nothing if the transaction is being aborted; otherwise the loop ends, every member has seen abort and clean exactly once and left, and no other abort in progress was disturbed |
| Jobs.JobManager.FinishSync | qemu/job.c:1236-1264 | the job completes while other jobs run, complete and abort; aborts in progress are not disturbed |
| Jobs.JobManager.Poll | qemu/job.c:1255-1257 | whatever the event loop does keeps all invariants |
| Jobs.JobManager.PrepareAll | qemu/job.c:966-981 | members are asked in order up to the first that fails, which has that error from then on |
| Jobs.JobManager.DoFinalize | qemu/job.c:990-1002 | the callbacks every member sees, whoever fails to prepare |
| Jobs.JobManager.TxnSuccess | qemu/job.c:1031-1055 | the last of the members finalizes all of them, unless one asks for a manual finalize; the assertion on their results holds |
| Jobs.JobManager.CompletedJob | qemu/job.c:1058-1069 | a failed or cancelled member aborts all members and nobody commits; the last successful one finalizes all; any other one waits, also beside members that are not started |
| Jobs.JobManager.Exit | qemu/job.c:1075-1090 | the same for a job whose coroutine has ended; one that has to wait for others changes nothing else |
| Jobs.JobManager.CancelJob | qemu/job.c:1131-1157 | concluded jobs are dismissed, running ones woken, and unstarted or finished ones abort their transaction |
| Jobs.JobManager.UserCancel | qemu/job.c:1159-1165 | accepted exactly unless the job is aborting or over |
| Jobs.JobManager.UserFinalize | qemu/job.c:1004-1011 | accepted exactly in PENDING, and then finalizes all members; no abort loop is in progress afterwards if none was before |
| Jobs.JobManager.UserDismiss | qemu/job.c:768-779 | accepted exactly in CONCLUDED |
| Jobs.JobManager.EarlyFail | qemu/job.c:781-786 | the job leaves without any callback; all is in order exactly if no completed members wait for it alone |

## Left out

- Draining, AioContexts, the graph lock and block limits: nodes count as drained and edits as made in the main thread.
- `bdrv_reopen`, snapshots, dirty bitmaps, image formats and the I/O path.
- Driver callbacks are arbitrary functions of node, role and permissions; statements about the permissions of whole graphs
  assume that they are monotone, which the default permissions are.
- A driver's close callback unfreezes the children of its node, as the comment at `qemu/block.c:5132` demands.
- Memory barriers in `qemu/cpu-common.c`: atomic accesses are taken as sequentially consistent.
- Other commands of `qemu-img`, `copy_range`, salvage mode, dirty bitmaps and progress output of `convert`.
- Block status below the granularity of a sector in `convert`: an answer that ends inside a sector is not modelled.
- What drivers promise is assumed: zero and unallocated areas read as zeroes, and a target with a backing file shows there
  what the source shows where the source has nothing of its own.
- The second allocation query in the assertion of `rebase` is taken to see the whole region; what happens after a region has
  turned out longer than the buffers is not modelled.
- A pointer to a freed node ends the walk along the inherits_from pointers in the model; the code would read freed memory.
- Jobs.JobManager.TxnAbort: requires that the members that are not done are running; otherwise it does not end
  (`TxnAbortHangs`).
- Jobs.JobManager.CompletedJob: requires the same of a job that fails or was cancelled and begins to abort its transaction.
- Jobs.JobManager.Exit: requires the same.
- Jobs.JobManager.CancelJob: requires the same where the cancel begins to abort the transaction; driver callbacks are one
  step here and in the abort loop, what other threads may do meanwhile is in `JobWindow.CancelIff`.
- Jobs.JobManager.UserCancel: requires the same.
- Jobs.JobManager.Poll: the event loop does not run an exit that would not end.
- Jobs.JobManager.UserFinalize: requires of a PENDING job that no abort loop is working through its transaction; that is so
  whenever no abort loop is in progress (`JobState.IdleJob`).
- Reference counts of job transactions, job IDs, timers, progress and events; driver callbacks do not call back into the job
  interface, and a job that is waited for ends.
- `job_complete_locked`, `job_cancel_sync_all` and speed limits.
