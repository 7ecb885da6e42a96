# AISafeOS64 in Dafny

A Dafny model of the parts of the AISafeOS64 microkernel in which many operations share one
linked or indexed structure, with proofs that the structure survives every run.

| files | part of the kernel |
|---|---|
| `Capability`, `Forest`, `Integrity` | the capability table of one CSpace: mint, copy, derive, move, delete, the derivation forest and its integrity check |
| `Revocation`, `RevokeStack`, `RevokeLoop`, `RevokeBound` | the cascading revoke: an explicit bounded stack, its exact overflow condition, what is freed and what is left behind |
| `FreeList`, `CapRuns`, `CapPlaced`, `CapFlags`, `CSpaceTable` | slot allocation, runs of all operations, what each call places and when it succeeds, the inheritable flag over runs, and the operations on the table array |
| `Rings`, `RevokeRings`, `RingOps`, `RingMove`, `RingRuns` | the intrusive circular lists behind the children lists: every operation on their pointers, and whole runs |
| `LockOrder` | FIFO ticket locks taken singly or in pairs by address |
| `VirtQueue`, `VirtChains`, `VirtRun`, `VirtContent`, `VirtCalls`, `VirtDriver` | the split virtqueue of sections 2.6.4 to 2.6.8 of VIRTIO 1.1, with its device: descriptors and rings, what the chains carry, what passes through in terms of the calls, the driver's code |
| `Ic2Ring`, `Ic2Spsc`, `Ic2Calls` | the IC2 byte ring, alone and with one producer and one consumer interleaved; the bytes that pass, told from the calls |
| `EndpointIds`, `EndpointRaces`, `Rendezvous`, `Delivery` | endpoint handles with generations; what the unlocked ID test is worth; send, receive, reply and destroy; the messages that pass, told from the calls |
| `Irq`, `IrqCalls`, `IrqPool` | interrupt lines, shared handlers and the entry pool; what each call does and when; the pool under calls on different lines |
| `Notification`, `NotifyWake` | signal bits; waking the waiter |
| `RbTree`, `RbInsert`, `RbHeap` | red-black rotations, insertion and successor on a pointer structure |
| `HotCache`, `HotUse` | the hot data cache against a map of last puts; the use of its entries and what its score replaces |
| `Numbers`, `Numerals` | the log's number printers against the number parser; the parser against a grammar |
| `Lists`, `Modular` | distinct sequences, and arithmetic modulo a word |

Operations that the kernel performs in place are methods on arrays and fields. Each is
proved equal to a function of the old contents, and the lemmas are about those functions.
Protocols with several threads are state machines whose steps are the atomic accesses or
the sections under one lock; runs are sequences of states, and the theorems hold in every
state of every run. Sizes
(capacity, stack, queue, ring, pool) are parameters.

## Where the code differs from what it promises

Each item that names a member is proved there, with the exact condition.

- `cap_revoke` can fail with `-ENOMEM` halfway: then part of the subtree is freed and some
  caps stay VALID below a FREE parent. It succeeds exactly when the peak of its stack is
  within the limit (`RevokeLoop.RevokeOutcome`), which every subtree of at most 129 caps
  meets and some subtree of 130 caps does not. After such a failure the free list and
  `used_count` are still right (`CapRuns.SlotsInEveryRun`), but the list nodes of the caps
  left behind point into the freed entries (`Rings.DrainResidue`).
- `include/kernel/capability.h:198` says that revoked caps become REVOKED; the code makes
  them FREE, and the model follows the code.
- New caps are never inheritable: a cap can be copied only if the last `cap_set_inheritable`
  on its slot since it was placed there set the flag (`CapFlags.FlagExact`,
  `CapFlags.CopySucceedsIff`), although `tests/test_capability_inheritable.c` expects the
  flag to be set by default.
- `cap_delete` leaves the depth of orphaned children as it was; exactly those children fail
  the integrity check afterwards (`Integrity.DeleteFailures`). Neither `cap_delete` nor
  `cap_move` lowers `used_count`.
- `cap_move` does not carry the inheritable flag: a moved cap is never inheritable
  (`CapFlags.MoveDropsFlag`).
- Filling a slot that is still on the free list destroys the list; filling any other slot
  does not (`FreeList.InsertKeepsChainIff`).
- A second client that sends while a request is outstanding makes the endpoint forget the
  first, which then blocks forever, even if the endpoint is destroyed
  (`Rendezvous.KeepsPairedIff`, `Rendezvous.SecondRequestStrands`).
- Every endpoint call tests the ID before it takes the lock and not again. A send or receive
  that takes the lock after a destroy can block its thread for good
  (`Rendezvous.LateCallStrands`, `Rendezvous.ClosedForever`). Two destroys of one ID put its
  index on the free stack twice (`EndpointRaces.DestroyedTwice`); no index gets lost or
  doubled if and only if locked parts find their slots in use (`EndpointIds.KeepsSoundIff`).
  Even then a delayed destroy can wipe, and a delayed send or receive can enter, an endpoint
  created since (`EndpointRaces.WrongOneDestroyed`, `EndpointRaces.WrongOneEntered`,
  `Rendezvous.MessageCrosses`): a call acts on the endpoint it named if and only if the slot
  was wiped a multiple of 65535 times in between (`EndpointRaces.NamedIffNotWiped`,
  `EndpointRaces.DestroySparesIff`).
- The tag of a message that arrives before its receiver is not stored; the receiver gets the
  tag of the last message that found it waiting (`Rendezvous.TagArrivesIff`,
  `Rendezvous.TagGoesMissing`).
- A sleeping waiter of a notification goes deaf, that is, no later signal wakes it, by a
  signal outside its mask, by another thread's `try_wait`, or by a signaller that read the
  state before the waiter stored WAITING (`NotifyWake.GoesDeafIff`,
  `NotifyWake.DeafForever`, `NotifyWake.RaceDeafens`).
- The pool of interrupt entries and the id counter are guarded only by the lock of one line.
  An attach is safe exactly if the entry it read is still in the pool when it unlinks it, and
  its id is new exactly if no other attach is between reading and advancing the counter
  (`IrqPool.TakeSafeIff`, `IrqPool.KeepsIdsIff`); otherwise a line can lose a handler it was
  just given, or two attaches return one id (`IrqPool.HandlerStolen`,
  `IrqPool.IdGivenTwice`).
- Two consumers that wait for the same bit can both report one signal
  (`Notification.ReportNewIff`).
- Endpoint IDs repeat after 65535 creations of one slot (`EndpointIds.IdsRepeatIff`).
- The replacement score of the hot data cache is documented to be smaller the less often an
  entry was used; it is smaller the more often it was used (`HotUse.HotterGoesFirst`,
  `HotUse.OlderGoesFirstIff`), and a full cache can replace its most recently and most often
  used entry (`HotUse.HottestReplaced`).
- `klog_dec` prints at most nine digits (`Numbers.DecRoundTrip`).

## Model

| member | source | states |
|---|---|---|
| `CSpaceTable.RightsTableMatches` | kernel/cap/capability.c:68-154 | the rights matrix, row by row, is the function from object type to permitted rights that all lemmas use |
| `CSpaceTable.ValidateRights` | kernel/cap/capability.c:179-220 | accepts a set of rights exactly when the matrix permits it for the type; every other combination is an error |
| `Forest.InitIsForest` | kernel/cap/cspace.c:999-1085 | a new CSpace with its root cap is a well-formed forest with exact depths and legal rights |
| `Forest.InsertKeepsForest` | kernel/cap/capability.c:310-398 | inserting below any parent keeps parents VALID, children lists inverse to parent slots, rights shrinking, depth at most 8 |
| `Forest.DeleteUndoesInsert` | kernel/cap/capability.c:310-950 | deleting a cap just inserted restores every other entry of the table; only used_count differs |
| `Forest.DeleteEffect` | kernel/cap/capability.c:885-950 | what a deletion changes, slot by slot: the cap is cleared, its children lose their parent, its parent loses it, and no other entry changes |
| `Forest.DeleteKeepsForest` | kernel/cap/capability.c:885-950 | deletion keeps the forest, for any slot and any forest |
| `Forest.MoveEffect` | kernel/cap/capability.c:570-688 | what a move changes, slot by slot: all fields and children arrive, the parent's list and every child's parent follow, nothing else changes |
| `Forest.MoveKeepsForest` | kernel/cap/capability.c:570-688 | a move keeps the forest, exact depths and legal rights, including parent-child and leaf-root cases |
| `Forest.AncestorsWithinDepth` | kernel/cap/capability.c:340-398 | the number of ancestors is at most the recorded depth, at most 8, and equal to it where depths are exact |
| `Forest.RightsShrinkBelow` | kernel/cap/capability.c:310-398 | every transitive descendant has a subset of the ancestor's rights, on the same kernel object |
| `Forest.BelowIsDeeper` | kernel/cap/capability.c:310-398 | every proper descendant is recorded strictly deeper |
| `Forest.Acyclic` | kernel/cap/capability.c:310-398 | two caps that are below each other are the same cap |
| `Revocation.WalkFrontier` | kernel/cap/capability.c:759-819 | each round of the worklist keeps: freed, pending and lost caps are disjoint, and every unvisited descendant is below a pending or lost one |
| `Revocation.WalkDone` | kernel/cap/capability.c:759-867 | an emptied worklist has visited exactly the target and all its transitive descendants |
| `Revocation.RevokedForest` | kernel/cap/capability.c:712-867 | after a complete revoke the rest is a forest and the VALID caps are the old ones minus the subtree |
| `RevokeStack.PeakBound` | kernel/cap/capability.c:53-819 | the stack never needs as many entries as the subtree has caps |
| `RevokeStack.PeakStep` | kernel/cap/capability.c:759-819 | popping a cap and pushing its children never raises the peak still to come |
| `RevokeLoop.LoopRound` | kernel/cap/capability.c:759-850 | one round of the loop, overflowing pushes included, keeps the loop invariant |
| `RevokeLoop.LoopEnds` | kernel/cap/capability.c:712-867 | OK exactly when the peak is within the limit, and then exactly the subtree is freed; otherwise ENOMEM, with a proper part of it freed and VALID caps stranded under freed parents; outside entries are untouched either way |
| `RevokeBound.SmallTreesFit` | kernel/cap/capability.c:53-819 | no subtree of at most limit + 1 caps overflows |
| `RevokeBound.BoundIsTight` | kernel/cap/capability.c:53-819 | a run of the kernel's own operations builds a star of limit + 2 caps on which every revoke reports ENOMEM |
| `RevokeBound.KernelTreesFit` | kernel/cap/capability.c:53-819 | with the kernel's stack of 128 entries every subtree of at most 129 caps is revoked completely |
| `RevokeBound.KernelBoundIsTight` | kernel/cap/capability.c:53-819 | and a reachable CSpace holds a subtree of 130 caps on which revoke reports ENOMEM |
| `FreeList.InitPartition` | kernel/cap/cspace.c:999-1043 | initially all slots but the root's are on the free list, in order |
| `FreeList.ChainUnique` | kernel/cap/cspace.c:502-548 | the table determines its free list |
| `FreeList.AllocPartition` | kernel/cap/cspace.c:502-548 | allocation hands out the head of the list and keeps the partition; it fails exactly when the list is empty |
| `FreeList.InsertPartition` | kernel/cap/capability.c:370-390 | filling a handed-out slot keeps the partition into VALID, free and handed-out slots |
| `FreeList.InsertKeepsChainIff` | kernel/cap/capability.c:370-390 | filling a slot leaves a well-formed free list if and only if the slot was not on it |
| `FreeList.RevokePartition` | kernel/cap/capability.c:825-850 | revoked slots are stacked on the free list in order of release, and the partition holds, also when the revoke stopped halfway |
| `FreeList.RevokeCounted` | kernel/cap/capability.c:825-850 | a revoke lowers used_count by the number of slots released, which for a complete one is the size of the subtree |
| `FreeList.DeleteCounted` | kernel/cap/capability.c:885-950 | after a deletion used_count is one further ahead of the VALID caps |
| `FreeList.MoveCounted` | kernel/cap/capability.c:570-688 | after a move used_count is one further ahead of the VALID caps |
| `Integrity.CleanIffDepthExact` | kernel/cap/capability.c:1563-1691 | on a forest with legal rights the check reports no failure if and only if every depth is its parent's plus one |
| `Integrity.CleanMeansLevelled` | kernel/cap/capability.c:1563-1691 | on any table at all, no failure implies that each VALID cap's depth counts its ancestors |
| `Integrity.CleanMeansConfined` | kernel/cap/capability.c:1563-1691 | and that each of its ancestors is VALID, one level higher each, and has at least its rights |
| `Integrity.DeleteFailures` | kernel/cap/capability.c:885-950 | after a deletion the check fails for exactly the orphaned children |
| `Rings.AddTailAppends` | include/kernel/list.h:94-165 | the pointer writes of list_add_tail append to the sequence that a list holds, and touch no other node |
| `Rings.UnlinkRemoves` | include/kernel/list.h:168-229 | those of list_del_init remove one element and leave its node alone on a list of its own |
| `Rings.SpliceJoins` | include/kernel/list.h:295-330 | those of list_splice put one list in front of another and leave the first empty |
| `RevokeRings.ReleaseKeeps` | kernel/cap/capability.c:794-845 | releasing any cap, before or after its relatives, on the pointers: children not released yet hang from released parents, all other lists are intact, the node of the released entry is off its list although its next now belongs to the free list |
| `RevokeRings.WalkDrains` | kernel/cap/capability.c:759-850 | so after every order of release, with the lists of deeper caps drained in between |
| `RevokeRings.RevokeKeepsRings` | kernel/cap/capability.c:712-867 | after a complete revoke the pointers form the lists of the new table, and every released entry has an empty list and a node on no list |
| `RevokeRings.OutsideRingsKept` | kernel/cap/capability.c:712-867 | after any revoke, ENOMEM included, the lists of all caps outside the tree are those of the new table |
| `RingOps.InsertRings` | kernel/cap/capability.c:370-390 | insertion on the pointers leaves the lists of the table that the model says |
| `RingOps.DeleteRings` | kernel/cap/capability.c:909-940 | so does deletion, with the loop that unlinks the children |
| `RingMove.MoveRings` | kernel/cap/capability.c:622-677 | so does a move: add beside the source, splice the children over, unlink the source |
| `RingRuns.RingsInEveryRun` | kernel/cap/capability.c:310-950 | in every run that fills only handed-out slots, until a revoke stops halfway, the pointers form exactly the children lists of the model |
| `Rings.DrainResidue` | kernel/cap/capability.c:794-830 | if the stack overflowed, the children left behind still lead to the head of the freed entry, and it to them if any was unlinked |
| `Rings.ResidueCorrupts` | include/kernel/list.h:168-229 | unlinking such a child later changes the children list of whatever cap has the slot by then |
| `CapRuns.StepKeepsForest` | kernel/cap/capability.c:310-950 | each operation, successful or refused, keeps the forest |
| `CapRuns.OutcomeIsStep` | kernel/cap/capability.c:712-867 | whatever cap_revoke returns, with any stack size, is a step of such runs; it tears the forest exactly on ENOMEM |
| `CapRuns.ForestInEveryRun` | kernel/cap/capability.c:310-950 | in every run of mint, copy, derive, move, delete and revoke the forest holds until a revoke stops halfway, which ends the run; without deletions the integrity check is clean; the count holds to the end |
| `CapRuns.SlotsInEveryRun` | kernel/cap/cspace.c:502-548 | in every run that fills only handed-out slots the free list, VALID caps and handed-out slots partition the table, after a revoke that stopped halfway too; used_count is exact without moves and deletions |
| `CapPlaced.MintExact` | kernel/cap/capability.c:1253-1312 | for every table and argument: minting succeeds if and only if the root cap is VALID and may write and grant, the slot is FREE and the rights are legal; each error has its own condition; then the slot holds exactly the given type, object, rights and badge at depth 0 without parent, and no other entry changes |
| `CapPlaced.CopyExact` | kernel/cap/capability.c:450-547 | copying succeeds if and only if the source is VALID, may grant, is inheritable and less than 8 deep, the target FREE, and what the mask leaves legal; the copy has the type, object and badge of the source, is its last child, and has a right if and only if the source has it and the mask is zero or has it; nothing else changes |
| `CapPlaced.DeriveExact` | kernel/cap/capability.c:1334-1420 | deriving succeeds if and only if the source is VALID and may grant, the rights are some but not all of its own and legal, and the target FREE; the child has the source's type and object, these rights and the given badge; nothing else changes |
| `CapPlaced.MoveSucceedsIff` | kernel/cap/capability.c:570-688 | on a forest moving succeeds if and only if the source is VALID and may grant and the target is FREE |
| `CapPlaced.DeleteSucceedsIff` | kernel/cap/capability.c:885-950 | deleting and setting the flag succeed if and only if the slot holds a VALID cap |
| `CapPlaced.CapsAreAsAsked` | kernel/cap/capability.c:310-1420 | in every run each VALID cap is the root cap or has the type, object, rights and badge that the call which placed it asked for |
| `CapPlaced.FillsInEveryRun` | kernel/cap/capability.c:310-1420 | in every run each mint, copy and derive changes the table exactly as stated for one call |
| `CapFlags.FlagExact` | kernel/cap/capability.c:310-950 | in every run, whatever slots callers choose, a VALID cap is inheritable if and only if the last cap_set_inheritable on its slot since it was placed there set the flag; no other entry has the flag |
| `CapFlags.CopySucceedsIff` | kernel/cap/capability.c:450-547 | in every run a copy succeeds if and only if the source is VALID, has the grant right and is less than 8 deep, the last cap_set_inheritable on it set the flag, the target is FREE, and the rights that source and mask have in common (all of them for a zero mask) are legal for the type; otherwise nothing changes |
| `CapFlags.CopyNeverSucceeds` | kernel/cap/capability.c:450-547 | in every run, until cap_set_inheritable is called for the first time, every copy is refused and changes nothing |
| `CapFlags.MoveDropsFlag` | kernel/cap/capability.c:570-688 | in every run a cap that has just been moved is not inheritable |
| `CSpaceTable.CSpaceObject.constructor` | kernel/cap/cspace.c:999-1085 | the loops over the table build the initial CSpace |
| `CSpaceTable.CSpaceObject.AllocSlot` | kernel/cap/cspace.c:502-548 | refines allocation |
| `CSpaceTable.CSpaceObject.InsertLocked` | kernel/cap/capability.c:310-398 | refines insertion, error order included |
| `CSpaceTable.CSpaceObject.MintCap` | kernel/cap/capability.c:1253-1312 | refines minting; the slot then holds exactly the cap given, and no other entry changed |
| `CSpaceTable.CSpaceObject.CopyCap` | kernel/cap/capability.c:450-547 | refines copying; the target then holds the source's type, object and badge with exactly the rights that the mask leaves |
| `CSpaceTable.CSpaceObject.DeriveCap` | kernel/cap/capability.c:1334-1420 | refines deriving; the target then holds the source's type and object with the rights and badge given |
| `CSpaceTable.CSpaceObject.MoveCap` | kernel/cap/capability.c:570-688 | refines moving, with the loop that reparents the children |
| `CSpaceTable.CSpaceObject.DeleteCap` | kernel/cap/capability.c:885-950 | refines deleting, with the loop that orphans the children |
| `CSpaceTable.CSpaceObject.RevokeCap` | kernel/cap/capability.c:712-867 | the loop over the explicit stack terminates with exactly the outcome of `RevokeLoop.LoopEnds` |
| `CSpaceTable.CSpaceObject.CheckIntegrity` | kernel/cap/capability.c:1563-1691 | the counting loops report the number of VALID caps and of failing caps |
| `LockOrder.EntersOwnTurn` | kernel/sched/spinlock.c:100-126 | a thread leaves the spin loop only when its own ticket is served, although only 32-bit residues are compared |
| `LockOrder.ReleasesOwnLock` | kernel/sched/spinlock.c:132-152 | a release finds the lock busy, serves the next ticket, and is made by the head of the queue |
| `LockOrder.RunInv` | kernel/sched/spinlock.c:85-152 | in every run queues, tickets and claims of all threads agree |
| `LockOrder.MutualExclusion` | kernel/sched/spinlock.c:100-152 | in every run at most one thread holds a lock |
| `LockOrder.DeadlockFree` | kernel/cap/capability.c:250-290 | in every run, for any number of threads and CSpaces, if a thread is unfinished some thread can step |
| `LockOrder.RunLength` | kernel/sched/spinlock.c:85-152 | every step of every run uses up one of the finitely many steps the threads set out with |
| `LockOrder.MaximalRunsFinish` | kernel/cap/capability.c:250-290 | every run that cannot be continued has finished all threads, after exactly that many steps |
| `VirtChains.InitFree` | drivers/virtio/virtio_ring.c:263-286 | the initial free chain lists every descriptor once and ends in 0xFFFF |
| `VirtChains.FreeLoopWalks` | drivers/virtio/virtio_ring.c:456-483 | on a chain the freeing loop visits exactly its descriptors, and its guard never fires |
| `VirtChains.FreeChainFreesChain` | drivers/virtio/virtio_ring.c:435-483 | freeing a chain puts exactly its descriptors in front of the free chain |
| `VirtChains.BuildEffect` | drivers/virtio/virtio_ring.c:545-617 | building takes descriptors in free order and links them in buffer order; running dry gives all of them back |
| `VirtRun.AcceptedSizes` | drivers/virtio/virtio_ring.c:306-315 | the accepted queue sizes are exactly the powers of two from 1 to 1024, and each divides 65536 |
| `VirtRun.CreatedInv` | drivers/virtio/virtio_ring.c:298-372 | a new queue satisfies the invariant |
| `VirtRun.AddBuffersEffect` | drivers/virtio/virtio_ring.c:526-627 | succeeds exactly when 1 <= count <= num_free as integers, despite the 16-bit sum; success publishes the out then the in buffers with the right flags; failure publishes nothing and keeps the same free set |
| `VirtRun.AddSingleEffect` | drivers/virtio/virtio_ring.c:639-668 | a one-descriptor chain is published, or the queue is unchanged when none is free |
| `VirtRun.PublishSparesPending` | drivers/virtio/virtio_ring.c:619-626 | publishing never overwrites an entry that the device has yet to read |
| `VirtRun.GetBufferEffect` | drivers/virtio/virtio_ring.c:703-746 | the oldest completion is returned and exactly its chain is freed; an id outside the table is skipped and nothing freed |
| `VirtRun.UsedCountExact` | drivers/virtio/virtio_ring.c:858-876 | the 16-bit difference of the used indices is the true number of unprocessed completions |
| `VirtRun.ConsumeEffect` | drivers/virtio/virtio_ring.c:619-626 | the device reads heads in the order of publication |
| `VirtRun.PostEffect` | drivers/virtio/virtio_ring.c:717-743 | the device may complete its chains in any order, and post ids outside the table, without overwriting an element not yet seen |
| `VirtRun.RoomForChains` | drivers/virtio/virtio_ring.c:717-743 | a device that posts only chains it holds never finds the used ring full |
| `VirtRun.InvInEveryRun` | drivers/virtio/virtio_ring.c:263-797 | in every run with such a device each descriptor is in the free chain or one in-flight chain, all chains are acyclic and end in 0xFFFF, num_free is exact, and both rings hold their entries |
| `VirtRun.StepTotal` | drivers/virtio/virtio_ring.c:526-797 | from every such state every call and every device step has an outcome |
| `VirtContent.ContentInEveryRun` | drivers/virtio/virtio_ring.c:526-797 | in every run each chain in flight still lists the buffers it was published with, requests wait in order, and posted elements are returned or waiting |
| `VirtContent.RequestsInOrder` | drivers/virtio/virtio_ring.c:545-626 | in every run the head the device reads next starts a chain that, walked by its flags, gives exactly the buffers of the next request in order |
| `VirtContent.ChainsKeepRequests` | drivers/virtio/virtio_ring.c:545-626 | the same walk from any chain in flight, at any stage, gives the buffers of its request |
| `VirtContent.CompletionsInOrder` | drivers/virtio/virtio_ring.c:703-797 | in every run what the caller was handed, then what waits in the ring, is what the device posted with valid ids: none lost, none twice, in order, with lengths |
| `VirtContent.NextHandedOver` | drivers/virtio/virtio_ring.c:703-746 | each call that returns a head hands over the oldest waiting element with its length; INVALID hands over nothing |
| `VirtCalls.HistoryInEveryRun` | drivers/virtio/virtio_ring.c:526-797 | in every run the history is that of the calls: a request was published if and only if it had a buffer and enough descriptors were free |
| `VirtCalls.DeviceGetsRequests` | drivers/virtio/virtio_ring.c:526-668 | in every run the n-th chain that the device takes lists exactly the buffers of the n-th such request |
| `VirtCalls.CallerGetsPosts` | drivers/virtio/virtio_ring.c:703-797 | in every run the caller is handed the posted elements with valid ids, in order, each once, and all of them once the ring is drained |
| `VirtDriver.VirtQueueObject.constructor` | drivers/virtio/virtio_ring.c:298-372 | the initialising loop builds a queue that satisfies the invariant |
| `VirtDriver.VirtQueueObject.FreeAll` | drivers/virtio/virtio_ring.c:456-483 | refines freeing a chain |
| `VirtDriver.VirtQueueObject.AddRequest` | drivers/virtio/virtio_ring.c:526-627 | refines adding, with both loops and the rollback |
| `VirtDriver.VirtQueueObject.AddSingleBuffer` | drivers/virtio/virtio_ring.c:639-668 | refines adding a single buffer |
| `VirtDriver.VirtQueueObject.GetCompleted` | drivers/virtio/virtio_ring.c:703-746 | refines taking a completion, ids outside the table included |
| `VirtDriver.VirtQueueObject.GetBatch` | drivers/virtio/virtio_ring.c:758-797 | with the device acting before every look at the ring: returns heads and lengths of the valid elements present or arriving, in order, skips the others, stops short of the maximum only on an empty ring, and keeps the invariant |
| `VirtDriver.DeviceRunMoves` | drivers/virtio/virtio_ring.c:777-794 | any sequence of device steps meets the contract under which the batch loop lets the device act |
| `VirtDriver.VirtQueueObject.GetStats` | drivers/virtio/virtio_ring.c:858-876 | reports the lengths of the free chain and of the unprocessed completions |
| `Ic2Ring.SpaceExact` | kernel/ipc/ic2.c:110-230 | free and used space computed from wrapped indices are the true distances |
| `Ic2Ring.RingBuffer.constructor` | kernel/ipc/ic2.c:85-96 | a new ring stores nothing |
| `Ic2Ring.RingBuffer.Write` | kernel/ipc/ic2.c:110-163 | appends the longest prefix that fits in capacity - 1 bytes, with one or two copies |
| `Ic2Ring.RingBuffer.Read` | kernel/ipc/ic2.c:176-230 | removes and returns the longest available prefix |
| `Ic2Spsc.StepInv` | kernel/ipc/ic2.c:110-230 | every load, copied byte and index store of either side keeps the invariant, with stale loads of the other's index |
| `Ic2Spsc.PrefixInEveryRun` | kernel/ipc/ic2.c:110-230 | in every interleaving the bytes read are a prefix of the bytes written and at most capacity - 1 are in flight |
| `Ic2Spsc.CopiesNeverMeet` | kernel/ipc/ic2.c:110-230 | in every interleaving no cell is copied in and out at the same time |
| `Ic2Spsc.NeitherSideWaits` | kernel/ipc/ic2.c:110-230 | in every interleaving each side's next access is possible and within bounds |
| `Ic2Calls.WriteLoadRoom` | kernel/ipc/ic2.c:110-163 | after its load the writer copies the first bytes of the caller's data, as many as there are and as had room at that moment |
| `Ic2Calls.ReadLoadThere` | kernel/ipc/ic2.c:176-230 | after its load the reader takes as many bytes as the caller wants and as were there at its own load of the head |
| `Ic2Calls.CallsInEveryRun` | kernel/ipc/ic2.c:110-230 | in every interleaving, from the calls alone: the bytes published are the data given to the completed writes, in order, each cut to the room it found; the bytes returned are the first of these, as many as the completed reads wanted and found |
| `EndpointIds.IdsRepeatIff` | kernel/ipc/endpoint.c:538-546 | two creations of one slot give the same ID if and only if their distance is a multiple of 65535 |
| `EndpointIds.ResolveExact` | kernel/ipc/endpoint.c:349-460 | an ID is accepted if and only if it is the current ID of a live endpoint |
| `EndpointIds.StaleIdRejected` | kernel/ipc/endpoint.c:349-460 | an old ID is accepted if and only if a congruent creation is live |
| `EndpointIds.CreateInv` | kernel/ipc/endpoint.c:520-569 | an uninterrupted creation gives out the next ID of the slot on top of the stack and keeps the table consistent |
| `EndpointIds.DestroyInv` | kernel/ipc/endpoint.c:575-712 | an uninterrupted destruction retires the slot, returns its index and keeps the table consistent; IDs that do not resolve change nothing |
| `EndpointIds.KeepsSoundIff` | kernel/ipc/endpoint.c:307-1125 | a step of any thread keeps each index in exactly one place if and only if it is not the locked part of a destroy, send or receive on a slot that is not in use |
| `EndpointRaces.DestroyedTwice` | kernel/ipc/endpoint.c:595-712 | whenever an endpoint is live, two destroys that both pass the unlocked test push its index twice, and two creations then get the same slot |
| `EndpointRaces.WrongOneDestroyed` | kernel/ipc/endpoint.c:595-712 | whenever an endpoint is live, a destroy overtaken by another and by a creation finds the slot in use and wipes the new endpoint |
| `EndpointRaces.WrongOneEntered` | kernel/ipc/endpoint.c:733-1049 | and a send or receive overtaken in the same way enters the new endpoint |
| `EndpointRaces.NamedIff` | kernel/ipc/endpoint.c:535-1049 | in every run whatsoever the locked part of a destroy, send or receive acts on the endpoint its ID named if and only if the slot is in use and was filled and wiped a multiple of 65535 times in between |
| `EndpointRaces.NamedIffNotWiped` | kernel/ipc/endpoint.c:535-1049 | in every run whose locked parts find their slots in use: if and only if the slot was wiped a multiple of 65535 times in between, so for fewer if and only if it was not wiped |
| `EndpointRaces.DestroySparesIff` | kernel/ipc/endpoint.c:575-712 | in every such run a destroy leaves the acceptance of all other IDs alone under exactly that condition |
| `EndpointIds.IdsInEveryRun` | kernel/ipc/endpoint.c:466-712 | in every interleaving of pops, fills, unlocked tests, locked parts and pushes in which locked parts find their slots in use, be it by another endpoint, each index is live, on the stack or with one thread, and exactly the IDs of live endpoints are accepted |
| `EndpointIds.RoomToFree` | kernel/ipc/endpoint.c:330-336 | while an endpoint is live the unchecked push of its index stays inside the stack |
| `EndpointIds.EndpointTable.constructor` | kernel/ipc/endpoint.c:466-514 | the initialising loop builds the initial table |
| `EndpointIds.EndpointTable.Lookup` | kernel/ipc/endpoint.c:349-460 | refines the resolution of IDs |
| `EndpointIds.EndpointTable.PopIndex` | kernel/ipc/endpoint.c:307-325 | refines the pop of a creation |
| `EndpointIds.EndpointTable.PushIndex` | kernel/ipc/endpoint.c:330-336 | refines the push of a destruction |
| `EndpointIds.EndpointTable.FillSlot` | kernel/ipc/endpoint.c:535-569 | refines the filling of a popped slot |
| `EndpointIds.EndpointTable.WipeSlot` | kernel/ipc/endpoint.c:684-692 | refines the wipe |
| `EndpointIds.EndpointTable.CreateEndpoint` | kernel/ipc/endpoint.c:520-569 | refines an uninterrupted creation |
| `EndpointIds.EndpointTable.DestroyEndpoint` | kernel/ipc/endpoint.c:575-712 | refines an uninterrupted destruction |
| `Rendezvous.KeepsPairedIff` | kernel/ipc/endpoint.c:595-1234 | with any number of clients, where a call is admitted by an unlocked test and takes the lock later: a step keeps "the blocked clients are the recorded one, the owner is blocked only in RECEIVING and with nobody waiting, a destroyed endpoint holds nobody" if and only if it is not a send or receive that enters after a destroy, a send while a request is outstanding or with a body that cannot be copied, or a receive before the reply |
| `Rendezvous.OwnerReleasesClient` | kernel/ipc/endpoint.c:1049-1234 | then client and owner are never both blocked, and the owner's next receive and reply release the client |
| `Rendezvous.DestroyReleases` | kernel/ipc/endpoint.c:616-712 | destroying such an endpoint releases everybody who waits on it |
| `Rendezvous.LateCallStrands` | kernel/ipc/endpoint.c:734-908 | from every new endpoint a run in which a send or receive admitted before a destroy enters after it and blocks its thread |
| `Rendezvous.ClosedForever` | kernel/ipc/endpoint.c:595-1234 | once the endpoint is destroyed and all admitted calls have entered, whoever is blocked stays blocked in every continuation |
| `Rendezvous.ForgottenForever` | kernel/ipc/endpoint.c:575-1234 | a blocked client that is not recorded stays blocked in every continuation, destruction included |
| `Rendezvous.SecondRequestStrands` | kernel/ipc/endpoint.c:843-908 | a second request while one is outstanding leaves the first client blocked in every continuation |
| `Rendezvous.DeliveredInEveryRun` | kernel/ipc/endpoint.c:764-1234 | in every orderly run the k-th request has the k-th receipt and the k-th reply, on both paths; bodies are cut to the receiver's buffer, tags are those of the last fast request, replies reach the client's own buffer unless a temporary one replaced it |
| `Delivery.AskedInEveryRun` | kernel/ipc/endpoint.c:764-1234 | in every orderly run, until the endpoint is destroyed, the requests on record are the calls of send that entered, field by field and in order, with the path each took |
| `Delivery.MessagesInEveryRun` | kernel/ipc/endpoint.c:764-1234 | in every orderly run, until the endpoint is destroyed, from the calls alone: the k-th receipt is the body of the k-th send cut to the buffer of the k-th receive; the k-th answer goes to the client of the k-th send with the body of the k-th reply, and the client gets it cut to its own buffer unless a temporary buffer stood in; numbers of receipts and answers are exact |
| `Rendezvous.TagArrivesIff` | kernel/ipc/endpoint.c:799-1121 | a message arrives with its own tag if and only if it took the fast path or the saved tag was the same |
| `Rendezvous.TagGoesMissing` | kernel/ipc/endpoint.c:843-1121 | from every new endpoint an orderly run whose receipt has the wrong tag, for every tag but the one left in the slot |
| `Rendezvous.MessageCrosses` | kernel/ipc/endpoint.c:733-908 | from every new endpoint a run in which a message sent to it is received whole by the owner of the next endpoint on its slot |
| `Rendezvous.EndpointObject.SendMessage` | kernel/ipc/endpoint.c:764-908 | refines an admitted send from its lock up to its blocking point, also on a destroyed endpoint; a waiting owner gets the body cut to its buffer with the tag, otherwise the whole body is kept; the client blocks exactly when no error is returned |
| `Rendezvous.EndpointObject.ReceiveMessage` | kernel/ipc/endpoint.c:1049-1125 | refines an admitted receive |
| `Rendezvous.EndpointObject.ReplyMessage` | kernel/ipc/endpoint.c:1168-1234 | refines an admitted reply |
| `Rendezvous.EndpointObject.DestroyNow` | kernel/ipc/endpoint.c:620-712 | refines the wake-ups of an admitted destroy; after orderly calls nobody stays blocked |
| `Irq.InitOk` | kernel/irq/irq.c:77-156 | the initial tables satisfy the invariants |
| `Irq.AttachLinesOk` | kernel/irq/irq.c:284-379 | attaching keeps: in use exactly while handlers exist, delivered exactly while in use and unmasked, sharing by agreement, distinct arguments |
| `Irq.AttachPartition` | kernel/irq/irq.c:104-379 | attaching moves one entry from the pool to one list |
| `Irq.DetachLinesOk` | kernel/irq/irq.c:388-496 | detaching keeps the same; the last handler switches the line off |
| `Irq.DetachPartition` | kernel/irq/irq.c:124-439 | detaching moves one entry back |
| `Irq.DetachAllLinesOk` | kernel/irq/irq.c:501-536 | detaching all keeps the same |
| `Irq.SetMaskOk` | kernel/irq/irq.c:541-598 | masking and unmasking keep: in use exactly while handlers exist, delivered exactly while in use and unmasked |
| `Irq.DetachUndoesAttach` | kernel/irq/irq.c:284-496 | detaching by the returned id, or by the same handler and argument, restores every line and the controller; the entry goes to the end of the pool |
| `Irq.DetachedIdRefused` | kernel/irq/irq.c:388-439 | a detached id is refused on every line |
| `Irq.LinesInEveryRun` | kernel/irq/irq.c:77-598 | all of this in every state of every run; ids are distinct until the 32-bit counter wraps |
| `IrqCalls.MaskExact` | kernel/irq/irq.c:541-598 | masking leaves the line masked and not delivered, unmasking unmasked and delivered; both succeed if and only if the line is in use; handlers, every other line, entries, pool and ids stay |
| `IrqCalls.JoinsIff` | kernel/irq/irq.c:210-250 | a further handler is accepted if and only if it and every handler there share and its argument is neither null nor taken; a null argument has its own error |
| `IrqCalls.AttachExact` | kernel/irq/irq.c:284-379 | attaching returns an id if and only if the line exists, a handler or notification is given, the sharing contract holds and the pool is not empty; each error has its own condition; the first free entry is filled with what was given and goes last on the line, which the first handler puts into use, unmasked and delivered; nothing else changes |
| `IrqCalls.DetachExact` | kernel/irq/irq.c:388-496 | detaching succeeds if and only if the line is in use and a handler fits the id, or the handler and argument |
| `IrqCalls.DetachTakesFirst` | kernel/irq/irq.c:388-496 | and takes out the first that fits: it goes wiped to the end of the pool, the last one resets and disables the line, nothing else changes |
| `IrqCalls.DetachAllExact` | kernel/irq/irq.c:501-536 | detaching all succeeds if and only if the line is in use; its entries go wiped and in order to the end of the pool, the line is reset and disabled, nothing else changes |
| `IrqCalls.DeliveredIff` | kernel/irq/irq.c:284-598 | in every run a line in use is delivered if and only if no mask call on it since it came into use is later than the last unmask |
| `IrqCalls.EntriesAreAsAttached` | kernel/irq/irq.c:284-598 | in every run each entry on a line carries the flag, handler, argument and notification of the attach call that put it there, and the id that call read |
| `IrqPool.TakeSafeIff` | kernel/irq/irq.c:104-118 | with calls on different lines interleaved: unlinking the entry read keeps every entry in one place and takes it from no line if and only if it is still in the pool |
| `IrqPool.KeepsIdsIff` | kernel/irq/irq.c:336-338 | a step keeps all ids given and about to be given distinct if and only if it does not read the counter between another call's read and increment |
| `IrqPool.PoolInEveryRun` | kernel/irq/irq.c:77-439 | in every interleaving that meets both, each entry is in the pool, on one line or with one call, and no id is given twice |
| `IrqPool.HandlerStolen` | kernel/irq/irq.c:104-357 | whenever the pool is not empty and two lines are idle, a run in which both attaches succeed and the first line ends without its handler |
| `IrqPool.IdGivenTwice` | kernel/irq/irq.c:336-338 | a run in which two attaches return one id |
| `IrqPool.DetachAlone` | kernel/irq/irq.c:388-439 | an undisturbed detach takes exactly this entry off its line and puts it last into the pool |
| `Irq.IrqTable.constructor` | kernel/irq/irq.c:77-275 | the initialising loops build the initial tables |
| `Irq.IrqTable.CheckContract` | kernel/irq/irq.c:210-250 | the loop decides whether an existing handler refuses to share or has the same argument |
| `Irq.IrqTable.AttachHandler` | kernel/irq/irq.c:284-379 | refines attaching, error order included |
| `Irq.IrqTable.Find` | kernel/irq/irq.c:409-417 | finds the first matching entry of a list |
| `Irq.IrqTable.DetachHandler` | kernel/irq/irq.c:388-496 | refines detaching by id and by handler |
| `Irq.IrqTable.DetachEvery` | kernel/irq/irq.c:501-536 | refines detaching all handlers of a line |
| `Irq.IrqTable.Mask` | kernel/irq/irq.c:541-598 | refines masking and unmasking: succeeds exactly on a line in use, which is then masked and not delivered, or unmasked and delivered |
| `Notification.KeepsNothingLost` | kernel/ipc/notification.c:320-450 | every atomic access, by any number of signallers and consumers, loses no signal |
| `Notification.ReportNewIff` | kernel/ipc/notification.c:382-450 | a clear reports only signals not yet reported if and only if every bit it holds from its load is still, or again, pending |
| `Notification.SignalsInEveryRun` | kernel/ipc/notification.c:320-450 | in every run each signalled bit is pending or in a later report, and each pending bit was signalled since its last report; with one consumer per bit each report answers a signal of its own |
| `Notification.SharedBitReportedTwice` | kernel/ipc/notification.c:437-450 | a run in which two consumers of one bit report the same signal |
| `Notification.HeldIff` | kernel/ipc/notification.c:382-450 | in every run a consumer is about to report exactly the bits that its last load asked for and found set |
| `Notification.PendingIff` | kernel/ipc/notification.c:320-450 | in every run a bit is pending if and only if some signal set it and no consumer that had read it has cleared since |
| `Notification.LogInEveryRun` | kernel/ipc/notification.c:320-450 | in every run each signal sets the bits given, each clear reports the bits its consumer has read, and a load reports nothing |
| `NotifyWake.WakeableIff` | kernel/ipc/notification.c:320-450 | with every shared access its own step and any number of signallers and try_wait callers: some continuation wakes the sleeper if and only if the state says WAITING or a signaller has already read everything in its favour |
| `NotifyWake.KeptInEveryRun` | kernel/ipc/notification.c:356-410 | in every run the mask and the thread that only the waiter writes are as it left them |
| `NotifyWake.WakeableInEveryRun` | kernel/ipc/notification.c:320-450 | so in every state of every run a sleeper can be woken if and only if it is not deaf |
| `NotifyWake.DeafForever` | kernel/ipc/notification.c:320-450 | a sleeper for which neither holds is woken in no run, whatever is signalled |
| `NotifyWake.GoesDeafIff` | kernel/ipc/notification.c:320-450 | the exact steps after which that is so: a store of PENDING or IDLE while the waiter sleeps, or falling asleep after one of them undid WAITING, each with no such signaller left |
| `NotifyWake.RaceDeafens` | kernel/ipc/notification.c:320-397 | a run in which a signaller reads the state before the waiter stores WAITING and stores PENDING after it sleeps: deaf, with its own bit pending |
| `NotifyWake.OtherSignalDeafens` | kernel/ipc/notification.c:320-346 | a run in which one undisturbed signal outside the mask makes the sleeper deaf |
| `NotifyWake.TryWaitDeafens` | kernel/ipc/notification.c:437-450 | a run in which another thread's try_wait does |
| `NotifyWake.CalmRunsWake` | kernel/ipc/notification.c:320-450 | in every run without overlap while the waiter falls asleep, without try_wait and without foreign signals while it sleeps, it is never deaf, and a signaller is under way whenever an awaited bit is pending |
| `NotifyWake.CalmSignalWakes` | kernel/ipc/notification.c:320-346 | and each signaller under way wakes the sleeper by its own steps |
| `NotifyWake.NotificationObject.SignalNow` | kernel/ipc/notification.c:295-350 | refines an undisturbed signal; exactly the given bits are added |
| `NotifyWake.NotificationObject.TryWaitNow` | kernel/ipc/notification.c:418-455 | refines an undisturbed try_wait |
| `NotifyWake.NotificationObject.WaitNow` | kernel/ipc/notification.c:356-398 | refines an undisturbed wait up to its return or its sleep |
| `NotifyWake.NotificationObject.ResumeNow` | kernel/ipc/notification.c:400-410 | refines the rest of waiting |
| `RbTree.RotateKeepsTree` | include/kernel/rbtree.h:214-285 | on any well-formed pointer tree a rotation leaves a well-formed pointer tree, parent and root pointers right, everything around in place, in the same order |
| `RbTree.RotateBack` | include/kernel/rbtree.h:214-285 | the opposite rotation at the risen node restores every pointer |
| `RbInsert.RoundKeepsFixable` | kernel/mm/rbtree.c:42-107 | a round of the fix-up, in each of its six cases, leaves at most one red-red pair, two levels up or none |
| `RbInsert.RoundKeepsOrder` | kernel/mm/rbtree.c:42-107 | a round does not change the order |
| `RbInsert.RecolorRound` | kernel/mm/rbtree.c:52-92 | the red-uncle case on the pointers is that round on the tree |
| `RbInsert.RiseRound` | kernel/mm/rbtree.c:71-104 | the recolouring and last rotation on the pointers are that round on the tree |
| `RbInsert.WholeBalanced` | kernel/mm/rbtree.c:42-114 | with a black parent and a blackened root the whole is a red-black tree |
| `RbInsert.HeightBound` | kernel/mm/rbtree.c:292-336 | a red-black tree of n nodes has height at most 2 log2(n + 1) |
| `RbInsert.DescendKeepsPlace` | kernel/mm/rbtree.c:302-316 | the search keeps all smaller or equal keys before the place and all greater ones after it |
| `RbHeap.RbNodes.RotateAt` | include/kernel/rbtree.h:214-285 | refines both rotations |
| `RbHeap.RbNodes.Fixup` | kernel/mm/rbtree.c:36-114 | the loop ends with a well-formed red-black pointer tree in the same order, and never follows a null grandparent |
| `RbHeap.RbNodes.Insert` | kernel/mm/rbtree.c:292-336 | inserting into a sorted red-black pointer tree gives one with the new node behind everything not greater |
| `RbHeap.RbNodes.Next` | kernel/mm/rbtree.c:534-560 | the successor in the order of the whole tree, or null at its end |
| `HotCache.PutEffect` | kernel/mm/hot_data_cache.c:232-288 | for any kinds, a put stores the pair and drops at most one kind, and that only from a full cache without the new kind |
| `HotCache.NeverReplaces` | kernel/mm/hot_data_cache.c:249-275 | with no more kinds than slots the replacement branch is unreachable |
| `HotCache.CacheIsLastPuts` | kernel/mm/hot_data_cache.c:183-347 | in every run over the kernel's kinds a lookup gives the last pointer put since the cache was emptied |
| `HotUse.StampsInEveryRun` | kernel/mm/hot_data_cache.c:183-347 | in every run over the kernel's kinds exactly the kinds put since the cache was emptied are there, each with the time of its last use and the number of its uses since, modulo 2^64 |
| `HotUse.OlderGoesFirstIff` | kernel/mm/hot_data_cache.c:107-130 | while scores do not wrap, the older of two entries goes first if and only if the other was not used more often by one use per 1000 ticks between them |
| `HotUse.HotterGoesFirst` | kernel/mm/hot_data_cache.c:117-119 | of two entries used at the same time the one used more often goes first, contrary to the comment |
| `HotUse.HottestReplaced` | kernel/mm/hot_data_cache.c:107-130 | full caches of every size whose victim is the most recently and most often used entry |
| `HotCache.Cache.Find` | kernel/mm/hot_data_cache.c:60-74 | the first valid slot of a kind |
| `HotCache.Cache.FindVictim` | kernel/mm/hot_data_cache.c:107-130 | the first slot of the smallest wrapped score |
| `HotCache.Cache.Get` | kernel/mm/hot_data_cache.c:183-219 | refines lookup |
| `HotCache.Cache.Store` | kernel/mm/hot_data_cache.c:232-288 | refines put; a null pointer is refused and changes nothing |
| `HotCache.Cache.Flush` | kernel/mm/hot_data_cache.c:296-322 | empties every slot |
| `HotCache.Cache.Invalidate` | kernel/mm/hot_data_cache.c:329-347 | invalidates every slot and keeps the rest of it |
| `Numbers.FixedValue` | kernel/klog.c:378-411 | the printed hexadecimal digits denote the value modulo 16^n |
| `Numbers.ShortValue` | kernel/klog.c:347-368 | the printed decimal digits denote the value modulo 10^n |
| `Numbers.KlogDec` | kernel/klog.c:347-368 | the loop over the buffer prints the low nine digits without leading zeros |
| `Numbers.KlogHex` | kernel/klog.c:378-411 | shifting from the highest nibble prints all n digits |
| `Numbers.DigitStep` | lib/kernel_string.c:907-917 | wrapping at every digit gives the whole number modulo 2^32 |
| `Numbers.Strtoul` | lib/kernel_string.c:842-931 | for every string and base: skips spaces, sign and prefix, reads the longest run of digits, and returns its value or its negation modulo 2^32 |
| `Numerals.DigitExact` | lib/kernel_string.c:703-731 | a character is the digit d of a base if and only if d is below the base and the character is d in the usual digits, in either case |
| `Numerals.ValueIsPositional` | lib/kernel_string.c:907-917 | reading digit by digit gives the number in positional notation |
| `Numerals.ParseExact` | lib/kernel_string.c:842-931 | on blanks, a sign, the prefix of the base (with base 0: 0x, 0 or none for 16, 8 or 10), the longest run of digits and any rest: the value of the digits modulo 2^32, negated behind a minus sign; the end is behind the digits |
| `Numerals.ParsesEveryText` | lib/kernel_string.c:842-931 | every text in every base has that form, so the result on it is as stated |
| `Numbers.HexRoundTrip` | kernel/klog.c:378-411 | reading back klog_hex32 gives the value, klog_hex64 its low word, and the whole string is read |
| `Numbers.DecRoundTrip` | kernel/klog.c:347-368 | reading back klog_dec gives the value modulo 10^9, so the value itself exactly when it is below 10^9 |

## Left out

- Parent links across CSpaces, CSpace resolution and its hash: the forest is that of one CSpace.
- `cspace_insert_cap`, `cspace_free_slot` and `cspace_resize`: they do not maintain the forest.
- The pointers of the intrusive children and handler lists: the lists are sequences of slots and entries, which `RingRuns.RingsInEveryRun` justifies for the children lists until a revoke fails with ENOMEM; after that the model shows the freed entries with empty children lists, and the pointers do not (`Rings.DrainResidue`).
- The 32-bit wrap-around of `used_count`: tables have at most 256 slots, so only billions of moves and deletions in one CSpace could reach it.
- `CSpaceTable.CSpaceObject.MoveCap`: stated for tables that hold a forest, not for what a revoke that failed with ENOMEM leaves behind, because there the children lists are no longer lists (`Rings.DrainResidue`) and unlinking writes into the lists of other caps (`Rings.ResidueCorrupts`).
- `CSpaceTable.CSpaceObject.DeleteCap`: the same, for the same reason.
- `CSpaceTable.CSpaceObject.RevokeCap`: the same, for the same reason; every table that a run reaches before such a failure is covered.
- Virtqueue memory layout, addresses, barriers and event suppression; a device that completes a chain it does not hold or overruns the used ring.
- IC2 packet framing and time-outs; the ring alone is modelled.
- `EndpointIds.EndpointTable.FillSlot`: the unlocked stores of generation, ID and state are one step, and the slot's lock is not re-initialised, because no test accepts the slot between them; a thread that holds the lock of a slot being filled is not modelled.
- Endpoint capability transfer, access checks, time-outs, ownership of the message buffers, and a receiver other than the owner; a receive or reply that enters an endpoint created on its slot since; the list of active endpoints.
- `irq_dispatch`, access checks, statistics, trigger, priority and affinity of interrupts; in `Irq` the calls run one at a time, in `IrqPool` each operation on a list is one step and the id counter does not wrap.
- Creation, destruction and time-outs of notifications, and a second waiting thread on one notification; a signaller's two reads of `waiter_tid` are one step, since only the one waiter writes it.
- `rb_delete`, `rb_prev`, `rb_search`; nodes are compared by integer keys in place of a callback.
- The statistics of the hot data cache, and the log's character ring behind the printers.
- Weak memory order: every access is sequentially consistent.
- The scheduler, memory management, drivers other than the virtqueue, file systems and user space.
