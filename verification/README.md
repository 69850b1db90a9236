# Exyde, verified

Exyde is a small single-CPU microkernel with userspace servers. This project models its hardest
parts in Dafny and proves what they promise: the physical page allocator and the four-level page
tables, the scheduler with its blocking primitives and channels, handle tables and capability
transfer, the heaps of the kernel and of the C library, the file server with its request protocol
and the shell's path normaliser, the initial user stack, and integer printing and parsing.

`dafny verify dfyconfig.toml` checks everything.

## How the model is built

Code that changes state step by step is a class or a method with the same fields, branches and
loops, proved against a function or predicate on values; laws about those are lemmas. Concurrency is
a transition system whose steps are the regions the kernel runs with interrupts off. Addresses are
integers; where 64-bit wrap-around matters it is written out. What comes from outside the modelled
code is a parameter: whether memory can be had, what `calloc` returned, how many frames can be
mapped, what the file system answered.

| module | models |
|---|---|
| Basics | what all of them share |
| Pmm | the page allocator |
| PageTree, AddressSpace, SpaceLife | page-table trees as maps, their operations, the life of an address space |
| SysMap | the map system call with its search and rollback, and the unmap system call |
| Sched, Blocking, KernelRuns, KernelLaws | ready and zombie lists and wait queues, all blocking primitives as one transition system, its runs, what each step does |
| Channel, Delivery | the message ring, what channels deliver over whole runs |
| Handles, Ownership | handle tables, capability ownership in every interleaving |
| Tiling, Arena | tilings of memory by blocks, the boundary-tag allocator over one |
| FreeList, KernelHeap | the address-sorted free list, the kernel heap over it |
| VfsTree, PathWalk, Vfs, VfsLaws, VfsMeaning, VfsRuns | the vnode tree and its reference counts, path walking, the operations, what they mean for later lookups, what they answer and do, runs of them |
| Paths, PathLaws | the shell's normaliser against the server's walk, and read backwards |
| RamFile, VfsFiles | file contents and chunked client writes, the server's files in step with the buffers |
| Rpc | server and clients as one transition system |
| ExecStack | the stack the kernel builds and crt0 reads |
| Numbers | integer conversions of printf, strtol and strtoul |

## Where the code does not do what one would expect

Each of these is a lemma or a method; the exact condition stands in it or beside it.

- A page in no memory region is used but not reserved, so it can be freed and then handed out
  (run: `Pmm.FreeingAHole`; condition: the last clause of `Pmm.PageAllocator.FreePages`).
- `vmm_map` has no upper bound on addresses, so a user space can reach the slot it shares with the
  kernel (run: `SpaceLife.MapBeyondCanonical`; condition: `SpaceLife.PrivateIff`). Its
  callers in the tree keep the address below the canonical top (`src/kernel/core/syscall.c:403`,
  `src/kernel/core/elf.c:105`).
- A user page behind tables that were made for a supervisor page is reported as a user page, and the
  processor lets no user access through (run: `SpaceLife.SupervisorFirst`; condition:
  `PageTree.RightsAreFlagsIff`). `sys_map` asks for user pages only.
- A receiver that refuses a capability message uses up a wakeup (run: `KernelRuns.LostWakeup`;
  condition: `KernelRuns.StepKeepsIff`, `Blocking.WasteIsHarmlessIff`).
- TRANSFER makes the receiver an owner even when the sender was none (run:
  `Ownership.TransferReleasesTwice`; condition: `Ownership.TransferSingleIff`).
- SYS_HANDLE_CREATE makes an owning handle to any object the caller names, so two calls give two
  owners (run: `Ownership.CreateReleasesTwice`; condition: `Ownership.CreateSingle`).
- A shrinking `realloc` can leave two neighbouring free blocks (run: `Arena.UnmergedTail`;
  condition: `Arena.ShrinkCoalescedIff`), and a request near the top of `size_t` rounds to sixteen
  bytes (`Arena.NeedCovers`).
- `heap_reserve` returns true after a partial mapping (run: `KernelHeap.PartialReserve`; condition:
  `KernelHeap.Heap.Reserve`).
- A write past the end of a file can show bytes that a truncation cut off (run: `RamFile.StaleGap`),
  and also heap bytes that nobody ever wrote, because a new buffer is zeroed only up to the offset
  (run: `RamFile.UnwrittenGap`; condition for both: `RamFile.RamNode.Write`). A client write cut
  into requests can therefore differ from the same write in one piece (run:
  `RamFile.SplitDiffers`; condition: `RamFile.SplitIsWholeIff`).
- An open for which there is no memory has truncated or created the file all the same
  (`VfsMeaning.OpenDoes` says exactly when).
- `mkdir` accepts the names "." and "..", which no lookup finds (run: `VfsLaws.MakeDot`; condition:
  `VfsLaws.CreateThenResolve`).
- Normalising a path can make it resolve where it did not (`Paths.MayResolveMore`; condition:
  `Paths.TypedResolvesIff`).
- `strtol` and `strtoul` read nothing of "0x" without a digit behind it, not even the zero
  (`Numbers.BarePrefix`).

## Model

| member | source | states |
|---|---|---|
| `Pmm.PageAllocator.constructor` | src/kernel/core/pmm.c:76-119 | pmm_init, with some usable memory and page 0 in a non-usable region: every page it leaves free lies wholly in a usable region and touches no other one, every page touching a non-usable region is reserved and used, and the free count is the number of clear bits |
| `Pmm.PageAllocator.MarkUsable` | src/kernel/core/pmm.c:39-47 | clears exactly the pages that lie wholly inside the region |
| `Pmm.PageAllocator.MarkReserved` | src/kernel/core/pmm.c:49-59 | sets exactly the pages that the region touches, in both bitmaps |
| `Pmm.RoundingSelects` | src/kernel/core/pmm.c:39-59 | rounding the base up and the end down selects the covered pages, rounding the other way the touched ones |
| `Pmm.PageAllocator.AllocPages` | src/kernel/core/pmm.c:125-142 | returns the lowest run of clear bits of that length and sets exactly that run, or 0 exactly when there is none; the free count stays the number of clear bits |
| `Pmm.PageAllocator.AllocPage` | src/kernel/core/pmm.c:121-123 | a single page: 0 only when no page is free, otherwise a free one, now used |
| `Pmm.PageAllocator.FreePages` | src/kernel/core/pmm.c:148-170 | succeeds exactly for an aligned, in-range run of used, unreserved pages and then clears exactly it; a rejected free changes nothing; the end address wraps at 64 bits as in the source; pages outside usable memory become free exactly when the run holds one |
| `Pmm.PageAllocator.FreePage` | src/kernel/core/pmm.c:144-146 | the same for one page at any 64-bit address |
| `Pmm.FreeingAHole` | src/kernel/core/pmm.c:148-170 | a page in no region at all is used but not reserved, so it can be freed and is then handed out although no usable region holds it |
| `PageTree.PathOfIdentifiesPage` | src/kernel/arch/x86_64/mm/vmm.c:166-182 | two page-aligned addresses have the same four indices exactly when they are equal modulo 2^48 |
| `PageTree.AddTable` | src/kernel/arch/x86_64/mm/vmm.c:53-67 | linking a zeroed table keeps the tree and its view |
| `PageTree.MapLeaf` | src/kernel/arch/x86_64/mm/vmm.c:188-211 | writing a leaf entry adds exactly that page to the view |
| `PageTree.UnmapLeaf` | src/kernel/arch/x86_64/mm/vmm.c:213-227 | clearing a leaf entry removes exactly that page from the view |
| `PageTree.RightsAreFlags` | src/kernel/arch/x86_64/mm/vmm.c:188-211 | where all tables above a page let everything through, what the processor grants, the conjunction over the four entries, is what the page's own flags say |
| `PageTree.RightsAreFlagsIff` | src/kernel/arch/x86_64/mm/vmm.c:188-242 | in general it is so exactly when the entries above grant what the flags ask for |
| `AddressSpace.Space.DescendOrAlloc` | src/kernel/arch/x86_64/mm/vmm.c:53-67 | descend_or_alloc: the view is unchanged, at most one table is added in a frame that was free, and 0 comes back only for a huge entry or when no page is free |
| `AddressSpace.Space.Map` | src/kernel/arch/x86_64/mm/vmm.c:188-211 | vmm_map adds exactly one page to the abstract map or leaves the map alone, even when it had to add tables first; every entry it adds on the way lets writes through, and user accesses exactly if the page is a user page, and entries that were there are untouched; it fails only for bad arguments, a present page, a huge entry on the way, or no free page |
| `AddressSpace.Space.Unmap` | src/kernel/arch/x86_64/mm/vmm.c:213-227 | vmm_unmap succeeds exactly when the page is mapped, and removes exactly it |
| `AddressSpace.Space.Query` | src/kernel/arch/x86_64/mm/vmm.c:229-242 | vmm_query is lookup in the abstract map |
| `AddressSpace.Space.WalkLeaf` | src/kernel/arch/x86_64/mm/vmm.c:166-182 | walk_leaf finds the page table exactly when the tree has one for the address |
| `AddressSpace.Space.FreePt` | src/kernel/arch/x86_64/mm/vmm.c:98-106 | frees every frame of the subtree, each exactly once |
| `AddressSpace.Space.FreePd` | src/kernel/arch/x86_64/mm/vmm.c:108-116 | frees every frame of the subtree, each exactly once |
| `AddressSpace.Space.FreePdpt` | src/kernel/arch/x86_64/mm/vmm.c:118-126 | frees every frame of the subtree, each exactly once |
| `AddressSpace.Space.Destroy` | src/kernel/arch/x86_64/mm/vmm.c:131-141 | destroy_space returns every private table and leaf frame and the root, each exactly once, and no other frame |
| `AddressSpace.Space.Unref` | src/kernel/arch/x86_64/mm/vmm.c:149-155 | only the last reference of a user space tears it down, and then exactly its private frames are freed |
| `AddressSpace.RefUnref` | src/kernel/arch/x86_64/mm/vmm.c:143-155 | taking a reference and dropping it again leaves the count and every frame as they were: the space is not torn down |
| `SpaceLife.Create` | src/kernel/arch/x86_64/mm/vmm.c:79-96 | vmm_create copies the kernel slots, so kernel pages read the same, and takes exactly one frame; 0 only without memory |
| `SpaceLife.PrivateIff` | src/kernel/arch/x86_64/mm/vmm.c:184-211 | a page lies outside the slot shared with the kernel exactly when its address modulo 2^48 is at least the user base |
| `SpaceLife.NonCanonicalReachesKernelSlot` | src/kernel/arch/x86_64/mm/vmm.c:188-211 | 2^48 plus a kernel address passes the check of vmm_map and has the same four indices as the kernel address, in the slot shared with the kernel |
| `SpaceLife.MapBeyondCanonical` | src/kernel/arch/x86_64/mm/vmm.c:188-211 | vmm_create and then vmm_map at 2^48 plus a kernel address: it fails only without memory or where the kernel has a page, and when it succeeds the kernel's own tables gain exactly that page |
| `SpaceLife.MapFresh` | src/kernel/core/syscall.c:412-420 | mapping a freshly allocated page keeps every frame of the space private and counted, on success and on failure |
| `SpaceLife.UnmapFree` | src/kernel/core/syscall.c:456-464 | query, unmap and free take one page out of the space and give its frame back |
| `SpaceLife.SupervisorFirst` | src/kernel/arch/x86_64/mm/vmm.c:188-211 | a run: a supervisor page and then a user page behind the same tables; the second is reported as a user page and no user access gets through; it fails only without memory |
| `SpaceLife.KernelSurvives` | src/kernel/arch/x86_64/mm/vmm.c:79-96 | whatever happens to user pages, the kernel mappings read as before |
| `SpaceLife.LastUnref` | src/kernel/arch/x86_64/mm/vmm.c:131-155 | the last unref returns exactly the frames the space holds |
| `SpaceLife.PerformAll` | src/kernel/arch/x86_64/mm/vmm.c:79-227 | over any sequence of maps and unmaps of user pages, the processor grants on every private page exactly what its flags say, and kernel mappings are unchanged |
| `SpaceLife.Life` | src/kernel/arch/x86_64/mm/vmm.c:79-155 | over vmm_create, any sequence of such maps and unmaps, and the last unref, the allocator ends with the free count and bitmap it started with, and kernel mappings are unchanged |
| `SysMap.SkipIsSafe` | src/kernel/core/syscall.c:358-379 | a collision rules out every start up to the colliding page |
| `SysMap.FindMapVa` | src/kernel/core/syscall.c:358-379 | find_map_va terminates and returns the lowest free range at or above the hint below the stack, or 0 exactly when there is none |
| `SysMap.MapRange` | src/kernel/core/syscall.c:411-433 | maps all pages of the range with fresh frames, or, after its rollback, leaves the map unchanged |
| `SysMap.Rollback` | src/kernel/core/syscall.c:425-433 | takes back exactly the pages mapped so far and frees their frames |
| `SysMap.Process.Map` | src/kernel/core/syscall.c:381-434 | sys_map maps all npages at the chosen base or leaves the abstract map unchanged with every leaf frame returned; effective rights stay equal to the flags |
| `SysMap.RefusedExactly` | src/kernel/core/syscall.c:381-409 | what sys_map refuses at once: anything but 1 to the limit of pages, plain or writable, at address 0 or in an aligned range of user memory |
| `SysMap.UnmapRange` | src/kernel/core/syscall.c:456-464 | exactly the pages of the range go and as many frames come back |
| `SysMap.Process.Unmap` | src/kernel/core/syscall.c:436-466 | sys_unmap, with the byte count wrapping at 64 bits: EINVAL exactly for a bad range, ENOENT exactly when a page of it is missing, and then nothing changes; otherwise exactly the range goes and as many frames come back, and the range lies in user memory although the check could wrap |
| `SysMap.AcceptedExactly` | src/kernel/core/syscall.c:436-447 | what sys_unmap accepts, where the byte count does not wrap: a non-empty aligned range of user memory |
| `SysMap.NotMoreThanFrames` | src/kernel/core/syscall.c:448-454 | the check that every page is mapped cannot pass for more pages than there are frames, so a wrapped count never gets through it |
| `SysMap.MapThenUnmap` | src/kernel/core/syscall.c:381-466 | unmapping what was mapped restores the abstract map |
| `Sched.WaitQueues.Push` | src/kernel/include/exyde/waitq.h:21-26 | all wait queues of the kernel share one link field: the push appends at the tail of one of them and every other one is still linked as before |
| `Sched.WaitQueues.Pop` | src/kernel/include/exyde/waitq.h:28-35 | removes the head of one queue, or returns none exactly when it is empty; every other queue is untouched |
| `Sched.PushKeepsQueues` | src/kernel/include/exyde/waitq.h:21-26 | any number of disjoint queues through one field stay well linked and disjoint when a thread that is on none of them joins one |
| `Sched.PopKeepsQueues` | src/kernel/include/exyde/waitq.h:28-35 | and when one gives up its first thread |
| `Sched.Scheduler.constructor` | src/kernel/core/sched.c:31-54 | sched_init: the boot thread is current and running |
| `Sched.PushSpares` | src/kernel/core/sched.c:60-95 | appending to one of two lists that share the link field leaves the other one linked as it was |
| `Sched.Scheduler.Enqueue` | src/kernel/core/sched.c:60-69 | the linked ready list stands for the old sequence with the thread appended and the count is its length; the zombie list, which uses the same link field, is still linked as before |
| `Sched.Scheduler.Dequeue` | src/kernel/core/sched.c:71-79 | takes the first thread off the linked ready list, or none exactly when it is empty; the count follows and the zombie list is untouched |
| `Sched.Scheduler.ZombiePush` | src/kernel/core/sched.c:87-95 | appends to the zombie list through the shared link field; the ready list keeps its order |
| `Sched.Scheduler.Schedule` | src/kernel/core/sched.c:131-158 | the current thread goes to the tail if it is still running, the head becomes current; every thread stays in one place |
| `Sched.Scheduler.ReapZombies` | src/kernel/core/sched.c:118-127 | walks the linked zombie list and frees exactly the threads on it, ready list and current thread untouched |
| `Sched.Scheduler.ThreadExit` | src/kernel/core/sched.c:185-191 | the current thread becomes a zombie and another one runs |
| `Sched.Scheduler.Block` | src/kernel/core/sched.c:193-196 | the current thread blocks and another one runs |
| `Sched.Scheduler.UnblockThread` | src/kernel/core/sched.c:198-202 | a blocked thread becomes ready at the tail; it is never dropped |
| `Sched.SwitchPlaced` | src/kernel/core/sched.c:131-158 | a switch keeps every thread in exactly one place |
| `Sched.ExitPlaced` | src/kernel/core/sched.c:185-191 | an exit keeps every thread in exactly one place |
| `Sched.UnblockPlaced` | src/kernel/core/sched.c:198-202 | a wakeup keeps every thread in exactly one place |
| `Sched.ReapPlaced` | src/kernel/core/sched.c:118-127 | reaping keeps every thread in exactly one place |
| `Blocking.UnlockKeeps` | src/kernel/core/mutex.c:22-29 | unlocking keeps the wakeup invariant |
| `Blocking.PostKeeps` | src/kernel/core/semaphore.c:20-26 | posting keeps the wakeup invariant |
| `Blocking.TakeKeeps` | src/kernel/core/channel.c:63-122 | taking what is available, and waking one thread of the other side, keeps the wakeup invariant |
| `Blocking.SleepKeeps` | src/kernel/core/channel.c:137-146 | going to sleep when nothing is available keeps the wakeup invariant |
| `Blocking.CondWaitKeeps` | src/kernel/core/condvar.c:9-16 | releasing the mutex and sleeping in one step keeps the wakeup invariant |
| `Blocking.WakeAllKeeps` | src/kernel/core/condvar.c:25-32 | a broadcast keeps the wakeup invariant |
| `Blocking.StepKeeps` | src/kernel/core/channel.c:63-243 | every atomic step of every thread keeps the wakeup invariant, unless a woken receiver turns its message down |
| `Blocking.WasteIsHarmlessIff` | src/kernel/core/channel.c:166-183 | a receiver that turns its message down does no harm exactly when nobody sleeps on the channel or another thread is already awake for every message in it |
| `KernelRuns.NoLostWakeups` | src/kernel/core/mutex.c:12-29 | in every state of every run whose refused messages are all harmless: sleepers on a mutex, semaphore or channel imply that what is available is at most the number of threads popped and not yet rechecked |
| `KernelRuns.StepKeepsIff` | src/kernel/core/channel.c:63-243 | a step of any thread keeps the wakeup invariant exactly when it refuses no message or the refusal is harmless |
| `KernelRuns.LostWakeup` | src/kernel/core/syscall.c:174-198 | a run from boot in which a plain receive refuses a capability message and another receiver sleeps on with the message there and nobody awake |
| `KernelRuns.OnePlace` | src/kernel/core/sched.c:60-202 | in every state of every run each live thread is in exactly one of: current, ready queue, one wait queue, zombie list, and its state field says which |
| `KernelRuns.NeverPanics` | src/kernel/core/sched.c:131-158 | the panic "no runnable thread" cannot be reached while the boot thread never blocks or exits |
| `KernelRuns.TurnComes` | src/kernel/core/sched.c:131-158 | the thread at position k of the ready queue runs after exactly k + 1 switches |
| `KernelLaws.SignalLaw` | src/kernel/core/condvar.c:18-23 | a signal takes exactly the first sleeper off the queue of the condition and puts it last in the ready list; every other queue, every object and every other thread is as before |
| `KernelLaws.BroadcastLaw` | src/kernel/core/condvar.c:25-32 | a broadcast empties the queue and makes all of its threads ready, in their order, and changes nothing else |
| `KernelLaws.CondWaitLaw` | src/kernel/core/condvar.c:9-16 | a wait frees the mutex, wakes the first thread that waits for it and puts the caller last on the queue of the condition, in one step |
| `KernelLaws.ReleaseLaw` | src/kernel/core/mutex.c:22-29 | an unlock frees exactly that mutex and wakes exactly the first waiter |
| `KernelLaws.PostLaw` | src/kernel/core/semaphore.c:20-26 | a post adds one and wakes exactly the first waiter |
| `KernelLaws.FinishLaw` | src/kernel/core/channel.c:63-243 | a lock, wait, send or receive that can go on does: the caller holds the mutex, the count is one less, the message is last in the channel or the first one is out, and exactly the first waiter of the other side is woken |
| `KernelLaws.SleepLaw` | src/kernel/core/channel.c:137-146 | one that cannot go on puts its caller last on the queue of the object and hands the CPU to the first ready thread; no object changes |
| `KernelLaws.RefuseLaw` | src/kernel/core/channel.c:166-183 | a receiver that may not take the capability leaves everything as it is |
| `KernelLaws.TryLaw` | src/kernel/core/channel.c:126-164 | a try that cannot go on changes nothing |
| `KernelLaws.YieldLaw` | src/kernel/core/sched.c:160-168 | a yield goes behind everybody who is ready |
| `KernelLaws.TerminateLaw` | src/kernel/core/sched.c:185-191 | an exiting thread is dead and on the zombie list, and gone once a thread that ran before takes over |
| `KernelLaws.SpawnLaw` | src/kernel/core/sched.c:60-69 | a new thread is ready, behind all others |
| `KernelLaws.MutualExclusion` | src/kernel/core/mutex.c:12-29 | in every run, from the moment a thread has a mutex until it unlocks it or waits on a condition with it, it keeps it and nobody else gets it |
| `KernelLaws.SemaphoresCount` | src/kernel/core/semaphore.c:10-26 | in every run a semaphore is its first value and the posts, less the waits that got through, and never negative |
| `Channel.Create` | src/kernel/core/channel.c:12-41 | channel_create: an empty ring with the given sizes, or none exactly when a size is zero or memory is missing |
| `Channel.Ring.constructor` | src/kernel/core/channel.c:32-40 | the fields of a new ring: it stands for the empty queue |
| `Channel.Ring.Enqueue` | src/kernel/core/channel.c:63-89 | appends the message and its capability to the queue; tail stays (head + count) mod capacity |
| `Channel.Ring.PeekTry` | src/kernel/core/channel.c:93-98 | the oldest message and its capability, or none exactly when empty |
| `Channel.Ring.Commit` | src/kernel/core/channel.c:110-122 | drops exactly the oldest message |
| `Channel.Ring.TrySend` | src/kernel/core/channel.c:126-135 | appends a plain message, or fails exactly when full |
| `Channel.Ring.TryRecv` | src/kernel/core/channel.c:148-164 | takes the oldest message, or refuses and keeps it when it carries a capability |
| `Channel.Ring.TryRecvCap` | src/kernel/core/channel.c:198-221 | takes the oldest message together with its own capability |
| `Channel.EnqueueView` | src/kernel/core/channel.c:63-89 | writing at the tail is appending to the queue that the ring represents |
| `Channel.CommitView` | src/kernel/core/channel.c:110-122 | advancing the head is dropping its first message |
| `Delivery.DeliveredInOrder` | src/kernel/core/channel.c:63-243 | in every run of the kernel, whatever its threads do, what the receivers of a channel have taken is a prefix of what was in it and was sent, in order, and the rest is in the channel, within its capacity |
| `Delivery.Conserved` | src/kernel/core/channel.c:63-243 | in every run, what was in the channel followed by what was sent is what was taken followed by what is in it |
| `Delivery.RingServes` | src/kernel/core/channel.c:63-221 | through any sequence of calls the ring holds what a bounded queue holds and its receivers get what the queue's get, bytes and capability together |
| `Delivery.ServesExactly` | src/kernel/core/channel.c:63-221 | that queue refuses a send exactly when it is full and a receive exactly when it holds nothing or nothing the receiver may take |
| `Delivery.QueueInOrder` | src/kernel/core/channel.c:63-221 | what is taken from that queue is a prefix of what was put in |
| `Handles.HandleTable.CreateEx` | src/kernel/core/handle.c:15-30 | installs the entry in the first free slot from the hint on, or fails exactly when the table is full |
| `Handles.HandleTable.HasFreeSlot` | src/kernel/core/handle.c:36-41 | true exactly when some slot is free |
| `Handles.HandleTable.LookupFull` | src/kernel/core/handle.c:48-58 | finds exactly an open entry with all the required rights |
| `Handles.HandleTable.Close` | src/kernel/core/handle.c:60-79 | empties exactly that slot and releases the object exactly when the entry owns it |
| `Handles.HandleTable.Disown` | src/kernel/core/handle.c:81-86 | drops only the ownership bit |
| `Handles.HandleTable.Destroy` | src/kernel/core/handle.c:88-101 | releases every owned object once and empties the table |
| `Ownership.CreateSingle` | src/kernel/core/syscall.c:64-74 | a new owning handle keeps single ownership exactly when the object is new |
| `Ownership.CreateReleasesTwice` | src/kernel/core/syscall.c:64-74 | a run from empty tables of creates and closes alone: two owning handles to the same object, both closed, and it is released twice |
| `Ownership.TransferSingleIff` | src/kernel/core/syscall.c:232-275 | TRANSFER keeps single ownership exactly when the sender's handle owns the object, or nobody does and it was never released: the ownership bit comes from the action alone |
| `Ownership.TransferReleasesTwice` | src/kernel/core/syscall.c:232-275 | a run from empty tables: a copy made by DUPLICATE is sent on with TRANSFER, both handles are closed, and the object is released twice |
| `Ownership.RecvCapSingle` | src/kernel/core/syscall.c:277-333 | installing a received capability keeps single ownership |
| `Ownership.ExitSingle` | src/kernel/core/handle.c:88-101 | destroying a table keeps single ownership |
| `Ownership.StepSingle` | src/kernel/core/syscall.c:232-333 | every step keeps at most one owning reference per object across all tables and messages in flight |
| `Ownership.ReleasedAtMostOnce` | src/kernel/core/handle.c:60-101 | in every run where TRANSFER is applied to owning handles and created objects are new, no object is released twice and none has two owners |
| `Ownership.CapsAreNotLost` | src/kernel/core/syscall.c:277-322 | a capability leaves a living channel only into a slot of the receiver: not through a plain receive and not when the table is full |
| `Ownership.CreateHolds` | src/kernel/core/syscall.c:64-74 | a create changes exactly one slot |
| `Ownership.BootstrapHolds` | src/kernel/core/syscall.c:517-539 | a spawn gives the child a copy that does not own |
| `Ownership.SendHolds` | src/kernel/core/syscall.c:232-275 | DUPLICATE and TRANSFER put a copy with the same rights on the next message, owning exactly for TRANSFER, and change no other place |
| `Ownership.EndHolds` | src/kernel/core/syscall.c:268-272 | the end of a TRANSFER empties the sender's slot and releases nothing |
| `Ownership.RecvHolds` | src/kernel/core/syscall.c:277-333 | a received capability moves as it is from the first message into the receiver's slot; with a full table nothing moves |
| `Ownership.CloseHolds` | src/kernel/core/handle.c:60-79 | a close empties the slot and releases the object exactly when the handle owns it; a channel takes its messages along |
| `Ownership.ExitHolds` | src/kernel/core/handle.c:88-101 | an exit releases every object its table owned, in slot order, and nothing else |
| `Ownership.AccountedFor` | src/kernel/core/handle.c:60-101 | in every run, disciplined or not, an object that was owned is owned still or has been released, unless a channel was destroyed while a message in it owned the object |
| `Ownership.RightsAreCopied` | src/kernel/core/syscall.c:232-333 | rights never grow: what a place holds after a step was created there or is a copy with the same kind, object and rights |
| `Ownership.NeedsTransfer` | src/kernel/core/syscall.c:252-256 | without the TRANSFER right a handle is neither sent nor given to a child |
| `Arena.NeedCovers` | src/userspace/libc/stdlib.c:68-70 | the rounded request covers the asked size exactly when the addition does not wrap |
| `Arena.Arena.constructor` | src/userspace/libc/stdlib.c:108-137 | the mapped arena is one free block |
| `Arena.Arena.Next` | src/userspace/libc/stdlib.c:72-76 | blk_next is the following block of the tiling, or none at the end |
| `Arena.Arena.Prev` | src/userspace/libc/stdlib.c:78-83 | blk_prev is the preceding block of the tiling, so it inverts blk_next |
| `Arena.Arena.SplitBlock` | src/userspace/libc/stdlib.c:88-103 | the front keeps its bytes, a worthwhile tail becomes a free block, and no other payload changes |
| `Arena.Arena.FirstFit` | src/userspace/libc/stdlib.c:152-156 | finds the lowest block that fits, or none exactly when nothing fits |
| `Arena.Arena.Malloc` | src/userspace/libc/stdlib.c:139-160 | null exactly for size 0 or when no free block fits; otherwise the first fit, 16-aligned, new among the live blocks, all live payloads kept, and free blocks stay apart |
| `Arena.Arena.Free` | src/userspace/libc/stdlib.c:162-193 | foreign pointers and double frees change nothing; otherwise exactly that block leaves the live set, live payloads keep their bytes, and no two free blocks touch |
| `Arena.Arena.Realloc` | src/userspace/libc/stdlib.c:195-237 | fails exactly when it cannot shrink, grow in place or find room; otherwise the block is exchanged for one that covers the request, the first min(old, new) bytes and all other live payloads are kept; free blocks stay apart exactly unless a shrink leaves a tail before a free block |
| `Arena.ShrinkCoalescedIff` | src/userspace/libc/stdlib.c:211-214 | shrinking in place keeps free blocks apart exactly when it cuts nothing off or the next block is in use |
| `Arena.SurvivingExactly` | src/userspace/libc/stdlib.c:195-237 | the bytes that realloc keeps: the smaller of the old size and the request, unless rounding the request wraps |
| `Arena.FailsExactly` | src/userspace/libc/stdlib.c:195-237 | realloc gives up exactly when the block is too small, the next one is in use or too small to add, and no free block is large enough |
| `Arena.UnmergedTail` | src/userspace/libc/stdlib.c:211-214 | a run of malloc and a shrinking realloc that ends with two neighbouring free blocks |
| `Arena.GrownCoalesced` | src/userspace/libc/stdlib.c:217-229 | growing in place keeps free blocks apart |
| `Arena.GrownLive` | src/userspace/libc/stdlib.c:217-229 | growing in place exchanges the one live block |
| `Arena.SplitHeadersOk` | src/userspace/libc/stdlib.c:88-103 | after a split every header and every prev_size describes the tiling |
| `Arena.MergeHeadersOk` | src/userspace/libc/stdlib.c:174-192 | after a merge every header and every prev_size describes the tiling |
| `Tiling.PayloadsDisjoint` | src/userspace/libc/stdlib.c:52-55 | blocks of a tiling never overlap, headers included |
| `Tiling.SplitExactly` | src/userspace/libc/stdlib.c:88-103 | a block is split exactly when the rest holds a header and sixteen bytes, and then the front is exactly as large as asked for |
| `Tiling.FreedLive` | src/userspace/libc/stdlib.c:162-193 | freeing removes exactly one block from the live ones |
| `Tiling.FreedCoalesced` | src/userspace/libc/stdlib.c:172-192 | the two merges leave no two neighbouring free blocks |
| `Tiling.BytesConserved` | src/userspace/libc/stdlib.c:88-103 | live payload, free payload and headers always add up to the managed range |
| `KernelHeap.Heap.constructor` | src/kernel/core/heap.c:141-146 | heap_init: an empty heap |
| `KernelHeap.Heap.FindGap` | src/kernel/core/heap.c:47-52 | the search loop stops at the place of the block in address order |
| `KernelHeap.Heap.Insert` | src/kernel/core/heap.c:43-69 | free_list_insert: the block joins the list and merges with exactly its free neighbours |
| `KernelHeap.Heap.AllocFromList` | src/kernel/core/heap.c:72-103 | first fit on the list, split when the rest is worth it; null exactly when no free block fits |
| `KernelHeap.Heap.Grow` | src/kernel/core/heap.c:106-139 | maps as many of the pages as memory and address space allow and adds them as free memory; succeeds exactly when at least one page was mapped |
| `KernelHeap.PagesExactly` | src/kernel/core/heap.c:106-112 | as many pages as the request and its header fill, the last one at least in part |
| `KernelHeap.MappedExactly` | src/kernel/core/heap.c:112-126 | every page asked for is mapped unless memory or the address space ends before |
| `KernelHeap.FullGrowthFits` | src/kernel/core/heap.c:106-139 | if every page asked for is mapped, the request fits afterwards |
| `KernelHeap.Heap.Malloc` | src/kernel/core/heap.c:152-163 | null exactly for size 0 or when nothing fits even after growing; otherwise a new live block that covers the request, with all live payloads kept |
| `KernelHeap.Heap.Free` | src/kernel/core/heap.c:173-188 | panics exactly for a pointer outside the heap or a free block; otherwise exactly that block is freed and live payloads keep their bytes |
| `KernelHeap.Heap.Realloc` | src/kernel/core/heap.c:190-220 | shrinking changes nothing; growing moves all old bytes to a new block, or fails with every live block intact |
| `KernelHeap.Heap.FreeBytes` | src/kernel/core/heap.c:233-239 | the sum over the list is the free payload, and live + free + 32 per block is the size of the heap |
| `KernelHeap.Heap.Reserve` | src/kernel/core/heap.c:222-227 | true exactly when the bytes were there or at least one page was mapped; after true, the bytes are free exactly when they were there before or the mapped pages, less a header unless the last block was free, make up the difference |
| `KernelHeap.PartialReserve` | src/kernel/core/heap.c:222-227 | a run that asks for three pages with one frame left: true, and fewer free bytes than asked for |
| `KernelHeap.ExtendedFacts` | src/kernel/core/heap.c:127-138 | growing keeps live blocks, live bytes and the separation of free blocks, and adds exactly the mapped bytes, less a header unless the last block was free, to the free payload |
| `FreeList.FreeAddrsSorted` | src/kernel/core/heap.c:43-69 | the free list is strictly sorted by address |
| `FreeList.FreeAddrsAre` | src/kernel/core/heap.c:43-69 | the list holds exactly the free blocks |
| `KernelHeap.LinkOk` | src/kernel/core/heap.c:54-56 | linking a block in at its place keeps the list |
| `KernelHeap.JoinOk` | src/kernel/core/heap.c:58-68 | a merge unlinks exactly the swallowed block |
| `KernelHeap.CutOk` | src/kernel/core/heap.c:80-88 | the rest of a split block takes its place on the list |
| `KernelHeap.TakeOk` | src/kernel/core/heap.c:89-95 | a block handed out whole leaves the list |
| `Tiling.FreedPayload` | src/kernel/core/heap.c:185-187 | freeing takes exactly the block's payload from the live bytes and adds exactly it and a header for every merge to the free bytes |
| `Tiling.SplitPayload` | src/kernel/core/heap.c:95-97 | allocating adds exactly the handed-out payload to the live bytes and takes exactly it, and a header if the block was split, from the free bytes |
| `Vfs.Server.constructor` | src/userspace/vfs/ramfs.c:88-93 | the mounted root: one node, one reference |
| `Vfs.Server.Ref` | src/userspace/vfs/vfs.c:18-21 | one more reference, held by the operation |
| `Vfs.Server.Unref` | src/userspace/vfs/vfs.c:23-29 | one reference less; the last one destroys the node, which then has no children to release |
| `Vfs.Server.Find` | src/userspace/vfs/ramfs.c:95-99 | ramfs_find: the first child with the name |
| `Vfs.Server.ResolveFrom` | src/userspace/vfs/vfs.c:42-91 | resolve_from gives what the walk over the components gives, with exactly one reference added to the result and none left over on any error path |
| `Vfs.Server.FindPlace` | src/userspace/vfs/vfs.c:112-134 | split_parent: the directory and last component, or the error, with the same reference discipline |
| `Vfs.Server.Open` | src/userspace/vfs/vfs.c:138-177 | vfs_open: result, new file and tree in every case, creation and truncation included; references balance on every error path |
| `Vfs.Server.Close` | src/userspace/vfs/vfs.c:179-188 | the vnode is destroyed exactly when it is unlinked and this was its last open file |
| `Vfs.Server.Mkdir` | src/userspace/vfs/vfs.c:230-242 | adds exactly one directory under a new name, or changes nothing |
| `Vfs.Server.Unlink` | src/userspace/vfs/vfs.c:244-256 | removes exactly one file entry, or changes nothing |
| `Vfs.Server.Rmdir` | src/userspace/vfs/vfs.c:258-270 | removes exactly one empty directory entry, or changes nothing |
| `Vfs.Server.AddEntry` | src/userspace/vfs/ramfs.c:112-141 | ramfs_create and ramfs_mkdir: refuse a name that is taken, otherwise link one new node |
| `Vfs.Server.RemoveEntry` | src/userspace/vfs/ramfs.c:143-176 | ramfs_unlink and ramfs_rmdir: the error cases, otherwise unlink and drop the reference |
| `VfsTree.AttachInv` | src/userspace/vfs/ramfs.c:112-127 | linking a new node keeps counts, parents and unique names |
| `VfsTree.DetachInv` | src/userspace/vfs/ramfs.c:143-158 | unlinking a childless node keeps them, its link becoming a reference of the operation |
| `VfsTree.UnrefInv` | src/userspace/vfs/vfs.c:23-29 | dropping a reference keeps them, whether or not the node is destroyed |
| `VfsTree.LastRef` | src/userspace/vfs/ramfs.c:262-273 | a node whose last reference goes is unlinked, not open, and childless |
| `VfsTree.OpenInv` | src/userspace/vfs/vfs.c:169-176 | the file takes over the reference of the lookup |
| `VfsTree.CloseInv` | src/userspace/vfs/vfs.c:179-188 | closing takes it back |
| `Vfs.UnlinkWhileOpen` | src/userspace/vfs/ramfs.c:143-158 | an unlinked file that is open stays with its contents, held by its open files alone; one that is not open is destroyed at once |
| `VfsRuns.Perform` | src/userspace/vfs/vfs.c:138-270 | one call of any kind on the server: a node that is unlinked and open stays unlinked, open and with its contents unless the call closes its last file or writes to it |
| `VfsRuns.PerformAll` | src/userspace/vfs/vfs.c:138-270 | through any sequence of calls that neither close the file nor write to its node, an unlinked open file keeps its contents and never gets a name again |
| `PathWalk.WalkLinked` | src/userspace/vfs/vfs.c:42-91 | a walk from the root only ever visits linked nodes |
| `PathWalk.ClimbsToRoot` | src/userspace/vfs/ramfs.c:112-141 | from every linked node the parent pointers lead to the root: the links form a tree |
| `VfsLaws.CreateThenResolve` | src/userspace/vfs/vfs.c:42-134 | a path under which an entry was added resolves to it exactly when it is absolute and does not end in "." or ".." |
| `VfsLaws.MakeDot` | src/userspace/vfs/vfs.c:230-242 | a run: mkdir of "/." on a fresh server succeeds and the new directory is linked, yet "/." resolves to the root |
| `VfsLaws.RemoveThenResolve` | src/userspace/vfs/vfs.c:42-134 | a path whose entry was removed answers ENOENT exactly when it is absolute and does not end in "." or ".." |
| `VfsLaws.AttachWalk` | src/userspace/vfs/ramfs.c:112-127 | adding an entry changes no successful lookup |
| `VfsLaws.RemoveWalk` | src/userspace/vfs/ramfs.c:143-176 | after a removal every lookup, successful or not, answers as before unless it goes through the removed node, and then it answers ENOENT |
| `VfsMeaning.WalkMeans` | src/userspace/vfs/vfs.c:42-91 | a lookup follows the components as far as each leads, by name, to itself or to the parent, and answers the last node, or why the first component that leads nowhere does not: too long, not a directory, no such entry |
| `VfsMeaning.ChainIsWalked` | src/userspace/vfs/vfs.c:42-91 | conversely, wherever a chain of components leads, the lookup gets |
| `VfsMeaning.HomeIs` | src/userspace/vfs/vfs.c:112-134 | split_parent: the directory part before the last slash, or the root, and the rest as the name, with the exact errors |
| `VfsMeaning.MkdirDoes` | src/userspace/vfs/vfs.c:230-242 | over the server's state: mkdir answers EEXIST exactly when the name is taken, the error of the directory part otherwise, and else adds exactly one empty directory |
| `VfsMeaning.RemoveDoes` | src/userspace/vfs/vfs.c:244-270 | unlink and rmdir answer ENOENT, EISDIR, ENOTDIR and ENOTEMPTY exactly when the entry is missing, of the wrong kind or not empty, and else take out exactly that entry; the node stays exactly while it is open |
| `VfsMeaning.OpenDoes` | src/userspace/vfs/vfs.c:138-177 | over the server's state: an existing file is emptied exactly when O_TRUNC is set, the mode is not read-only and it is regular, and every other node keeps its data; with O_CREAT and O_EXCL an existing path answers EEXIST and nothing changes; without O_CREAT a missing one answers ENOENT; a created file is regular, empty and found by its path |
| `Paths.Normalize` | src/userspace/shell/main.c:75-113 | normalize_path fails exactly when a buffer, the depth of 32 or the capacity does not suffice, and otherwise writes the normal form |
| `Paths.ResolvePath` | src/userspace/shell/main.c:117-131 | resolve_path normalises the path behind the working directory, within the buffer |
| `Paths.NormalForm` | src/userspace/shell/main.c:75-113 | the result is absolute, has no empty, "." or ".." component and is spelled in one way |
| `PathLaws.NormalMeans` | src/userspace/shell/main.c:75-113 | the result is the components that survive when the path is read backwards, each behind one slash, or the root; it fails exactly when the path has 512 characters or more, the stack goes beyond 32 components, or the result does not fit |
| `Paths.Idempotent` | src/userspace/shell/main.c:75-113 | normalising again gives the same path, exactly when it fits the work buffer |
| `Paths.MeaningPreserved` | src/userspace/shell/main.c:75-113 | whatever node the server finds under a path, it finds under the normalised path |
| `Paths.MayResolveMore` | src/userspace/shell/main.c:92-95 | the converse fails: "/a/.." normalises to "/" where there is no "a" |
| `Paths.TypedResolvesIff` | src/userspace/shell/main.c:75-113 | a path as typed resolves exactly when every directory the normaliser's stack passes through resolves; where the normalised path resolves, the typed one finds the same node exactly then |
| `Paths.AbsoluteMeans` | src/userspace/shell/main.c:117-131 | a relative path means what it means from the working directory |
| `PathLaws.AbsoluteStays` | src/userspace/shell/main.c:117-122 | an absolute path is taken as it is |
| `Paths.SegmentsSpelled` | src/userspace/shell/main.c:100-112 | splitting a rendered stack gives the stack back |
| `Paths.SegmentsJoin` | src/userspace/vfs/vfs.c:42-60 | a slash separates: the components of both sides, one after the other |
| `RamFile.RamNode.Read` | src/userspace/vfs/ramfs.c:194-203 | ramfs_read is a slice of the contents |
| `RamFile.RamNode.Write` | src/userspace/vfs/ramfs.c:205-233 | ramfs_write splices the bytes in, whatever the capacity does; a write past the end leaves a gap of zeros exactly when the buffer had to grow or held zeros there, and a buffer that grew holds what the allocator left behind the written bytes |
| `RamFile.RamNode.Truncate` | src/userspace/vfs/ramfs.c:235-258 | a prefix of the contents, or the contents followed by zeros, byte by byte |
| `RamFile.StaleGap` | src/userspace/vfs/ramfs.c:213-231 | write, truncate, write past the end: bytes cut off before come back |
| `RamFile.UnwrittenGap` | src/userspace/vfs/ramfs.c:213-231 | a run without truncation: one byte, then one byte further on, and the byte between them is what the allocator's memory held |
| `RamFile.OpenFile.Read` | src/userspace/vfs/vfs.c:192-200 | reads at the offset and advances it |
| `RamFile.OpenFile.Write` | src/userspace/vfs/vfs.c:202-211 | writes at the offset, or at the end with O_APPEND, with the contents given in every case, a gap past the end included, and moves the offset behind |
| `RamFile.OpenFile.ClientWrite` | src/userspace/libc/vfs_client.c:136-160 | a client write of any length from any offset in 512-byte requests succeeds exactly when one large write would; what took effect is the splice of a prefix, whole on success and a whole number of requests otherwise, behind the gap the first request leaves |
| `RamFile.SplitIsWholeIff` | src/userspace/libc/vfs_client.c:136-160 | the cut-up write leaves the contents one large write would leave exactly when it starts within the file, the first request already grows the buffer, the whole write does not, or the gap held zeros |
| `RamFile.SplitDiffers` | src/userspace/libc/vfs_client.c:136-160 | a run: 1024 bytes are written and truncated away, then 600 bytes go in from offset 500; in requests of 512 the first byte of the file is one that was cut off, in one piece it is zero |
| `RamFile.NewCapTwice` | src/userspace/vfs/ramfs.c:213-218 | growing in two goes needs no more memory than in one and ends with the same capacity |
| `RamFile.DoubledIs` | src/userspace/vfs/ramfs.c:213-218 | the new capacity is less than twice what is needed, and the loop gives up only beyond 2^62 |
| `RamFile.ReadBack` | src/userspace/vfs/ramfs.c:194-233 | what was written is what is read |
| `RamFile.ReadElsewhere` | src/userspace/vfs/ramfs.c:194-233 | reads elsewhere see the old contents |
| `VfsFiles.ReadBoth` | src/userspace/vfs/vfs.c:192-200 | reading through an open file of the server and through the buffer of ramfs gives the same result and bytes, and every open file stays in step |
| `VfsFiles.WriteBoth` | src/userspace/vfs/vfs.c:202-211 | writing through an open file of the server and into the buffer of ramfs gives the same result; afterwards the two agree on that file, on every file open on the same node and on every other one |
| `Rpc.StepKeeps` | src/userspace/vfs/main.c:209-268 | every step of any client or of the server keeps the protocol invariant |
| `Rpc.RepliesAreOwn` | src/userspace/libc/vfs_client.c:70-95 | in every run a client has at most one unread reply, and it answers its latest request with the result its own descriptor table gives |
| `Rpc.AnswersAreLawful` | src/userspace/vfs/main.c:102-190 | for every request: open answers the file system's error or EMFILE exactly when there is one and leaves the table alone, else the lowest free descriptor now holds the file; close, use and seek answer EBADF exactly for a descriptor that is not open; seek puts a non-negative offset into aux; close clears exactly that slot |
| `Rpc.RepliesAreLawful` | src/userspace/vfs/main.c:102-268 | in every run, the reply a client reads after a request obeys that law for the table its own requests have led to |
| `Rpc.AttachIsServed` | src/userspace/vfs/main.c:215-240 | in every run, an attach gets the lowest free slot and the next id, or is turned away exactly when all slots are in use |
| `Rpc.CallIsServed` | src/userspace/vfs/main.c:242-268 | in every run, a call is answered lawfully from the sender's slot, or not at all when it has none |
| `Rpc.RequestIsQueued` | src/userspace/libc/vfs_client.c:70-95 | a request puts exactly one message at the end of the shared channel |
| `Rpc.IdsAreOwn` | src/userspace/vfs/main.c:52-63 | in every run below the wrap of the id counter, slots in use have different ids and different clients, and hold the table their client expects |
| `Rpc.ServeIsLocal` | src/userspace/vfs/main.c:209-268 | in every run, serving a request changes no slot and no client but the sender's, and the reply goes into an empty channel, so the server never waits for room |
| `Rpc.OwnSlot` | src/userspace/vfs/main.c:37-44 | the slot found by the id in a request is the sender's |
| `Rpc.FileServer.Find` | src/userspace/vfs/main.c:37-44 | client_find: the slot with the id, none for 0 |
| `Rpc.FileServer.TakeSlot` | src/userspace/vfs/main.c:52-63 | client_attach: the first free slot with the next id |
| `Rpc.FileServer.AllocFd` | src/userspace/vfs/fd_table.c:9-14 | the lowest free descriptor |
| `Rpc.OpenThenClose` | src/userspace/vfs/fd_table.c:9-27 | open fails exactly when all descriptors are in use, otherwise it opens exactly one that was free, and closing that one restores the table |
| `Rpc.FileServer.Turn` | src/userspace/vfs/main.c:209-268 | one turn of the server's loop is one step of the protocol |
| `ExecStack.Stack.PushStrings` | src/kernel/core/exec.c:111-118 | the strings lie one below the other, each with its terminator, at the recorded addresses |
| `ExecStack.Stack.PushTables` | src/kernel/core/exec.c:146-162 | pad, NULL, environment, NULL, arguments and count, leaving a 16-aligned pointer |
| `ExecStack.Stack.Build` | src/kernel/core/exec.c:122-169 | 0 exactly when there are too many strings or they do not fit; otherwise the finished image, aligned, with the pointer arrays below the strings |
| `ExecStack.RoomNeeded` | src/kernel/core/exec.c:122-169 | the room a build needs: all strings with their terminators, a word for each pointer, the count and the two ends, and less than three words for alignment |
| `ExecStack.RoundTrip` | src/userspace/crt/crt0.asm:33-38 | crt0 finds argc, the argument strings, NULL, the environment strings, NULL, exactly as given |
| `ExecStack.StrIsUnique` | src/userspace/crt/crt0.asm:33-38 | at most one string can be read at an address |
| `Numbers.ToBase` | src/userspace/libc/stdio.c:125-140 | u64_to_base writes the digits of the number, most significant first, within its buffer |
| `Numbers.Format` | src/userspace/libc/stdio.c:296-382 | an integer conversion without precision: sign, prefix, padding and digits for every flag and width |
| `Numbers.PrintsAsAsked` | src/userspace/libc/stdio.c:296-382 | the output is the shortest digits in the right case, the sign and the prefix that the flags ask for, and padding of one kind, in the place they ask for, exactly up to the width |
| `Numbers.MagnitudeOfDigits` | src/userspace/libc/stdio.c:125-140 | the digits denote the number |
| `Numbers.CutoffTest` | src/userspace/libc/stdlib.c:304-308 | the cutoff test holds exactly when one more digit exceeds the limit |
| `Numbers.ScanDigits` | src/userspace/libc/stdlib.c:366-378 | the accumulator is the exact value, and overflow is set exactly when it exceeds the limit |
| `Numbers.ParseLong` | src/userspace/libc/stdlib.c:321-393 | strtol on every string in every base: blanks, a sign, a prefix for bases 0 and 16, digits: the signed place-value sum with the end behind the digits, LONG_MAX or LONG_MIN with the range error precisely when that is out of range, 0 and no progress without digits, and a refused base exactly outside 0 and 2 to 36 |
| `Numbers.ParseUnsigned` | src/userspace/libc/stdlib.c:266-319 | strtoul on every string in every base, in the same way: the sum, negated modulo 2^64 after a minus sign, or ULONG_MAX precisely when it is out of range |
| `Numbers.ReadersMean` | src/userspace/libc/stdlib.c:266-393 | both readers answer the sum over the positions of the digits, however the string is taken apart |
| `Numbers.EveryString` | src/userspace/libc/stdlib.c:266-393 | every string can be taken apart so, in every base that is not refused |
| `Numbers.BarePrefix` | src/userspace/libc/stdlib.c:276-286 | a hexadecimal prefix without digits behind it is read as nothing at all |
| `Numbers.DigitIs` | src/userspace/libc/stdlib.c:260-265 | a character is digit d exactly if it stands at place d of the alphabet, in either case |
| `Numbers.LongRoundTrip` | src/userspace/libc/stdlib.c:321-393 | what %ld prints, with any flags and width, strtol reads back, LONG_MIN included |
| `Numbers.UnsignedRoundTrip` | src/userspace/libc/stdlib.c:266-319 | what %lu prints strtoul reads back |
| `Numbers.HexRoundTrip` | src/userspace/libc/stdlib.c:266-319 | what %#lx and %#lX print strtoul reads back with base 0 |
| `Numbers.OctalRoundTrip` | src/userspace/libc/stdlib.c:266-319 | what %#lo prints strtoul reads back with base 0 |

## Left out

- Hardware and assembly: descriptor tables, interrupt controllers, timers, context switching, TLB and CR3 handling, fault-tolerant user copies.
- Boot, self-tests, console, shell builtins and tokenizer, panic output: drivers and user interface.
- `elf_load`, `initrd.c`, `qsort`, `string.c`, `env.c`, `vfs_fdtab.c`: no clean law, no counterpart to round-trip against, or only easy members.
- Kernel mappings made while a user space lives: the life of a space is modelled with the kernel slots fixed.
- The heap allocation of the space structure in `vmm_create` is a parameter.
- `sys_wait` and process exit queues: the same wait-queue pattern as the modelled primitives.
- Timer preemption is the yield step of the transition system; priorities do not exist.
- The ready and zombie lists share one link field and the wait queues another, as in the source; in the transition systems queues are sequences.
- Pmm.PageAllocator.FreePages: a count whose byte length wraps at 64 bits is taken to meet a page that cannot be released before the end of the bitmap; without one the source reads past its bitmap.
- AddressSpace.Space.FreePd: the branch that frees a huge entry is shown never to be taken in a user space, since no operation makes one there.
- AddressSpace.Space.FreePdpt: the same for its huge entries.
- AddressSpace.Space.Destroy: the same for the whole tree.
- Arena.Arena.Free: a pointer inside the arena that is no block of the tiling (stale after a merge, or into a payload), where the source reads payload bytes as a header.
- Arena.Arena.Realloc: the same pointers, and a block that was freed already, which the source would resize.
- KernelHeap.Heap.Free: a pointer inside the heap that is no block of the tiling, where the source reads payload bytes as a header.
- KernelHeap.Heap.Realloc: the same pointers.
- KernelHeap.Heap.Grow: the frames and page tables behind the mapping loop are a count of pages that could be mapped.
- Channel capacity is modelled in the ring and in the blocking system, not in the ownership system; there a process has one thread.
- Lifetime of objects behind handles that do not own them: the code promises nothing.
- `arena_init_once`: the lazy mapping of the arena and its failure; the allocator model starts from the mapped arena. `calloc` and `exy_zalloc` add a fill only.
- Rpc.IdsAreOwn: runs with fewer attaches than the 32-bit id counter has values.
- Messages with a forged client id: the server trusts the id in a request, so a client that sends another's id reaches that client's table; in the model every client sends its own.
- The capacity of 8 of the request channel: the model's queue is unbounded, so its runs include every bounded one.
- Server exit after the last detach, and the reply a client waits for after its own shutdown.
- `vfs_seek` and `ramfs_readdir`: arithmetic on one field and an index into the child list.
- RamFile.OpenFile.ClientWrite: memory is to be had exactly up to a given size.
- Vfs.Server.Unref: `ramfs_destroy` releases no children in the model, because a node that is destroyed is shown to have none.
- Precision, the `hh` and `h` lengths, `%p` and the non-integer conversions of printf.
