# Verified model of the RT-Thread 3.1.1 kernel core

This project models the kernel's hardest parts in Dafny and proves the invariants they live by:

- **Circular lists** (`RtList.dfy`, `Rings.dfy`): the list primitives as rings that refine sequences.
- **Allocators**: the memory heap with its block list and free ring (`MemHeap*.dfy`), the first-fit heap with
  headers in the heap (`SmallMem*.dfy`) and the slab allocator with its page list (`Pages.dfy`, `ZoneLayout.dfy`,
  `Slab*.dfy`). `Tiles.dfy` is the common theory of regions cut into blocks, `Memory.dfy` that of the bytes that
  reallocation copies; `Options.dfy` and `Seqs.dfy` hold what all parts share.
- **IPC** (`IpcList.dfy`, `Semaphore.dfy`, `Mutex.dfy`, `Event.dfy`, `Mailbox.dfy`, `MessageQueue*.dfy`,
  `TimedWait.dfy`): each object is a machine whose steps are the sections with interrupts disabled; waiters that have
  been resumed run later and re-check.
- **Scheduler** (`Bits.dfy`, `ReadyMap.dfy`, `Scheduler*.dfy`): ready queues, the one-level and the two-level ready
  bitmap, thread states and time slices.
- **Timers** (`TimerSpec.dfy`, `Timers.dfy`, `TimerRuns.dfy`, `TimerList.dfy`): the skip list on wrapped ticks against
  a sorted list of unwrapped deadlines.
- **Kconfig** (`Kconfig*.dfy`): the value caches of `tools/kconfiglib.py` with their pruned invalidation, and the
  expression printer and parser.

Each part has the same three layers: a specification (a value and the functions that step it), lemmas about the
specification (what every step keeps, and what holds in every run), and classes whose fields are updated in place as
the source does it and whose methods are proved to compute the specified steps. `dafny verify dfyconfig.toml` checks
everything.

Conventions. Addresses are offsets from the start of a heap, `RT_ALIGN_SIZE` is 4, a page is 4096 bytes. Integers are
unbounded; where the source wraps (request rounding, ticks, the 8-bit hold count, the 16-bit semaphore value, the
remaining timeout) the reduction is written out. Invariants that many proofs pass along unopened are stated behind a
predicate such as `Unfolded`; the lemma next to it opens them.

Results that differ from what the code or its documentation promises:

- A request above 2^32 - 4 is rounded to a small size by the allocators (`MemHeapProofs.RoundedHolds`,
  `SmallMemProofs.AlignIs`), and in-place growth of the memory heap loses its structure exactly when
  `newsize + 12` wraps with a free block behind (`MemHeapRealloc.ReallocKeeps`, `MemHeapRealloc.WrapsCase`).
- Cutting a block in `rt_realloc` of `src/mem.c` leaves `lfree` above a free block unless the condition of
  `SmallMemProofs.ShrinkLowest` holds; until a lower block is freed that memory is not found by `rt_malloc`.
- A failed `rt_realloc` of `src/mem.c` leaves the heap alone exactly for sizes up to 2^32 - 4; the three sizes above
  are aligned to 0, and the block is freed (`SmallMemRuns.ReallocMoves`).
- The test of `available_size` in `rt_memheap_alloc` refuses exactly one request that a free block holds: the one for
  all that is available (`MemHeapProofs.TestDecides`).
- `rt_malloc` on a fresh first-fit heap with fewer than 12 bytes between its headers returns exactly for requests of
  0 bytes and for those that are refused at once; any other search never ends (`SmallMemRuns.TinyHeap`).
- The slab allocator's promise that power-of-two sizes are aligned to their size holds exactly up to one page:
  larger ones are only page aligned (`SlabAlign.PowersAligned`, with an instance in `SlabAlign.EightKilobytes`).
  Its promise that a request of 0 bytes returns a pointer does not hold: the code returns NULL, which is the first
  case of `Exhausted` in `SlabRuns.MallocKeeps`.
- The 256th nested take makes a mutex's hold count 0; an owner with 257 open takes loses the mutex at its next
  release (`MutexProofs.LosesAt`, `MutexProofs.LostEarly`).
- A semaphore loses releases exactly when one meets the value 65535 (`SemaphoreProofs.Conserved`,
  `SemaphoreProofs.OverflowCase`).
- `rt_enter_critical` says that 65535 nested calls may be made; with a signed 16-bit counter the first exit unlocks
  the scheduler from the 32769th on (`SchedulerRuns.NestingLimit`).
- Two resumes of one thread that have both passed their test insert it into the ready queues a second time
  (`SchedulerRuns.InsertIff`).
- `rt_timer_check` returns exactly when no periodic timer that is due has period 0 (`TimerRuns.CheckReturns`,
  `TimerRuns.EndlessCheck`).
- Kconfig's `assignable` lists exactly the values an assignment would give a symbol unless the symbol is at once
  visible as m, selected to m and implied to y: it says m, and every assignment ends in y
  (`KconfigAssign.AssignableIs`, `KconfigAssign.ContestedCase`). Its documentation does not list (0, 1), which the
  code returns for a symbol visible as m.

## Model

| member | source | states |
|---|---|---|
| RtList.ListNode.constructor | include/rtservice.h:51-54 | a new node is a ring on its own |
| RtList.ListNode.Init | include/rtservice.h:51-54 | whatever the node pointed to, it becomes a ring on its own |
| RtList.ListNode.InsertAfter | include/rtservice.h:62-69 | the ring becomes the old ring with the node at the next position, in both directions |
| RtList.ListNode.InsertBefore | include/rtservice.h:77-84 | the ring becomes the old ring with the node in front; in front of the head means at the end |
| RtList.ListNode.Remove | include/rtservice.h:90-96 | the other nodes stay a ring in their order, the removed node is a ring on its own, and removing a lone node changes nothing |
| RtList.ListNode.IsEmpty | include/rtservice.h:102-105 | the head is alone exactly when the ring has one node |
| RtList.ListNode.Len | include/rtservice.h:111-122 | the number of nodes besides the head, modulo 2^32 |
| RtList.RingIsUnique | include/rtservice.h:111-122 | the links determine the sequence of nodes, so the sequence view of a ring is well defined |
| Rings.InsertLinks | include/rtservice.h:62-69 | relinking two neighbours and a new item turns the ring of s into the ring of s with the item inserted |
| Rings.DropLinks | include/rtservice.h:90-96 | linking the two neighbours of an item to each other turns the ring of s into the ring of s without it |
| MemHeapProofs.RoundedHolds | src/memheap.c:147-150 | rounding a request yields a word-aligned size of at least 12 that holds the request exactly when the request is at most 2^32 - 4 |
| MemHeapProofs.InitialInv | src/memheap.c:50-121 | the initial heap satisfies the invariant |
| MemHeapProofs.AllocKeeps | src/memheap.c:138-281 | allocation keeps tiling, inverse links, no two free neighbours, an exact free ring and available_size |
| MemHeapProofs.AllocFails | src/memheap.c:155-280 | an uninterrupted allocation fails exactly when the rounded size is not below available_size or no free block holds it |
| MemHeapProofs.TakeKeeps | src/memheap.c:164-275 | the locked section of an allocation keeps the invariant even if available_size has changed since the test |
| MemHeapProofs.TestDecides | src/memheap.c:155-161 | the test of available_size decides the outcome exactly when the rounded size equals available_size and a free block holds it |
| MemHeapProofs.FreeKeeps | src/memheap.c:495-595 | freeing keeps the invariant through left and right merges |
| MemHeapProofs.ShrinkKeeps | src/memheap.c:419-492 | shrinking in place keeps the invariant |
| MemHeapProofs.GrowKeeps | src/memheap.c:328-403 | growing in place keeps the invariant exactly when newsize + 12 does not wrap or the block behind is in use |
| MemHeapProofs.GrowWraps | src/memheap.c:350-402 | at the sizes where newsize + 12 wraps, with a free block behind, the invariant is lost |
| MemHeapLive.LiveDisjoint | src/memheap.c:138-281 | two live allocations never share a byte, headers included, and lie inside the pool |
| MemHeapLive.AllocLive | src/memheap.c:155-281 | a successful allocation adds exactly one live entry, of at least the rounded size and with less slack than another block needs |
| MemHeapLive.FreeLive | src/memheap.c:495-595 | freeing removes exactly that live entry |
| MemHeapLive.GrowLive | src/memheap.c:328-403 | growing in place sets exactly one entry to the new size, or changes nothing |
| MemHeapLive.ShrinkLive | src/memheap.c:419-492 | shrinking sets exactly one entry to the new size, or changes nothing |
| MemHeapLive.CanonicalBlocks | src/memheap.c:50-595 | the live allocations determine the blocks, the free blocks and available_size, whatever the history |
| MemHeapLive.AllocThenFree | src/memheap.c:138-281 | freeing what was just allocated restores the block list, the free set and available_size |
| MemHeapRuns.RunKeeps | src/memheap.c:50-595 | in every run of locked sections the invariant holds and max_used_size is the running maximum of pool_size - available_size |
| MemHeapRuns.ReleaseRaisesAvailable | src/memheap.c:419-595 | freeing and shrinking never lower available_size, so they need not touch max_used_size |
| MemHeapLinks.MemHeap.constructor | src/memheap.c:50-121 | the initial links spell out the initial heap |
| MemHeapLinks.MemHeap.Search | src/memheap.c:169-180 | the ring walk finds the first free block that holds the size, or none |
| MemHeapLinks.MemHeap.UnlinkFree | src/memheap.c:215-219 | takes exactly one header out of the free ring |
| MemHeapLinks.MemHeap.LinkFree | src/memheap.c:221-225 | puts exactly one header at the front of the free ring |
| MemHeapLinks.MemHeap.SplitBlock | src/memheap.c:209-213 | links one new header into the block list |
| MemHeapLinks.MemHeap.JoinBlock | src/memheap.c:549-551 | takes one header out of the block list |
| MemHeapLinks.MemHeap.HandOut | src/memheap.c:182-258 | splits or takes the found block, updating available_size and the peak |
| MemHeapLinks.MemHeap.TakeLocked | src/memheap.c:164-275 | the method on links refines the locked section |
| MemHeapLinks.MemHeap.Alloc | src/memheap.c:138-281 | the method on links refines the specified allocation and reports NULL exactly when that fails |
| MemHeapLinks.MemHeap.MergeLeft | src/memheap.c:535-557 | the left merge of a free, and whether the block still has to enter the ring |
| MemHeapLinks.MemHeap.MergeRight | src/memheap.c:559-578 | the right merge of a free |
| MemHeapLinks.MemHeap.Free | src/memheap.c:495-595 | the method on links refines the specified free and ignores NULL |
| MemHeapLinks.MemHeap.GrowInPlace | src/memheap.c:328-403 | the method on links refines the specified growth |
| MemHeapLinks.MemHeap.CutOff | src/memheap.c:432-485 | cutting a block and joining a free block behind it moves exactly one boundary |
| MemHeapLinks.MemHeap.ShrinkInPlace | src/memheap.c:419-492 | the method on links refines the specified shrink |
| MemHeapRealloc.ReallocRuns | src/memheap.c:284-492 | a whole realloc is one or two locked sections, each a legal step of a run, with their effect on max_used_size |
| MemHeapRealloc.ReallocMoves | src/memheap.c:293-492 | a successful realloc replaces the allocation by one with room, the bytes that fit come along, all other allocations keep place, size and bytes; a failed one changes nothing |
| MemHeapRealloc.ReallocKeeps | src/memheap.c:328-403 | realloc keeps the invariant exactly when newsize + 12 does not wrap, or the block behind is in use, or the request is 0 |
| MemHeapRealloc.WrapsCase | src/memheap.c:350-402 | a heap reached by one allocation in which a realloc to 2^32 - 12 bytes breaks the block list |
| MemHeapLinks.MemHeap.ReallocLive | src/memheap.c:293-492 | the method on links refines the specified realloc of a live block: heap, peak, result and copied bytes |
| MemHeapLinks.MemHeap.Realloc | src/memheap.c:284-492 | the same with the NULL and zero-size cases |
| SmallMemProofs.MallocKeeps | src/mem.c:263-401 | malloc keeps tiling, no two free neighbours, lfree free or at the end, and used_mem, and keeps lfree the lowest free block |
| SmallMemProofs.MallocIs | src/mem.c:280-398 | malloc fails exactly when the size is zero or too large or no block from lfree on is free, below mem_size_aligned - size and large enough |
| SmallMemProofs.MallocFirst | src/mem.c:296-302 | first fit: no suitable block lies between lfree and the block handed out |
| SmallMemProofs.MallocFails | src/mem.c:296-398 | while lfree is lowest, malloc fails exactly when no free block below mem_size_aligned - size has room |
| SmallMemProofs.MallocGives | src/mem.c:302-395 | malloc adds one used block that was free, of at least the aligned size, and leaves all others as they are |
| SmallMemProofs.PlugKeeps | src/mem.c:147-185 | plug_holes restores the invariant around one new free block and keeps lfree lowest |
| SmallMemProofs.PlugOccupies | src/mem.c:147-185 | plug_holes leaves every used block as it is |
| SmallMemProofs.FreeKeeps | src/mem.c:539-601 | free keeps the invariant and keeps lfree the lowest free block |
| SmallMemProofs.FreeOccupies | src/mem.c:539-601 | free ends the life of that block and of no other |
| SmallMemProofs.ShrinkKeeps | src/mem.c:462-489 | cutting a block in place keeps the invariant |
| SmallMemProofs.ShrinkOccupies | src/mem.c:462-489 | cutting changes the size of that block only |
| SmallMemProofs.ShrinkLowest | src/mem.c:462-489 | after a cut lfree is still the lowest free block exactly when the block lay above lfree, or right in front of a free lfree |
| SmallMemProofs.ShrinkLosesLfree | src/mem.c:462-489 | a heap reached by one request in which the cut leaves a free block below lfree |
| SmallMemProofs.OccupantsApart | src/mem.c:263-601 | the data of a used block ends in front of the header of every used block behind it |
| SmallMemRuns.ReallocKeeps | src/mem.c:412-501 | realloc keeps the invariant in every reachable heap |
| SmallMemRuns.ReallocMoves | src/mem.c:412-501 | for every nonzero size: a successful realloc keeps the first min(old, new) bytes and every other block with its bytes; a failed one changes nothing if and only if the size is at most 2^32 - 4, and frees the block above that |
| SmallMemRuns.RunKeeps | src/mem.c:195-601 | in every run the invariant holds, and without realloc lfree is the lowest free block; a heap with fewer than 12 bytes between its headers stays as initialised |
| SmallMemRuns.InitHolds | src/mem.c:195-248 | the initial heap satisfies the invariant |
| SmallMemRuns.TinyHeap | src/mem.c:280-398 | rt_malloc on a fresh heap of any size returns exactly when the heap has at least 12 bytes between its headers, or nothing is requested, or the aligned request is larger than the heap |
| SmallMemRuns.MallocReturns | src/mem.c:296-398 | in every heap that keeps the invariant the search loop on unsigned offsets ends, with the specified result |
| SmallMemObject.SmallHeap.constructor | src/mem.c:195-248 | the two initial headers spell out the initial heap |
| SmallMemObject.SmallHeap.PlugHoles | src/mem.c:147-185 | the method on headers refines plug_holes |
| SmallMemObject.SmallHeap.CutBlock | src/mem.c:320-339 | inserts one header behind a block, leaving prev of the end block alone |
| SmallMemObject.SmallHeap.FindFit | src/mem.c:296-302 | the search loop finds the first suitable block from lfree on |
| SmallMemObject.SmallHeap.AdvanceLfree | src/mem.c:371-378 | lfree moves to the next free block or the end |
| SmallMemObject.SmallHeap.TakeBlock | src/mem.c:302-378 | splits the block if the rest is large enough, marks it used and updates the statistics |
| SmallMemObject.SmallHeap.Malloc | src/mem.c:263-401 | the method on headers refines the specified malloc |
| SmallMemObject.SmallHeap.Free | src/mem.c:539-601 | the method on headers refines the specified free; NULL and foreign pointers are ignored |
| SmallMemObject.SmallHeap.ShrinkInPlace | src/mem.c:462-489 | the method on headers refines the cut |
| SmallMemObject.SmallHeap.Realloc | src/mem.c:412-501 | the method on headers and bytes refines the specified realloc, with its zero, NULL and foreign-pointer cases |
| Pages.CanonicalForm | src/slab.c:236-322 | a sorted, disjoint, fully coalesced page list is determined by its set of free pages |
| Pages.AllocTakes | src/slab.c:236-270 | page allocation takes k free pages from the first run that has them, keeps the list canonical and the count exact, and fails exactly when no run is large enough |
| Pages.FreeGives | src/slab.c:272-322 | freeing puts back exactly these pages, keeps the list canonical and the count exact |
| Pages.AllocThenFree | src/slab.c:236-322 | freeing what was just allocated restores the identical list |
| ZoneLayout.SmallestClass | src/slab.c:401-459 | zoneindex picks the smallest class whose chunks hold the request, and rounds to its chunk size |
| ZoneLayout.Waste | src/slab.c:401-459 | at most 7 bytes are wasted below 128, at most an eighth of the request above |
| ZoneLayout.ThreeChunks | src/slab.c:628-646 | every zone has room for at least three chunks behind its header |
| SlabProofs.WholeZone | src/slab.c:842-855 | the free counter never exceeds the zone, and when it fills the zone no chunk is live |
| SlabProofs.ZoneTakes | src/slab.c:539-568 | a chunk comes from behind the last one carved or from the chain, was not live, and becomes the only new live chunk |
| SlabProofs.ZoneGives | src/slab.c:830-842 | a returned chunk ends the life of that chunk only |
| SlabKeeps.TakeKeeps | src/slab.c:539-568 | taking from a listed zone keeps counters, lists and the page table |
| SlabKeeps.OpenKeeps | src/slab.c:590-652 | opening a spare zone keeps the invariant and makes its first chunk the only new live one |
| SlabKeeps.RefillKeeps | src/slab.c:597-623 | a fresh zone from the page allocator keeps the invariant, with its page table entries |
| SlabKeeps.GiveKeeps | src/slab.c:830-846 | returning a chunk keeps counters and lists |
| SlabKeeps.RetireKeeps | src/slab.c:854-874 | moving a wholly free zone to the spare zones keeps the invariant and every live chunk |
| SlabKeeps.ReleaseKeeps | src/slab.c:876-900 | giving a spare zone back to the page allocator keeps the invariant and every live chunk |
| SlabKeeps.LargeKeeps | src/slab.c:493-521 | a large allocation keeps the invariant and records its page count |
| SlabKeeps.FreeLargeKeeps | src/slab.c:797-820 | freeing a large allocation finds the right page count and keeps the invariant |
| SlabRuns.MallocKeeps | src/slab.c:478-667 | rt_malloc makes exactly its result live, a chunk of the class or whole pages as the size asks for, with enough room, and fails, changing nothing, exactly when there is no room for it |
| SlabRuns.Recovers | src/slab.c:796-828 | the page table leads from every live pointer to its zone or to its page count |
| SlabRuns.FreeKeeps | src/slab.c:771-904 | rt_free of a live pointer ends the life of that pointer and of no other and keeps the invariant |
| SlabRuns.LiveApart | src/slab.c:478-667 | two live blocks never overlap, chunks and page runs alike |
| SlabAlign.AlignedIff | src/slab.c:631-644 | a power-of-two chunk is aligned to its size exactly when its zone is |
| SlabAlign.SmallAligned | src/slab.c:152-153 | in every heap a successful request for a power of two up to a page is aligned to its size |
| SlabAlign.Misaligned | src/slab.c:153 | for every larger power of two there is a heap whose very first such request is not aligned |
| SlabAlign.PowersAligned | src/slab.c:152-153 | requests for a power of two are aligned to it in every state of every run at every page-aligned heap start exactly when it is at most a page |
| SlabAlign.EightKilobytes | src/slab.c:493-521 | an instance: 8 KB from a fresh heap of 100 pages at 0x20000000 lie at 0x20001000 |
| SlabRuns.ReallocMoves | src/slab.c:678-735 | realloc of a live pointer to a nonzero size replaces it by one with room, the bytes that fit come along, all other live blocks keep their bytes; or it fails and changes nothing |
| SlabPages.RunAccounts | src/slab.c:236-322 | in every run the pages of the heap are exactly the free ones and those of the taken runs, none is both, and their counts add up to the heap |
| SlabRuns.InitHolds | src/slab.c:344-395 | the initial allocator satisfies the invariant and has no live pointer |
| SlabRuns.RunKeeps | src/slab.c:344-904 | the invariant holds in every state of every run of malloc, free and realloc |
| SlabObject.SlabHeap.constructor | src/slab.c:344-395 | initialisation, with the zone size loop, yields the specified allocator |
| SlabObject.SlabHeap.PageAlloc | src/slab.c:236-270 | the loop over the page list refines the specified page allocation |
| SlabObject.SlabHeap.PageFree | src/slab.c:272-322 | the insertion loop refines the specified page free |
| SlabObject.SlabHeap.MarkZone | src/slab.c:615-622 | the loop sets the page table entries of a fresh zone |
| SlabObject.SlabHeap.Malloc | src/slab.c:478-667 | the method refines the specified rt_malloc |
| SlabObject.SlabHeap.RetireZone | src/slab.c:862-900 | unlinking a zone from its list by walking it, and shrinking the spare zones |
| SlabObject.SlabHeap.FreePointer | src/slab.c:771-904 | the method refines the specified rt_free |
| SlabObject.SlabHeap.Realloc | src/slab.c:678-735 | the method refines the specified rt_realloc, copied bytes included |
| IpcList.PositionMeans | src/ipc.c:95-118 | the position found is in front of the first waiter that is less urgent |
| IpcList.SuspendAdds | src/ipc.c:82-125 | suspending adds exactly that thread, once |
| IpcList.SuspendSorts | src/ipc.c:95-118 | in priority order the list stays sorted and the thread goes behind equally urgent ones |
| IpcList.SuspendOn | src/ipc.c:82-125 | the search loop computes the specified list |
| SemaphoreProofs.NextKeeps | src/ipc.c:324-515 | every step keeps value > 0 exclusive of waiters and the balance of releases and takes |
| SemaphoreProofs.RunKeeps | src/ipc.c:324-515 | in every run initial value + releases = value + takes + 65536 * overflows, and a positive value excludes waiters |
| SemaphoreProofs.Conserved | src/ipc.c:433-471 | in a run without resets initial value + releases = value + takes if and only if no release has met the value 65535 |
| SemaphoreProofs.OverflowCase | src/ipc.c:455-463 | a run in which one release empties a semaphore initialised to 65535 |
| SemaphoreProofs.Leaves | src/ipc.c:136-187 | a waiter leaves by grant, timeout or reset, and its error tells which |
| SemaphoreProofs.LeavesOnce | src/thread.c:687-752 | a thread that has left stays out with its one error until it takes again: never both granted and timed out |
| SemaphoreObject.Semaphore.constructor | src/ipc.c:201-221 | an initial value reduced to 16 bits |
| SemaphoreObject.Semaphore.Take | src/ipc.c:324-409 | take, immediate refusal or suspension, as specified |
| SemaphoreObject.Semaphore.Release | src/ipc.c:433-471 | hand-over to the first waiter or counting up, as specified |
| SemaphoreObject.Semaphore.Expire | src/thread.c:730-752 | the method refines a waiter's timeout |
| SemaphoreObject.Semaphore.Reset | src/ipc.c:483-511 | the loop resumes every waiter with an error and sets the value |
| MutexProofs.TakeKeeps | src/ipc.c:654-779 | taking keeps value, owner and hold in agreement and the owner as urgent as every waiter, and succeeds exactly for a free mutex or its owner |
| MutexProofs.ReleaseKeeps | src/ipc.c:790-881 | releasing, with hand-over, keeps the same invariant |
| MutexProofs.FinalRelease | src/ipc.c:828-871 | the release that ends ownership restores the priority held at acquisition and hands over to the most urgent waiter |
| MutexProofs.LosesAt | src/ipc.c:828-831 | a release ends the ownership exactly when the number of open takes is 1 modulo 256 |
| MutexProofs.LostEarly | src/ipc.c:828-831 | a run of 257 takes by one thread after which a single release frees the mutex |
| MutexProofs.TimeoutKeeps | src/thread.c:730-752 | a waiter that times out leaves the invariant intact |
| MutexProofs.OwnerChanges | src/ipc.c:654-881 | the owner changes only by its own release or, without one, by a take |
| MutexProofs.OwnsUntilReleased | src/ipc.c:817-871 | in every run a thread that owns the mutex and later does not has itself released it in between, and owned it all the time until then |
| MutexProofs.RunKeeps | src/ipc.c:654-881 | the invariant holds in every run, also right after a hand-over |
| MutexObject.MutexObject.constructor | src/ipc.c:530-550 | a free mutex |
| MutexObject.MutexObject.Take | src/ipc.c:654-779 | the method refines the specified take, raising the owner before suspending |
| MutexObject.MutexObject.Release | src/ipc.c:790-881 | the method refines the specified release |
| MutexObject.MutexObject.Expire | src/thread.c:730-752 | the method refines a waiter's timeout |
| EventProofs.SweepLeaves | src/ipc.c:1054-1101 | after the loop of a send no waiter left is satisfied by the set left, although later wake-ups cleared bits |
| EventProofs.SweepResumes | src/ipc.c:1060-1099 | a waiter is resumed exactly when the set satisfies it when the loop reaches it, and records bits that were in the set then, all of them for AND |
| EventProofs.RecvKeeps | src/ipc.c:1127-1237 | receiving, with CLEAR or by waiting, keeps every waiter unsatisfied |
| EventProofs.NextKeeps | src/ipc.c:1029-1277 | every step keeps every waiter unsatisfied |
| EventProofs.RunKeeps | src/ipc.c:1029-1277 | in every reachable state no waiting condition is satisfied by the set |
| EventObject.EventSet.Send | src/ipc.c:1029-1111 | the loop that unlinks and clears while it walks refines the specified send |
| EventObject.EventSet.Recv | src/ipc.c:1127-1237 | the method refines the specified receive |
| EventObject.EventSet.Expire | src/thread.c:730-752 | the method refines a waiter's timeout |
| EventObject.EventSet.Reset | src/ipc.c:1251-1272 | the method refines the reset |
| MailboxProofs.Deposits | src/ipc.c:1535-1560 | storing a mail and resuming the first receiver keeps the invariant |
| MailboxProofs.Takes | src/ipc.c:1683-1713 | taking a mail and resuming the first sender keeps the invariant |
| MailboxProofs.StepKeeps | src/ipc.c:1442-1758 | every step, re-checks and expiries included, keeps FIFO order, one place per thread and enough resumed waiters |
| MailboxProofs.RunKeeps | src/ipc.c:1442-1758 | in every interleaving the mails are what was deposited and not yet taken, in order, and no wakeup is lost |
| MailboxProofs.Quiescent | src/ipc.c:1442-1714 | once all resumed waiters have run, receivers wait only at an empty and senders only at a full mailbox |
| MailboxObject.Mailbox.constructor | src/ipc.c:1294-1322 | an empty ring |
| MailboxObject.Mailbox.Put | src/ipc.c:1535-1542 | the ring with its wrapping input offset refines appending |
| MailboxObject.Mailbox.Get | src/ipc.c:1683-1691 | the ring with its wrapping output offset refines taking the first mail |
| MailboxObject.Mailbox.Send | src/ipc.c:1442-1561 | one section of a send, at the call or after the sender was resumed, refines its step |
| MailboxObject.Mailbox.Recv | src/ipc.c:1590-1714 | one section of a receive, at the call or after the receiver was resumed, refines its step and returns the oldest mail |
| MailboxObject.Mailbox.Expire | src/thread.c:730-752 | the method refines a waiter's timeout |
| MailboxObject.Mailbox.Reset | src/ipc.c:1726-1754 | a reset empties the ring and both wait lists |
| MessageQueueProofs.HeldOnce | src/ipc.c:1781-2326 | every pool slot has exactly one holder among free list, queue, copying senders and copying receivers |
| MessageQueueProofs.StepKeeps | src/ipc.c:1964-2326 | every step of every interleaving keeps the partition, the copied messages and the wakeup count |
| MessageQueueProofs.RunKeeps | src/ipc.c:1964-2326 | the partition holds in every run, no message is disturbed while it is copied, and no wakeup is lost |
| MessageQueueProofs.StepIsDeque | src/ipc.c:1964-2326 | the messages form a deque: send at the back, urgent at the front, receive from the front, nothing else changes them |
| MessageQueueProofs.CopyOut | src/ipc.c:2238-2262 | what a receiver copies out is the message it took, whatever ran in between |
| MessageQueueObject.MessageQueue.constructor | src/ipc.c:1781-1828 | the pool is chained into the free list, last slot first: the initial state |
| MessageQueueObject.MessageQueue.TakeFree | src/ipc.c:1984-1995 | the first section of a send refines the step that takes the first free slot, or NULL |
| MessageQueueObject.MessageQueue.Fill | src/ipc.c:2000-2003 | filling the private slot refines the copying step; for rt_mq_send the slot becomes a tail, and every other section keeps it one |
| MessageQueueObject.MessageQueue.LinkTail | src/ipc.c:2005-2034 | the second section of rt_mq_send refines its step for any slot that has become a tail, whatever ran since: link behind the tail, count, resume the first receiver |
| MessageQueueObject.MessageQueue.LinkHead | src/ipc.c:2092-2120 | the same for rt_mq_urgent, in front of the head |
| MessageQueueObject.MessageQueue.Receive | src/ipc.c:2173-2251 | one section of rt_mq_recv refines its step: take the first slot, or wait, or give up |
| MessageQueueObject.MessageQueue.CopyFrom | src/ipc.c:2253-2254 | the message copied out between the sections is the one that was taken |
| MessageQueueObject.MessageQueue.GiveBack | src/ipc.c:2256-2262 | the second section of rt_mq_recv refines its step |
| MessageQueueObject.MessageQueue.Expire | src/thread.c:730-752 | the method refines a waiter's timeout |
| MessageQueueObject.MessageQueue.Reset | src/ipc.c:2291-2320 | the reset with its loop refines its step: waiters resumed, every queued slot on the free list |
| TimedWait.RemainingIs | src/ipc.c:1673-1680 | the recalculated timeout is reduced by the elapsed time, across tick wraparound, exactly while the elapsed time is at most timeout + 2^31 |
| TimedWait.StayEnds | src/timer.c:288-544 | a stay on the wait list under a thread timer ends after the timeout at the latest, and after exactly the timeout when the timer ends it; derived from the timer runs |
| TimedWait.TotalWait | src/ipc.c:1619-1681 | however often a receiver is woken and blocks again, its ticks on the wait list sum up to no more than its timeout, and when its timer ends the last stay exactly the timeout has passed since it first blocked |
| TimedWait.ReceiveLoop | src/ipc.c:2173-2236 | the waiting loop, with its arithmetic on wrapping ticks, starts every stay with the timeout less all the time since the thread first blocked |
| Bits.FfsIs | src/kservice.c:1246-1290 | the table look-ups return the index of the lowest bit, counted from 1, or 0 |
| Bits.TableIs | src/kservice.c:1247-1265 | each table entry is the lowest bit of its index |
| ReadyMap.MarkAgrees | src/scheduler.c:306-309 | setting the bits of a priority keeps bitmap and queues in agreement, in both layouts |
| ReadyMap.UnmarkAgrees | src/scheduler.c:347-358 | clearing the bits of an emptied queue keeps them in agreement, in both layouts |
| ReadyMap.HighestIs | src/scheduler.c:195-202 | the computed priority is that of the most urgent non-empty queue, in both layouts |
| SchedulerSpec.InsertKeeps | src/scheduler.c:276-313 | inserting a thread keeps the invariant |
| SchedulerSpec.OutKeeps | src/scheduler.c:322-362 | removing a thread that stops being ready keeps the invariant |
| SchedulerSpec.ChangeKeeps | src/thread.c:575-616 | a priority change keeps the invariant, the recalculated number and masks included, for ready and other threads |
| SchedulerSpec.RotateKeeps | src/thread.c:448-472 | moving a thread to the end of its queue keeps the invariant |
| SchedulerRuns.SchedulePicks | src/scheduler.c:181-267 | rt_schedule, unlocked, makes the head of the most urgent non-empty queue current |
| SchedulerRuns.UrgentMeans | src/scheduler.c:181-267 | that thread is ready and no ready thread is more urgent |
| SchedulerRuns.CriticalSection | src/scheduler.c:190-191 | in every run, from the first enter until the matching exit, the 16-bit lock is the nesting depth and no other thread becomes current, as long as the depth is at most 32768 |
| SchedulerRuns.NestingLimit | src/scheduler.c:367-410 | among up to 65535 enters in a row one exit leaves the scheduler locked exactly for 2 to 32768 |
| SchedulerRuns.MatchingExit | src/scheduler.c:388-410 | under the same bound the matching exit makes the head of the most urgent non-empty queue current |
| SchedulerRuns.StepKeeps | src/thread.c:85-752 | startup, suspend, resume and its late insertion, timeout, priority change, yield, exit, locking and ticks keep the invariant |
| SchedulerRuns.InsertIff | src/thread.c:694-716 | the insertion at the end of rt_thread_resume, however late after its test, keeps the invariant exactly when the thread is not ready already |
| SchedulerRuns.RunKeeps | src/scheduler.c:110-410 | in every run a ready bit is set exactly when its queue is not empty, a thread is in the queue of its priority exactly when ready, and from startup on its number and masks are those of its priority |
| SchedulerRuns.RoundRobin | src/clock.c:82-92 | when a slice ends the thread goes behind the others of its priority, the next of them runs, and the slice starts again |
| SchedulerObject.Scheduler.InsertThread | src/scheduler.c:276-313 | the method refines the specified insertion |
| SchedulerObject.Scheduler.RemoveThread | src/scheduler.c:322-362 | the method refines the specified removal |
| SchedulerObject.Scheduler.Schedule | src/scheduler.c:181-267 | the method refines rt_schedule and makes the most urgent thread current |
| SchedulerObject.Scheduler.Startup | src/thread.c:263-295 | the method refines rt_thread_startup |
| SchedulerObject.Scheduler.Suspend | src/thread.c:644-677 | the method refines rt_thread_suspend |
| SchedulerObject.Scheduler.Resume | src/thread.c:687-721 | the method refines rt_thread_resume |
| SchedulerObject.Scheduler.Timeout | src/thread.c:730-752 | the method refines rt_thread_timeout |
| SchedulerObject.Scheduler.ChangePriority | src/thread.c:565-616 | the method refines the priority change |
| SchedulerObject.Scheduler.Yield | src/thread.c:448-482 | the method refines rt_thread_yield |
| SchedulerObject.Scheduler.Exit | src/thread.c:85-120 | the method refines rt_thread_exit |
| SchedulerObject.Scheduler.ExitCritical | src/scheduler.c:388-410 | the method refines rt_exit_critical |
| SchedulerObject.Scheduler.TickIncrease | src/clock.c:74-92 | the method refines the time slice part of a tick |
| TimerSpec.TickOrder | src/timer.c:351-358 | tick comparison modulo 2^32 decides the order of deadlines less than half the range apart |
| TimerSpec.RestrictInsert | src/timer.c:334-383 | inserting into the whole list and into a skip row agree |
| Timers.LinkKeeps | src/timer.c:334-383 | linking into the lower rows keeps each row a subsequence of the one below, and the last row is stable insertion into the sorted list |
| Timers.UnlinkKeeps | src/timer.c:113-121 | unlinking from every row keeps them |
| Timers.FindInRow | src/timer.c:337-359 | the inner search loop stops behind the timers that are not later |
| Timers.FindPositions | src/timer.c:334-362 | the descending search finds that position in every row |
| Timers.LinkRows | src/timer.c:368-383 | the timer is linked into the last row and into exactly the rows above it that the insertion counter reaches, at the positions found |
| Timers.UnlinkRows | src/timer.c:113-121 | the loop removes the timer from every row |
| TimerRuns.FiringIs | src/timer.c:499-538 | what fires on a tick is exactly what is due, each timer once, by deadline and then in start order |
| TimerRuns.TickKeeps | src/timer.c:486-544 | after a tick none is left due, and periodic timers are pending again |
| TimerRuns.CheckReturns | src/timer.c:499-538 | rt_timer_check returns exactly when no periodic timer that is due on the tick has period 0, whatever other timers are set to |
| TimerRuns.EndlessCheck | src/timer.c:448-538 | a run of three calls after which the next check does not return |
| TimerRuns.LinkIff | src/timer.c:314-317 | ticks between the reading of the tick and the linking in rt_timer_start leave the deadline ahead exactly when they are no more than init_tick |
| TimerRuns.RunKeeps | src/timer.c:288-544 | in every run of starts, interrupted ones included, stops, changes of init_tick and of the periodic flag, and ticks every pending deadline lies in [now, now + RT_TICK_MAX / 2) between ticks |
| TimerRuns.PeriodicFires | src/timer.c:523-529 | a periodic timer of period d started at s, linked before s + d and not touched since fires on exactly the ticks s + k * d, whatever happens to other timers |
| TimerRuns.OneShotFires | src/timer.c:530-534 | a one-shot timer fires exactly once, on the tick of its deadline, or on the next tick when that is the tick of its linking |
| TimerRuns.OneShotPends | src/timer.c:288-544 | and it is pending exactly until then |
| TimerList.TimerList.constructor | src/timer.c:669-677 | empty rows at any tick |
| TimerList.TimerList.SetTime | src/timer.c:463-465 | sets init_tick, which counts from the next start on |
| TimerList.TimerList.SetPeriodic | src/timer.c:467-473 | sets or clears the periodic flag, which counts from the next firing on |
| TimerList.TimerList.Start | src/timer.c:288-404 | the method on skip rows and wrapped ticks, made of both sections, refines the start in unwrapped time |
| TimerList.TimerList.Link | src/timer.c:317-404 | the linking section alone refines it for a tick read earlier |
| TimerList.TimerList.Stop | src/timer.c:414-439 | the method refines the stop, and fails exactly for a timer that is not active |
| TimerList.TimerList.Fire | src/timer.c:508-534 | one round of the firing loop does to the list what FireHead of the theorem on returning says, and leaves the due timers that have not fired in front |
| TimerList.TimerList.Check | src/timer.c:486-544 | when the periodic timers that are due have a period of at least 1, the firing loop terminates, fires the due timers in order and leaves the specified list |
| TimerList.TimerList.Tick | src/clock.c:74-96 | the tick refines the clock step, across wraparound |
| KconfigProofs.SameEval | tools/kconfiglib.py:4986-5010 | the value of an expression is determined by the symbols it reads with its short cuts |
| KconfigProofs.SameVis | tools/kconfiglib.py:5215-5242 | a visibility is determined by what it reads |
| KconfigProofs.SameTri | tools/kconfiglib.py:3585-3660 | a value is determined by its visibility, user value and what it reads |
| KconfigAssign.AssignableIs | tools/kconfiglib.py:3948-3993 | assignable lists exactly the values that an assignment gives the symbol, if and only if the symbol is not at once visible as m, selected to m and implied to y |
| KconfigAssign.LockedIs | tools/kconfiglib.py:3260-3264 | a visible symbol has one assignable value exactly when all assignments give it the same value |
| KconfigAssign.ContestedCase | tools/kconfiglib.py:3980-3993 | a configuration in which assignable says m and assigning m gives y |
| KconfigProofs.BestPrompt | tools/kconfiglib.py:5219-5224 | the visibility before promotion is the largest prompt condition, and n without prompts |
| KconfigProofs.ClosedKeeps | tools/kconfiglib.py:4012-4030 | results that read only each other and whose user values are unchanged keep their values |
| KconfigProofs.VisItems | tools/kconfiglib.py:2827-2867 | all that a visibility reads is a dependency of the symbol, or MODULES |
| KconfigProofs.TriItems | tools/kconfiglib.py:2827-2867 | all that a value reads is a dependency of the symbol, or MODULES |
| KconfigProofs.SweepKeeps | tools/kconfiglib.py:4001-4030 | after pruned invalidation every value still cached equals evaluation from scratch |
| KconfigProofs.PromptlessKeeps | tools/kconfiglib.py:4032-4051 | for a symbol without prompt nothing need be invalidated |
| KconfigCache.BuildDep | tools/kconfiglib.py:2827-2872 | the dependents of a symbol are exactly the symbols whose definition mentions it |
| KconfigCache.Kconfig.constructor | tools/kconfiglib.py:868-869 | empty caches with the dependents built |
| KconfigCache.Kconfig.TriValue | tools/kconfiglib.py:3585-3660 | reading a value through the caches gives evaluation from scratch and keeps the caches right |
| KconfigCache.Kconfig.Visibility | tools/kconfiglib.py:3674-3682 | the same for visibilities |
| KconfigCache.Kconfig.StrValue | tools/kconfiglib.py:3444-3456 | the same for the string values of bool and tristate symbols |
| KconfigCache.Kconfig.Assignables | tools/kconfiglib.py:3948-3993 | the method through the caches computes the specified assignable values and keeps the caches right |
| KconfigCache.Kconfig.EvalExpr | tools/kconfiglib.py:4986-5046 | expr_value with its short cuts gives the value from scratch, and everything it read is cached |
| KconfigCache.Kconfig.RecInvalidate | tools/kconfiglib.py:4001-4030 | the recursion terminates, on cyclic graphs too, and leaves no reader of an invalidated symbol cached |
| KconfigCache.Kconfig.InvalidateAll | tools/kconfiglib.py:2902-2910 | empties the caches |
| KconfigCache.Kconfig.SetValue | tools/kconfiglib.py:3713-3796 | assigning, with its no-change and type checks, leaves every cached value equal to evaluation from scratch |
| KconfigCache.Kconfig.UnsetValue | tools/kconfiglib.py:3798-3805 | so does unsetting |
| KconfigText.RoundTrip | tools/kconfiglib.py:5059-5100 | printing any expression and parsing the tokens back, without the m rewrite, consumes them all and gives the same value under every assignment |
| KconfigText.RoundTripRewrites | tools/kconfiglib.py:2737-2821 | with the m rewrite the result has the value of the rewritten expression |
| KconfigText.Reassociates | tools/kconfiglib.py:2737-2787 | an example in which the tree does not come back |
| KconfigText.BeforeOr | tools/kconfiglib.py:5262-5267 | an operand printed in front of || parses to the maximum with the rest, whatever its shape |
| KconfigText.BeforeAnd | tools/kconfiglib.py:5262-5267 | an operand printed in front of && parses to the minimum with the rest |
| KconfigText.MakeAndKeepsValue | tools/kconfiglib.py:2240-2252 | _make_and has the value of the conjunction |
| KconfigText.MakeOrKeepsValue | tools/kconfiglib.py:2254-2266 | _make_or has the value of the disjunction |
| KconfigText.EvalIsValue | tools/kconfiglib.py:4986-5046 | the cached evaluator and the printer agree on what a value is |
| KconfigText.Parser.Expr | tools/kconfiglib.py:2737-2777 | the parser on a token index refines the grammar, errors included |
| KconfigText.Parser.AndExpr | tools/kconfiglib.py:2779-2787 | the same for conjunctions |
| KconfigText.Parser.Factor | tools/kconfiglib.py:2789-2821 | the same for factors |

## Left out

- MemHeapLinks.MemHeap.ReallocLive: requires that newsize + 12 does not wrap when the block behind is free, because otherwise the code leaves no block list to speak of (MemHeapRealloc.ReallocKeeps).
- MemHeapLinks.MemHeap.Realloc: requires the same.
- MemHeapLinks.MemHeap.GrowInPlace: requires the same.
- MemHeapLive.GrowLive: requires the same.
- MemHeapRuns.RunKeeps: growth is taken under that condition. Another thread may run between the two sections of a realloc that moves, so a run treats them as an allocation and a free.
- MemHeapLinks.MemHeap.Free: takes a pointer that is live in this heap; the magic number checks and the pool pointer in the header are not modelled.
- SmallMemRuns.ReallocMoves: bytes are kept apart from the block headers; that headers and data do not overlap is SmallMemProofs.OccupantsApart.
- SmallMemObject.SmallHeap.constructor: requires 12 bytes between the headers; below that the object's search would not end (SmallMemRuns.TinyHeap), and SmallMemRuns.RunKeeps covers the specification.
- SmallMemRuns.InitHolds: requires 12 bytes between the headers; a smaller heap has no invariant to keep, as it never changes (SmallMemRuns.RunKeeps).
- SlabRuns.MallocKeeps: the heap is unlocked while a fresh zone is taken from the page allocator; the model takes that as one step.
- SlabObject.SlabHeap.Malloc: the same.
- SlabRuns.RunKeeps: rt_calloc, which is rt_malloc and rt_memset, is no step of its own, and used_mem and max_mem are not tracked.
- SlabObject.SlabHeap.FreePointer: frees live pointers only.
- EventProofs.RunKeeps: a mask is the set of its bit numbers; the assertion that AND or OR is given is assumed by the type of a request.
- MutexProofs.RunKeeps: one mutex with RT_IPC_FLAG_PRIO and no other priority change; for FIFO lists the hand-over does not keep the owner most urgent. The restart after -RT_EINTR is not modelled.
- MessageQueueObject.MessageQueue.Fill: a message is an arbitrary byte string; the size checks and the truncation to the receiver's buffer are not modelled.
- MessageQueueObject.MessageQueue.CopyFrom: the truncation to the receiver's buffer is not modelled.
- TimedWait.TotalWait: assumes that no more than timeout + 2^31 ticks pass from the start of a stay to the re-check; TimedWait.RemainingIs shows that the timeout grows beyond that.
- TimedWait.ReceiveLoop: requires the same.
- TimerList.TimerList.Check: callbacks leave timers alone; it requires what rt_timer_start asserts of the periodic timers that fire, and a period of at least 1, without which the loop does not end (TimerRuns.CheckReturns).
- TimerList.TimerList.Tick: requires the same.
- TimerList.TimerList.Link: nobody starts the timer between the two sections of rt_timer_start.
- Timers.LinkRows: RT_TIMER_SKIP_LIST_MASK is 3; the number of levels is arbitrary.
- SchedulerObject.Scheduler.Schedule: requires that some thread is ready, as the idle thread is.
- SchedulerRuns.StepKeeps: the first section of rt_thread_resume, which unlinks the thread from the wait list of an IPC object, is not a step; a late one would take a thread out of its ready queue that another resume has put there.
- SchedulerObject.Scheduler.Suspend: does not state that the thread timer is stopped, because the scheduler's state has no timers.
- SchedulerObject.Scheduler.Resume: does not state that the thread timer is stopped, for the same reason.
- SchedulerObject.Scheduler.Exit: the defunct list, cleanup and the thread timer are not modelled.
- KconfigCache.Kconfig.SetValue: values are 0, 1 and 2, not their letters, and the symbol is defined; the warnings, which only read values, are not modelled.
- KconfigCache.Kconfig.Assignables: computes the values anew; the cache of the result, which is cleared with the other caches of the symbol, is not modelled.
- KconfigCache.Kconfig.EvalExpr: the comparison of strings and numbers is an arbitrary function of the two symbols and their values.
- KconfigText.RoundTripRewrites: works on tokens.
- KconfigText.RoundTrip: works on tokens; quoting and the tokeniser are not part of the model.
- Context switching, stacks, interrupt masking, hooks and debug output: hardware or foreign calls; only their atomicity is kept.
- Signals, soft timers, rt_tick_set and callbacks that restart timers: user code in the middle of an iteration.
- Deleting or externally resuming a thread that waits on an IPC object, detaching objects, and several mutexes held at once: the stated invariants are not what the code keeps there.
- Choices, string, int and hex symbols, menus and Kconfig file reading: the caches are modelled for non-choice bool and tristate symbols.
- src/mempool.c, src/object.c, src/device.c, src/idle.c, src/irq.c and the rest of src/kservice.c: simpler cases or registries that would only add easy members.
