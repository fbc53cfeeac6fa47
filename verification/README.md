# A verified model of the RT-Thread kernel's hard cores

The files here model, in Dafny, the parts of the RT-Thread kernel under `rt-thread/` whose
correctness rests on invariants that no single function shows:

- **Slab allocator.** A page allocator with an address-sorted, coalesced run list, under a
  zone allocator with 72 size classes, lazily carved zones, a cache of empty zones and a
  table that leads from any page to its zone. `SlabPages`, `SlabZones` and `SlabState` say
  what the calls do; `SlabGeometry`, `SlabProof` and `SlabTheorems` prove it safe, and
  `SlabExact` says which chunk, zone or pages each call takes or gives up; `Slab` is the
  allocator with its loops and fields.
- **IPC.** Mailbox, message queue, event and mutex as atomic steps of many threads: a step is
  what runs with interrupts disabled, or, in the message queue, the unlocked copies between
  two such sections. A resumed thread is not handed the message: it is on its way, and looks
  again when it runs. `MailboxProtocol`, `MessageQueueProtocol`, `EventProtocol` and
  `MutexProtocol` hold for every interleaving, and `MailOrder` is what an onlooker of the mail
  would write down; `Mailbox`, `MessageQueue`, `Event` and `Mutex` are the objects with their
  fields.
- **Boundary-tag heaps.** The memory heap with its block list and free list (`MemHeapSpec`,
  `MemHeapTheorems`, `MemHeapExact`, `MemHeap`), and the small memory algorithm with its
  lowest-free cursor (`SmallMemSpec`, `SmallMemTheorems`, `SmallMemExact`, `SmallMem`), over
  one theory of tiled pools
  (`HeapBlocks`, `HeapEffects`, `HeapBytes`, `HeapLinks`, `Alignment`), with all the ways of
  reallocating and with the bytes of the pool.
- **Timers.** A skip list under tick comparison modulo 2^32, and the check that drains it
  (`TimerSpec`, `TimerTheorems`, `TimerExact`, `Timer`).
- **Scheduler.** Ready queues under a two-level bitmap, both forms of find-first-set, and the
  thread states (`BitSearch`, `ReadyIndex`, `SchedulerSpec`, `Scheduler`).
- **Worst-case stack.** The call-graph analysis of `tools/WCS.py` (`WorstCaseStack`).
- **Formatter.** `rt_vsnprintf` and what it calls (`FormatSpec`, `Formatter`), with readers of
  their own that get the numbers back from what is printed (`FormatReading`,
  `FormatTheorems`).

Code that changes fields and buffers step by step is a class, or a method on an array, whose
contract ties the new state to a function of the old one; what the kernel promises is proved
about those functions, for every input and over every history of calls. The lemmas named
`...Exactly` say outright what a call leaves behind and when it fails, waits or does nothing,
in terms of the state before and not of the function's own parts.

How the program's terms are rendered:

- The build is the uniprocessor one for a 32-bit machine. Sizes, ticks and words wrap at 2^32
  where the program computes with them. Header sizes, alignments, the number of skip-list
  levels and the number of priorities (more than 32, up to 256) are parameters.
- Intrusive circular lists are sequences, except in the timer rows and the memory heap, where
  the links themselves are modelled. Block headers are maps keyed by the header's address; a
  store to a header overwrites bytes of that header in the pool with arbitrary values, so that
  what is proved of payload bytes holds for any layout of the header.
- An event word is the set of its flag positions.
- Context switches, hooks and interrupt masking are not there: a method ends where the program
  calls `rt_schedule`, and the thread's way back is a step of its own.
- Mutex priority inheritance is right when a thread holds at most one mutex at a time; that
  is a condition on the steps, as is that nobody else changes priorities of waiting threads.
- Timer deadlines span less than half the tick range, which is what the program's comparison
  supports when either of two may be compared with the other (`TimerSpec.NearExactly`), and
  periods of periodic timers are positive; a check happens at every tick.
- The pool of the small memory algorithm holds at least a minimal block; below that the bound
  of its search wraps around.
- Both heaps take every request below 2^32, those that wrap included. A heap that a wrapped
  growth has put out of order is the end of a history (`MemHeapTheorems.Enabled`).

Where the code differs from what its comments or names promise, the model follows the code,
and lemmas say exactly when the promise holds:

- Slab chunks whose size is a power of two are to be aligned to it; those larger than a page
  are exactly when their zone is (`LiveBlocksAligned`, `BigChunkMisaligned`).
- `rt_memheap_alloc` refuses a request for all the free space (`AllocFailsExactly`,
  `RefusesWhole`), and with alignments that do not divide its minimum of 12 hands out
  misaligned blocks (`RoundAlignedExactly`, `MisalignedAfter`).
- `rt_memheap_realloc` tests whether a block can grow with a sum that may wrap
  (`GrowGuardExact`); `ReallocInvExactly` says for which calls the heap stays in order,
  `ReallocWrapped` what it comes to for the others, `NoWrapExactly` that there are such calls
  exactly when the alignment is at most 12, and `ReallocBreaks` shows one.
- Sizes that wrap when rounded get a minimal block (`AllocLargeEnough`, in both heaps), and
  `rt_smem_realloc` then frees the block it was to resize (`ReallocKeepsExactly`).
- `rt_smem_realloc` never grows in place, and can fail to shrink (`ReallocFailsExactly`).
- A waiter that times out leaves its priority on the owner of the mutex
  (`TimeoutLeavesBoost`, `BoostOutlivesWaiter`), and giving up one of two mutexes can take an
  owner below a thread that waits for the other (`TwoHeldExactly`, `TwoMutexesDrop`).
- Threads of one priority change over not only when one yields: a preempted thread goes to the
  end of its queue (`PreemptedReturnsExactly`, `TurnLostWithoutYield`), so that a round turns
  with each yield and each preemption (`TurnsExactly`).
- Octal conversions divide by 16 (`OctalExactly`, `OctReads`); a precision of 0 prints no digits
  (`NumberLength`); a field width cuts strings off (`StringLength`).
- The stack analysis stops gathering unresolved calls at the first unbounded callee. The set is
  complete for functions that reach no pointer call and no cycle; for the others it depends on
  the order in which calls are taken (`CalcAllWcs`, `StoppedPartial`, `OrderMatters`).

## Model

| member | source | states |
|---|---|---|
| `SlabPages.AllocRunExact` | rt-thread/src/slab.c:211-241 | page allocation fails exactly when no n consecutive pages are free; otherwise it takes the lowest address at which n pages are free, just those pages, and leaves the list sorted, disjoint and coalesced |
| `SlabPages.AllocRunNone` | rt-thread/src/slab.c:211-241 | a search that finds nothing leaves the page list as it was |
| `SlabPages.FreeRunExact` | rt-thread/src/slab.c:252-294 | giving pages back adds exactly those pages and keeps the list sorted, disjoint and coalesced |
| `SlabPages.CanonicalUnique` | rt-thread/src/slab.c:211-294 | the page list is a function of the set of free pages: two lists in this form with the same pages are equal |
| `SlabPages.AllocFreeRestores` | rt-thread/src/slab.c:211-294 | freeing what was just allocated restores the page list itself |
| `SlabPages.FreeOrderIrrelevant` | rt-thread/src/slab.c:252-294 | two blocks may be given back in either order, with the same list as a result |
| `SlabZones.PowerOfTwoTest` | rt-thread/src/slab.c:628-631 | the bit test for a power of two holds exactly of the powers of two among the chunk sizes |
| `SlabZones.ZoneIndexFits` | rt-thread/src/slab.c:408-466 | every small request gets one of the 72 lists, and the chunk size of that list holds it, with bounded waste, whichever branch led there |
| `SlabZones.ChunkSizeStrict` | rt-thread/src/slab.c:408-466 | chunk sizes grow strictly along the lists, so list index and chunk size determine each other |
| `SlabZones.ZoneIndexTight` | rt-thread/src/slab.c:408-466 | a list serves exactly the requests above the chunk size of the list before and up to its own |
| `SlabZones.ClassMonotone` | rt-thread/src/slab.c:408-466 | a larger request never gets a smaller chunk |
| `SlabZones.NewZoneHoldsThree` | rt-thread/src/slab.c:621-639 | a new zone holds at least three chunks behind its header, whatever the request |
| `SlabZones.SlotsApart` | rt-thread/src/slab.c:558-562 | different chunks of a zone do not overlap |
| `SlabZones.SlotInside` | rt-thread/src/slab.c:621-641 | every chunk lies behind the zone header and before the zone end |
| `SlabProof.AlignPageFits` | rt-thread/src/slab.c:503-509 | rounding a large request to pages never falls short of it unless the 32-bit addition wraps, and then it gives 0 pages |
| `SlabProof.AllocInv` | rt-thread/src/slab.c:487-653 | allocation keeps the page list, zones, zone lists, zone cache, usage table and counters in agreement, on all its paths: whole pages, a chunk from a zone, a cached zone, a new zone, failure |
| `SlabProof.FreeInv` | rt-thread/src/slab.c:736-853 | freeing keeps them in agreement through every combination of full zone, zone to cache, and release of a cached zone, with at most two zones cached |
| `SlabTheorems.LiveBlocksApart` | rt-thread/src/slab.c:487-853 | two blocks a client holds never overlap |
| `SlabTheorems.LiveBlockInside` | rt-thread/src/slab.c:487-853 | a block is at least as large as requested and lies in the heap, past the usage table |
| `SlabTheorems.FreePageApart` | rt-thread/src/slab.c:487-853 | no block overlaps a free page |
| `SlabTheorems.HeaderApart` | rt-thread/src/slab.c:487-853 | no block overlaps the header of any zone, in use or cached |
| `SlabTheorems.FreeChunkApart` | rt-thread/src/slab.c:487-853 | no block overlaps a chunk waiting on a free list of any zone |
| `SlabTheorems.FreeChunksApart` | rt-thread/src/slab.c:487-853 | the waiting chunks of a zone do not overlap one another |
| `SlabTheorems.UsageFindsZone` | rt-thread/src/slab.c:759-784 | the usage table leads from any chunk held back to its zone header, and tells chunks from whole pages |
| `SlabTheorems.AllocEffect` | rt-thread/src/slab.c:487-653 | success adds one new block of the granted size and leaves all others as they were; failure changes nothing |
| `SlabTheorems.AllocFailsExactly` | rt-thread/src/slab.c:487-653 | when allocation fails, exactly: a large request when rounding wraps or no such run of pages is free; a small one when no zone of its class has room, none is cached and no run of a zone of pages is free |
| `SlabTheorems.ClassEmpty` | rt-thread/src/slab.c:541-550 | a zone list is empty exactly when no zone of its chunk size has room |
| `SlabTheorems.FreeEffect` | rt-thread/src/slab.c:736-853 | freeing removes exactly that block, and its size from the bytes in use |
| `SlabTheorems.LargeRoundTrip` | rt-thread/src/slab.c:487-853 | a large block given straight back leaves all lists as they were |
| `SlabTheorems.StepInv` | rt-thread/src/slab.c:487-853 | every client call keeps the bookkeeping in agreement |
| `SlabTheorems.RunSafe` | rt-thread/src/slab.c:487-853 | after any sequence of calls the bookkeeping agrees, blocks are pairwise disjoint, and `used` is the sum of the sizes of the blocks held |
| `Slab.Slab.PageAlloc` | rt-thread/src/slab.c:211-241 | the pointer loop over the page list takes the first run that fits, as the specification does |
| `Slab.Slab.PageFree` | rt-thread/src/slab.c:252-294 | the pointer loop inserts by address and coalesces with both neighbours, as the specification does |
| `Slab.Slab.MarkZonePages` | rt-thread/src/slab.c:608-615 | the loop labels each page of a new zone with its distance from the header |
| `Slab.Slab.ClearZonePages` | rt-thread/src/slab.c:839-845 | the loop clears the labels of a zone given back |
| `Slab.Slab.Alloc` | rt-thread/src/slab.c:487-653 | the new state and result of an allocation, on a state whose bookkeeping agrees, which it keeps |
| `Slab.Slab.AllocPages` | rt-thread/src/slab.c:503-526 | the large case |
| `Slab.Slab.AllocFromZone` | rt-thread/src/slab.c:541-577 | the case of a zone list that is not empty: the zone leaves the list when it fills up; untouched space first, then returned chunks |
| `Slab.Slab.AllocFromNewZone` | rt-thread/src/slab.c:587-652 | the case of a cached zone or a new one |
| `Slab.Slab.Free` | rt-thread/src/slab.c:736-853 | the new state of a free, on a state whose bookkeeping agrees, which it keeps |
| `Slab.Slab.FreeToZone` | rt-thread/src/slab.c:781-853 | the small case: chunk to zone, full zone back to its list, spare zone to the cache, one too many to the page list |
| `Slab.Slab.Unlink` | rt-thread/src/slab.c:816-819 | the scan along a zone list removes that zone and no other |
| `Slab.FreeRunAt` | rt-thread/src/slab.c:252-294 | stopping at the first run that touches or lies behind the freed pages gives the sorted, coalesced insertion |
| `Slab.ZoneSizeFor` | rt-thread/src/slab.c:358-361 | the zone size is a doubling of 32 KiB, at most 128 KiB, the first that is large enough for the heap |
| `Slab.Init` | rt-thread/src/slab.c:321-380 | initialisation fails exactly when no whole page is left, and otherwise leaves the bookkeeping of an empty heap in agreement, with the usage table on the lowest pages, all others free, and the zone size the heap calls for |
| `Slab.InitInv` | rt-thread/src/slab.c:321-380 | a heap with nothing taken but the usage table is a valid start |
| `IpcThreads.EnqueueStable` | rt-thread/src/ipc.c:121-168 | queueing by priority keeps the queue sorted, and puts the newcomer behind every waiter at least as urgent and before every less urgent one |
| `IpcThreads.ListSuspend` | rt-thread/src/ipc.c:121-168 | the scan finds that place; a FIFO queue grows at its end |
| `IpcThreads.ResumeEveryone` | rt-thread/src/ipc.c:219-247 | popping until empty resumes every waiter with an error, each once |
| `IpcThreads.WithoutSorted` | rt-thread/src/ipc.c:121-203 | removing a waiter leaves the others in order |
| `MailboxProtocol.StepInv` | rt-thread/src/ipc.c:1986-2413 | every atomic section of send, urgent send, receive, timeout and reset keeps the waiting lists true and counts the threads on their way |
| `MailboxProtocol.NoLostWakeupEver` | rt-thread/src/ipc.c:1986-2413 | after any interleaving, a receiver is suspended beside waiting mail only if at least as many receivers as mails are resumed and on their way; the same of senders and free slots |
| `MailboxProtocol.WokenReceiverTakes` | rt-thread/src/ipc.c:2233-2363 | a resumed receiver that finds mail takes the oldest, whatever its timeout |
| `MailOrder.PostedInOrder` | rt-thread/src/ipc.c:2030-2211 | the onlooker's record of a send stays true: plain mail goes behind everything, urgent mail before everything |
| `MailOrder.TakenInOrder` | rt-thread/src/ipc.c:2233-2363 | and of a receive: the first goes, so plain mail comes out in the order it went in, whatever urgent mail passes it |
| `MailboxProtocol.FifoOrder` | rt-thread/src/ipc.c:1986-2413 | in every run, urgent mail and resets included: since the last reset, the plain mail received and then the plain mail in the box are, in this order, exactly the plain mail sent, in the order sent; urgent mail stands in front |
| `MailboxProtocol.FifoEver` | rt-thread/src/ipc.c:1986-2413 | so it is from an empty mailbox on, over every run |
| `MailboxProtocol.PlainRunOrder` | rt-thread/src/ipc.c:1986-2363 | in particular, without urgent mail and resets, all mail is received in the order sent |
| `MailboxProtocol.MailConserved` | rt-thread/src/ipc.c:1986-2363 | without a reset nothing is lost or duplicated: sent is received plus queued |
| `MailboxProtocol.MostUrgentFirst` | rt-thread/src/ipc.c:121-203 | with priority queueing the receiver that mail resumes is a most urgent one, after any interleaving |
| `Mailbox.Mailbox.constructor` | rt-thread/src/ipc.c:1775-1804 | an empty ring of the given size |
| `Mailbox.Mailbox.Send` | rt-thread/src/ipc.c:1986-2115 | one pass of a send on the ring buffer: post and resume a receiver, or fail, or suspend |
| `Mailbox.Mailbox.Urgent` | rt-thread/src/ipc.c:2159-2211 | the output offset steps back, around the end, and the mail goes in front |
| `Mailbox.Mailbox.Recv` | rt-thread/src/ipc.c:2233-2363 | one pass of a receive: take the oldest and resume a sender, or fail, or suspend |
| `Mailbox.Mailbox.ThreadTimeout` | rt-thread/src/thread.c:127-156 | a waiter that times out leaves the queue and will return the error |
| `Mailbox.Mailbox.Reset` | rt-thread/src/ipc.c:2381-2413 | all waiters resume with an error and the ring is empty |
| `Mailbox.RingAppend` | rt-thread/src/ipc.c:2080-2085 | a write at the input offset, which may wrap, appends to the mail in the ring |
| `Mailbox.RingPrepend` | rt-thread/src/ipc.c:2178-2189 | a write just before the output offset, which may wrap, puts in front |
| `Mailbox.RingTake` | rt-thread/src/ipc.c:2328-2334 | stepping the output offset drops the oldest |
| `MessageQueueProtocol.StepInv` | rt-thread/src/ipc.c:2737-3263 | every locked and unlocked section of every context keeps node ownership, message contents and the waiting lists true |
| `MessageQueueProtocol.NodesConservedEver` | rt-thread/src/ipc.c:2505-3259 | after any interleaving each node is in exactly one place: the free list, the queue, or the hands of one context in the middle of a send or receive |
| `MessageQueueProtocol.NoLostWakeupEver` | rt-thread/src/ipc.c:2737-3259 | after any interleaving nobody sleeps on while what they wait for is there and nobody is on the way to it |
| `MessageQueueProtocol.CopyOutExact` | rt-thread/src/ipc.c:3149-3168 | what a receiver copies after dropping the lock is the message it detached |
| `MessageQueueProtocol.FifoOrder` | rt-thread/src/ipc.c:2737-3263 | in every run, urgent messages and resets included: since the last reset, the plain messages received and then the plain ones queued are, in this order, exactly the plain ones linked, in the order linked; urgent ones stand in front |
| `MessageQueueProtocol.FifoEver` | rt-thread/src/ipc.c:2505-3263 | so it is from a new message queue on, over every run |
| `MessageQueueProtocol.PlainRunOrder` | rt-thread/src/ipc.c:2737-3197 | in particular, without urgent messages and resets, all are received in the order linked |
| `MessageQueueProtocol.MessagesConserved` | rt-thread/src/ipc.c:2737-3197 | without a reset nothing is lost or duplicated, urgent messages included: linked is received plus queued |
| `MessageQueueProtocol.UrgentFirst` | rt-thread/src/ipc.c:2948-3026 | an urgent message goes before everything queued |
| `MessageQueue.MessageQueue.constructor` | rt-thread/src/ipc.c:2474-2525 | the loop puts every node on the free list, once |
| `MessageQueue.MessageQueue.Send` | rt-thread/src/ipc.c:2760-2847 | the first section of a send: a node in hand, or failure, or suspension |
| `MessageQueue.MessageQueue.Urgent` | rt-thread/src/ipc.c:2965-2982 | the first section of an urgent send |
| `MessageQueue.MessageQueue.Fill` | rt-thread/src/ipc.c:2849-2852 | the unlocked copy into the node in hand, which nobody else sees |
| `MessageQueue.MessageQueue.Finish` | rt-thread/src/ipc.c:2854-2897 | the last section: link at the tail, or at the head for an urgent one; head and tail stay the ends of the queue; a receiver resumes |
| `MessageQueue.MessageQueue.Recv` | rt-thread/src/ipc.c:3075-3165 | the first section of a receive: the head detached, or failure, or suspension |
| `MessageQueue.MessageQueue.Fetch` | rt-thread/src/ipc.c:3167-3168 | the unlocked copy out gives the message detached |
| `MessageQueue.MessageQueue.GiveBack` | rt-thread/src/ipc.c:3170-3197 | the node returns to the free list and a sender resumes |
| `MessageQueue.MessageQueue.Room` | rt-thread/src/ipc.c:2869-2878 | the count is below the 16-bit limit whenever a node is in hand, so the overflow branches are never taken |
| `MessageQueue.MessageQueue.ThreadTimeout` | rt-thread/src/thread.c:127-156 | a waiter that times out leaves the queue and will return the error |
| `MessageQueue.MessageQueue.Reset` | rt-thread/src/ipc.c:3215-3263 | all waiters resume with an error and every queued node is back on the free list |
| `EventProtocol.SweepSettles` | rt-thread/src/ipc.c:1435-1524 | after a send nobody left in the queue is satisfied by what remains of the set |
| `EventProtocol.SweepAnswers` | rt-thread/src/ipc.c:1435-1524 | each thread a send resumes has received flags that answer its AND or OR, all of them in the set |
| `EventProtocol.ConsumedOnce` | rt-thread/src/ipc.c:1435-1524 | a flag one waiter consumed is not seen by any waiter behind it |
| `EventProtocol.SweepConsumesExactly` | rt-thread/src/ipc.c:1435-1524 | the set loses exactly the flags received with CLEAR |
| `EventProtocol.FirstSatisfiedWakes` | rt-thread/src/ipc.c:1435-1524 | the first waiter in the queue that the new set satisfies is resumed |
| `EventProtocol.StepInv` | rt-thread/src/ipc.c:1435-1722 | every section of send, receive, timeout and reset keeps the waiting list true |
| `EventProtocol.NobodyWaitsSatisfied` | rt-thread/src/ipc.c:1435-1722 | in every reachable state no suspended thread has its condition met, and every resumed one holds an answer or an error |
| `EventProtocol.RecvTakesWhatItReports` | rt-thread/src/ipc.c:1560-1680 | a receive that does not wait takes exactly the flags it reports, with CLEAR, and none without |
| `Event.Event.Send` | rt-thread/src/ipc.c:1435-1524 | the loop over the queue does this sweep |
| `Event.Event.Recv` | rt-thread/src/ipc.c:1560-1658 | a receive up to its return or suspension |
| `Event.Event.Return` | rt-thread/src/ipc.c:1660-1680 | a resumed thread returns its error, or flags that answer it |
| `Event.Event.ThreadTimeout` | rt-thread/src/thread.c:127-156 | a waiter that times out leaves the queue and will return the error |
| `Event.Event.Reset` | rt-thread/src/ipc.c:1698-1726 | all waiters resume with an error and the set is empty |
| `MutexProtocol.TakeInv` | rt-thread/src/ipc.c:909-1047 | taking, free, again, or by waiting with inheritance, keeps ownership, sorted waiters and priorities true |
| `MutexProtocol.ReleaseInv` | rt-thread/src/ipc.c:1085-1193 | so does releasing, once of several times or for good with a hand-over |
| `MutexProtocol.StepInv` | rt-thread/src/ipc.c:909-1193 | so does every step of every thread, timeouts included |
| `MutexProtocol.OwnershipEver` | rt-thread/src/ipc.c:909-1193 | in every reachable state, with one mutex per thread at a time, a mutex is ownerless exactly when value is 1 and hold 0; owned, value is 0 and hold from 1 to 255; a thread that owns nothing runs at its base priority |
| `MutexProtocol.UrgencyEver` | rt-thread/src/ipc.c:909-1193 | in every reachable state the owner is at least as urgent as each waiter, and waiters stand in order |
| `MutexProtocol.FinalRelease` | rt-thread/src/ipc.c:1085-1193 | the last release restores the base priority and hands over to the first waiter, which no other outranks |
| `MutexProtocol.TakeReleaseRestores` | rt-thread/src/ipc.c:909-1193 | a release undoes a take that succeeded at once, exactly |
| `MutexProtocol.StepBoostExact` | rt-thread/src/ipc.c:909-1193 | every step but a timeout keeps the boost exactly what the waiters require |
| `MutexProtocol.BoostExactEver` | rt-thread/src/ipc.c:909-1193 | while no waiter times out, an owner is boosted exactly as far as its waiters require, in every reachable state |
| `MutexProtocol.TimeoutLeavesBoost` | rt-thread/src/thread.c:127-156 | a timeout keeps the boost exact if and only if the base priority or another waiter is as urgent as the one that left |
| `MutexProtocol.BoostOutlivesWaiter` | rt-thread/src/thread.c:127-156 | after the only, more urgent, waiter gives up, the owner keeps its priority with nobody waiting |
| `MutexProtocol.TwoHeldExactly` | rt-thread/src/ipc.c:909-1193 | an owner of two mutexes that gives one up stays as urgent as all who wait for the other exactly when the priority it had on taking the one given up was as urgent as the first of them |
| `MutexProtocol.TwoMutexesDrop` | rt-thread/src/ipc.c:909-1193 | a run of two takes, two waiters and a release after which the owner is less urgent than a thread that waits for it |
| `Mutex.Mutex.constructor` | rt-thread/src/ipc.c:736-759 | value 1, no owner, hold 0 |
| `Mutex.Mutex.Take` | rt-thread/src/ipc.c:909-1047 | a take up to its return or suspension, on the mutex fields and the thread table |
| `Mutex.Mutex.Release` | rt-thread/src/ipc.c:1085-1193 | a release; refused when the caller is not the owner |
| `Mutex.Mutex.ThreadTimeout` | rt-thread/src/thread.c:127-156 | a waiter that times out leaves the queue and will return the error |
| `Alignment.AlignUpExact` | rt-thread/include/rtdef.h:329 | rounding up reaches the request, by less than the alignment, unless the 32-bit addition wraps; then it gives 0 |
| `Rings.RingInsert` | rt-thread/include/rtservice.h:58-64 | the four stores of an insertion put the node behind its place and leave the rest of the ring in order |
| `Rings.RingRemove` | rt-thread/include/rtservice.h:86-92 | the stores of a removal take out that node and leave the rest in order |
| `HeapBlocks.PayloadApart` | rt-thread/src/memheap.c:74-724 | no byte of a payload is in any header or in any other payload |
| `HeapEffects.FreedShape` | rt-thread/src/memheap.c:597-724 | merging with free neighbours on either side or both keeps the pool tiled and leaves no two free neighbours |
| `HeapEffects.FreedSum` | rt-thread/src/memheap.c:597-724 | a free adds to the free space the payload and each header that a merge swallows |
| `HeapEffects.FreedFree` | rt-thread/src/memheap.c:597-724 | which addresses are free afterwards |
| `HeapBytes.Copy` | rt-thread/src/memheap.c:494-500 | a copy between parts that do not overlap moves those bytes and changes no others |
| `HeapBytes.CopyBlock` | rt-thread/src/memheap.c:494-500 | the copy from an old block to a new one: the new block holds the old bytes and everyone else has theirs |
| `HeapBytes.CopyRegions` | rt-thread/src/memheap.c:361-588 | an old and a new block never overlap, so the copy may be a plain one |
| `HeapBytes.CopyKept` | rt-thread/src/memheap.c:361-588 | after the copy the new block holds the old bytes and everyone else has theirs |
| `HeapBytes.MoveKept` | rt-thread/src/memheap.c:361-588 | and still so after the old block is freed |
| `MemHeapSpec.AllocInv` | rt-thread/src/memheap.c:183-346 | allocation, splitting or not, keeps the block list a tiling that ends in a used tail, the free list the free blocks, no two neighbours free, and the accounts true |
| `MemHeapSpec.FreeInv` | rt-thread/src/memheap.c:597-724 | so does freeing |
| `MemHeapSpec.GrowInv` | rt-thread/src/memheap.c:413-485 | so does growth in place, where the new header may overlap the absorbed one |
| `MemHeapSpec.ShrinkInv` | rt-thread/src/memheap.c:505-588 | so does a cut in place |
| `MemHeapSpec.GrowGuardExact` | rt-thread/src/memheap.c:414-430 | the test for growing in place means what it says exactly when the rounded size plus the minimum does not wrap |
| `MemHeapSpec.GrowWordPlain` | rt-thread/src/memheap.c:413-485 | where it does not wrap, growing in place in 32-bit arithmetic is growing in place |
| `MemHeapTheorems.RoundExact` | rt-thread/src/memheap.c:192-195 | a rounded request covers the request exactly when rounding does not wrap; otherwise it is the minimum |
| `MemHeapTheorems.AllocEffect` | rt-thread/src/memheap.c:183-346 | success turns one free block into a block in use, big enough and with less than a header and a minimal block to spare, and touches no other; failure changes nothing |
| `MemHeapTheorems.AllocLargeEnough` | rt-thread/src/memheap.c:183-346 | the block holds what was asked for exactly when rounding does not wrap |
| `MemHeapTheorems.AllocFailsExactly` | rt-thread/src/memheap.c:183-346 | allocation fails exactly when no free block fits, or the rounded request equals all the free space |
| `MemHeapTheorems.RefusedThoughFits` | rt-thread/src/memheap.c:200 | a free block that fits a refused request is the whole free space |
| `MemHeapTheorems.RefusesWhole` | rt-thread/src/memheap.c:183-205 | a new heap refuses a request for its one free block |
| `MemHeapTheorems.FreeEffect` | rt-thread/src/memheap.c:597-724 | freeing touches no other block in use and gains at least the payload |
| `MemHeapTheorems.AllocFreeRestores` | rt-thread/src/memheap.c:183-724 | freeing what was just allocated restores the blocks and the free space; the block moves to the head of the free list |
| `MemHeapTheorems.LiveAfterAlloc` | rt-thread/src/memheap.c:183-346 | a block in use is still in use, unchanged, after allocating another |
| `MemHeapTheorems.ReallocEffect` | rt-thread/src/memheap.c:361-588 | unless the rounded size wraps and the block behind is free, realloc keeps the invariant and all other blocks; the block it returns holds the rounded request; failing, it changes nothing; size 0 frees |
| `MemHeapTheorems.ReallocWrapped` | rt-thread/src/memheap.c:361-588 | if it wraps and the block behind is free, the block grows where it is past the end of the pool, and the header for the rest lands in its own header |
| `MemHeapTheorems.ReallocInvExactly` | rt-thread/src/memheap.c:361-588 | realloc keeps the heap in order exactly when the pointer is NULL, or the rounded size plus the minimum does not wrap, or the block behind is in use |
| `MemHeapTheorems.NoWrapExactly` | rt-thread/src/memheap.c:192-195 | no request wraps exactly when the alignment is larger than the minimum of 12 |
| `MemHeapTheorems.ReallocBreaks` | rt-thread/src/memheap.c:361-588 | otherwise the largest request, for the first block a new heap has given out, breaks the heap |
| `MemHeapTheorems.RoundTwice` | rt-thread/src/memheap.c:361-588 | rounding the rounded size again for the inner allocation never makes it smaller |
| `MemHeapTheorems.StepInv` | rt-thread/src/memheap.c:183-724 | every call keeps the invariant |
| `MemHeapTheorems.RunInv` | rt-thread/src/memheap.c:183-724 | every history of calls keeps the invariant |
| `MemHeapTheorems.LiveBlocksApart` | rt-thread/src/memheap.c:74-724 | after any history two blocks in use share no byte with each other or with any header, and lie in the pool |
| `MemHeapTheorems.AccountsEver` | rt-thread/src/memheap.c:74-724 | after any history the free list holds exactly the free blocks, `available_size` is their payloads, and `max_used_size` bounds the rest |
| `MemHeapTheorems.RoundAlignedExactly` | rt-thread/src/memheap.c:192-195 | rounded requests are aligned, for all requests, exactly when the alignment divides the minimal allocation |
| `MemHeapTheorems.AlignedEver` | rt-thread/src/memheap.c:74-724 | then every block ever handed out is aligned in the pool |
| `MemHeapTheorems.InitAligned` | rt-thread/src/memheap.c:74-150 | a new heap is aligned, so this holds of every history from it |
| `MemHeapTheorems.MisalignedAfter` | rt-thread/src/memheap.c:183-346 | otherwise the first request for 0 bytes leaves a misaligned free block |
| `MemHeap.MemHeap.constructor` | rt-thread/src/memheap.c:74-150 | one free block over the pool, a used tail, and the free list with just that block |
| `MemHeap.MemHeap.Search` | rt-thread/src/memheap.c:217-228 | the loop over the free list finds the first block in list order that fits |
| `MemHeap.MemHeap.Alloc` | rt-thread/src/memheap.c:183-346 | the new lists, flags and counters of an allocation; every byte of every block in use is kept |
| `MemHeap.MemHeap.FreeLinks` | rt-thread/src/memheap.c:645-713 | the stores of a free on the two circular lists, with both merges |
| `MemHeap.MemHeap.Free` | rt-thread/src/memheap.c:597-724 | the new lists, flags and counters of a free; every byte of every other block in use is kept |
| `MemHeap.MemHeap.GrowInPlace` | rt-thread/src/memheap.c:430-485 | the stores of a growth in place, also of one that wraps; unless it wraps, the heap stays in order and no byte in use is touched, not even of the growing block |
| `MemHeap.MemHeap.CutInPlace` | rt-thread/src/memheap.c:521-587 | a cut in place: all other bytes in use are kept, and the part of this block that stays |
| `MemHeap.MemHeap.MoveBlock` | rt-thread/src/memheap.c:494-502 | a new block, a copy and a free: the new block starts with the old bytes; without a new block nothing changes |
| `MemHeap.MemHeap.Realloc` | rt-thread/src/memheap.c:361-588 | every request: the new lists, flags and counters; all bytes of other blocks are kept, and a failed call keeps everything; unless the growth wraps, the heap stays in order and the first min(old, new) bytes are kept |
| `SmallMemSpec.AllocInv` | rt-thread/src/mem.c:279-404 | allocation keeps the blocks tiling the heap, no two neighbours free, and `used` the footprints in use |
| `SmallMemSpec.FreeInv` | rt-thread/src/mem.c:512-556 | so does freeing with its plugged holes |
| `SmallMemSpec.ShrinkInv` | rt-thread/src/mem.c:464-492 | so does a cut in place |
| `SmallMemSpec.AllocEffect` | rt-thread/src/mem.c:279-404 | success turns one free block into a block in use, big enough and with less than a header and a minimal block to spare, and touches no other; failure changes nothing |
| `SmallMemSpec.LiveAfterAlloc` | rt-thread/src/mem.c:279-404 | a block in use is still in use, unchanged, after allocating another |
| `SmallMemTheorems.FirstFitExact` | rt-thread/src/mem.c:279-404 | allocation returns the lowest free block that fits, and NULL exactly when nothing was asked for or none fits |
| `SmallMemTheorems.AllocLargeEnough` | rt-thread/src/mem.c:279-404 | the block holds what was asked for exactly when rounding does not wrap |
| `SmallMemTheorems.FreeEffect` | rt-thread/src/mem.c:512-556 | freeing touches no other block in use and gives back exactly the footprint |
| `SmallMemTheorems.AllocFreeRestores` | rt-thread/src/mem.c:279-556 | freeing what was just allocated restores the blocks and `used` exactly |
| `SmallMemTheorems.ReallocEffect` | rt-thread/src/mem.c:418-503 | realloc keeps the invariant and all other blocks; the block it returns holds the rounded request; failing on a request that does not round to 0, it changes nothing; one that does is a free |
| `SmallMemTheorems.ReallocKeepsExactly` | rt-thread/src/mem.c:431-443 | asked for more than 0, a NULL answer leaves the block in use exactly when rounding the request does not wrap |
| `SmallMemTheorems.ReallocLosesBlock` | rt-thread/src/mem.c:431-443 | an input for which it does not: the largest request frees the block and answers NULL |
| `SmallMemTheorems.ReallocFailsExactly` | rt-thread/src/mem.c:418-503 | when realloc fails: exactly when the size differs, too little can be cut off, and no free block fits, for shrinking as for growing |
| `SmallMemTheorems.StepInv` | rt-thread/src/mem.c:279-556 | every call keeps the invariant |
| `SmallMemTheorems.RunInv` | rt-thread/src/mem.c:279-556 | every history of calls keeps the invariant |
| `SmallMemTheorems.LiveBlocksApart` | rt-thread/src/mem.c:178-556 | after any history two blocks in use share no byte with each other or with any header, and lie in the pool |
| `SmallMemTheorems.AccountsEver` | rt-thread/src/mem.c:178-556 | after any history no two neighbours are free, `used` is the sum of footprints, and it is 0 exactly when the heap is one free block again |
| `SmallMemTheorems.OnlyTail` | rt-thread/src/mem.c:178-556 | with nothing in use there is one free block of the whole usable size |
| `SmallMemTheorems.AlignedEver` | rt-thread/src/mem.c:178-556 | every block ever handed out is aligned in the pool, for every alignment |
| `SmallMemTheorems.InitAligned` | rt-thread/src/mem.c:178-238 | a new heap is aligned, so this holds of every history from it |
| `SmallMem.SmallMem.constructor` | rt-thread/src/mem.c:206-239 | one free block, a used end, and the cursor at the start |
| `SmallMem.SmallMem.PlugHoles` | rt-thread/src/mem.c:125-163 | the stores of a merge behind and before: next and back links of all blocks but the end agree afterwards, and where the cursor goes |
| `SmallMem.SmallMem.SplitAt` | rt-thread/src/mem.c:337-354 | the stores of a split; the back link of the end is not kept up |
| `SmallMem.SmallMem.Search` | rt-thread/src/mem.c:313-321 | the loop from the cursor, with its bound on the offset, finds the lowest block that fits, if there is one |
| `SmallMem.SmallMem.AdvanceCursor` | rt-thread/src/mem.c:381-388 | the cursor moves on to the lowest free block, or the end |
| `SmallMem.SmallMem.Alloc` | rt-thread/src/mem.c:279-404 | the new links, flags, cursor and counters of an allocation; every byte of every block in use is kept |
| `SmallMem.SmallMem.Free` | rt-thread/src/mem.c:512-556 | the new links, flags, cursor and counters of a free; every byte of every other block in use is kept |
| `SmallMem.SmallMem.CutInPlace` | rt-thread/src/mem.c:464-492 | a cut in place: all other bytes in use are kept, and the part of this block that stays |
| `SmallMem.SmallMem.MoveBlock` | rt-thread/src/mem.c:494-502 | a new block, a copy and a free: the new block starts with the old bytes; without a new block nothing changes |
| `SmallMem.SmallMem.Realloc` | rt-thread/src/mem.c:418-503 | the first min(old, new) bytes are kept, all bytes of other blocks are kept, and a failed call keeps everything unless it freed the block |
| `SmallMem.CarveLowest` | rt-thread/src/mem.c:381-388 | an allocation elsewhere leaves the lowest free block where it is |
| `SmallMem.FreedLowest` | rt-thread/src/mem.c:546-555 | lowering the cursor to the freed block, and the merges, leave it at the lowest free block |
| `SmallMem.ShrunkLowest` | rt-thread/src/mem.c:483-489 | so does lowering it to what was cut off |
| `TimerSpec.WrappedOrder` | rt-thread/src/timer.c:454-461 | the wrapped difference tells the order of deadlines less than half the tick range apart, across a wrap |
| `TimerSpec.WrappedOrderExactly` | rt-thread/src/timer.c:454-461 | of deadlines less than the tick range apart it tells the order exactly when the first is less than half the range ahead, or at most half the range and two ticks behind |
| `TimerSpec.NearExactly` | rt-thread/src/timer.c:454-461 | so two deadlines can be compared either way round exactly when they are less than half the range apart |
| `TimerSpec.HalfApartMisleads` | rt-thread/src/timer.c:454-461 | half the range apart the later deadline looks earlier |
| `TimerSpec.InsertOrdered` | rt-thread/src/timer.c:437-465 | a timer started last goes behind equal deadlines and keeps the row in order |
| `TimerSpec.StartInv` | rt-thread/src/timer.c:397-513 | starting keeps the rows in order and the window, the towers and the periods true |
| `TimerSpec.DisarmInv` | rt-thread/src/timer.c:523-547 | stopping keeps them |
| `TimerTheorems.RowsSorted` | rt-thread/src/timer.c:397-547 | each row is sorted in wrap-around order and is a sublist of the one below; the lowest holds exactly the armed timers, equal deadlines in order of start |
| `TimerTheorems.DueExact` | rt-thread/src/timer.c:617-684 | the timers due are the front of the lowest row and nothing behind them is due |
| `TimerTheorems.FireEffect` | rt-thread/src/timer.c:633-676 | one turn of the loop fires the first due timer and leaves one fewer due |
| `TimerTheorems.CheckExact` | rt-thread/src/timer.c:617-684 | a check fires exactly the timers due, each once, by deadline and then by start; re-arms periodic ones for now plus their period; leaves only future deadlines |
| `TimerTheorems.StepWorld` | rt-thread/src/timer.c:397-684 | with a check at every tick, starts, stops and changes of period keep all deadlines in the window and none in the past; what fires has reached its deadline, or, started with time 0, the next tick |
| `TimerTheorems.FiresOnTime` | rt-thread/src/timer.c:397-684 | over any history, an armed timer nobody touches fires at its deadline, or at the next tick if it was started with time 0; neither early nor late |
| `TimerTheorems.ReconfigureInv` | rt-thread/src/timer.c:574-585 | changing the period of a timer does not disturb the rows |
| `Timer.TimerList.constructor` | rt-thread/src/timer.c:821-829 | empty rows |
| `Timer.TimerList.Init` | rt-thread/src/timer.c:119-144 | a new timer is on no row, linked to itself on each |
| `Timer.TimerList.RemoveRows` | rt-thread/src/timer.c:187-195 | off every row; a row it is not on is left as it is |
| `Timer.TimerList.FindRow` | rt-thread/src/timer.c:440-462 | one row of the search ends behind every timer due no later, equal ones included |
| `Timer.TimerList.FindHeads` | rt-thread/src/timer.c:437-465 | searching each row from where the one above ended finds the place on every row |
| `Timer.TimerList.InsertRows` | rt-thread/src/timer.c:471-486 | the tower joins the lowest row and, upwards, the rows its counter digits call for |
| `Timer.TimerList.Start` | rt-thread/src/timer.c:397-513 | the new rows, links and fields of a start |
| `Timer.TimerList.Stop` | rt-thread/src/timer.c:523-547 | the new rows, links and fields of a stop; refused when not armed |
| `Timer.TimerList.Check` | rt-thread/src/timer.c:617-684 | the drain loop does the check above, in that order, and terminates |
| `Timer.ReachingInsert` | rt-thread/src/timer.c:474-486 | inserting into the lowest row is inserting into exactly the rows the tower reaches |
| `BitSearch.TinyFfsExact` | rt-thread/src/kservice.c:1687-1709 | the remainder form of `__rt_ffs` gives 0 for 0 and else one more than the place of the lowest one bit, for all words |
| `BitSearch.ByteTableExact` | rt-thread/src/kservice.c:1711-1729 | each entry of the byte table is the place of the lowest one bit |
| `BitSearch.ByteFfsExact` | rt-thread/src/kservice.c:1741-1755 | so does the byte form, for all words |
| `BitSearch.FormsAgree` | rt-thread/src/kservice.c:1687-1755 | the two forms are one function |
| `BitSearch.LowestUnique` | rt-thread/src/kservice.c:1687-1755 | a word has at most one lowest one bit |
| `ReadyIndex.SetIndex` | rt-thread/src/scheduler.c:743-747 | setting two bits for a queue that gains a thread keeps both levels of the bitmap in agreement with all the queues |
| `ReadyIndex.ClearIndex` | rt-thread/src/scheduler.c:830-837 | clearing them when a queue empties, the group bit only when the byte is zero, does too |
| `ReadyIndex.SameIndex` | rt-thread/src/scheduler.c:815-845 | nothing needs to change when a queue stays empty, or stays non-empty |
| `ReadyIndex.PickExact` | rt-thread/src/scheduler.c:169-191 | the two searches find the most urgent queue that is not empty; there is one exactly when the group word is not zero |
| `SchedulerSpec.StepInv` | rt-thread/src/scheduler.c:423-845 | every operation keeps each ready thread on the queue of its priority, once, and no other thread on any |
| `SchedulerSpec.RunInv` | rt-thread/src/scheduler.c:423-845 | so does every history |
| `SchedulerSpec.OnePlaceEver` | rt-thread/src/thread.c:91-918 | in every reachable state a thread is current, or on the queue of its priority, or on no queue and not ready, and only one of these |
| `SchedulerSpec.MostUrgentRuns` | rt-thread/src/scheduler.c:423-545 | after an unlocked schedule the current thread runs, and no ready one is more urgent |
| `SchedulerSpec.ReplacedOnlyFor` | rt-thread/src/scheduler.c:423-545 | at a schedule a running thread gives way only to a more urgent one, or, having yielded, to the longest waiting one of its own priority |
| `SchedulerSpec.KeepsRunningExactly` | rt-thread/src/scheduler.c:423-752 | over any run without yields, suspensions, ends and changes of priority, a thread keeps the processor if and only if no schedule met a more urgent one |
| `SchedulerSpec.NoOvertakingEver` | rt-thread/src/scheduler.c:718-845 | over any run in which a thread stays ready, nobody gets in front of it on its queue |
| `SchedulerSpec.PreemptedLast` | rt-thread/src/scheduler.c:423-752 | a preempted thread is put last on its queue |
| `SchedulerSpec.PreemptedReturnsExactly` | rt-thread/src/scheduler.c:423-752 | when a more urgent thread has come and gone, the thread it preempted runs on if and only if nobody else of its priority was ready; otherwise the longest waiting one does, without a yield |
| `SchedulerSpec.StepRound` | rt-thread/src/scheduler.c:423-845 | what each operation does to the round of a priority, its running thread and then its queue: a turn, a thread that joins at the end or, running, at the front, one that leaves, or nothing |
| `SchedulerSpec.RoundEver` | rt-thread/src/scheduler.c:423-845 | over every run the round of every priority is exactly what these moves make of it |
| `SchedulerSpec.TurnsExactly` | rt-thread/src/scheduler.c:423-845 | while nobody of a priority joins, suspends, ends or changes priority, its round is turned exactly once by each yield and each preemption of its running thread, and by nothing else; so the thread that runs in the end is as many places on as there were turns |
| `SchedulerSpec.TurnLostWithoutYield` | rt-thread/src/scheduler.c:423-752 | two threads of one priority that change over without a yield |
| `SchedulerSpec.YieldRotates` | rt-thread/src/thread.c:543-556 | a yield turns the round of its priority by one |
| `SchedulerSpec.RoundRobin` | rt-thread/src/thread.c:543-556 | n yields in a round run the threads in their order; after a whole round all is as before |
| `SchedulerSpec.YieldStays` | rt-thread/src/thread.c:543-556 | alone at its priority a yielding thread runs on |
| `SchedulerSpec.ChangePriorityInv` | rt-thread/src/thread.c:730-773 | a ready thread whose priority changes moves from its old queue to its new one |
| `Scheduler.Scheduler.constructor` | rt-thread/src/scheduler.c:197-242 | empty queues, a clear bitmap |
| `Scheduler.Scheduler.InsertThread` | rt-thread/src/scheduler.c:718-752 | queue and both bits; the current thread just keeps running |
| `Scheduler.Scheduler.RemoveThread` | rt-thread/src/scheduler.c:815-845 | queue and bits, with the group bit only when the byte is zero; a thread on no queue changes nothing |
| `Scheduler.Scheduler.HighestPriorityThread` | rt-thread/src/scheduler.c:169-191 | the head of the most urgent queue that is not empty |
| `Scheduler.Scheduler.Schedule` | rt-thread/src/scheduler.c:423-545 | the new queues, bitmap, states and current thread of a schedule |
| `Scheduler.Scheduler.Startup` | rt-thread/src/thread.c:353-382 | a new thread becomes ready; its places in the bitmap are computed |
| `Scheduler.Scheduler.Suspend` | rt-thread/src/thread.c:837-871 | a running thread leaves the queues; refused for any other |
| `Scheduler.Scheduler.Resume` | rt-thread/src/thread.c:884-918 | a suspended thread joins its queue; refused for any other |
| `Scheduler.Scheduler.ThreadExit` | rt-thread/src/thread.c:91-119 | a thread that ends leaves the queues for good |
| `Scheduler.Scheduler.SetYield` | rt-thread/src/thread.c:543-556 | the mark a yield leaves |
| `Scheduler.Scheduler.ChangePriority` | rt-thread/src/thread.c:730-773 | queue, bitmap and places follow the priority |
| `Scheduler.Scheduler.EnterCritical` | rt-thread/src/scheduler.c:891-906 | the lock nests |
| `Scheduler.Scheduler.ExitCritical` | rt-thread/src/scheduler.c:955-980 | the lock unnests, never below zero; a schedule follows at zero |
| `WorstCaseStack.CallGraph.ResolveCalls` | rt-thread/tools/WCS.py:223-233 | a call leads to the global of that name, or else to the local one of the same unit, or is unresolved; whatever order the set is walked in |
| `WorstCaseStack.CallGraph.ResolveAllCalls` | rt-thread/tools/WCS.py:223-243 | and so for every function |
| `WorstCaseStack.CallGraph.CalcWcs` | rt-thread/tools/WCS.py:246-290 | the search terminates on any graph, gives the function a bound, keeps all bounds already found, and leaves functions in the middle of their search open unless a call comes back to them |
| `WorstCaseStack.CallGraph.CalcAllWcs` | rt-thread/tools/WCS.py:245-299 | every bound is exact: unbounded exactly when a call through a pointer or a cycle of calls can be reached; otherwise the largest sum of local stacks over all paths, with exactly the unresolved calls that can be reached; an unbounded function has its own unresolved calls and those its calls before the first unbounded one can come to |
| `WorstCaseStack.FinishedExact` | rt-thread/tools/WCS.py:246-299 | bounds that are locally right, found in an order in which callees come first, are right over all paths |
| `WorstCaseStack.FinishedStays` | rt-thread/tools/WCS.py:246-299 | a function with a bound reaches neither a pointer call nor a cycle |
| `WorstCaseStack.CycleClosed` | rt-thread/tools/WCS.py:264-267 | a call back to a function in the middle of its search closes a cycle of calls |
| `WorstCaseStack.ExactUnique` | rt-thread/tools/WCS.py:246-299 | bounds do not depend on the order of functions and calls, nor do the unresolved calls of functions that reach no pointer call and no cycle |
| `WorstCaseStack.StoppedPartial` | rt-thread/tools/WCS.py:245-299 | what an unbounded function has gathered, in terms of the graph and of the order its calls are taken in |
| `WorstCaseStack.OrderMatters` | rt-thread/tools/WCS.py:245-299 | a graph in which the two orders of two calls give an unbounded function different sets |
| `FormatSpec.DigitsMean` | rt-thread/src/kservice.c:635-663 | the digits printed mean the number, in base 10 and 16 |
| `FormatSpec.NoLeadingZero` | rt-thread/src/kservice.c:742-749 | there is no leading zero, and 0 is one zero |
| `FormatSpec.OctalExactly` | rt-thread/src/kservice.c:635-663 | octal conversions print the octal digits exactly when there is only one |
| `FormatSpec.NumberLength` | rt-thread/src/kservice.c:682-841 | a number fills its field width, or its sign, prefix and digits if those are longer; a precision of 0 prints no digits |
| `FormatSpec.StringLength` | rt-thread/src/kservice.c:989-1019 | a string with a field width takes up exactly that width, cut off if need be |
| `FormatSpec.AtoiReadsBack` | rt-thread/src/kservice.c:665-672 | `skip_atoi` reads back every int from 0 up that a plain decimal conversion prints, and stops right behind it |
| `FormatSpec.DigitsFit` | rt-thread/src/kservice.c:697-701 | a number below the k-th power of the base has at most k digits |
| `Formatter.AtMostTen` | rt-thread/src/kservice.c:697-701 | so a word has at most ten, and the temporary buffer is large enough |
| `Formatter.SkipAtoi` | rt-thread/src/kservice.c:665-672 | the loop reads the number and stops at the first character that is no digit |
| `Formatter.ToDigits` | rt-thread/src/kservice.c:742-749 | the division loop stores the digits last one first |
| `Formatter.PrintNumber` | rt-thread/src/kservice.c:682-841 | the number laid out as `NumberText` says, as far as there is room, and the position moved on by its whole length |
| `Formatter.ReadConversion` | rt-thread/src/kservice.c:896-959 | flags, width, precision and qualifier as the format has them |
| `Formatter.Measure` | rt-thread/src/kservice.c:993 | the loop stops at the end of the string or at the field width |
| `Formatter.PutString` | rt-thread/src/kservice.c:989-1019 | the string conversion |
| `Formatter.PutChar` | rt-thread/src/kservice.c:966-987 | the character conversion |
| `Formatter.PutConversion` | rt-thread/src/kservice.c:961-1101 | each conversion character, unknown ones and a format that ends early |
| `Formatter.Vsnprintf` | rt-thread/src/kservice.c:856-1116 | the first min(len, size - 1) characters of the unlimited output, a NUL, nothing else stored, and len as the result, whatever the size |
| `Formatter.SizesAgree` | rt-thread/src/kservice.c:856-1116 | two buffer sizes give the same text as far as the smaller one goes |
| `SlabExact.AllocLargeExactly` | rt-thread/src/slab.c:487-526 | a request of pages takes the lowest run that is long enough, takes just those pages, and touches no zone |
| `SlabExact.AllocChunkExactly` | rt-thread/src/slab.c:541-577 | where a zone of the class has room, the first on the list of the class serves the request: its lowest chunk never handed out, or else the chunk given back last; the zone leaves the list exactly when it is full, and nothing else moves |
| `SlabExact.AllocZoneExactly` | rt-thread/src/slab.c:587-652 | where none has, the zone cached last is formatted for the class, or else the lowest run of a zone's pages; its first chunk serves the request and it is alone on the list |
| `SlabExact.FreeLargeExactly` | rt-thread/src/slab.c:759-779 | giving pages back frees exactly those pages and touches no zone |
| `SlabExact.SpareExactly` | rt-thread/src/slab.c:806-809 | the test on the ends of the list is true exactly when this was the last chunk out and another zone of the class has room |
| `SlabExact.FreeChunkStays` | rt-thread/src/slab.c:781-804 | while its zone stays in use, a chunk goes to the head of the zone's free chunks, a zone that was full goes to the head of its list, and nothing else moves |
| `SlabExact.FreeChunkRetires` | rt-thread/src/slab.c:806-853 | a zone that leaves use leaves the list; it is cached when fewer than two zones were, and otherwise its pages are free and the cache is as before |
| `SlabExact.FreeLeavesRoom` | rt-thread/src/slab.c:781-853 | after a chunk is given back the list of its class is not empty: a zone of the class has room |
| `SlabExact.OneWholeEver` | rt-thread/src/slab.c:487-853 | over every run at most one zone in use of each class has all its chunks free |
| `IpcThreads.EnqueueJoins` | rt-thread/src/ipc.c:121-168 | a thread that suspends is put once into the list: last in FIFO order, or in front of the first less urgent thread |
| `MailboxProtocol.SendExactly` | rt-thread/src/ipc.c:1986-2115 | a send posts at the end exactly when there is room; suspends, and joins the senders, exactly when there is none and it may wait; and otherwise leaves everything as it was |
| `MailboxProtocol.UrgentExactly` | rt-thread/src/ipc.c:2159-2211 | an urgent send posts in front exactly when there is room, and never suspends |
| `MailboxProtocol.RecvExactly` | rt-thread/src/ipc.c:2233-2363 | a receive takes the first mail exactly when there is one; suspends, and joins the receivers, exactly when there is none and it may wait; and otherwise leaves everything as it was |
| `MailboxProtocol.EndsExactly` | rt-thread/src/ipc.c:1986-2413 | a thread whose time is up carries the timeout error and leaves its list; a reset empties the mailbox and fails everyone who waits |
| `MessageQueueProtocol.SendExactly` | rt-thread/src/ipc.c:2737-2847 | a send takes a node exactly when one is free; suspends, and joins the senders, exactly when none is and it may wait; and otherwise leaves everything as it was |
| `MessageQueueProtocol.RecvExactly` | rt-thread/src/ipc.c:3075-3165 | a receive takes the first message exactly when there is one; is suspended, and on the receivers' list, exactly when there is none and it may wait; and otherwise leaves everything as it was |
| `MessageQueueProtocol.UrgentExactly` | rt-thread/src/ipc.c:2948-2982 | an urgent send takes a node exactly when one is free, and never suspends |
| `MessageQueueProtocol.CopyExactly` | rt-thread/src/ipc.c:2849-2852 | the unlocked copies write the caller's message to its own node, or nothing, and change no list |
| `MessageQueueProtocol.FinishExactly` | rt-thread/src/ipc.c:2854-3197 | the second half of a send links the node at its end of the queue and wakes the first receiver; that of a receive gives the node back and wakes the first sender |
| `MessageQueueProtocol.EndsExactly` | rt-thread/src/ipc.c:2737-3259 | a thread whose time is up carries the timeout error and leaves its list |
| `MessageQueueProtocol.ResetExactly` | rt-thread/src/ipc.c:3215-3263 | a reset gives every queued node back, the last one first, and fails everyone who waits |
| `EventProtocol.SatisfiedExactly` | rt-thread/src/ipc.c:1454-1477 | a receiver is satisfied exactly when all its flags are set, or with OR any of them; which flags it gets, and which it takes out of the set with CLEAR |
| `EventProtocol.RecvExactly` | rt-thread/src/ipc.c:1560-1658 | a receive takes its flags at once exactly when they are there; suspends exactly when they are not and it may wait; and otherwise leaves everything as it was |
| `EventProtocol.EndsExactly` | rt-thread/src/ipc.c:1435-1726 | a thread whose time is up carries the timeout error and leaves the list; a reset clears the flags and fails everyone who waits; nobody else changes |
| `MutexProtocol.TakeAnswers` | rt-thread/src/ipc.c:909-1047 | a take succeeds exactly when the mutex is free or the caller's own and can be counted, is refused exactly when it cannot, times out at once exactly when another owns it and the caller may not wait, and waits exactly when it may |
| `MutexProtocol.TakeExactly` | rt-thread/src/ipc.c:909-1047 | a take that succeeds leaves the mutex with the caller and one hold more; one that waits blocks the caller and leaves owner and holds; any other changes nothing |
| `MutexProtocol.TakeOthers` | rt-thread/src/ipc.c:909-1047 | no other thread changes but an owner, and that only in priority |
| `MutexProtocol.ReleaseExactly` | rt-thread/src/ipc.c:1085-1193 | a release by anyone but the owner changes nothing, one of several holds counts down, and the last one changes only this mutex, the owner's priority and the status of the first waiter |
| `MutexProtocol.TimeoutExactly` | rt-thread/src/thread.c:127-156 | a waiter whose time is up carries the timeout error, leaves the list in its place, and changes no owner |
| `MutexProtocol.AnswersTrueEver` | rt-thread/src/ipc.c:909-1193 | over every run a thread resumed with success owns the mutex it waited for, and one resumed with an error has timed out and owns none |
| `SchedulerSpec.StatesExactly` | rt-thread/src/thread.c:91-918 | starting, resuming, suspending and ending change the state of one thread, from the one the call is for, and refuse all others |
| `SchedulerSpec.OthersExactly` | rt-thread/src/thread.c:91-918 | no call but a schedule moves the processor; the lock count follows enters and exits alone; a change of priority changes that of one thread and nobody's state |
| `SchedulerSpec.ScheduleExactly` | rt-thread/src/scheduler.c:423-545 | a schedule with the lock held or nobody ready does nothing; otherwise it takes the yield mark off and changes the thread that stops and the one that starts running, in the way stated, and no other |
| `SchedulerSpec.ClosedForever` | rt-thread/src/thread.c:91-119 | over every run a thread that has ended stays closed, and a resume of it is refused |
| `SchedulerSpec.LockHolds` | rt-thread/src/scheduler.c:891-980 | as long as fewer locks have been given up than are held, nothing changes the current thread |
| `SchedulerSpec.LockNests` | rt-thread/src/scheduler.c:891-980 | after n enters no run with fewer than n exits changes the current thread, and n exits undo them |
| `HeapEffects.InUseDetermines` | rt-thread/src/memheap.c:74-724 | the blocks in use determine the whole list: two tiled pools without free neighbours that have them in common are equal |
| `MemHeapExact.AllocExactly` | rt-thread/src/memheap.c:183-346 | an allocation takes the first block on the free list that is big enough, all of it unless a header and a minimal block fit behind the request; then that rest heads the free list; no other block changes, and the highest use is kept |
| `MemHeapExact.FreeExactly` | rt-thread/src/memheap.c:597-724 | a free gives up its block and no other, and heads the free list unless it merges to the left |
| `MemHeapExact.ReallocStaysExactly` | rt-thread/src/memheap.c:361-588 | realloc answers with the same pointer exactly when the block is big enough, or the one behind is free and more than a minimal block is left of the two |
| `MemHeapExact.ReallocFailsExactly` | rt-thread/src/memheap.c:361-588 | it fails exactly when the block is too small, cannot grow, and no free block holds the request or it is all the free space there is |
| `MemHeapExact.ReallocInPlace` | rt-thread/src/memheap.c:413-588 | a block that stays changes alone, to a size stated exactly; so are the free space, the free list and the highest use |
| `MemHeapExact.ReallocMoves` | rt-thread/src/memheap.c:488-503 | a block that moves is an allocation followed by a free |
| `MemHeapExact.ReallocEnds` | rt-thread/src/memheap.c:368-386 | with size 0 it is a free, and with a null pointer an allocation |
| `MemHeapExact.ReallocTight` | rt-thread/src/memheap.c:361-588 | the block answered is never bigger than the rounded request by more than a header and a minimal block |
| `SmallMemExact.AllocExactly` | rt-thread/src/mem.c:279-404 | an allocation takes the lowest free block that is big enough, all of it unless a header and a minimal block fit behind the request; no other block changes, and the peak is kept |
| `SmallMemExact.FreeExactly` | rt-thread/src/mem.c:512-556 | a free gives up its block and no other |
| `SmallMemExact.ReallocStaysExactly` | rt-thread/src/mem.c:418-503 | realloc answers with the same pointer exactly when the size is the same or a header and more than a minimal block can be cut off |
| `SmallMemExact.ReallocInPlace` | rt-thread/src/mem.c:446-492 | the block then has exactly the rounded request, and no other changes |
| `SmallMemExact.ReallocMoves` | rt-thread/src/mem.c:494-502 | a block that moves is an allocation followed by a free |
| `SmallMemExact.ReallocNull` | rt-thread/src/mem.c:418-443 | with a null pointer it is an allocation, unless the request rounds to nothing |
| `SmallMemExact.ReallocTight` | rt-thread/src/mem.c:418-503 | the block answered is bigger than the rounded request by less than a header and a minimal block |
| `TimerExact.HeightExactly` | rt-thread/src/timer.c:471-486 | a tower is more than k rows high exactly when the lowest k digits of the counter are 0 |
| `TimerExact.StartExactly` | rt-thread/src/timer.c:397-513 | a start arms the timer for now and its time later and puts it behind every timer due no later and before every one due later; no other timer changes |
| `TimerExact.StepOthers` | rt-thread/src/timer.c:523-585 | a stop disarms its timer and takes it out of the row; setting a timer's time or kind changes that and nothing else |
| `TimerExact.FiresExactly` | rt-thread/src/timer.c:397-684 | over every run a timer that nobody touches never fires if it is not armed, fires once at its deadline if it is armed for once, and from its deadline on once every period if it is periodic |
| `FormatReading.SignedReads` | rt-thread/src/kservice.c:682-841 | a signed decimal reads back as the number with every width, precision but 0, and flags; the minus sign is there exactly when it is negative; the width and the place of the blanks are exact |
| `FormatReading.UnsignedReads` | rt-thread/src/kservice.c:682-841 | so does an unsigned decimal, without a sign |
| `FormatReading.HexReads` | rt-thread/src/kservice.c:682-841 | so does a hexadecimal number, with its prefix and in the letters asked for |
| `FormatReading.OctReads` | rt-thread/src/kservice.c:682-841 | an octal conversion reads back in base 16 |
| `FormatReading.CharRead` | rt-thread/src/kservice.c:966-987 | one character, with blanks on the side asked for |
| `FormatReading.StringRead` | rt-thread/src/kservice.c:989-1019 | as much of the string as it, the width and a positive precision allow, with blanks on the side asked for |
| `FormatTheorems.FlagsExactly` | rt-thread/src/kservice.c:896-908 | the flags are those found in the longest run of flag characters, in any order |
| `FormatTheorems.SpecExactly` | rt-thread/src/kservice.c:896-959 | a conversion is read as written: flags, width, precision and qualifier, each as long as can be; a negative width from the arguments is left justified, a negative precision 0 |
| `FormatTheorems.PrintsSigned` | rt-thread/src/kservice.c:1057-1101 | %d and %i print the argument, as a word or half of one in two's complement, so that it reads back |
| `FormatTheorems.PrintsUnsigned` | rt-thread/src/kservice.c:1057-1101 | %u prints it unsigned, so that it reads back |
| `FormatTheorems.PrintsHex` | rt-thread/src/kservice.c:1047-1101 | %x and %X print it in base 16, so that it reads back, in small or capital letters |
| `FormatTheorems.PrintsPointer` | rt-thread/src/kservice.c:1021-1038 | %p prints a pointer in base 16, as eight digits unless a width is given |
| `FormatTheorems.PrintsOctal` | rt-thread/src/kservice.c:1042-1101 | %o prints the argument in base 16 as well |
| `FormatTheorems.PrintsChar` | rt-thread/src/kservice.c:966-987 | %c prints the lowest byte of the argument as a character |
| `FormatTheorems.PrintsString` | rt-thread/src/kservice.c:989-1019 | %s prints the argument's string, or (NULL) |
| `FormatTheorems.PrintsOthers` | rt-thread/src/kservice.c:1040-1076 | %% prints a %, and any other character after a % is printed behind it; a format that ends prints the % |
| `FormatTheorems.PrintsPlain` | rt-thread/src/kservice.c:884-892 | a format without a % prints itself up to its NUL |
| `MutexProtocol.TakeJoins` | rt-thread/src/ipc.c:985-1012 | a caller that waits joins the waiters behind everyone at least as urgent and in front of the next |
| `SlabZones.PowerOfTwoExactly` | rt-thread/src/slab.c:628-631 | the sizes named are the powers of two from 8 to 16384 |
| `SlabZones.LayoutExactly` | rt-thread/src/slab.c:618-636 | the chunks of a zone start at the first multiple of their size behind the header if that is a power of two, of 8 otherwise, and there are as many as fit |
| `SlabZones.LimitExactly` | rt-thread/src/slab.c:363-367 | the largest request for a chunk is below 8 KiB for the smallest zones and 16 KiB for all others |
| `SlabExact.LiveBlocksAligned` | rt-thread/src/slab.c:487-853 | counted from the start of the heap, every block is aligned to 8 bytes, and a chunk whose size is a power of two up to a page to its size; a larger one exactly when its zone is |
| `SlabExact.BigChunkMisaligned` | rt-thread/src/slab.c:621-635 | on a new heap with one page of table the first chunk of 8192 bytes is not aligned to its size |
| `FormatTheorems.ArgumentsExactly` | rt-thread/src/kservice.c:914-1101 | a conversion takes the next argument and no more; a word is read modulo 2^32 |

## Left out

- `rt_slab_realloc`: an allocation, a copy and a free of what is modelled.
- Multiprocessor variants, spin locks and inter-processor interrupts: one processor only.
- Builds with 32 priorities or fewer, whose bitmap has one level: the two-level one is the harder.
- Context switching, stacks, interrupt hardware, hooks, assertions, logging and devices: foreign to the cores.
- Time slices counted by the tick, thread deletion, the list of defunct threads and the idle thread: a used-up slice is modelled only as the yield flag it leaves.
- Signals, and any other way a waiting thread may be resumed than the ones the protocols name: the counting arguments exclude them.
- Deleting or detaching an IPC object, a heap or a timer while others use it.
- Semaphores, memory pools, the object registry and string helpers: the same shapes as the message queue and the lists, but easier.
- Waiting times: a timeout may happen at any step while a thread is suspended, and the arithmetic of the remaining time after a resume is not modelled.
- Runs in which a thread holds more than one mutex at a time: inheritance is not right for them (`MutexProtocol.TwoHeldExactly`, `TwoMutexesDrop`).
- Changing the priority of a thread that waits in a priority-ordered queue: the program does not re-sort the queue.
- Locks and semaphores inside the memory heap: each call is one step.
- MemHeap.MemHeap.Realloc: after a growth that wraps, does not model that the new header and the header of the block share bytes, because headers are maps keyed by their address; such a heap is out of order in any case (`MemHeapTheorems.ReallocWrapped`), and no call on it is modelled.
- RT_MEMHEAP_BSET_MODE: split remainders go to the head of the list, so the list is not sorted anyway.
- Memory tracing and the shell commands that dump heaps, timers and lists.
- `rt_smem_init` and `rt_memheap_init` rounding the addresses they are given: the model starts from the rounded pool.
- Timer.TimerList.Check: callbacks leave all timers alone, because a callback that starts or stops timers would be arbitrary code in the middle of the loop.
- The soft-timer thread: a second list served the same way; and the GET_STATE command, which falls through into the next case.
- Timer periods of 0 with the periodic flag: the check would never end. A one-shot timer may have time 0; making it periodic, with the largest time there is, before it has fired is left out.
- RT_PRINTF_LONGLONG, and machines whose `long` has 64 bits.
- Formatter.Vsnprintf: does not model a buffer that reaches past the end of memory, nor the size of all ones that `rt_vsprintf` passes, because the buffer is an array of the given size; field widths and precisions beyond the range of `int`, undefined in C, are plain integers, and a missing or mistyped argument reads as 0.
- `rt_kprintf` and the other callers of the formatter.
- Reading compiler output, symbol tables and stack-usage files, printing the report, and Python's limit on recursion depth in `WCS.py`.
