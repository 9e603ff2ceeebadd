# doggOS: kernel algorithms in Dafny

doggOS is a small 32-bit kernel. This project models the parts of it that hold algorithms over shared
mutable state and proves what they keep: over every interleaving where threads share words without
a lock, over every run where sections are protected by one.

`dafny verify dfyconfig.toml` checks everything.

| file | models |
|---|---|
| Queue.dfy, QueueProgress.dfy, QueueRecycling.dfy | the lock-free FIFO queue, as a step machine in which every shared read and every compare-and-swap is a step; its progress; and the same with its nodes given back and taken again |
| Places.dfy, SchedulerRuns.dfy, SchedulerCalls.dfy | what the scheduler's operations do to its lists, whole runs of scheduler and threads, and what the calls promise the threads that make them |
| ThreadQueues.dfy, Scheduler.dfy | the same operations as the code has them, on threads linked through one field |
| VirtualRanges.dfy, VirtualRuns.dfy | the array of free and used virtual ranges, and runs of calls |
| PhysicalPages.dfy, PhysicalRuns.dfy, PhysicalMemory.dfy | the stacks of free physical pages and their tables, runs of them, and the code on its arrays |
| PageMap.dfy | two-level page maps edited through their own self map |
| SmallHeap.dfy, ThreadHeaps.dfy, Allocator.dfy | the layout of chunk pages and a thread's small heap, the heaps of all threads, and the linked lists of one |
| PupCache.dfy, PupFormat.dfy | the block cache, mounting, and the layout of a formatted volume |
| CacheSlab.dfy, EntryPages.dfy | the slab of cache entries and its doubly linked pages |
| CacheSetLock.dfy, CacheSetProgress.dfy, BlockBitmap.dfy | the reader and writer protocol of a cache set, and the bitmap allocator, as step machines |
| ByteStream.dfy, Decimal.dfy | byte streams, and printing and parsing numbers |
| Arithmetic.dfy, Bits.dfy, Sequences.dfy | facts about multiples, bits and finite sequences |

Where the code updates objects in place there is a class whose methods do the same, each proved
equal to a function on values; what the source promises is proved about those functions, and about
whole runs of them. Concurrent code is a machine whose moves are the shared accesses, and the
theorems are about every schedule. In SchedulerRuns a section under a lock, and a call up to its
yield, is one step.

## Where the code and its intent part

The models follow the code. Where it falls short of what it is for, the project says when it does
and when it does not:

- The queue gives nodes back without the reference counts of the algorithm it follows. With its nodes
  given back and taken again it is a FIFO queue as long as pushes take turns among themselves and pops
  among themselves (`QueueRecycling.TurnsMakeItLinearizable`); with overlapping pushes it can lose an
  element (`RecyclingLosesAnElement`), with overlapping pops a pop can come back with nothing
  (`RecyclingMisreads`), so that turns at both ends are what it takes (`BothEndsMustTakeTurns`). If no node were ever given back, no turns would be needed
  (`Queue.QueueIsLinearizable`).
- The exact-fit branch of the virtual range allocator saves a size for a start and shifts one slot
  too many. `VirtualRanges.CodeAllocCorrectIff` says when it is right all the same; `AllocRepaired`,
  labelled so, is the branch with its evident intent. The theorems about runs are about the repaired
  branch, and about runs of the code as it is in which every allocation is one of those
  (`VirtualRanges.CodeRunIff`).
- A range with no free range above it cannot be freed (`VirtualRanges.FreeActsIff`).
- The physical page allocator's loop has no break (`PhysicalPages.AllocLosesNothingIff`). Its freeing
  loop looks past the end of the table, and goes on there when what it finds reads as more of the
  allocation (`PhysicalPages.FreeKeepsIff`, `RunKeepsIff`), as it does below a range at 16 MB
  (`FreeingLastPageIff`, `FreeBelow16M`).
- The page map accepts the 4 MB below its own tables and breaks itself there
  (`PageMap.MapKeepsSelfMapIff`), and never notices that memory is exhausted
  (`PageMap.EntryIsUsed`, `PageMap.SharedTableAliases`, `PageMap.MapRefinesIff`).
- A thread created anew in a slot starts with an empty small heap; the free chunks the slot's heap had
  are lost (`ThreadHeaps.NothingLostIff`).
- Formatting computes the bitmap's size in 32 bits (`PupFormat.EnoughBitsIff` says for which numbers of
  blocks it is large enough all the same), and clears block 256 whatever the volume's size
  (`PupFormat.StaysInsideIff`).
- A cache miss is not checked again under the lock: a block may be cached twice exactly when two threads
  miss blocks of one group (`CacheSetLock.CachedOnceIff`), and a thread may come back from its second
  lookup without an entry exactly when it is not alone and its group was not cached
  (`CacheSetLock.ComesBackWithoutIff`).
- A stream's offsets wrap at 2^32, which is no multiple of its buffers (`ByteStream.RightBelowWrapIff`,
  `ByteStream.SlipsAfterWrap`).
- Comments in kernel/fs/pup.h and pup.c speak of four blocks to a bitmap byte; the code has eight,
  and so has the model.

## Model

| member | source | states |
|---|---|---|
| Queue.QueueIsLinearizable | kernel/rt/queue.c:89-148 | In every interleaving of any number of pushing and popping threads, as long as no node is given back, each call takes effect at one instant between its call and its return, and the effects in their order are those of a FIFO queue |
| Queue.RunKeeps | kernel/rt/queue.c:89-148 | The invariant of every run: linked nodes form one chain, every thread's registers point where its program counter says, and the queue's contents are what the effects so far leave in a FIFO |
| Queue.PointersOnlyAdvance | kernel/rt/queue.c:96-115 | Between any two points of a run the chain only grows at its end, and prev_head and the lagging tail only move forward on it |
| Queue.NothingIsLost | kernel/rt/queue.c:89-148 | At every instant, what has been pushed is what has been popped followed by what is reachable from prev_head, in order |
| Queue.PopTakesFirst | kernel/rt/queue.c:126-148 | A pop takes effect with NULL exactly at an instant at which the queue is empty, and else with the first element |
| Queue.FifoConserves | kernel/rt/queue.c:89-148 | A sequence of effects that a FIFO accepts has popped a prefix of what it pushed, and holds the rest |
| QueueProgress.SomeCallTakesEffect | kernel/rt/queue.c:89-148 | The queue is lock-free: however the threads are scheduled, between two calls that take effect busy threads take no more steps in all than a bound at the first, so some call takes effect or all are done |
| QueueProgress.TotalBound | kernel/rt/queue.c:89-148 | That bound is at most two steps for each node, and six, for each thread |
| QueueProgress.AloneFinishes | kernel/rt/queue.c:96-115 | From any instant of any run a thread that alone takes steps is done with its push or pop after two for each node, and six |
| QueueRecycling.TurnsMakeItLinearizable | kernel/rt/queue.c:41-148 | With nodes given back and taken again, any number of threads and any interleaving: if no two pushes and no two pops overlap, the calls and returns are those of a FIFO queue, and what was pushed is what was popped followed by what is reachable |
| QueueRecycling.RunContinues | kernel/rt/queue.c:41-148 | The invariant of such runs: live nodes, free nodes and those a thread has to itself are all different, the tail is the last live node unless a push is about to make it so |
| QueueRecycling.PopTakesFirst | kernel/rt/queue.c:126-148 | In such a run a pop takes effect with NULL exactly when the queue is empty, and else with its first element |
| QueueRecycling.BothEndsMustTakeTurns | kernel/rt/queue.c:41-148 | With two threads or more, taking turns at the back, or at the front, or at both, makes every run right exactly when it is at both |
| QueueRecycling.RecyclingLosesAnElement | kernel/rt/queue.c:71-79 | Pops in turn are not enough: a run of two threads with overlapping pushes, whose calls all return, loses one of three pushed elements and leaves the tail node linked to itself |
| QueueRecycling.RecyclingMisreads | kernel/rt/queue.c:139-143 | Pushes in turn are not enough: in a run of two threads with overlapping pops, a pop returns NULL where no FIFO queue could, since its node has been taken again before it reads the item |
| SchedulerRuns.EverySlotInOnePlace | kernel/proc/proc.c:532-617 | In every reachable state each thread slot there was at the start, or that a page taken since has brought, is in exactly one place, and in the pool exactly while no thread lives in it |
| SchedulerRuns.NobodyIsLost | kernel/proc/thread.c:57-99 | Over any run the places hold the slots there were at the start and those of the pages taken, each as often as it was brought, and nothing else |
| SchedulerRuns.EveryRunKeepsPlaces | kernel/proc/proc.c:532-617 | In every reachable state no thread is in two places, and its place, flag, condition and result agree with the life it has led |
| SchedulerRuns.LifeInOrder | kernel/proc/thread.c:236-319 | No thread is destroyed more than once per creation, and none before it has ended and been detached; nothing is created, ended or detached out of order |
| SchedulerRuns.StepKeeps | kernel/proc/thread.c:327-472 | Every single move, of the scheduler, of the cleanup thread or of a running thread, keeps that agreement |
| SchedulerRuns.WakesExactly | kernel/proc/proc.c:545-567 | A wake-up pass makes ready exactly the waiters whose condition is then set; every other waiter waits on, and nobody else is touched |
| SchedulerRuns.JoinersGetTheResult | kernel/proc/thread.c:327-355 | With one joiner for each thread, in every run every join returns the value its thread passed to terminate |
| SchedulerRuns.NoStarvation | kernel/proc/proc.c:572-585 | Whatever the threads do, those dispatched followed by those still ready begin with those that were ready, in order |
| SchedulerRuns.RunsAfterThoseBefore | kernel/proc/proc.c:572-585 | A thread with k others before it in the ready queue is run at the dispatch after those k, and until then is still queued k places behind the next |
| SchedulerCalls.RoundDispatches | kernel/proc/proc.c:532-585 | Each round of the loop switches to the first of the ready threads, or, when there is none, to one that its pass has woken, and goes round again only when there is nobody |
| SchedulerCalls.RunsBehindTheReady | kernel/proc/thread.c:440-503 | A thread that is preempted, or just created, runs when exactly those that were ready before it have run |
| SchedulerCalls.WaitsIff | kernel/proc/thread.c:376-394 | Of waiting for a condition and joining a thread: the caller waits exactly when the condition is not set, or the thread is somebody else's, undetached and has not ended; else it goes on |
| SchedulerCalls.WaitsUntilSet | kernel/proc/proc.c:545-567 | In every run a thread that had to wait is still waiting, at any later instant, unless in between a wake-up pass has found what it waits for |
| SchedulerCalls.InterruptWakes | kernel/proc/proc.c:549-562 | A condition set between two passes wakes those that wait for it and nobody else, and cleared again before the pass it wakes nobody |
| SchedulerCalls.LivesAreTheCalls | kernel/proc/thread.c:57-426 | Over any run, whether a thread lives, is detached, has ended, and with which value, is what the calls made have said, and it is gone only by a cleanup pass after it has ended and been detached |
| SchedulerCalls.JoinerWakesIff | kernel/proc/thread.c:342-345 | With one joiner for each thread, in every run, a thread waiting in a join is woken by the next pass exactly when the thread it joins has called terminate |
| SchedulerCalls.EndedJoinerRuns | kernel/proc/proc.c:545-585 | And then it is run, at the dispatch that has those before it in the ready queue done |
| SchedulerCalls.JoinFinishes | kernel/proc/thread.c:327-355 | A joiner that runs again returns the value its thread has passed to terminate, and the thread is detached and put on the delete list |
| Places.WakeIsExact | kernel/proc/proc.c:550-567 | The wake-up pass moves exactly the waiters whose condition is set and keeps exactly the others |
| Places.WakeTurnsOrder | kernel/proc/proc.c:550-567 | Those that wake are queued in the reverse of their waiting order, those that stay keep theirs |
| Places.WakeConserves | kernel/proc/proc.c:539-567 | A wake-up pass loses and doubles no thread |
| Places.CleanConserves | kernel/proc/proc.c:588-617 | A cleanup pass loses and doubles no thread |
| Places.DispatchConserves | kernel/proc/proc.c:570-585 | A dispatch loses and doubles no thread |
| Places.ReturnConserves | kernel/proc/thread.c:440-471 | A thread coming back, in whichever way, is put in exactly one place |
| Places.CreateConserves | kernel/proc/thread.c:57-99 | Creating a thread adds nobody but the slots of a page taken when the pool was empty |
| Places.DetachConserves | kernel/proc/thread.c:236-248 | Detaching moves an ended thread and loses nobody |
| Scheduler.Core.QueueReadyThread | kernel/proc/thread.c:480-522 | A chain of threads linked through queue_next is appended to the ready list in order, all set ready, all other lists and flags untouched |
| Scheduler.Core.QueueWaitingThread | kernel/proc/thread.c:524-552 | A thread is linked behind the last waiter; the list, its head and last pointer stay well formed |
| Scheduler.Core.QueueDetachedThread | kernel/proc/thread.c:568-591 | A detached thread other than the cleanup thread is pushed on the delete list |
| Scheduler.Core.WakePass | kernel/proc/proc.c:539-567 | One pass over the linked wait list does to the places exactly what Places.Wake says for the conditions then set |
| Scheduler.Core.CleanupPass | kernel/proc/proc.c:588-617 | A turn of the cleanup thread destroys the whole delete list, or nothing without the pool's lock |
| Scheduler.Core.DestroyThread | kernel/proc/thread.c:271-319 | A destroyed thread becomes invalid and is pushed on the pool; an invalid one is left alone |
| Scheduler.Core.DispatchPass | kernel/proc/proc.c:570-585 | The head of the ready list is unlinked and set running; an empty list is left so, with its last pointer reset |
| Scheduler.Core.AfterRun | kernel/proc/thread.c:440-471 | The thread that ran goes, by its state, to the ready, wait or delete list, or to none when it ended undetached |
| Scheduler.Core.CreateThread | kernel/proc/thread.c:57-122 | A thread from the pool, filled from a fresh page of 28 linked slots when empty, becomes ready, undetached, with its condition clear |
| Scheduler.NewPage | kernel/proc/thread.c:67-84 | The slots of a page are linked each to the next, the last to nothing |
| Scheduler.Core.DetachThread | kernel/proc/thread.c:236-248 | An ended thread moves from the unjoined to the delete list; any other is only flagged; a second detach does nothing |
| Scheduler.Core.TerminateThread | kernel/proc/thread.c:409-426 | The running thread's state says whether it was detached, its result is kept unless it was, and its condition is set |
| Scheduler.Core.WaitCondition | kernel/proc/thread.c:376-394 | The running thread has to wait exactly when the condition is not set |
| Scheduler.Core.WaitThread | kernel/proc/thread.c:327-355 | A join is refused for an invalid, own or detached thread, waits for one that goes on, and otherwise takes the result and detaches |
| ThreadQueues.ReadyAppended | kernel/proc/thread.c:480-503 | Writing the last thread's and the new thread's links keeps every list over the one link field well formed |
| ThreadQueues.HeadDispatched | kernel/proc/proc.c:572-579 | Taking the ready head keeps every list well formed and no thread in two of them, and loses none |
| VirtualRanges.AllocKeeps | kernel/mem/mngr.c:36-66 | Allocation, with the exact-fit branch repaired, keeps free and used ranges sorted, disjoint, apart, the free ones coalesced, and the managed pages the same |
| VirtualRanges.FreeKeeps | kernel/mem/mngr.c:97-217 | All four merge cases, and the cases in which nothing happens, keep the same |
| VirtualRanges.CodeAllocCorrectIff | kernel/mem/mngr.c:25-70 | The allocator as written leaves well-formed lists of the same pages exactly when no range fits, or a strict fit is asked for by a request that is not empty, or the slot past the end happens to hold the range taken whole with no used range above it |
| VirtualRanges.ExactFitLosesPages | kernel/mem/mngr.c:52-66 | Two free ranges and a used one for which an exact fit loses pages, whatever lies past the end |
| VirtualRanges.AllocatedPagesWereFree | kernel/mem/mngr.c:29-50 | The pages handed out were free and in no live range, and are used afterwards |
| VirtualRanges.PagesHold | kernel/mem/mngr.c:16-21 | The pages taken for a request hold it and less than 4096 bytes more |
| VirtualRanges.AllocInBytes | kernel/mem/mngr.c:13-70 | In bytes, with the exact-fit branch repaired: the address is that of the first free range with room, and a used range starts there that holds the request and less than a page more; null and no change exactly when there is no room |
| VirtualRanges.AllocByCodeInBytes | kernel/mem/mngr.c:13-70 | The same of the code as it is, when the range found is left with a page at least |
| VirtualRanges.Canonical | kernel/mem/mngr.c:117-213 | Two coalesced free lists of the same pages are the same list, entry for entry |
| VirtualRanges.FreeUndoesAlloc | kernel/mem/mngr.c:13-217 | Freeing what an allocation just returned restores both lists entry for entry, exactly when the fit was strict or a free range lies above |
| VirtualRanges.FreeActsIff | kernel/mem/mngr.c:109-122 | Free does something exactly when a live range starts at the address and some free range starts above it |
| VirtualRanges.CountBounded | kernel/mem/mngr.c:36-66 | There are never more ranges than managed pages |
| VirtualRanges.RunKeeps | kernel/mem/mngr.c:13-217 | Over any run of allocations and frees: well-formed lists, the same pages, no more ranges than pages |
| VirtualRanges.AllFreedRestores | kernel/mem/mngr.c:13-217 | A run that begins and ends with nothing in use ends in the very list it began with |
| VirtualRuns.NoPageGivenTwice | kernel/mem/mngr.c:13-217 | Over any run a page is in use exactly when it has been handed out once more than given back, where a range is given back exactly when it is freed by its first page with a free range above it |
| VirtualRanges.CodeRunIff | kernel/mem/mngr.c:13-217 | A run of the code's own allocations and frees keeps the lists well formed, of the same pages, after every call exactly when each allocation is one of those CodeAllocCorrectIff allows; and then it does what the repaired code does |
| VirtualRanges.CodeRunKeeps | kernel/mem/mngr.c:13-217 | Such a run has the same pages at its end and no more ranges than pages |
| VirtualRanges.CodeRunRestores | kernel/mem/mngr.c:13-217 | Such a run that begins and ends with nothing in use ends in the very list it began with |
| VirtualRanges.RangeList.Alloc | kernel/mem/mngr.c:13-75 | The code's allocator on the one array, shifting loops and all, does what AllocByCode says; in bytes, it returns the address of the first free range with room and, on a strict fit, leaves a used range there that holds the request and less than a page more |
| VirtualRanges.RangeList.AllocRepaired | kernel/mem/mngr.c:13-75 | The repaired allocator on the array does what AllocLists says; in bytes, whenever there is room a used range at the address returned holds the request and less than a page more |
| VirtualRanges.RangeList.Free | kernel/mem/mngr.c:97-217 | Free on the array, with its in-place merges and shifts, does what FreeLists says |
| VirtualRanges.RangeList.UsedRangeIndex | kernel/mem/mngr.c:77-95 | The index found is that of the first used range at or above the page |
| VirtualRanges.RangeList.GiveBackAt | kernel/mem/mngr.c:125-209 | The four merge cases as updates of the array |
| PhysicalPages.RunKeepsIff | kernel/mem/mngr.c:252-429 | Over a run, in every state every page is on its range's stack exactly once with the table saying where, or used, exactly when no free of the run goes past the end of a table |
| PhysicalPages.RunKeeps | kernel/mem/mngr.c:252-274 | Then no stack ever exceeds its range |
| PhysicalRuns.NoPageGivenTwice | kernel/mem/mngr.c:252-429 | Over any run that stays inside the tables no page is handed out twice without having been freed in between; and the pages in use are exactly those handed out and not freed, as long as each allocation finds free pages in one range at most |
| PhysicalPages.FreeKeepsIff | kernel/mem/mngr.c:397-421 | A free keeps all ranges in order exactly when the allocation does not reach the last page, or what lies past the table does not read as used and not head |
| PhysicalPages.FencedIsInside | kernel/mem/mngr.c:417-419 | No free goes past a table while nothing past the tables reads as the continuation of an allocation |
| PhysicalPages.FreeingLastPageIff | kernel/mem/mem.c:323-331 | As start-up lays them out, after a table comes the stack of the next range that has pages: freeing the last page of a range keeps all in order exactly when the lowest word of that stack, or what is there when the stack is empty, does not have bit 24 set and bit 25 clear |
| PhysicalPages.EntryWord | kernel/mem/defs.h:51-57 | What a table entry reads from a word: 24 bits of index, then used, head and the other flags, with nothing lost |
| PhysicalPages.FreeBelow16M | kernel/mem/mngr.c:417-419 | A page just below 15 MB and a range at 16 MB: freeing the page goes past the table |
| PhysicalPages.StackHasRoom | kernel/mem/mngr.c:397-414 | A used page leaves room on the stack, so the overflow check never fires |
| PhysicalPages.AllocGivesFreePage | kernel/mem/mngr.c:252-274 | What is returned was not in use and now is; null is returned exactly when every range is empty; pages in use stay so |
| PhysicalPages.AllocLosesNothingIff | kernel/mem/mngr.c:256-269 | Since the loop has no break, only the page returned becomes used exactly when at most one range has free pages |
| PhysicalPages.SecondPageLost | kernel/mem/mngr.c:256-269 | Otherwise some page becomes used that nobody was given |
| PhysicalPages.FreeingFreePage | kernel/mem/mngr.c:381-429 | Freeing a page that is not in use changes nothing |
| PhysicalPages.FreeingUsedPage | kernel/mem/mngr.c:381-429 | While single pages are handed out, freeing a used page frees it and no other, exactly when it is not the last of its range or what lies past the table does not read as more of it |
| PhysicalPages.FreesTheAllocation | kernel/mem/mngr.c:381-429 | Allocations of several pages too: a free that does not run over takes out of use exactly the pages of the allocation that begins at the page given, up to the next one's head or a free page |
| PhysicalPages.InRangeIs | kernel/mem/mngr.c:385-397 | The pages of a range are the multiples of 4096 from its base on, as many as its table has entries |
| PhysicalPages.FreeUndoesAlloc | kernel/mem/mngr.c:252-429 | With one supplying range, freeing the page just returned restores stacks and tables entry for entry, exactly when the free does not go past the table |
| PhysicalPages.FreshIsGood | kernel/mem/mem.c:309-343 | The stack and table a range starts with are well formed |
| PhysicalMemory.PhysicalRanges.AllocPhysicalPage | kernel/mem/mngr.c:252-274 | The loop over the ranges does what PopAll and Returned say |
| PhysicalMemory.PhysicalRanges.FreePhysicalPages | kernel/mem/mngr.c:381-429 | The search for the range and the freeing loop do what FreePages says, and whether the loop goes on past the table is exactly RunsOver |
| PhysicalMemory.PhysicalRange.Release | kernel/mem/mngr.c:399-419 | The freeing loop pushes the page and those of its allocation after it, and goes on past the table exactly when Overruns says so |
| SmallHeap.PageIsTiled | kernel/rt/alloc.c:103-171 | For every main bucket, each byte of a page behind its header lies in exactly one chunk of the layout |
| SmallHeap.ChunksAreAligned | kernel/rt/alloc.c:213-225 | A chunk is aligned to its size, lies inside its page, and is never page aligned; its size is that of the bucket computed from its address |
| SmallHeap.CutOnce | kernel/rt/alloc.c:117-170 | Cutting a page gives each bucket exactly the chunks of its size that the layout has, each once |
| ThreadHeaps.RunTiles | kernel/rt/alloc.c:90-284 | Over any run of any number of threads, each allocating from its own heap and freeing chunks of whatever thread into its own, all free lists, live chunks and lost ones are exactly the chunks of all heap pages, each once, each in a list of its own size |
| ThreadHeaps.NothingLostIff | kernel/proc/thread.c:98-102 | No free chunk is lost exactly when threads are created anew only in slots whose heaps have no free chunk |
| ThreadHeaps.NoLossWithoutRecreation | kernel/rt/alloc.c:90-284 | While no thread is created in a slot used before, whoever frees what, the lists and live chunks alone tile all heap pages |
| ThreadHeaps.LiveApart | kernel/rt/alloc.c:173-284 | In every such run no two live chunks overlap, whoever holds them, and none is free anywhere |
| ThreadHeaps.RequestFits | kernel/rt/alloc.c:173-264 | At any instant of such a run a request makes live one chunk that was not, of the smallest size that holds it, and changes no other |
| ThreadHeaps.ReleasedComesBack | kernel/rt/alloc.c:173-243 | A thread that frees a chunk, whoever allocated it, gets that very chunk for its next request of the size, and all heaps are as they were |
| SmallHeap.EveryByteOnce | kernel/rt/alloc.c:103-243 | Every byte of a heap page is in exactly one chunk, and that is free or live |
| SmallHeap.LiveChunksApart | kernel/rt/alloc.c:173-204 | Live chunks do not overlap, are aligned to their size and stay inside their page |
| SmallHeap.AllocationIsFresh | kernel/rt/alloc.c:173-204 | An allocation returns a chunk that was not live, of the bucket asked for, and changes no other live chunk |
| SmallHeap.FreeUndoesAlloc | kernel/rt/alloc.c:173-243 | Freeing a chunk just allocated gives back the very same heap |
| SmallHeap.FreedTiles | kernel/rt/alloc.c:213-243 | The bucket recovered from address and header is the chunk's own, and freeing keeps the tiling |
| SmallHeap.BucketFits | kernel/rt/alloc.c:90-101 | The bucket of a request is the smallest that holds it |
| Allocator.Buckets.SmallBucketIndexFromSize | kernel/rt/alloc.c:90-101 | The loop over the table finds that bucket |
| Allocator.Buckets.InitChunkPage | kernel/rt/alloc.c:103-171 | Both loops, whose offsets never go below zero, link exactly the layout's chunks behind the bucket lists |
| Allocator.Buckets.CutMain | kernel/rt/alloc.c:109-139 | The first loop makes one chain of the main chunks, from the end of the page down |
| Allocator.Buckets.CutRest | kernel/rt/alloc.c:153-170 | The second loop reaches zero with one chunk linked for each smaller size |
| Allocator.Buckets.SmallAlloc | kernel/rt/alloc.c:173-204 | The first chunk of the bucket's list is unlinked, after a page is cut for an empty one; too big a request gets NULL |
| Allocator.Buckets.SmallFree | kernel/rt/alloc.c:213-243 | A chunk goes to the front of the list of the bucket that its address and its page's header give |
| Allocator.Buckets.Malloc | kernel/rt/alloc.c:245-264 | Zero gets NULL, up to 2048 a chunk at least that large and of no larger bucket than needed, more the big heap |
| Allocator.Buckets.Free | kernel/rt/alloc.c:266-278 | The address alone sends a chunk to the heap it came from; NULL changes nothing |
| PageMap.MapRefines | kernel/mem/pmap.c:18-82 | Below the last slot before the self map, mapping succeeds exactly on absent pages and adds that page alone to what the processor's walk finds |
| PageMap.UnmapRefines | kernel/mem/pmap.c:84-115 | Unmapping succeeds exactly on present pages and takes away that page alone |
| PageMap.QueriesAgree | kernel/mem/pmap.c:117-180 | Translation and the mapped test, made through the self map by the kernel's own bit, agree with the processor's walk by the present bit; which address comes out is said by MappingTranslates |
| PageMap.MappingTranslates | kernel/mem/pmap.c:18-154 | After mapping a page to any multiple of 4096, every linear address of that page, and no other, translates to that physical address, and the entry's flags are those asked for with present, read/write and used, and no others |
| PageMap.UnmappingTranslates | kernel/mem/pmap.c:84-154 | After unmapping a page no address of it translates, and every other as before |
| PageMap.EntryCarries | kernel/mem/pmap.c:30-78 | Whatever the physical address, an entry has all the flags asked for and present, read/write and used |
| PageMap.ForbiddenChangesNothing | kernel/mem/pmap.c:20-23 | Null and addresses from 0xffc00000 on are refused by all four operations, with nothing changed, and no others |
| PageMap.BigPageIsWhole | kernel/mem/pmap.c:61-115 | A directory slot that maps 4 MB is found mapped, takes no small page, and is unmapped as a whole with no other slot changed |
| PageMap.RunRefines | kernel/mem/pmap.c:18-115 | After any run the tables mean exactly the finite map that the same operations build, operations on null and on the tables' own addresses meaning nothing |
| PageMap.TableIsInvisible | kernel/mem/pmap.c:33-59 | Giving a directory slot a table changes nothing the processor finds |
| PageMap.EntryIsUsed | kernel/mem/pmap.c:30-46 | An entry carries both the kernel's bit and the processor's and is never zero, so the out-of-memory status is never returned |
| PageMap.MapKeepsSelfMapIff | kernel/mem/pmap.c:20-52 | A mapping keeps the tables reachable exactly when it is below 0xff800000; the code admits the 4 MB above |
| PageMap.SharedTableAliases | kernel/mem/pmap.c:40-58 | A frame used for two tables, as the null page is when memory is exhausted, makes one mapping appear in both slots and wipes the other's |
| PageMap.MapRefinesIff | kernel/mem/pmap.c:18-82 | With a frame that can hold a table, mapping refines the finite map exactly when no table is needed or no other slot has that frame for one |
| PageMap.BootIsValid | kernel/mem/mem.c:374-385 | The tables built at boot are well formed and map nothing |
| PageMap.ActivePageMap.MapLinearAddress | kernel/mem/pmap.c:18-82 | The code, with its zeroing loop through the new table's own address, does what MapAddress says, at any address and with any frame that can hold a table |
| PageMap.ActivePageMap.UnmapLinearAddress | kernel/mem/pmap.c:84-115 | The code does what UnmapAddress says |
| PupCache.LoadKeeps | kernel/fs/pup.c:439-482 | Bringing an entry in changes no block's contents, and no block is cached twice |
| PupCache.WriteChangesOne | kernel/fs/pup.c:657-662 | Writing a cached block changes its contents alone |
| PupCache.FlushKeeps | kernel/fs/pup.c:325-336 | A flush changes no contents and leaves on the disk exactly the contents |
| PupCache.RemountRestores | kernel/fs/pup.c:18-69 | Unmount and mount bring back the root, the bitmap and all contents outside the bitmap, though the flush first writes the stale bitmap blocks that the root node's entry holds |
| PupCache.RunContents | kernel/fs/pup.c:18-69 | Through any mix of loads, writes, flushes and remounts a block outside the bitmap holds what was last put there, and the bitmap what was last marked |
| PupCache.MountShowsDisk | kernel/fs/pup.c:18-55 | A mounted volume's contents are its disk, its root and bitmap are read from where they are, and of the cache there is the root node's entry |
| PupCache.MountedVolume.PupRead | kernel/fs/pup.c:584-616 | The copying loop returns the contents of every block asked for, across entries, and changes none |
| PupCache.MountedVolume.FindOrLoadCacheEntry | kernel/fs/pup.c:439-482 | The entry that holds the block is found, or read from the disk and linked last |
| PupCache.MountedVolume.FindCacheEntry | kernel/fs/pup.c:402-437 | The walk stops at the first entry that holds the block |
| PupCache.MountedVolume.FlushCache | kernel/fs/pup.c:325-336 | The loop writes every entry back |
| PupCache.MountedVolume.UnmountVolume | kernel/fs/pup.c:57-69 | The cache is flushed first and the bitmap written over it |
| PupFormat.LayoutFitsIff | kernel/fs/pup.c:76-90 | For every number of blocks, the regions follow each other inside the volume exactly when there are at least four |
| PupFormat.EnoughBitsIff | kernel/fs/pup.c:81-90 | With k times 2^20 blocks and r more, the bitmap has a bit for every allocatable block exactly when k is zero, or r reaches a threshold computed from k and is not in one of six slivers above it |
| PupFormat.EnoughBitsBounds | kernel/fs/pup.c:81-90 | Short of 256 blocks for each wrap the bits are too few; from 257 for each and 8 more on they are enough |
| PupFormat.StaysInsideIff | kernel/fs/pup.c:92-120 | Formatting leaves alone what lies past the volume exactly when the volume has more than 256 blocks, since it clears the block of that number for the root node's |
| PupFormat.FormatMounts | kernel/fs/pup.c:71-122 | A volume just formatted mounts with its layout, an empty bitmap, its root node in place and all else untouched |
| PupFormat.RestStays | kernel/fs/pup.c:107 | Of block 0 formatting writes the 64 bytes of the root and no other |
| PupFormat.RootReadBack | kernel/fs/pup.c:107 | The root written at the start of block 0 is the root read back |
| PupFormat.RootBytes | kernel/fs/pup.c:107 | On the disk the name is followed by root node, bitmap start, bitmap blocks, first allocatable block and block count, each in eight bytes with the least first |
| CacheSlab.NeverHandedOutTwice | kernel/fs/pup.c:194-323 | Over any run an entry has been handed out as often as given back, or once more while it is live |
| CacheSlab.AllocIsFresh | kernel/fs/pup.c:194-246 | An allocation returns an entry that was not live and changes no other |
| CacheSlab.FreeIsExact | kernel/fs/pup.c:263-323 | Freeing takes exactly that entry out of the live ones, also when its page leaves the list |
| CacheSlab.SearchMissesNothing | kernel/fs/pup.c:203-233 | A page is added exactly when every page is full, though the search only goes forward |
| CacheSlab.RunKeeps | kernel/fs/pup.c:194-323 | In every run every page before the current one is full and pages and spares are all different |
| CacheSlab.NoPageIdle | kernel/fs/pup.c:263-311 | In every run no page of the list has all its entries free, unless it is the only one |
| CacheSlab.PagesStay | kernel/fs/pup.c:203-311 | No page is ever dropped, and a new one comes in exactly when every page is full and none is spare |
| EntryPages.LinkShows | kernel/fs/pup.c:160-192 | Linking a page behind the last keeps the doubly linked list well formed, with index equal to position |
| EntryPages.CutShows | kernel/fs/pup.c:275-311 | Renumbering and unlinking an empty page keeps the same, and chains it before the spare pages |
| EntryPages.GiveShows | kernel/fs/pup.c:269-318 | Giving an entry back to a page that stays keeps the same, and makes an earlier page the current one |
| EntryPages.EntrySlab.AllocCacheEntry | kernel/fs/pup.c:194-246 | The search and the page list in memory do what CacheSlab.Alloc says |
| EntryPages.EntrySlab.FreeCacheEntry | kernel/fs/pup.c:263-323 | The pointer updates in memory do what CacheSlab.Free says |
| EntryPages.EntrySlab.InitCacheEntryPage | kernel/fs/pup.c:160-192 | A page becomes the last one, with all entries free and its position for an index |
| CacheSetLock.MutualExclusion | kernel/rt/atm_a.asm:175-233 | In every interleaving the spinlock has one holder at most, keeps its upper bits, and read_count is the number of threads traversing the set |
| CacheSetLock.NoLinkWhileWalking | kernel/fs/pup.c:412-434 | No entry is linked while any thread traverses the set |
| CacheSetProgress.NoDeadlock | kernel/fs/pup.c:402-526 | From every reachable state there is a way on by which all threads come back: the writer that waits for readers and the readers never block each other |
| CacheSetLock.RunKeeps | kernel/fs/pup.c:402-526 | The invariant of the protocol: who holds the lock, who reads, and what each thread last saw of the lock word |
| CacheSetLock.CachedOnceIff | kernel/fs/pup.c:439-482 | From any start with aligned, different entries, every interleaving leaves the entries different exactly when no two threads look for blocks of one group that is in no entry |
| CacheSetLock.CachedOnce | kernel/fs/pup.c:439-482 | If no two threads miss blocks of one group, in no interleaving is a block cached twice |
| CacheSetLock.TwoMissesLinkTwice | kernel/fs/pup.c:444-456 | Any two threads that miss blocks of one group can both link an entry for it, since a miss is not checked again under the lock |
| CacheSetLock.ComesBackWithoutIff | kernel/fs/pup.c:444-476 | A thread can come back from its second lookup without an entry, which the code then follows, exactly when its block's group was not cached and there is another thread |
| BlockBitmap.AllocationsAreDistinct | kernel/fs/pup.c:664-700 | Whatever the interleaving, no block is handed out twice, and each was free and is in [alloc_start, block_count) |
| BlockBitmap.TakesLowest | kernel/fs/pup.c:678-697 | A block is taken at an instant when it is the lowest free one; null is returned only when none is free |
| BlockBitmap.EverySearchEnds | kernel/fs/pup.c:678-697 | The threads take no more steps in all than a measure of clear bits and searches under way; a failed swap restarts but costs somebody else's success |
| BlockBitmap.StartMeasure | kernel/fs/pup.c:678-697 | What that bound is at the start |
| BlockBitmap.RunKeeps | kernel/fs/pup.c:664-700 | The invariant of every interleaving: bits below a thread's index are set, links handed out are distinct and were free |
| BlockBitmap.AllocBlock | kernel/fs/pup.c:664-700 | Alone, the loop returns the lowest free block and adds 2^(j % 8) to byte j / 8 for it, or returns null, and changes nothing else |
| BlockBitmap.IsSetCounts | kernel/fs/pup.c:683-685 | Block j is taken exactly when 2^(j % 8) is in the number of byte j / 8 |
| BlockBitmap.MarkedAdds | kernel/fs/pup.c:685-689 | Taking a free block adds 2^(j % 8) to byte j / 8 and changes no other byte |
| ByteStream.StreamIsFifo | kernel/io.c:94-250 | For any mix of write and read sizes of fewer than 2^32 bytes in all, the bytes read are a prefix of the bytes written, and available_count is the difference |
| ByteStream.ReadGetsNext | kernel/io.c:94-177 | At any instant of such a run a read gets the next bytes written, as many as it asks for, or all there are |
| ByteStream.RightBelowWrapIff | kernel/io.c:94-250 | All runs of so many bytes at most deliver a prefix of what was written and count the rest, exactly when that is fewer than 2^32 bytes |
| ByteStream.SlipsAfterWrap | kernel/io.c:133-147 | A run that reads everything up to 32 bytes before the wrap, writes 33 and 1 more and reads those: a byte comes out wrong, since the place in the buffer is taken from an offset that has wrapped |
| ByteStream.AllWritten | kernel/io.c:218-241 | The writing loop appends its data across buffer boundaries; the write cursor sits at offset / buffer size |
| ByteStream.AllRead | kernel/io.c:130-149 | The reading loop returns the next bytes written; the buffer it moves to always exists |
| ByteStream.WriteStreamData | kernel/io.c:195-250 | The status checks in their order, and the writing loop on the chain in place, offsets wrapping or not |
| ByteStream.ReadStreamData | kernel/io.c:94-177 | The status checks in their order, and the reading loop, cut down to what is available |
| Decimal.ItoA | kernel/rt/string.c:181-242 | Every 32-bit number, the smallest included, is printed when it fits with the terminator: a minus sign if it is negative, then the fewest digits that are worth its size; otherwise the statuses say why and nothing is written |
| Decimal.SignedShows | kernel/rt/string.c:196-227 | What is printed of a negative number is a minus sign and then digits worth the number's opposite, and no fewer digits are |
| Decimal.ShownOnce | kernel/rt/string.c:196-227 | There is only one such string for a number |
| Decimal.PrintDigits | kernel/rt/string.c:217-227 | The loop over the digit table prints the digits, never indexing the table out of range |
| Decimal.DigitsAreShortest | kernel/rt/string.c:203-207 | No string of digits with the same value is shorter |
| Decimal.DigitsValue | kernel/rt/string.c:217-227 | The digits are worth the number |
| Decimal.AtoI | kernel/rt/string.c:145-179 | A string of digits gives its value as a 32-bit word; anything else, and no string, is refused |
| Decimal.ParseGives | kernel/rt/string.c:163-176 | The number parsed is the signed 32-bit one that differs from the digits' value by a multiple of 2^32 |
| Decimal.ParseUndoesPrintIff | kernel/rt/string.c:145-242 | Parsing undoes printing exactly on the numbers that are not negative; a sign is refused |

## Left out

- Queue.QueueIsLinearizable: is about runs in which no node is given back; QueueRecycling has those in which nodes are. Taking a node from a page and giving it back are each one step, and the free list always goes on with the next node never used.
- QueueProgress.SomeCallTakesEffect: about runs in which no node is given back, like QueueIsLinearizable.
- QueueRecycling.TurnsMakeItLinearizable: about runs that take turns at both ends; single runs that do not may still come out right.
- SchedulerRuns.EveryRunKeepsPlaces: a thread is not preempted inside k_proc_TerminateThread between its state and its condition.
- SchedulerRuns.JoinersGetTheResult: assumes one joiner for each thread, and that nobody detaches a thread that is being joined.
- SchedulerCalls.JoinerWakesIff: assumes the same, as do EndedJoinerRuns and JoinFinishes; WakesExactly and WaitsUntilSet assume nothing of the kind.
- Scheduler.Core.CreateThread: the stack and register image of a new thread are not modelled; what becomes of its small heap is in ThreadHeaps.
- Scheduler.NewPage: a fresh slot reads as an invalid thread; the code leaves what was in memory, and hands out no slot before it has been filled.
- Scheduler.Core.WaitThread: what follows the wait is TakeResult, called when the thread runs again.
- VirtualRanges.RunKeeps: is about the repaired exact fit and requests of at least one page, and so is VirtualRuns; CodeRunKeeps is about the code as it is.
- PhysicalPages.FreeUndoesAlloc: supposes one range with free pages left, because with more the allocation loses pages.
- PhysicalMemory.PhysicalRange.Release: what the loop overwrites past the arrays is not modelled, only that it goes there.
- PageMap.RunRefines: 4 KB pages not in the 4 MB that MapKeepsSelfMapIff is about, and a spare frame whenever a table is needed; no caller maps big pages.
- Allocator.Buckets.InitChunkPage: the prev links of chunks are written and never read, and are left out; the big heap is a supply of fresh aligned pages.
- PupCache.RunContents: one thread, and nobody overwrites block 0 or the bitmap's blocks through the cache.
- CacheSetLock.RunKeeps: linking an entry is one step of the thread that holds the lock; reading the blocks in and the wait for them are not modelled.
- CacheSetProgress.NoDeadlock: says that a way on exists; a thread that spins on the lock may be overtaken without end.
- CacheSetLock.CachedOnceIff: each thread looks one block up, starting with nobody in the set.
- EntryPages.EntrySlab.AllocCacheEntry: a page's own list of free entries is a sequence of slots; the fields reset in an entry are not modelled.
- BlockBitmap.AllocationsAreDistinct: blocks are not freed; k_fs_PupFreeBlock takes its bit from the byte index and nothing is stated of it.
- ByteStream.StreamIsFifo: fewer than 2^32 bytes in all, since with more it is false; a fresh buffer has no next one; buffers are never dropped, because the flag for it is masked off.
- Decimal.AtoI: a signed overflow, undefined in C, wraps.
- Drivers, interrupts, context switches, the boot code and the shell: hardware effects and user interface.
- The directory tree, paths and files of the PUP file system: mostly commented out.
- Spinlocks outside the cache set: sections under a lock are single steps.
- kernel/rt/pool.c, kernel/rt/objlist.c, kernel/dev/dsk.c, kernel/fs/fs.c: weaker copies of the page slab, which is modelled where it is complete.
