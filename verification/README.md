# Zoom OS kernel: verified models

Dafny models of the parts of the Zoom OS kernel whose correctness depends on whole runs rather than on one call, with proofs about every run.

| file | models |
|---|---|
| `Ranges.dfy`, `Coalescing.dfy` | address ranges and their canonical form; the stable sort and the pairwise merge |
| `BootFrames.dfy`, `SmartFrames.dfy`, `FrameRuns.dfy`, `TwoStages.dfy` | the two-stage physical frame allocator |
| `Alignment.dfy` | `align_up` on 64-bit words, memory layouts |
| `LinkedListHeap.dfy`, `LinkedListAllocators.dfy` | the linked-list heap with its nodes inside free memory |
| `BlockHeap.dfy`, `BlockAllocators.dfy` | the fixed-size block allocator in front of a fallback heap |
| `Executor.dfy` | the task executor, its wakers, the keyboard stream and its interrupt |
| `AsyncMutex.dfy` | the async mutex and its waker list |
| `OnceLock.dfy` | one-time initialisation |
| `SleepService.dfy` | the sleep service and the clock interrupt |
| `PixelRows.dfy`, `Framebuffer.dfy` | the double-buffered display |
| `Options.dfy`, `Sequences.dfy`, `Bytes.dfy`, `Words.dfy` | optional results, facts about lists, memory as bytes and the words in it |

Code that runs on its own (frame, heap and block allocators, the display, the service map of the sleep code) is modelled by classes and loops whose methods are proved against specification functions; the runs of those functions are then reasoned about as lemmas. Code that is interleaved with interrupts or other threads (executor and keyboard, mutex, once-lock, sleepers against the clock) is modelled as a step machine: one step per atomic operation of the source, the state holding where each thread is, and theorems over every sequence of enabled steps. Interrupt handlers run as one step, since they run with interrupts off on the only processor. Queues (`SegQueue`, `ArrayQueue`), `AtomicWaker` and `enable_and_hlt` are atomic steps. The weak compare-exchange may fail at any time.

What comes from outside is a parameter: the frames the heap set-up takes, the fallback heap's answers (any answer its contract allows), the scancodes and wake-ups that interrupts bring, the tasks other than the keyboard's, and the end tick of a sleep.

Where the code and its intent differ, the model follows the code and states exactly when the intent holds:

- `SmartFrameAllocator::init` keeps the remaining regions that are *not* usable. `OnlyUsableIff` says when the second stage owns only usable memory.
- `coallesce` can leave two touching ranges apart (`BlockedExample`). `CoalescedCanonicalIff` says exactly when it does; on every run of the allocator it does not (`DeallocateCanonical`).
- `containing_address` rounds down. `FramesInsideIffAligned` and `FrameFreeIff` say when a frame is free memory; `MixedSizesOverlap` shows two frame sizes handing out the same memory.
- `align_up` wraps. `AlignUpLeastIff` and `StartInsideIffNoWrap` say when it is right; `WrappedStartEscapesRegion` shows what happens otherwise.
- `wake_sleep` looks at the latest deadline, so a sleeper can be arbitrarily late (`SleeperCanBeLate`). `PassIsAllOrNothing` says exactly when a due sleeper is woken.
- A block freed into a full class goes back with the caller's size. `FreeReturnsOnlyLent` says exactly what is forgotten.
- `try_init_once` reports success to callers that lost the race (`LoserAlsoReportsSuccess`). `SuccessMeansOwnIff` says exactly when success means that the caller's own initialiser ran.
- The mutex can lose a wake-up (`WakeupLostFromStart`). `NoWakeupLostIff` says exactly when it does; on one processor, where polls do not interleave, it cannot (`AtomicPollsLoseNoWakeup`).
- The mutex is not fair (`OrderOfArrivalLost`). `TurnKeptIff` says exactly when a woken waiter keeps its turn.
- `wake_sleep` panics if the weak exchange of `try_lock` fails for no reason, and only then (`SleepersSafe`).
- `sleep_if_idle` looks at the task queue only. `HaltedSpawnsAreLate` says exactly which spawned tasks wait through a halt.

## Model

| member | source | states |
|---|---|---|
| Coalescing.StableSortFacts | kernel/src/memory.rs:128 | sorting by start gives a sorted permutation in which ranges with equal starts keep their order |
| Coalescing.StableSortUnique | kernel/src/memory.rs:128 | there is only one such list, so the result does not depend on the library's algorithm |
| Coalescing.CoalescedCovers | kernel/src/memory.rs:127-144 | sort, merge and filter neither lose nor invent an address |
| Coalescing.CoalescedCanonicalIff | kernel/src/memory.rs:127-144 | for every list of ranges that do not overlap, the result is sorted, non-empty, disjoint and fully merged exactly when no emptied range is listed after a range that starts at its address and touches a range on either side |
| Coalescing.BlockedExample | kernel/src/memory.rs:131-139 | four ranges for which the merge leaves two touching ranges apart |
| Ranges.CanonicalUnique | kernel/src/memory.rs:127-144 | a set of addresses has exactly one canonical list |
| BootFrames.BootInfoFrameAllocator.constructor | kernel/src/memory.rs:45-50 | a fresh walk has every frame of every usable region left to give, in map order |
| BootFrames.BootInfoFrameAllocator.AllocateFrame | kernel/src/memory.rs:54-90 | a call returns the first frame of what is left and leaves the rest, resumably, or none when nothing is left; the nested loops terminate |
| BootFrames.BootInfoFrameAllocator.NextUsableRegion | kernel/src/memory.rs:75-87 | the inner loop stops at the next usable region or at the end of the map without losing a pending frame |
| BootFrames.BootInfoFrameAllocator.AllocateFrames | kernel/src/allocator.rs:29-38 | any number of calls returns the specified list in order, then none for ever |
| BootFrames.AllFramesMembers | kernel/src/memory.rs:54-90 | on an aligned map a frame is handed out exactly when it is a whole frame inside a usable region |
| BootFrames.AllFramesDistinct | kernel/src/memory.rs:54-90 | on a valid map no frame is handed out twice |
| BootFrames.AllFramesAscending | kernel/src/memory.rs:54-90 | frames come in map order: in ascending order on a map sorted by address |
| BootFrames.FramesInsideIffAligned | kernel/src/memory.rs:68 | the frames taken from a region all lie inside it exactly when it starts on a frame boundary |
| BootFrames.HandedAndPending | kernel/src/memory.rs:33-36 | wherever the walk stopped, handed-out and pending frames make up the whole list |
| SmartFrames.SmartFrameAllocator.constructor | kernel/src/memory.rs:105-125 | the new list is the non-usable regions not yet reached followed by the rest of the current region, and the frames used for the heap are the first ones of the walk |
| SmartFrames.KeepRemaining | kernel/src/memory.rs:113-119 | the loop collects exactly the ranges of the remaining non-usable regions, in order |
| SmartFrames.FirstFit | kernel/src/memory.rs:149-156 | the position found is the first with room for a frame, or none has room |
| SmartFrames.SmartFrameAllocator.AllocateFrame | kernel/src/memory.rs:148-158 | shrinks the first range that fits from its front and returns the frame containing its start |
| SmartFrames.SmartFrameAllocator.Coallesce | kernel/src/memory.rs:127-144 | the loop computes the drop-empty of the merge of the stable sort |
| SmartFrames.SmartFrameAllocator.DeallocateFrame | kernel/src/memory.rs:162-166 | the frame is pushed and the list coalesced; of a list of forward-running ranges exactly the addresses of the frame are added to those it covers |
| FrameRuns.AllocateTakesFirstFree | kernel/src/memory.rs:148-158 | on every run allocation takes the first non-empty range, returns exactly the piece it cuts off, and fails only when no address is free |
| FrameRuns.AllocateKeepsInv | kernel/src/memory.rs:148-158 | allocation keeps the run invariant and returns a frame nobody holds |
| FrameRuns.DeallocateCanonical | kernel/src/memory.rs:162-166 | a free leaves a canonical list covering exactly the old addresses and the freed frame |
| FrameRuns.DeallocateKeepsInv | kernel/src/memory.rs:162-166 | a free keeps the run invariant |
| FrameRuns.EveryRun | kernel/src/memory.rs:147-167 | on every run of one frame size: free and held frames partition what `init` built, allocation returns a free unheld frame or nothing is free, and the list after a free is the only canonical one |
| TwoStages.InitialCovers | kernel/src/memory.rs:113-122 | an address belongs to the second stage exactly when it is in an unreached non-usable region or in the rest of the current region |
| TwoStages.InitialRangesStart | kernel/src/memory.rs:105-125 | the list built by `init` meets the run invariant on every valid map, even when it ends in an emptied range |
| TwoStages.FirstFrameOfSecondStage | kernel/src/memory.rs:113-122 | the first frame the second stage hands out is the start of the first unreached region that is not usable, and only without one the start of what is left of the walk's current region, or none |
| TwoStages.NoFrameHeldTwice | kernel/src/memory.rs:53-167 | across both stages and every run, boot frames, held frames and free ranges share no address |
| TwoStages.OnlyUsableIff | kernel/src/memory.rs:113-119 | the second stage owns only usable memory exactly when every unreached region is usable |
| TwoStages.MixedSizesOverlap | kernel/src/memory.rs:150-155 | after one 4 KiB frame a 2 MiB allocation returns a frame that contains it |
| TwoStages.FrameFreeIff | kernel/src/memory.rs:150-155 | the frame returned lies wholly in free memory exactly when what the rounding adds in front of the range does, and the rounding adds nothing exactly when the range starts on a boundary of the requested size |
| Alignment.MaskRoundsDown | kernel/src/allocator.rs:50-52 | masking off low bits rounds down to a multiple of a power of two |
| Alignment.AlignUpLeastIff | kernel/src/allocator.rs:50-52 | `align_up` is the least multiple at or above the address exactly when the sum does not wrap |
| LinkedListHeap.SizeAlignFacts | kernel/src/allocator/linked_list.rs:75-82 | the adjusted request covers the layout and a node and keeps node boundaries; it panics exactly when the padded size is too large |
| LinkedListHeap.SizeAlignIsRequest | kernel/src/allocator/linked_list.rs:75-82 | the request searched with is the one whose alignment is the larger of layout's and node's, and whose size is the larger of a node and the least multiple of that alignment at or above the layout's size |
| LinkedListHeap.AllocFromRegionFacts | kernel/src/allocator/linked_list.rs:59-73 | an allocation that passes is aligned, inside its region and leaves nothing or room for a node |
| LinkedListHeap.AllocFromRegionIff | kernel/src/allocator/linked_list.rs:59-73 | a region is used exactly when the first aligned address in it leaves room for the block and behind it nothing or a node, and then from that address on; otherwise it is refused |
| LinkedListHeap.SmallestRemainder | kernel/src/allocator/linked_list.rs:67-72 | an exact fit and a remainder of sixteen bytes pass, a remainder of eight does not |
| LinkedListHeap.StartInsideIffNoWrap | kernel/src/allocator/linked_list.rs:59-73 | a passing allocation starts inside its region exactly when `align_up` did not wrap |
| LinkedListHeap.WrappedStartEscapesRegion | kernel/src/allocator/linked_list.rs:59-73 | for a valid layout of one byte aligned to 2^62, and every heap whose first region lies in the top quarter of the address space, the allocation passes and returns address zero |
| LinkedListHeap.FindRegion | kernel/src/allocator/linked_list.rs:43-57 | the position found is the first that passes, or none passes |
| LinkedListHeap.FindServesFirst | kernel/src/allocator/linked_list.rs:43-57 | the search takes the first region that can serve the request and fails only if none can |
| LinkedListHeap.PiecesApart | kernel/src/allocator/linked_list.rs:92-114 | free regions and blocks are pairwise disjoint |
| LinkedListHeap.EveryRun | kernel/src/allocator/linked_list.rs:32-114 | on every run each heap byte is in exactly one free region, block or lost piece, both assertions of `add_free_region` hold, and the next allocation is aligned, large enough and cut from the first free region that can serve the rounded-up request, or fails exactly when none can |
| LinkedListHeap.SmallAlignmentsLoseNothing | kernel/src/allocator/linked_list.rs:92-108 | no memory is lost on a run whose alignments are at most the node alignment |
| LinkedListHeap.LostStaysLost | kernel/src/allocator/linked_list.rs:97-103 | front padding dropped once is never recovered |
| LinkedListHeap.FreeThenAlloc | kernel/src/allocator/linked_list.rs:92-114 | a free followed by the same request gives the block back and leaves the free list and the lost pieces as they were |
| LinkedListHeap.SplitGoesFirst | kernel/src/allocator/linked_list.rs:92-108 | what is left behind a block becomes the first region of the list and the others keep their order |
| LinkedListAllocators.LinkedListAllocator.constructor | kernel/src/allocator/linked_list.rs:16-20 | the new allocator has an empty list and no memory |
| LinkedListAllocators.LinkedListAllocator.Init | kernel/src/allocator/linked_list.rs:28-30 | the whole heap becomes one free region |
| LinkedListAllocators.LinkedListAllocator.AddFreeRegion | kernel/src/allocator/linked_list.rs:32-41 | the two words of the node are written and the chain in memory gains the region in front; the source's assertions hold |
| LinkedListAllocators.LinkedListAllocator.FindRegion | kernel/src/allocator/linked_list.rs:43-57 | complete first fit: the first region that passes is unlinked and all others keep their order, or none passes and nothing changes |
| LinkedListAllocators.LinkedListAllocator.Unlink | kernel/src/allocator/linked_list.rs:48-50 | the pointer writes turn the chain into the chain without that region |
| LinkedListAllocators.LinkedListAllocator.Split | kernel/src/allocator/linked_list.rs:97-102 | the rest of an unlinked region goes back on the list and nothing outside the region is written |
| LinkedListAllocators.LinkedListAllocator.Alloc | kernel/src/allocator/linked_list.rs:92-108 | the chain in memory follows the carved heap, and no byte of a live block is written |
| LinkedListAllocators.LinkedListAllocator.Dealloc | kernel/src/allocator/linked_list.rs:110-114 | the block becomes the first region of the chain, and no byte of a block still live is written |
| LinkedListAllocators.LinkedListAllocator.Store | kernel/src/allocator/linked_list.rs:117-120 | a client's write to any byte of its block cannot disturb the chain |
| LinkedListAllocators.WalkVisitsRegions | kernel/src/allocator/linked_list.rs:43-57 | following the pointers visits each free region once in list order and then ends |
| LinkedListAllocators.UnlinkKeepsChain | kernel/src/allocator/linked_list.rs:48-50 | an unlink removes one region from the chain and keeps the others |
| BlockHeap.ListIndex | kernel/src/allocator/block.rs:63-66 | the smallest class that holds both size and alignment, none exactly when they pass the largest class |
| BlockHeap.BlockServesLayout | kernel/src/allocator/block.rs:69-89 | a block of the chosen class is large enough and aligned for the layout |
| BlockHeap.AllocKeepsInv | kernel/src/allocator/block.rs:69-89 | an allocation from cache or fallback keeps the ledger and the lists |
| BlockHeap.DeallocKeepsInv | kernel/src/allocator/block.rs:91-118 | a free to cache or fallback keeps the ledger and the lists |
| BlockHeap.EveryRun | kernel/src/allocator/block.rs:69-118 | on every run, address by address, what was taken from the fallback equals what was returned plus blocks in use, cached blocks and forgotten tails; no address has two owners; no list passes 17; cached blocks are whole and aligned; pointers in use are aligned and large enough |
| BlockHeap.FreeReturnsOnlyLent | kernel/src/allocator/block.rs:95-117 | a free returns only lent memory and forgets the end of the block exactly when it goes to the fallback |
| BlockHeap.FreeThenAlloc | kernel/src/allocator/block.rs:69-118 | a block freed into the cache comes back with the next request of its class, whatever the fallback offers, and the lists are as they were |
| BlockHeap.CapacityTable | kernel/src/allocator/block.rs:9 | blocks double from 8 to 128 bytes and from 512 to 2048, with nothing in between |
| BlockHeap.BytesMoved | kernel/src/allocator/block.rs:69-118 | a request above the classes takes and gives back exactly its size; one within a class takes the smallest block that holds it and, if the list is full, gives back exactly as many bytes as its layout has |
| BlockAllocators.FixedSizeBlockAllocator.constructor | kernel/src/allocator/block.rs:33-39 | all lists start empty |
| BlockAllocators.FixedSizeBlockAllocator.Length | kernel/src/allocator/block.rs:16-24 | counts the nodes of the list in memory |
| BlockAllocators.FixedSizeBlockAllocator.Alloc | kernel/src/allocator/block.rs:69-89 | pops the list in memory, clearing the link in the block, or uses the fallback's answer; no byte outside the block handed out is written |
| BlockAllocators.FixedSizeBlockAllocator.Pop | kernel/src/allocator/block.rs:73-77 | after the link is taken and cleared every list in memory is linked as the remaining cached blocks |
| BlockAllocators.FixedSizeBlockAllocator.Dealloc | kernel/src/allocator/block.rs:91-118 | pushes the block on its list in memory unless the list is full, and writes no byte outside the freed block |
| BlockAllocators.FixedSizeBlockAllocator.PushNode | kernel/src/allocator/block.rs:102-109 | the node written into the block heads its list and no other list is disturbed |
| BlockAllocators.FixedSizeBlockAllocator.Store | kernel/src/allocator/block.rs:11-13 | a client's write to any byte of its block cannot disturb a list |
| Executor.RunKeepsInv | kernel/src/task/executor.rs:41-85 | every step of executor, keyboard task and interrupts keeps the whole invariant |
| Executor.HaltedMeansIdle | kernel/src/task/executor.rs:78-85 | whenever the processor is halted no mapped task has been woken since its last poll began, and the keyboard task sleeps with its waker registered on an empty queue |
| Executor.HaltedSpawnsAreLate | kernel/src/task/executor.rs:78-85 | at every halt the spawn queue holds exactly the tasks spawned since the executor last drained it |
| Executor.HaltsWithSpawnWaiting | kernel/src/task/executor.rs:78-85 | from any poll with an empty task queue there is a run to a halt with a spawned task still queued |
| Executor.SpawnWaitsThroughHalt | kernel/src/task/executor.rs:78-85 | such a run from the start |
| Executor.ScancodesInOrder | kernel/src/keyboard.rs:15-23 | delivered scancodes are a prefix of the accepted ones; a keystroke is dropped exactly while the queue is missing or holds a hundred |
| Executor.FirstLookDelivers | kernel/src/keyboard.rs:47-62 | a keyboard poll that finds a scancode delivers it at once and leaves the waker alone |
| Executor.SecondLookCancelsWaker | kernel/src/keyboard.rs:47-62 | a scancode found after registering is delivered and the registration undone, whatever interrupts come in between |
| Executor.KeystrokeWakesOnce | kernel/src/keyboard.rs:15-23 | a sleeping keyboard task is woken by the first accepted keystroke and by no later one |
| Executor.TasksNotConfused | kernel/src/task/executor.rs:49-75 | stages of a task do not overlap, an insertion overwrites nothing, no completed task is polled, and every woken mapped task is about to be found |
| Executor.FinishedNeverPolled | kernel/src/task/executor.rs:67-74 | a task that returns ready is out of the map at once and never polled again, however often it is woken; one that returns pending stays |
| Executor.CompletedAreFinished | kernel/src/task/executor.rs:67-74 | the completed tasks are exactly those whose poll returned ready |
| Executor.ReadyTasksInOrder | kernel/src/task/executor.rs:58-63 | on every run ready tasks have their turn in the order in which they became ready, each as often as it did |
| Executor.TurnIsPoll | kernel/src/task/executor.rs:58-67 | a turn is a poll exactly when the task is still in the map |
| Executor.SpawnsInsertedInOrder | kernel/src/task/executor.rs:49-56 | on every run spawned tasks enter the map in the order in which they were spawned, each once |
| Executor.EveryPassDrains | kernel/src/task/executor.rs:25-56 | no task is looked up or polled and no idle check begins unless the spawn queue was found empty since the check before |
| Executor.CompletedStays | kernel/src/task/mod.rs:18-41 | completion is permanent, identifiers only grow, histories only extend |
| Executor.QuietRunDelivers | kernel/src/keyboard.rs:47-62 | once interrupts stop, the processor halts within a bound with every accepted scancode delivered |
| Executor.EveryScancodeDelivered | kernel/src/keyboard.rs:47-62 | the same from every state a run reaches |
| AsyncMutex.MutualExclusion | kernel/src/util/async/mutex.rs:41-83 | for any interleaving there is at most one guard, the flag is set exactly while one exists, and each waiter is queued or woken exactly once |
| AsyncMutex.TryLockAnswers | kernel/src/util/async/mutex.rs:41-56 | whatever other tasks do, `try_lock` returns a guard exactly when load and exchange find the lock free and the exchange does not fail, and otherwise gives up on the spot |
| AsyncMutex.LockReturnsWithGuard | kernel/src/util/async/mutex.rs:58-83 | on every run a task that began `lock` or `spin_lock` is still inside it or has taken the free lock |
| AsyncMutex.HeldLockWaits | kernel/src/util/async/mutex.rs:58-83 | on a held lock `lock` queues its waker and parks within three steps, and `spin_lock` only reads the flag and never queues |
| AsyncMutex.FreeLockTaken | kernel/src/util/async/mutex.rs:41-83 | on a lock that stays free every call takes it within four steps |
| AsyncMutex.DropAnswers | kernel/src/util/async/mutex.rs:155-160 | whatever other tasks do, dropping the guard frees the lock, then fires the longest waiter's waker if there is one, and ends |
| AsyncMutex.StepLosesWakeupIff | kernel/src/util/async/mutex.rs:155-176 | a step loses a wake-up if and only if it pushes a waker on a free lock that nobody woken, running or spinning towards it, or about to notify, will take or pass on |
| AsyncMutex.HelperFires | kernel/src/util/async/mutex.rs:41-83 | each task counted as such, left alone on a free lock, fires the longest waiter's waker |
| AsyncMutex.LostForGood | kernel/src/util/async/mutex.rs:155-176 | with none of them and no single `try_lock` under way, no waker is fired again until another call begins |
| AsyncMutex.NoWakeupLostIff | kernel/src/util/async/mutex.rs:155-176 | on every run from the start, every free lock with waiters has someone to wake them throughout, if and only if no step is of that kind |
| AsyncMutex.RunKeepsNoLostWakeup | kernel/src/util/async/mutex.rs:155-176 | if wakers are pushed only while the lock is held, a free lock with waiters always has someone to wake them |
| AsyncMutex.AtomicPollsLoseNoWakeup | kernel/src/util/async/mutex.rs:58-69 | with polls atomic between tasks no wake-up is lost, and a quiet mutex has no waiters |
| AsyncMutex.InterleavedPollLosesWakeup | kernel/src/util/async/mutex.rs:167-176 | a release between load and registration strands the waiter, from any otherwise quiet state |
| AsyncMutex.WakeupLostFromStart | kernel/src/util/async/mutex.rs:167-176 | such a run from the start parks the waiter for good on a free lock |
| AsyncMutex.WakersFiredInOrder | kernel/src/util/async/waker_list.rs:12-25 | on every run wakers are fired in the order in which they were pushed, each once |
| AsyncMutex.TurnKeptIff | kernel/src/util/async/mutex.rs:41-69 | after a release's store, and whatever other tasks do, a waiter's first attempt makes it the next holder if and only if nobody takes the lock before its exchange and that exchange does not fail |
| AsyncMutex.WaiterOvertaken | kernel/src/util/async/mutex.rs:41-69 | even with atomic polls a task that never waited can take the lock after a release, and the longest waiter goes to the back of the list |
| AsyncMutex.OrderOfArrivalLost | kernel/src/util/async/mutex.rs:41-69 | such a run from the start turns the list of two waiters round |
| AsyncMutex.UncontendedHandOver | kernel/src/util/async/waker_list.rs:17-25 | if no other task runs and the exchange does not fail, a release hands the lock to the longest waiter and disturbs no other task |
| AsyncMutex.ListCanBeServed | kernel/src/util/async/waker_list.rs:17-25 | from every state with a guard there is a schedule on which every queued waiter gets the lock, in order |
| OnceLock.InitialisedOnce | kernel/src/util/once.rs:56-141 | for any threads and interleaving at most one initialiser runs, every read returns its value, `get_or_init` returns nothing else |
| OnceLock.CallReturns | kernel/src/util/once.rs:56-141 | on every run a call that has ended since its first load ended once, with the outcome that load decides; `get` and `try_get` return the one value written exactly if they found INIT, and otherwise panic or fail |
| OnceLock.CallEnds | kernel/src/util/once.rs:56-141 | every call ends within six steps of its own unless another thread is running its initialiser |
| OnceLock.WithValueInitialised | kernel/src/util/once.rs:44-49 | a lock built with a value is initialised from the start on every run |
| OnceLock.StatusMovesForward | kernel/src/util/once.rs:93-118 | the status only moves forward and what was written stays |
| OnceLock.TryInitOutcomes | kernel/src/util/once.rs:80-118 | on every run `try_init_once` fails exactly when its first load saw INIT; a call ran its own initialiser exactly when it won the exchange; at most one did, and the value stored is its value; a call nobody raced with ran its own |
| OnceLock.SuccessMeansOwnIff | kernel/src/util/once.rs:67-118 | once all calls have ended: every initialising call past its first load ran its own initialiser if and only if at most one got past it before INIT, and every successful `try_init_once` did if and only if none but the winner got past it |
| OnceLock.RaceReached | kernel/src/util/once.rs:80-91 | two callers can both load the status before either initialises |
| OnceLock.LoserAlsoReportsSuccess | kernel/src/util/once.rs:80-118 | from that race, on every continuation on which both calls end, both report success, not both ran their initialiser, and one value is stored |
| OnceLock.RaceEnds | kernel/src/util/once.rs:93-118 | there is such a continuation |
| SleepService.WakeupService.RegisterSleep | kernel/src/util/async/sleep_future.rs:36-42 | exactly one more waker waits, last under its deadline, and other deadlines are untouched; the passes that will wake it are those for which neither its deadline nor any registered before lies ahead |
| SleepService.WakeupService.WakeSleep | kernel/src/util/async/sleep_future.rs:45-62 | the loops wake exactly the specified wakers, latest deadline first, and leave the specified map |
| SleepService.PassIsAllOrNothing | kernel/src/util/async/sleep_future.rs:50-55 | a pass wakes everyone or no one; a waiting sleeper is woken exactly when no registered deadline lies in the future |
| SleepService.DrainSplits | kernel/src/util/async/sleep_future.rs:55-61 | wakers are fired latest deadline first and in order of registration for each deadline |
| SleepService.SleepersSafe | kernel/src/interrupts.rs:146-151 | for every interleaving the handler never finds the service held, so it panics if and only if its weak exchange fails for no reason; no sleep is woken or finishes early, and each registered sleep is in the service or was woken, never both |
| SleepService.WokenSleepIsReady | kernel/src/util/async/sleep_future.rs:81-92 | a woken sleep is ready at its next poll |
| SleepService.PollOutcome | kernel/src/util/async/sleep_future.rs:81-92 | every poll, whatever ticks and failed exchanges come in between, has finished the sleep exactly if the time it loaded had reached the end tick, and otherwise left its waker in the service or fired |
| SleepService.PollEnds | kernel/src/util/async/sleep_future.rs:81-92 | a poll with no failed exchange ends within six steps, with interrupts on |
| SleepService.AllWokenByLatestDeadline | kernel/src/util/async/sleep_future.rs:45-62 | once no sleep enters, nothing changes before the latest deadline and, unless the handler panicked, all are woken by the tick after it |
| SleepService.SleeperCanBeLate | kernel/src/util/async/sleep_future.rs:45-62 | for every n there is a run on which a registered sleep is more than n ticks past its end and still waits |
| PixelRows.CopyRowsAt | kernel/src/framebuffer.rs:232-238 | copying rows changes exactly the bytes of those rows and columns |
| PixelRows.CopyBytes | kernel/src/framebuffer.rs:236 | a raw copy in bounds writes its bytes and nothing else |
| Framebuffer.PackedWord | kernel/src/framebuffer.rs:208-213 | the packed colour word lies in memory as its three bytes and a zero |
| Framebuffer.LastPixelShows | kernel/src/framebuffer.rs:113-158 | after drawing a list, each point on it shows the colour of the last pixel there: which byte holds which component, and what gray means |
| Framebuffer.LastPixelDecides | kernel/src/framebuffer.rs:113-158 | every byte is decided by the last pixel drawn at its point, and without one it stays |
| Framebuffer.Clip | kernel/src/framebuffer.rs:194-197 | the clipped rectangle contains exactly the points of the area on the screen |
| Framebuffer.FillEqualsPixels | kernel/src/framebuffer.rs:189-240 | the row copies give the buffer that drawing each point of the unclipped area would give |
| Framebuffer.FrameShowsBackBuffer | kernel/src/framebuffer.rs:160-171 | every screen pixel shows the same back-buffer pixel across the two pitches, and row padding is unchanged |
| Framebuffer.FrameKeepsRest | kernel/src/framebuffer.rs:160-171 | nothing after the last row is touched |
| Framebuffer.Display.constructor | kernel/src/framebuffer.rs:94-105 | the back buffer has a byte per pixel channel, all zero |
| Framebuffer.Display.DrawPixel | kernel/src/framebuffer.rs:113-158 | writes the colour bytes of an on-screen pixel and ignores others, keeping the unused bytes zero |
| Framebuffer.Display.DrawIter | kernel/src/framebuffer.rs:179-187 | draws each pixel in order |
| Framebuffer.Display.FillSolid | kernel/src/framebuffer.rs:189-240 | leaves exactly what drawing every pixel of the area on its own would leave |
| Framebuffer.Display.Clear | kernel/src/framebuffer.rs:242-280 | leaves exactly what drawing every pixel of the screen would leave |
| Framebuffer.Display.DrawFrame | kernel/src/framebuffer.rs:160-171 | copies each row of the back buffer to its row of the screen, in bounds |

## Left out

- `IntMutex` and its guard counter, and `force_unlock`, which breaks the mutex by design.
- The code of `linked_list_allocator::Heap` is not part of this model; it appears as a contract that hands out aligned memory not already lent and takes back parts of it.
- Overflow of physical addresses in the frame allocators: addresses are unbounded there.
- Mixed frame sizes over whole runs: `MixedSizesOverlap` shows why the run theorems fix one size.
- `SmartFrameAllocator.constructor` requires as many usable frames as the heap set-up unwraps; without them the kernel panics.
- Heap requests whose alignment would wrap an address (`NoWrap`) are excluded from the run theorems of the linked-list heap.
- The floating-point tick computation and wrap-around in `SleepFuture::new`, and overflow of the tick counter and of task identifiers.
- Pixel formats other than RGB, BGR and gray, which panic, and the fast paths for pixel sizes their debug assertions exclude.
- Memory-ordering weaknesses: all atomic steps are sequentially consistent.
- Several processors running the executor at once; the kernel starts one.
- Page tables, ACPI, APIC, PIC, GDT and IDT set-up, serial port, RTC decoding, clock drawing, the text writer and the tracer: hardware plumbing, or properties much easier than these.
