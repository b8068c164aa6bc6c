# Kernel, allocator and Java virtual machine: a verified model

This project models the core of a small operating system and of the Java virtual machine shipped with it, and proves
what that code is meant to do. `dafny verify dfyconfig.toml` checks everything.

## What is modelled

* **The kernel heap** (`HeapState`, `HeapSteps`, `Malloc`, `HeapTheorems`). `ki_malloc`, `ki_free` and `ki_realloc`
  run on an array of words: size words, end tags, link words and bucket words are read and written where the source
  does. A ghost map of blocks and ghost lists say what those words encode. `Inv` is the global invariant: the blocks
  tile the memory between the markers, tags agree, no two neighbours are free, the slop and the lists hold every free
  block once. Each step of an operation is a function on heaps with a lemma that it keeps `Inv`; an operation may hold
  a few free blocks off every list while it works (`loose`). What callers see is the map of live payloads.
* **The multitasking kernel** (`KernelState` to `KernelAccounts`, `ProcessQueue`, `TimerQueue`, `Kernel`). `KernelState`
  is the state machine on values: one function for each system call, the scheduler and the timer interrupt. `Kernel` is
  the same on linked processes, semaphores and timer requests, and every method is proved to realise its step. The
  invariant and the theorems over runs are about the state machine. `Permitted` is the exact condition under which a
  step keeps the invariant; `Allowed` is the discipline of user code from which it always follows. `KernelEffects` says
  what each step does, by priority classes and wake-up times and not by the functions that compute it, and
  `KernelAccounts` what runs add up to.
* **The object model of the KVM** (`MultiArray`, `Assignable`): multi-dimensional array construction, which threads its
  work list through slot 0 of the arrays it builds, and the assignability test.
* **Two algorithms from the samples** (`EightQueens`, `OneDragon`), with exact specifications.
* **Conversions and arithmetic** (`Arithmetic`, `Chars`, `Strtol`, `Itoa`, `Ucvt`, `Strtou`, `Random`, `Mktime`,
  `InlineCache`) with their 32-bit behaviour written out: wrap-around, truncating division, saturation.

Where the code does not do what one would expect, the code is followed and the exact condition is proved:

* a delay of less than 50 is a wait of at most zero ticks: from then on no sleeping process is ever released, whatever
  else runs, so a delay ends exactly when it is at least 50 (`KernelTheorems.ShortDelayIsNeverReleased`,
  `KernelTheorems.DelayEndsExactly`);
* a process that blocks while nobody is ready keeps the processor although it is queued (`KernelSteps.WaitKeeps`);
* `ki_sem_ini` takes the last free slot, not the first, and does not set `risu` on success
  (`Kernel.KernelSystem.SemIni`);
* a signal that hands over the processor does not charge the process that loses it, and the process that runs when new
  priorities are made is charged twice (`KernelAccounts.SignalSpends`, `KernelAccounts.ChargedTwice`);
* `strtol` and `strtoul` take `0x` as a prefix even when no hexadecimal digit follows, and their `isalpha` accepts the
  six characters between `Z` and `a`: they give what the C standard asks for exactly when neither matters, that is when
  there is no empty prefix and the standard digits do not end at one of the six whose value is below the base
  (`Strtol.StandardExactly`, `Strtol.PrefixAlone`, `Strtol.BracketIsFour`);
* the overflow test of `strtou` and `strtoi` sees exactly the numbers with a digit that makes the 32-bit value smaller,
  and the others that do not fit are read modulo 2^32 (`Strtou.OverflowFound`, `Strtou.OverflowMissed`); `strtoi` does
  not read back LONG_MIN;
* the twelve places of `ucvt` suffice in base 7 and up, but not in base 6 (`Ucvt.TwelveDigits`, `Ucvt.ThirteenDigits`);
* `mktime` is off by 2^32 days before 1 March 1972 (`Mktime.ExactWhen`);
* `putShort` writes a zero high byte, so the inline cache is reversible only for parameters below 256, although its
  documentation calls it fully reversible (`InlineCache.Interpreter.FinalizeCaching`,
  `InlineCache.ParameterLost`).

Conventions: heap addresses are word indices (word i is the byte at 10000000 + 4 * i); processes, semaphores, classes and
Java objects are named by their index in their table; NULL is -1, or 0 for Java references.

## Model

| member | source | states |
|---|---|---|
| `HeapState.BitsBound` | src/klib/malloc.c:65-77 | the bucket number is a logarithm: a block of n words is in a bucket of at most k exactly when n < 2^k |
| `HeapState.BitsMonotone` | src/klib/malloc.c:65-77 | bucket numbers grow with the size, so smaller buckets hold only smaller blocks |
| `HeapState.BucketOfInt` | src/klib/malloc.c:29-29 | thirty buckets are enough for every size an int can hold |
| `Malloc.KernelHeap.constructor` | src/klib/malloc.c:28-29 | the empty heap satisfies the allocator's invariant and has no live payload |
| `Malloc.KernelHeap.Size2Bucket` | src/klib/malloc.c:66-77 | the shifting loop counts the binary digits of size / 4 |
| `Malloc.KernelHeap.B2Bucket` | src/klib/malloc.c:79-85 | the bucket word, filled in on demand, is the bucket of the block's size |
| `Malloc.KernelHeap.SplitBlock` | src/klib/malloc.c:87-103 | the five words written turn one free block into two that tile its old extent |
| `HeapSteps.SplitToSlopKeeps` | src/klib/malloc.c:141-145 | splitting the block being granted and making the rest the slop keeps the heap invariant and every live payload |
| `HeapSteps.UnlistKeeps` | src/klib/malloc.c:157-164 | redirecting one link takes exactly one block off its list: the invariant holds with that block held, no payload changes |
| `HeapSteps.PushKeeps` | src/klib/malloc.c:185-193 | putting a held block at the head of its bucket's list keeps the invariant and every payload |
| `HeapSteps.RetagKeeps` | src/klib/malloc.c:105-105 | setting or clearing the two in-use bits of a held or live block keeps the invariant; only that block changes owner |
| `HeapSteps.GrowKeeps` | src/klib/malloc.c:205-238 | laying a block over the old end marker, or behind a new start marker, keeps the invariant and every payload |
| `HeapSteps.JoinKeeps` | src/klib/malloc.c:242-288 | absorbing the free successor keeps the invariant and every payload |
| `HeapSteps.OwnerWriteKeeps` | src/klib/malloc.c:105-105 | a caller writing inside its own payload disturbs no tag, link or other payload |
| `HeapSteps.Predecessor` | src/klib/malloc.c:19-20 | the word before a block is its predecessor's end tag, or the start marker, so BEFORE finds the predecessor |
| `HeapSteps.Successor` | src/klib/malloc.c:22-22 | AFTER of a block is the next block's size word, or the end marker |
| `Malloc.KernelHeap.Sbrk` | src/klib/memory.cpp:10-22 | the bump allocator hands out the next bytes of the 512000, or never returns (halted) when they do not suffice |
| `Malloc.KernelHeap.LayOut` | src/klib/malloc.c:206-235 | the words written over fresh memory, contiguous or not, are one free block and an end marker |
| `Malloc.KernelHeap.FindExact` | src/klib/malloc.c:156-164 | the first search returns the first block of the bucket that is large enough and wastes less than a quarter, or shows there is none |
| `Malloc.KernelHeap.FindFit` | src/klib/malloc.c:169-174 | the second search returns the first block of a bucket that is large enough, or shows all are too small |
| `Malloc.KernelHeap.SearchedAll` | src/klib/malloc.c:156-203 | when every bucket from the request's own on has been searched in vain, no free block anywhere would do |
| `Malloc.KernelHeap.KiMalloc` | src/klib/malloc.c:109-239 | the invariant is kept; the payload is new, 8-aligned, large enough and the only change to the live payloads; the block is the one the policy names (slop, first close fit, first fit, fresh memory); what remains of it, the slop and the order of the free lists afterwards are as the policy says; sbrk is reached exactly when no free block is large enough, and halts exactly when the pool is too small |
| `Malloc.RoundedFits` | src/klib/malloc.c:116-118 | the rounding stays an int exactly for requests up to INT_MAX - 7 |
| `Malloc.KernelHeap.Unmark` | src/klib/malloc.c:309-311 | a live block loses its in-use bits and becomes a held free block |
| `Malloc.KernelHeap.Merge` | src/klib/malloc.c:241-289 | a block and its free successor become one held block, whichever of the two was in the slop or on a list |
| `Malloc.KernelHeap.MergeBefore` | src/klib/malloc.c:325-329 | afterwards the left neighbour is not free, and the block still covers the freed one |
| `Malloc.KernelHeap.MergeAfter` | src/klib/malloc.c:331-335 | afterwards no two neighbours are free |
| `HeapSteps.UnlistIsLess` | src/klib/malloc.c:267-280 | taking a block off its list takes it off all lists and keeps the order of the others |
| `HeapSteps.MergedShape` | src/klib/malloc.c:325-335 | the two merges meet the free neighbours that the block had when it was in use |
| `Malloc.KernelHeap.KiFree` | src/klib/malloc.c:291-343 | the invariant is kept; exactly the freed payload disappears and every other one is unchanged; the free neighbours leave their lists, the merged block heads its own, the order is otherwise kept, and the slop is swallowed exactly when it is a neighbour |
| `Malloc.KernelHeap.Copy` | src/klib/malloc.c:374-374 | the copy changes nothing but the first words of the destination payload |
| `Malloc.KernelHeap.KiRealloc` | src/klib/malloc.c:345-377 | a payload that is large enough stays; otherwise it moves, unless the pool is exhausted, which is stated exactly: the new one holds the size asked for and starts with the old contents, and no other payload changes |
| `Malloc.HugeSizeGetsLeast` | src/klib/malloc.c:345-367 | a size of 2^31 or more reaches ki_malloc as a negative int and is granted the least block |
| `HeapTheorems.WalkVisitsEveryBlock` | src/klib/malloc.c:205-238 | walking the raw words by size + 8 from the start marker meets every block once, in order, ends on the end marker, and the blocks plus 8 bytes are all that sbrk gave |
| `HeapTheorems.NoTwoFreeNeighbours` | src/klib/malloc.c:291-343 | head and end tags agree in size and in-use bit, and of two neighbours one is in use |
| `HeapTheorems.FreeBlocksAreListedOnce` | src/klib/malloc.c:242-280 | the free blocks are exactly the slop and the list members, each in one place, in the list of its own bucket |
| `HeapTheorems.LivePayloadsAreDisjoint` | src/klib/malloc.c:105-105 | live payloads lie between the markers and do not overlap |
| `HeapTheorems.CoalescingIsCanonical` | src/klib/malloc.c:291-343 | the block structure is a function of the live payloads, the free blocks being exactly the gaps between them |
| `HeapTheorems.FreeUndoesMalloc` | src/klib/malloc.c:109-343 | when a payload granted without growing the heap is freed again, all payloads and all blocks are as before |
| `HeapTheorems.AllFreedIsOneBlock` | src/klib/malloc.c:291-343 | when everything has been freed, one free block spans the heap |
| `KernelQueues.InsertFifo` | src/klib/sistema.cpp:476-504 | inserimento_coda puts a process behind the others of its priority and leaves every other priority class alone |
| `KernelQueues.InsertSorted` | src/klib/sistema.cpp:480-504 | a queue sorted by prec stays sorted |
| `KernelQueues.InsertFirstLifo` | src/klib/sistema.cpp:507-536 | inserimento_primo_coda puts a process ahead of the others of its priority |
| `KernelQueues.InsertFirstSorted` | src/klib/sistema.cpp:512-536 | inserimento_primo_coda keeps a queue sorted and loses nobody |
| `KernelQueues.InsertAllSorts` | src/klib/schedule.cpp:66-68 | queueing processes one by one is a stable insertion sort |
| `ProcessQueue.InserimentoCoda` | src/klib/sistema.cpp:480-504 | the pointer walk realises the sequence insertion on the linked list and touches no other link |
| `ProcessQueue.InserimentoPrimoCoda` | src/klib/sistema.cpp:512-536 | the same for the variant that goes ahead of its equals |
| `ProcessQueue.RimozioneCoda` | src/klib/sistema.cpp:538-544 | the head leaves the list; an empty list yields null |
| `KernelQueues.InsertTimerRefines` | src/klib/sistema.cpp:318-348 | inserting a request sets the wake-up time asked for and leaves every other wake-up time unchanged |
| `KernelQueues.InsertTimerOk` | src/klib/sistema.cpp:318-348 | the delta queue stays in range exactly when the new wait is at least one tick |
| `KernelQueues.TickRefines` | src/klib/sistema.cpp:359-371 | a tick releases exactly the processes due at time 1 and brings all others one tick nearer |
| `TimerQueue.Timers.Inserimento` | src/klib/sistema.cpp:318-348 | the pointer walk over requests realises the insertion into the delta queue |
| `TimerQueue.Timers.Pop` | src/klib/sistema.cpp:362-364 | the head request leaves the list |
| `KernelInvariant.ScheduleOcc` | src/klib/schedule.cpp:17-33 | schedulatore moves the head of the ready queue to the processor; the outgoing process stays only where it was queued before |
| `KernelSteps.ActivateKeeps` | src/klib/sistema.cpp:116-193 | activation keeps the kernel invariant and adds exactly one process, while there is room |
| `KernelRuns.ActivateFull` | src/klib/sistema.cpp:119-133 | a free slot exists exactly when proc_count is below MAXPROCS |
| `KernelSteps.TerminateKeeps` | src/klib/sistema.cpp:201-228 | termination keeps the invariant and removes exactly the running process |
| `KernelSteps.SemIniKeeps` | src/klib/sistema.cpp:262-279 | initialising a semaphore keeps the invariant exactly when its slot has no waiting process and the value is not negative |
| `KernelSteps.WaitKeeps` | src/klib/sistema.cpp:231-241 | a wait keeps the invariant exactly when it passes or somebody is ready; processes only move |
| `KernelSteps.SignalWakes` | src/klib/sistema.cpp:249-259 | when the count was negative the queue is not empty, its head is woken, and the invariant is kept |
| `KernelSteps.SignalKeeps` | src/klib/sistema.cpp:243-260 | a signal keeps the invariant; processes only move |
| `KernelSteps.DelayKeeps` | src/klib/sistema.cpp:304-312 | a delay keeps the invariant exactly when it is at least 50 and somebody is ready |
| `KernelTick.ExpireKeeps` | src/klib/sistema.cpp:359-371 | releasing the due processes keeps the invariant; processes only move |
| `KernelTick.TickKeeps` | src/klib/sistema.cpp:354-393 | the whole timer interrupt keeps the invariant; processes only move |
| `KernelRuns.StepKeepsExactly` | src/klib/sistema.cpp:116-393 | every step keeps the invariant (each process in use in exactly one place, free slots in none, proc_count right, queues sorted, semaphore counts and queues in agreement) exactly when a condition on the state before it holds |
| `KernelRuns.BootGood` | src/klib/sistema.cpp:41-72 | kernel_init establishes the invariant with the idle process ready |
| `KernelRuns.AllowedIsPermitted` | src/klib/sistema.cpp:455-463 | in a disciplined run a process that blocks leaves the idle process ready, so every step keeps the invariant |
| `KernelRuns.IdleReady` | src/klib/sistema.cpp:65-69 | the idle process is running or ready |
| `KernelTheorems.EveryDisciplinedRun` | src/klib/sistema.cpp:41-393 | after any run of disciplined steps from kernel_init the invariant holds and the processor is never left without a successor |
| `KernelTheorems.SoundRun` | src/klib/sistema.cpp:116-393 | any run of permitted steps keeps the invariant |
| `KernelTheorems.RunCount` | src/klib/sistema.cpp:231-260 | over any run, count = initial + signals - waits |
| `KernelTheorems.SemaphoreAccounting` | src/klib/sistema.cpp:231-260 | of all waits exactly min(waits, initial + signals) have completed; the others are queued |
| `KernelTheorems.StepWakes` | src/klib/sistema.cpp:304-371 | the timer queue refines a table of wake-up times: a delay sets one entry, a tick ages all, nothing else touches it |
| `KernelTheorems.SleepsUntilDue` | src/klib/sistema.cpp:359-371 | a sleeping process is not released early, whatever else runs |
| `KernelTheorems.WakesOnTheKthTick` | src/klib/sistema.cpp:304-371 | a delay of k >= 1 ticks is released on exactly the k-th tick |
| `KernelTheorems.ShortDelayJams` | src/klib/sistema.cpp:304-347 | a delay below 50 puts a request with nothing left to wait at the head of the queue |
| `KernelTheorems.StuckStays` | src/klib/sistema.cpp:116-393 | whatever step is made, such a head stays and nobody leaves the timer queue |
| `KernelTheorems.ShortDelayIsNeverReleased` | src/klib/sistema.cpp:304-371 | after one delay below 50 and any run whatever, the caller and all who slept are still in the timer queue and no tick finds anybody due |
| `KernelTheorems.DelayEndsExactly` | src/klib/sistema.cpp:304-371 | some run releases the caller of a delay exactly when the delay is at least 50 |
| `KernelTheorems.SchedulePicksBest` | src/klib/schedule.cpp:17-33 | the process chosen has the best priority and is the first of its class |
| `KernelTheorems.RescheduleIsStableSort` | src/klib/schedule.cpp:46-70 | reschedule is a stable sort of the ready processes by baseprec + tickTotal / 10; nobody is lost and nobody else changes |
| `KernelEffects.JoinsOneWay` | src/klib/sistema.cpp:476-504 | a sorted queue with one process more, last in its own priority class and every other class unchanged, is determined: the facts below leave no choice |
| `KernelEffects.InsertTimerAt` | src/klib/sistema.cpp:318-348 | a new request goes behind those due earlier and ahead of those due at the same time |
| `KernelEffects.ScheduleDispatches` | src/klib/schedule.cpp:17-33 | the head of the ready queue leaves it and runs with no ticks, the ticks of the outgoing process are added to its tickTotal, and nothing else changes |
| `KernelEffects.ActivateEffect` | src/klib/sistema.cpp:116-193 | below MAXPROCS the first free slot holds a ready process with the prec asked for and no ticks, behind its equals; with MAXPROCS processes nothing happens |
| `KernelEffects.TerminateEffect` | src/klib/sistema.cpp:201-228 | the slot is free, the head of the ready queue runs; the system halts exactly when nobody is ready |
| `KernelEffects.SemIniEffect` | src/klib/sistema.cpp:262-279 | the last free semaphore is busy with the count asked for and an empty queue; every other semaphore is unchanged |
| `KernelEffects.WaitTakesOne` | src/klib/sistema.cpp:231-241 | a wait on a positive count takes one from it, an unknown handle does nothing |
| `KernelEffects.WaitQueues` | src/klib/sistema.cpp:231-241 | otherwise the count falls below zero, the caller waits behind its equals and the head of the ready queue runs if there is one |
| `KernelEffects.SignalAddsOne` | src/klib/sistema.cpp:243-260 | with a count of at least 0 a signal adds one to it, an unknown handle does nothing |
| `KernelEffects.SignalEffect` | src/klib/sistema.cpp:249-259 | with a negative count the head of the queue is woken; it runs when its prec is at most that of the running process and the running process goes on otherwise; the other of the two is ready, behind its equals |
| `KernelEffects.SignalRunsBetter` | src/klib/sistema.cpp:249-259 | after such a signal the running process is no worse than the woken one and no worse than the one before |
| `KernelEffects.DelayEffect` | src/klib/sistema.cpp:304-312 | a delay hands the processor to the head of the ready queue and touches nothing else but the timer queue |
| `KernelEffects.GoEffect` | src/klib/sistema.cpp:74-87 | kernel_go lets the head of the ready queue run when nobody runs |
| `KernelEffects.ExpireEffect` | src/klib/sistema.cpp:359-371 | the processes due leave the timer queue in its order and are ready behind their equals; nobody else changes |
| `KernelEffects.TickStays` | src/klib/sistema.cpp:376-393 | while tick is below QUANTUM and no re-prioritisation is due the running process stays, with one tick more |
| `KernelEffects.TickYields` | src/klib/sistema.cpp:388-391 | with tick at QUANTUM it goes behind its equals and the head of the queue runs |
| `KernelEffects.RescheduleEffect` | src/klib/schedule.cpp:46-70 | each ready process gets baseprec + tickTotal / 10, tickTotal 0 and PRONTO, the queue is stably sorted by the new priorities, nobody else changes |
| `KernelEffects.TickRestarts` | src/klib/sistema.cpp:380-387 | when the counter reaches RESCHEDULER it starts again at 0, the running process is charged and queued, the ready ones are repriced and the head of the queue runs |
| `KernelAccounts.CreatedSemaphore` | src/klib/sistema.cpp:231-279 | in a run that begins with ki_sem_ini(v), exactly min(waits, v + signals) waits on the new semaphore complete |
| `KernelAccounts.HoldCounts` | src/klib/sistema.cpp:354-393 | while a process holds the processor its tick counts the timer interrupts, whatever else runs |
| `KernelAccounts.QuantumRun` | src/klib/sistema.cpp:376-391 | a process that came to the processor with no ticks keeps it through QUANTUM timer interrupts and is put behind its equals on exactly the next one, when no re-prioritisation comes between |
| `KernelAccounts.YieldsToNoWorse` | src/klib/sistema.cpp:388-391 | it keeps the processor exactly when every ready process is worse; otherwise the first ready one gets it |
| `KernelAccounts.RunSpends` | src/klib/schedule.cpp:24-29 | between two re-prioritisations no tick is lost: over a run without signals and activations, ticks charged and current grow by the number of timer interrupts |
| `KernelAccounts.SignalSpends` | src/klib/sistema.cpp:252-256 | a signal that hands over the processor charges nobody: the ticks of the process that loses it are forgotten, and the woken one goes on from its own |
| `KernelAccounts.ChargedTwice` | src/klib/sistema.cpp:383-386 | the last ticks of the process that runs when priorities are made count in its new priority and again towards the next |
| `Kernel.KernelSystem.Schedulatore` | src/klib/schedule.cpp:17-44 | the globals and links after the call are those of the specified step |
| `Kernel.KernelSystem.Activate` | src/klib/sistema.cpp:116-193 | the same for ki_activate_p_level, with its results |
| `Kernel.KernelSystem.Terminate` | src/klib/sistema.cpp:201-228 | the same for ki_terminate_p, which halts exactly when nobody is ready |
| `Kernel.KernelSystem.SemIni` | src/klib/sistema.cpp:262-279 | the same for ki_sem_ini (KernelEffects.SemIniEffect), which takes the last free slot and leaves risu alone on success |
| `Kernel.KernelSystem.SemWait` | src/klib/sistema.cpp:231-241 | the same for ki_sem_wait (KernelEffects.WaitTakesOne, WaitQueues) |
| `Kernel.KernelSystem.SemSignal` | src/klib/sistema.cpp:243-260 | the same for ki_sem_signal (KernelEffects.SignalAddsOne, SignalEffect); the process it dequeues is never null |
| `Kernel.KernelSystem.Delay` | src/klib/sistema.cpp:304-312 | the same for ki_delay (KernelEffects.DelayEffect) |
| `Kernel.KernelSystem.RescheduleAll` | src/klib/schedule.cpp:46-70 | the same for reschedule; a hundred places in pp are enough |
| `Kernel.KernelSystem.Tick` | src/klib/sistema.cpp:353-393 | the same for cdriver_t without signals (KernelEffects.ExpireEffect, TickStays, TickYields, TickRestarts) |
| `Kernel.KernelSystem.Go` | src/klib/sistema.cpp:74-87 | the same for kernel_go |
| `MultiArray.JavaHeap.InstantiateArray` | j2me_cldc/kvm/VmCommon/src/class.c:1288-1319 | a new zeroed array of the class and length asked for, or NULL for a negative or excessive length or a full heap |
| `MultiArray.JavaHeap.FillSlots` | j2me_cldc/kvm/VmCommon/src/class.c:1388-1405 | one parent gets a fresh child in each slot; unless the level is the last, the children are chained through slot 0 |
| `MultiArray.JavaHeap.FillLevel` | j2me_cldc/kvm/VmCommon/src/class.c:1380-1406 | one level: following the chain serves every parent once and overwrites every link; it fails only short of the whole level |
| `MultiArray.JavaHeap.InstantiateMultiArray` | j2me_cldc/kvm/VmCommon/src/class.c:1331-1415 | a tree is returned exactly when no dimension is negative, none that is reached is too long, and there is room for the wrapper and the products of the dimensions down to the last depth; then the levels are complete and fresh, older objects are unchanged and that many arrays have been made |
| `MultiArray.StoppedEarly` | j2me_cldc/kvm/VmCommon/src/class.c:1391-1397 | a level that cannot be completed means that one of those conditions fails |
| `MultiArray.LevelsAreTrees` | j2me_cldc/kvm/VmCommon/src/class.c:1359-1411 | every array of a level heads a proper tree: class and length by depth, subtrees in every slot, zeros at the bottom, no link left |
| `MultiArray.FollowInjective` | j2me_cldc/kvm/VmCommon/src/class.c:1388-1405 | different index paths lead to different arrays |
| `MultiArray.MultiArrayIsTree` | j2me_cldc/kvm/VmCommon/src/class.c:1331-1415 | the result is a tree of fresh arrays with no sharing, with nothing below the first zero dimension |
| `Assignable.IsAssignableTo` | j2me_cldc/kvm/VmCommon/src/class.c:1127-1205 | the loop terminates and decides the declarative relation on every loaded acyclic hierarchy |
| `Assignable.ImplementsInterface` | j2me_cldc/kvm/VmCommon/src/class.c:1207-1238 | the recursive search decides whether a class inherits an interface |
| `Assignable.IsSubclass` | j2me_cldc/kvm/VmCommon/src/class.c:1189-1201 | climbing the superclasses is enough when the target is a class |
| `Assignable.InstanceAssignability` | j2me_cldc/kvm/VmCommon/src/class.c:1127-1238 | between classes and interfaces, assignable means that a chain of extends and implements leads from one to the other |
| `Assignable.CanAssignReflexive` | j2me_cldc/kvm/VmCommon/src/class.c:1135-1137 | the relation is reflexive and has Object on top |
| `Assignable.CanAssignTransitive` | j2me_cldc/kvm/VmCommon/src/class.c:1127-1205 | the relation is transitive, arrays included |
| `Assignable.CanAssignAntisymmetric` | j2me_cldc/kvm/VmCommon/src/class.c:1127-1205 | no two different classes or interfaces are assignable to each other |
| `Assignable.ArrayAssignability` | j2me_cldc/kvm/VmCommon/src/class.c:1143-1165 | for all pairs, by array layers and innermost classes: anything goes to an array of Object with no more layers than it has; otherwise the layers must be as many, and innermost there must be a chain of extends and implements or the same primitive type |
| `EightQueens.Solver.Initialize` | j2me_cldc/samples/src/EightQueens.java:68-72 | the solver is back at the start |
| `EightQueens.Solver.ValidPosition` | j2me_cldc/samples/src/EightQueens.java:82-89 | true exactly when the last queen attacks none before it |
| `EightQueens.Solver.FindPosition` | j2me_cldc/samples/src/EightQueens.java:92-99 | the next safe row of the column, none skipped, or none left |
| `EightQueens.Solver.NextSolution` | j2me_cldc/samples/src/EightQueens.java:102-122 | terminates and returns the least solution still to come in lexicographic order, or false when there is none |
| `EightQueens.Solver.AllSolutions` | j2me_cldc/samples/src/EightQueens.java:68-122 | repeated calls return exactly the valid boards for any n, each once, in strictly increasing order, before the first false |
| `EightQueens.AdvanceFrontier` | j2me_cldc/samples/src/EightQueens.java:92-99 | moving a queen to the next safe row passes over no solution |
| `EightQueens.RetreatFrontier` | j2me_cldc/samples/src/EightQueens.java:114-120 | backtracking loses no solution |
| `EightQueens.LessTransitive` | j2me_cldc/samples/src/EightQueens.java:102-122 | the order in which solutions appear is transitive |
| `OneDragon.Dragon.Move` | j2me_cldc/samples/src/OneDragon.java:52-76 | the pen moves one length in the direction given |
| `OneDragon.Dragon.Rotate` | j2me_cldc/samples/src/OneDragon.java:79-85 | a clockwise quarter turn and a move |
| `OneDragon.Dragon.Run` | j2me_cldc/samples/src/OneDragon.java:95-136 | for n iterations exactly 2^n entries are filled, inside the array, with the n-fold curve; the pen is at the end of the segments |
| `OneDragon.GrayMirror` | j2me_cldc/samples/src/OneDragon.java:121-135 | the index mirrored by a fold differs in exactly one change of bits |
| `OneDragon.CurveDirection` | j2me_cldc/samples/src/OneDragon.java:113-136 | segment k points in direction (1 + number of bit changes in k) mod 4 |
| `OneDragon.SegmentDirection` | j2me_cldc/samples/src/OneDragon.java:113-136 | that is (1 + number of ones in k xor (k >> 1)) mod 4 |
| `OneDragon.SumFolded` | j2me_cldc/samples/src/OneDragon.java:125-135 | the second half of a fold is the first half turned by a quarter |
| `OneDragon.CurveEnd` | j2me_cldc/samples/src/OneDragon.java:113-136 | the squared distance from start to end is 2^n |
| `OneDragon.EndDistance` | j2me_cldc/samples/src/OneDragon.java:52-136 | with segments of any length, wherever it starts, it is length^2 * 2^n |
| `Strtol.Prologue` | src/libc/stdlib/strtol.c:63-78 | spaces, one sign and the base prefix are read as specified; HeaderIs says what that is in the terms of the standard |
| `Strtol.Cutoff` | src/libc/stdlib/strtol.c:97-99 | the cutoff and cutlim test is exact: it holds just when one more digit would pass the limit |
| `Strtol.Accumulate` | src/libc/stdlib/strtol.c:100-119 | acc is the value of the digits so far and never wraps; any is negative exactly when they pass the limit |
| `Strtol.Strtol` | src/libc/stdlib/strtol.c:50-128 | the value of the maximal digit run when it is a long, else the nearest limit with ERANGE; endptr at the end of the run, or at the start if there is none |
| `Strtol.Strtoul` | src/libc/stdlib/strtoul.c:49-106 | the same for unsigned longs; a minus sign negates modulo 2^32 |
| `Strtol.SameRun` | src/libc/stdlib/strtol.c:100-111 | the digit run of the code is the run of standard digits and letters exactly when that does not end at one of the six characters between Z and a with a value below the base |
| `Strtol.EmptyPrefixEnds` | src/libc/stdlib/strtol.c:71-76 | after 0x with no hexadecimal digit the code starts two places on, where the standard reads the 0 and stops before the x |
| `Strtol.HeaderIs` | src/libc/stdlib/strtol.c:63-78 | without an empty prefix the sign, start and base are those of the C standard: white space, sign, 16 after 0x and a hexadecimal digit, 8 after another leading 0, 10 otherwise, the base given when it is not 0 |
| `Strtol.StandardRead` | src/libc/stdlib/strtol.c:97-128 | the value stored is the standard number brought into range, and the range error says that it was outside |
| `Strtol.StandardExactly` | src/libc/stdlib/strtol.c:50-128 | value, end and range error of strtol and strtoul are those of the C standard (section 7.22.1.4 of C11, on 32-bit longs, defined apart from the code) exactly when there is no empty 0x prefix and no stray character ends the standard digits |
| `Strtol.PrefixAlone` | src/libc/stdlib/strtol.c:71-76 | "0x" in base 16 is no number for the code and 0 for the standard |
| `Strtol.BracketIsFour` | src/libc/string/strbase.c:30-35 | strtol reads "[" in base 10 as 4, where the standard finds no number |
| `Itoa.Itoa` | src/klib/mylib.c:59-99 | the sign in radix 10, the digits of the number and a NUL; nothing else in the buffer changes; refused outside radix 2 to 36 |
| `Itoa.CollectDigits` | src/klib/mylib.c:80-88 | the 33 places hold the digits of any 32-bit number, last one first |
| `Itoa.PrintedIs` | src/klib/mylib.c:59-99 | the text is the numeral without leading zeros of the magnitude, or of the 32 bits, in decimal digits and small letters, after a minus sign for a negative number in radix 10 |
| `Itoa.StrtolReadsItoa` | src/klib/mylib.c:59-99 | strtol(itoa(v, 10), 10) == v for every 32-bit v, to the end of the string and without ERANGE |
| `Itoa.StrtoulReadsItoa` | src/klib/mylib.c:59-99 | strtoul(itoa(v, r), r) == v modulo 2^32 for every radix from 2 to 36 |
| `Ucvt.TwelveDigits` | src/libc/ioformat/ucvt.c:37-37 | twelve places hold the digits of any 32-bit number in base 7 or more |
| `Ucvt.ThirteenDigits` | src/libc/ioformat/ucvt.c:37-37 | in base 6 they do not: the largest number has 13 digits |
| `Ucvt.CollectDigits` | src/libc/ioformat/ucvt.c:63-70 | the digits, at most twelve, lie in tmp with the last one first |
| `Ucvt.NumeralIs` | src/libc/ioformat/ucvt.c:60-70 | the numeral is the one without leading zeros, in decimal digits and capital letters, of the number or of its magnitude in a negative base |
| `Ucvt.Layout` | src/libc/ioformat/ucvt.c:72-108 | padding makes up the width and no more, as spaces on the left or zeros after the sign, or as spaces on the right; sign and numeral are whole |
| `Ucvt.Ucvt` | src/libc/ioformat/ucvt.c:32-109 | padding, sign, zeros, digits and padding as the flags ask, then NUL; the result is the number of characters before it |
| `Ucvt.Dcvt` | src/libc/ioformat/ucvt.c:111-114 | the signed variant through a negative base |
| `Strtou.Strtou` | src/libc/stdlib/strtou.c:29-52 | the loop returns what the specification does, with *scan_end written or not; StrtouExactly says what that is for every input |
| `Strtou.Strtoi` | src/libc/stdlib/strtoi.c:29-58 | the same for the signed variant and StrtoiExactly |
| `Strtou.WrappedModulo` | src/libc/stdlib/strtou.c:42-43 | the sum is the number modulo 2^32, for the signed variant as the long with those bits |
| `Strtou.OverflowFound` | src/libc/stdlib/strtou.c:44-45 | the overflow test sees exactly the numbers with a prefix whose 32-bit value is below that of the prefix before |
| `Strtou.WrappedExact` | src/libc/stdlib/strtou.c:39-46 | the sum is exact and no overflow is flagged exactly when the number fits |
| `Strtou.StrtouExactly` | src/libc/stdlib/strtou.c:29-52 | for every string: 0 without *scan_end when the run holds a character that is no digit, else LONG_MAX when a digit drops the 32-bit value, else the number modulo 2^32 |
| `Strtou.StrtoiExactly` | src/libc/stdlib/strtoi.c:29-58 | the same on longs, followed by the sign |
| `Strtou.Numerals` | src/libc/string/strbase.c:92-114 | in a number only decimal digits and capital letters below the base are digits; the characters between 9 and A spoil it in bases above 10, and everything else ends it |
| `Strtou.HexadecimalRead` | src/libc/stdlib/strtou.c:29-52 | zeros, x, zeros and hexadecimal digits are read as the number in base 16; in any other base, and with a capital X, the number ends at the x and is 0 |
| `Strtou.OverflowReported` | src/libc/stdlib/strtou.c:36-50 | strtou is right exactly for the numbers that fit; of the others it returns LONG_MAX exactly for those with a dropping digit, or whose remainder is LONG_MAX |
| `Strtou.RightExactly` | src/libc/stdlib/strtoi.c:42-57 | strtoi is right exactly for the magnitudes that fit a long, so never for LONG_MIN |
| `Strtou.OverflowMissed` | src/libc/stdlib/strtou.c:44-45 | one number the test misses: 5000000000 is read as 705032704 |
| `Strtou.StrtouReadsUcvt` | src/libc/stdlib/strtou.c:29-52 | strtou(ucvt(v)) == v, for bases 2 to 16, exactly when v is 0 or no plus sign and no left space padding was printed |
| `Strtou.StrtoiReadsDcvt` | src/libc/stdlib/strtoi.c:29-58 | strtoi(dcvt(v)) == v, for bases 2 to 16, exactly when v is 0, or it is not LONG_MIN and no left space padding was printed |
| `Random.Schrage` | src/libc/stdlib/random.c:33-36 | from any long both products and their difference are longs, and the result is 16807 * x mod 2^31 - 1 |
| `Random.Generator.Rand` | src/libc/stdlib/random.c:31-38 | one step of the generator, in range |
| `Random.Outputs` | src/libc/stdlib/random.c:29-43 | after srand(seed) the n-th output is 16807^n * seed mod 2^31 - 1, and never 0 |
| `Random.StuckAtZero` | src/libc/stdlib/random.c:33-36 | the generator reaches 0 exactly from multiples of 2^31 - 1 |
| `Random.StepInjective` | src/libc/stdlib/random.c:33-36 | the step is injective on 1 to 2^31 - 2 |
| `Random.SeedsNeverMeet` | src/libc/stdlib/random.c:31-43 | different seeds give different n-th numbers for every n |
| `Mktime.NextDayNumber` | src/klib/systime.c:57-75 | the reference day count is right: the next calendar day has the next number |
| `Mktime.EarlierIsSmaller` | src/klib/systime.c:57-75 | the reference day count is strictly increasing in the order of the calendar |
| `Mktime.YearStarts` | src/klib/systime.c:66-66 | the leap-year terms count the leap years |
| `Mktime.DayFormula` | src/klib/systime.c:61-67 | with the year starting in March the formula counts the days since 1970, if nothing wraps |
| `Mktime.Mktime` | src/klib/systime.c:57-75 | in 32-bit and 64-bit unsigned arithmetic the result is the day count, off by the 2^32 days that the year term loses, and the time of day |
| `Mktime.ExactWhen` | src/klib/systime.c:67-67 | exact exactly when the year term is in 32-bit range, that is from 1 March 1972 to its overflow; before that 2^32 days too many |
| `Mktime.Anchors` | src/klib/systime.c:67-67 | 1 March 1972 is day 790; the day before is off |
| `Mktime.NextDaySeconds` | src/klib/systime.c:57-75 | from 1 March 1972 on the next day is exactly 86400 seconds later |
| `Mktime.LaterIsLarger` | src/klib/systime.c:57-75 | in that range the order of moments and of results is the same |
| `InlineCache.PutShortBack` | j2me_cldc/kvm/VmCommon/h/global.h:254-256 | putShort of what getShort read changes nothing exactly when the high byte was 0 |
| `InlineCache.ReleaseKeeps` | j2me_cldc/kvm/VmCommon/src/cache.c:128-140 | releasing an entry restores its site, with a high byte of 0, and keeps the invariant |
| `InlineCache.CreateKeeps` | j2me_cldc/kvm/VmCommon/src/cache.c:174-180 | a new entry for an unpatched site remembers what is there |
| `InlineCache.PatchKeeps` | j2me_cldc/kvm/VmCommon/src/interpret.c:2138-2143 | patching the site of a live entry keeps the invariant and makes the instruction name its entry |
| `InlineCache.OnlySitesDiffer` | j2me_cldc/kvm/VmCommon/src/cache.c:100-182 | when the patched sites had parameters below 256, code differs from the original only in the sites of live entries, which remember it |
| `InlineCache.AllReleased` | j2me_cldc/kvm/VmCommon/src/cache.c:100-109 | with no entry left the code is the original exactly when every site patched so far had a high byte of 0 |
| `InlineCache.Interpreter.constructor` | j2me_cldc/kvm/VmCommon/src/cache.c:75-87 | an empty cache over unpatched code |
| `InlineCache.Interpreter.Release` | j2me_cldc/kvm/VmCommon/src/cache.c:128-140 | the bytes written are the entry's |
| `InlineCache.Interpreter.Create` | j2me_cldc/kvm/VmCommon/src/cache.c:154-182 | the oldest entry makes room when the area is full; the ring pointer and the full flag move on; the other entries stay |
| `InlineCache.Interpreter.Install` | j2me_cldc/kvm/VmCommon/src/interpret.c:2138-2143 | create and patch: the invariant holds and the new instruction reads back its entry |
| `InlineCache.Interpreter.FinalizeCaching` | j2me_cldc/kvm/VmCommon/src/cache.c:100-109 | all code is restored exactly when every site patched so far had a parameter below 256 |
| `InlineCache.ParameterLost` | j2me_cldc/kvm/VmCommon/h/global.h:254-256 | a parameter of 256 comes back as 0 after create, patch and finalize |

## Left out

- Heap granularity: payloads are sequences of words, not bytes, so a partial word is copied whole.
- Malloc.KernelHeap.KiMalloc: requires that the rounded size fits an int; beyond that the rounding itself overflows in the source and the free lists are indexed past their end.
- Malloc.KernelHeap.Sbrk: exhaustion stops the machine in the source (an endless loop); here the call reports it and the state is unchanged.
- Malloc.KernelHeap.KiRealloc: requires that the rounded size fits an int; a size_t of 2^31 or more is passed on as a negative int, the payload moves to the least block (Malloc.HugeSizeGetsLeast) and the copy runs past its end.
- The small-block lists of malloc.c, which NUMSMALL == 0 compiles out, and the debugging and logging code.
- The C++ operators new and delete and the ki__ wrappers, which only forward.
- Kernel.KernelSystem.Activate: stacks, saved registers and signal handlers of a process are not modelled.
- Kernel.KernelSystem.Tick: pending signals (handlesignals) and the interrupt controller are not modelled.
- Kernel.KernelSystem.Go: starting the timer and loading the context are not modelled.
- The 32-bit wrap of prec, tick, tickTotal, proc_count and the semaphore counts.
- KernelTheorems.ShortDelayIsNeverReleased: the waits (dattesa) are unbounded integers; the source's int would wrap to a positive wait after about 2^31 ticks.
- The memory of timer requests (new and delete of richiesta); the model keeps released requests unreachable instead.
- add_apc, the system call trampolines, context switching and the exception handlers: assembly that is not in the files modelled.
- MultiArray.JavaHeap.InstantiateArray: the size of an array in cells is replaced by an oracle for how many allocations still succeed; garbage collection is not modelled.
- MultiArray.JavaHeap.InstantiateMultiArray: requires at least one dimension and no more than the class has, as the bytecode verifier guarantees.
- Assignable.IsAssignableTo: classes are loaded already, so loadClassfile and resolveClassReference do nothing.
- runClinit and the rest of class.c: monitors and threads.
- EightQueens.Solver.AllSolutions: stands for the event handler that calls nextSolution for each press of a button; drawing the board is left out.
- OneDragon.Dragon.Run: drawing, the thread and the shared count of dragons are left out, and pen coordinates are unbounded integers; requires 1 to 30 iterations, where the array size is an int.
- Strtol.Accumulate: one method for the digit loop that strtol.c and strtoul.c both spell out, as is Strtol.Prologue for what comes before it.
- Ucvt.Ucvt: requires that the digits of the number fit the 12 places of tmp, and a base of magnitude at least 2; the flag word is a record of its four bits.
- Strtou.Strtou: requires a base from 1 to 16, the range of the table of digits.
- Strtou.Strtoi: signed overflow, undefined in C, wraps as on the machine.
- Mktime.Mktime: requires a valid Gregorian date from year 1 on.
- get_cmos_time and its handling of two-digit years.
- InlineCache.Interpreter.Install: the patch of one bytecode stands for all of them; sites have three bytes and must not overlap a live one, which holds because only unpatched bytecodes create entries.
- Floating-point conversions, the printf and scanf drivers, the string routines.
- Video, keyboard, disk, network, download and graphics code.
