# ZeOS: processes, memory and context switches

ZeOS is a small teaching kernel for 32-bit x86. This project models the variant with fork, exit, yield and
preemption (`so2_old/GAME/zeos`): ten process blocks on two linked queues, a round-robin scheduler, a frame
allocator, one page table per process, physical memory behind a TLB, and the hand-written stack switch. It
also models the hand-built two-level address space of the newer tree (`zeos`).

## How the model is built

* `Machine.dfy` gives one value per kernel state and one function per kernel entry (clock tick, fork, exit,
  yield, the two calls that copy to their caller, mode switches) and for what the processor does on its own (user
  stores, caching and dropping translations). Entries run with interrupts off, so each is one atomic step; a run is
  a sequence of events from the boot state (`Startup.dfy`). Clock readings are parameters of the events.
* `Invariant.dfy` proves what every event keeps. `Scheduling.dfy`, `Processes.dfy` and `Accounting.dfy` prove
  the theorems about runs. `Outcomes.dfy` writes out what each entry leaves behind, field by field and in plain
  numbers, so that the machine's functions are pinned independently of one another.
* `Lists.dfy` and `Kernel.dfy` hold the data structures as the source has them: intrusive circular doubly
  linked lists, arrays updated in place, loops over pages, copies that go through temporary mappings and
  a TLB which may cache or drop translations at any moment. Every method is proved to do what the machine's
  function says, up to whole runs of all its events (`Kernels.Kernel.BootAndServe`), user stores and TLB activity
  included, so the theorems hold of these structures.
* `ContextSwitch.dfy` runs the assembly routines and the stack that `sys_fork` forges on a small register and
  memory model. `Joint.dfy` puts that model and the scheduler side by side: each event of the machine moves the
  stacks, and every switch goes to the task that the scheduler chose.
* `AddressSpace.dfy`, `Ticks.dfy` and `Keyboard.dfy` are the smaller machines: the first address space of the
  newer tree under the two-level walk of section 4.3 of the Intel SDM Volume 3A, the 64/32-bit division, and
  the keyboard ring buffer.

## What turned out not to hold

* A process that yields while nobody else is ready is switched to itself, and the switch loads the stack
  pointer saved by its previous switch, because `new->task.register_esp` is read before `switch_stack` stores
  the current one. The round trip works exactly when the two happen to be equal
  (`ContextSwitch.SelfSwitch`); for the first process right after boot it does not
  (`ContextSwitch.FirstYieldAlone`). Over whole runs from boot, every switch goes on where the chosen task left off
  if and only if every such yield departs at the very stack pointer of the task's departure before
  (`Joint.BootRunTakesUp`), so no run does in which the first process yields alone before its first switch
  (`Joint.FirstYieldFails`). In `Machine.dfy` such a yield leaves the process running with a fresh quantum, which
  is what the scheduler intends.
* `set_ss_pag` sets every permission bit, so a forked process can write to every page it has mapped, all 256 kernel
  pages (page 0 and the two guard pages included) and the shared code pages among them, for its whole life
  (`Processes.ForkedProcessWrites`). Memory of live processes is therefore private exactly for stores to data
  pages (`Processes.StoreIsPrivate`, `Processes.StoreIsSeen`); the first process can make no others
  (`Processes.FirstProcessIsPrivate`).
* The case of `access_ok` for writing falls through to the one for reading, and the kernel's own writes are not
  write-protected (bit WP of CR0 stays 0). So `sys_get_stats` and `sys_pollEvent` also fill a buffer in the shared
  code pages, and another live process sees the call exactly when the buffer meets such a page with a new byte
  (`Processes.CallIsSeen`). Even the first process, which cannot store there itself, is an instance
  (`Processes.FirstCallReachesCode`).
* `access_ok` compares the page after the end of the buffer with an inclusive bound, and accepts buffers that reach
  into page 284 (`Processes.AcceptedBuffers`), which no process has mapped. An accepted buffer can be filled without
  a page fault if and only if it ends before that page (`Processes.AcceptedBufferIsMapped`).
* `sys_get_stats` answers with the remaining quantum of the running process, whoever is asked for. That is the
  asked process's own exactly if it is the running one, or if the running one has its whole quantum left
  (`Processes.RemainingIsTheRunners`).
* Only the two interrupt handlers call `user_to_system` and `system_to_user`; `system_call_handler` calls neither.
  So the user ticks of a process that stays running measure its time in user mode together with its time inside
  system calls (`Accounting.UserTicksCountCalls`), hence user time alone exactly when that second part is none
  modulo 2^32 (`Accounting.UserTicksAreUserTime`), and the user time before a kernel entry is charged as user time
  at that entry if and only if it is an interrupt (`Accounting.UserTimeIsMeasured`). Before a yield it becomes
  system time (`Accounting.YieldHidesUserTime`); the first process after boot is an instance
  (`Accounting.FirstYieldHidesUserTime`).
* The cleanup loop of `sys_fork` gives back the frames it got exactly if frame 256 was in use before
  (`Frames.ReleaseUndoesAllocation`), since `free_frame` compares with a strict `>`. The structural invariant keeps
  code in that frame, so no failed fork loses a frame (`Processes.FailedForkLosesNothing`).
* The EAGAIN path of `sys_fork` leaves the parent's process identifier in the free block
  (`Processes.FailedForkRollsBack`). With the frame counts of this kernel no run from boot takes that path
  (`Processes.ForkNeverLacksFrames`); the structural invariant alone allows it at each of the twenty allocations
  (`Processes.ForkCanFailAnywhere`), and the results about it need no more than that invariant.
* The comment at `so2_old/GAME/zeos/sys.c:115` says the last logical page is used for the temporary mapping;
  the code uses twenty pages, 284 to 303. The model follows the code.

## Model

| member | source | states |
|---|---|---|
| Frames.Scan | so2_old/GAME/zeos/mm.c:214-227 | the scan ends at the lowest free frame among every second one from 256, and finds none exactly when all of these are in use |
| Frames.AllocatedFresh | so2_old/GAME/zeos/mm.c:214-227 | repeated allocation yields distinct even non-kernel frames that were free, and falls short only when the scan has run dry |
| Frames.AllocationSucceeds | so2_old/GAME/zeos/mm.c:214-227 | n allocations succeed while at most 384 - n frames above the kernel are in use |
| Frames.ReleaseUndoesAllocation | so2_old/GAME/zeos/sys.c:82-103 | releasing what was allocated restores the bytemap if and only if frame 256 was in use or nothing was allocated |
| Machine.FindPid | so2_old/GAME/zeos/sys.c:228-236 | the loop finds the first block with the identifier, or none has it |
| Machine.CopyPagesAt | so2_old/GAME/zeos/sys.c:116-122 | copying pages to distinct frames changes only these frames, each into its source page |
| Invariant.TickCases | so2_old/GAME/zeos/sched.c:98-108 | the test for a used-up quantum never misses: a tick counts down, restarts a lone task, or preempts |
| Invariant.YieldRotates | so2_old/GAME/zeos/sched.c:110-148 | giving way puts the running task last and starts the first, with its quantum and directory and an empty TLB |
| Invariant.ExitShape | so2_old/GAME/zeos/sys.c:190-210 | exit queues the block as free, marks it nobody's, releases the data frames and starts the next task or idle; what the exited table holds is in Outcomes.ExitTable |
| Invariant.ForkHasRoom | so2_old/GAME/zeos/sys.c:64-103 | with a free block, at most 168 frames above the kernel are in use and twenty allocations succeed |
| Invariant.NextKeepsCore | so2_old/GAME/zeos/sys.c:59-238 | every event keeps queues, states, mappings, frame ownership, kernel stack and TLB agreement, however many frames are left; if no other frame was in use, none is afterwards |
| Invariant.ChargeConserves | so2_old/GAME/zeos/p_stats.c:3-13 | charging any of the counters keeps their sum equal to the elapsed time modulo 2^32 |
| Invariant.RunKeepsInv | so2_old/GAME/zeos/sched.c:98-158 | every run keeps all of it: each block in one place, exact frame ownership, capacity, distinct identifiers, quanta, tick conservation |
| Startup.BootAllocation | so2_old/GAME/zeos/mm.c:198-227 | after boot initialisation the allocator hands out 256, 258, 260 and so on |
| Startup.BootInv | so2_old/GAME/zeos/system.c:84-98 | the boot sequence establishes the invariant |
| Startup.ReachableInv | so2_old/GAME/zeos/system.c:84-109 | the invariant holds in every state reachable from boot |
| Scheduling.WaitStep | so2_old/GAME/zeos/sched.c:98-158 | a tick takes exactly 1 off a queued task's waiting time or starts it, a yield or exit takes off the remaining quantum or starts it, a fork nothing |
| Scheduling.StartsInTime | so2_old/GAME/zeos/sched.c:98-158 | a queued task has started once as many ticks have passed as its waiting time, whatever else happens |
| Scheduling.WaitBound | so2_old/GAME/zeos/sched.c:82-141 | in every reachable state a queued task waits at most eighty ticks, eight quanta of ten |
| Scheduling.StartsWithin80 | so2_old/GAME/zeos/sched.c:98-158 | in every reachable state a queued task has started once eighty ticks have passed, whatever else happens |
| Scheduling.BoundIsReached | so2_old/GAME/zeos/sched.c:98-158 | after eight forks of the first process its last child waits exactly eighty ticks |
| Scheduling.NotBefore | so2_old/GAME/zeos/sched.c:98-158 | without yields and exits it does not start earlier, and its waiting time falls by the elapsed ticks |
| Scheduling.OneTurn | so2_old/GAME/zeos/sched.c:98-108 | a task keeps the processor for exactly what remains of its quantum |
| Scheduling.Period | so2_old/GAME/zeos/sched.c:98-158 | after as many ticks as all live quanta together the schedule repeats and each task ran exactly its quantum |
| Scheduling.LoneYieldSwitchesToSelf | so2_old/GAME/zeos/sched.c:260-266 | a task is switched to itself if and only if it yields with an empty queue |
| Scheduling.IdleOnlyWhenAlone | so2_old/GAME/zeos/sched.c:126-148 | idle is never queued, starts exactly when the last live process exits, and no process is alive while it runs |
| Processes.FramesInUse | so2_old/GAME/zeos/mm.c:214-246 | used frames above the kernel are 8 + 20 per live process, at most 188, and frame 256 stays in use |
| Processes.ForkNeverLacksFrames | so2_old/GAME/zeos/sys.c:64-103 | a fork fails with ENOMEM exactly when no block is free and never with EAGAIN |
| Processes.ForkCopies | so2_old/GAME/zeos/sys.c:59-151 | the child's data bytes are the parent's, its low pages name the parent's frames, and no live process has a table or reads a byte other than before |
| Processes.FailedForkRollsBack | so2_old/GAME/zeos/sys.c:82-103 | in any state, a fork short of frames leaves everything as it was but the order of the free queue, the block and table it hands back, which keeps the parent's identifier, and the bytemap, which it restores if and only if frame 256 was in use |
| Processes.FailedForkLosesNothing | so2_old/GAME/zeos/sys.c:82-103 | under the structural invariant such a fork always restores the bytemap and every page table and keeps the invariant |
| Processes.ForkCanFailAnywhere | so2_old/GAME/zeos/sys.c:82-103 | for every k below 20 there is a state with that invariant in which the allocation after k fails and fork answers EAGAIN |
| Processes.StoreIsPrivate | so2_old/GAME/zeos/mm.c:249-257 | a store reaches its own process, and what another live process's table leads to changes if and only if the store changes a byte of a shared kernel or code page |
| Processes.StoreIsSeen | so2_old/GAME/zeos/mm.c:249-257 | the other process sees it if and only if it has that page present as well |
| Processes.ForkedProcessWrites | so2_old/GAME/zeos/sys.c:105-122 | in any run while a forked process lives, the pages it can write to are exactly pages 0 to 283: kernel, code and data |
| Processes.ChildStoresToSharedCode | so2_old/GAME/zeos/sys.c:111-114 | a forked child can store to a code page and the parent reads the new byte |
| Processes.FirstProcessSharesItsCode | so2_old/GAME/zeos/sys.c:111-114 | the same for the first process after boot |
| Processes.TableSurvivesRuns | so2_old/GAME/zeos/sys.c:105-122 | in any run a process keeps its page table until it exits, through its own forks and everybody else's |
| Processes.FirstProcessIsPrivate | so2_old/GAME/zeos/mm.c:88-105 | in any run the first process, while it lives, can itself store exactly to its data pages (copies by the kernel are in CallIsSeen) |
| Processes.BootPages | so2_old/GAME/zeos/mm.c:55-106 | which pages of the first process exist, which the user reaches and which are writable |
| Processes.CopyReads | so2_old/GAME/zeos/utils.c:39-54 | after a copy into the running process's buffer it reads the new bytes, every live process reads those in code pages, and every other byte of every live process is as before |
| Processes.CallReads | so2_old/GAME/zeos/sys.c:221-252 | the same for both calls that copy to their caller, with the bytes they copy |
| Processes.CallIsSeen | so2_old/GAME/zeos/sys.c:221-252 | another live process sees such a call if and only if the buffer meets a shared code page with a byte that is new there |
| Processes.FirstCallReachesCode | so2_old/GAME/zeos/sys.c:242-252 | the first process cannot store to its code pages, but its call of `sys_pollEvent` changes what its child reads there |
| Processes.AcceptedBuffers | so2_old/GAME/zeos/utils.c:65-86 | `access_ok` accepts exactly the buffers from the first code page up to the end of page 284 |
| Processes.AcceptedBufferIsMapped | so2_old/GAME/zeos/utils.c:65-86 | all of an accepted buffer is present if and only if it ends before page 284 |
| Processes.RecordArrives | so2_old/GAME/zeos/sys.c:221-238 | after a successful call the 28 bytes at the caller's address, across pages or not, read back as the record |
| Processes.DataIsLastWritten | so2_old/GAME/zeos/mm.c:214-263 | in any run a byte of a data page of a live process is the last one that the process itself stored there or had the kernel copy there |
| Processes.DataSurvivesRuns | so2_old/GAME/zeos/mm.c:214-263 | in any run a byte of a data page changes only by a store of its own process or by the kernel's copy into this process's own buffer |
| Processes.StatsLookup | so2_old/GAME/zeos/sys.c:221-238 | the answer is the record of the one holder of the identifier, and ESRCH exactly when there is none |
| Processes.RemainingIsTheRunners | so2_old/GAME/zeos/sys.c:232 | the answer's remaining ticks are the asked process's own if and only if it runs or the running process has its whole quantum left |
| Processes.TicksAddUp | so2_old/GAME/zeos/p_stats.c:3-13 | the four tick counters of every block add up to its elapsed time modulo 2^32 in every reachable state |
| Processes.CachedTranslationsAreCurrent | so2_old/GAME/zeos/mm.c:108-112 | CR3 is the running process's directory and every translation used is its table's |
| Outcomes.ForkSucceeds | so2_old/GAME/zeos/sys.c:64-103 | in every reachable state a fork succeeds exactly when a block is free |
| Outcomes.ForkBlock | so2_old/GAME/zeos/sys.c:124-147 | the child's user, system, blocked, ready and transition counters are 0, its elapsed time starts at the fork's reading, it has the next identifier, its own directory, state ready and the parent's quantum |
| Outcomes.ForkLeaves | so2_old/GAME/zeos/sys.c:59-151 | a fork changes no other block, table or start time, moves the first free block to the end of the ready queue and flushes the TLB |
| Outcomes.ForkTable | so2_old/GAME/zeos/sys.c:82-114 | every entry of the child's table: the parent's frames below page 264, the twenty allocated ones up to page 283, nothing above |
| Outcomes.ForkMarks | so2_old/GAME/zeos/mm.c:214-227 | these twenty frames are distinct, were free, and they alone become used |
| Outcomes.ForkFrames | so2_old/GAME/zeos/sys.c:116-122 | each of the child's frames holds the parent's page, every other frame is as it was |
| Outcomes.ExitTable | so2_old/GAME/zeos/sys.c:195-201 | after an exit the twenty data entries of the exited table are empty and every other entry of every table is as before |
| Outcomes.ExitFrames | so2_old/GAME/zeos/sys.c:195-201 | exactly the frames behind these twenty entries become free, and memory is as before |
| Outcomes.DataPagesAreOfLive | so2_old/GAME/zeos/sys.c:195-201 | in every reachable state a data page present in some table belongs to a live process |
| Outcomes.StatsErrors | so2_old/GAME/zeos/sys.c:221-238 | for every identifier and buffer: EFAULT exactly outside the accepted range, EINVAL exactly inside it with a negative identifier, ESRCH exactly when no block has it |
| Outcomes.StatsFailureChangesNothing | so2_old/GAME/zeos/sys.c:221-238 | a call that does not succeed changes nothing |
| Outcomes.StatsSuccess | so2_old/GAME/zeos/sys.c:228-234 | a call that succeeds stores the running task's remaining quantum in the first holder's record, answers with that record and changes no other block, table, frame or queue |
| Outcomes.PollErrors | so2_old/GAME/zeos/sys.c:242-252 | EFAULT exactly outside the accepted range, and nothing changes when the call fails |
| Outcomes.RecordLayout | so2_old/GAME/zeos/include/stats.h:5-14 | the record lies in memory as seven words in the order of the structure, low byte first |
| Outcomes.StoreHappens | so2_old/GAME/zeos/mm.c:108-112 | a user store happens if and only if the table's entry is present, user-accessible and writable and names no kernel structure |
| Outcomes.StoreOutcome | so2_old/GAME/zeos/mm.c:108-112 | one byte of the frame behind the page changes, the entry is cached, and nothing else changes |
| Outcomes.TlbSteps | so2_old/GAME/zeos/mm.c:108-112 | caching adds the entry of a present page, dropping removes the given ones, and neither changes anything else |
| Outcomes.RequeueMoves | so2_old/GAME/zeos/sched.c:110-124 | a block moves from wherever it stands to the end of the ready queue, charged with system time since its last update, and nothing else changes |
| Outcomes.UnqueueRemoves | so2_old/GAME/zeos/sched.c:110-124 | without a destination it leaves the queue in state run and is not charged |
| Outcomes.BootValues | so2_old/GAME/zeos/sched.c:160-230 | the boot state in numbers: slots, queues, identifiers, quanta, counter |
| Outcomes.BootRecords | so2_old/GAME/zeos/sched.c:38-47 | both records start with all counters at 0 |
| Outcomes.BootEntries | so2_old/GAME/zeos/mm.c:55-106 | every entry of every page table at boot |
| Accounting.TransCountsStarts | so2_old/GAME/zeos/sched.c:126-148 | over any run during which a slot stays in use its transition count grows by the number of events that start it, a yield alone included, modulo 2^32 |
| Accounting.TransFromBoot | so2_old/GAME/zeos/sched.c:38-47 | from boot on it is that number, for the first process and the idle task |
| Accounting.TransFromFork | so2_old/GAME/zeos/sys.c:143-144 | from its fork on it is that number for a child |
| Accounting.QueuedStep | so2_old/GAME/zeos/sched.c:126-148 | a queued task's record is left alone until it starts; then its wait becomes ready time |
| Accounting.WaitIsMeasured | so2_old/GAME/zeos/sched.c:110-148 | over any run up to its start, a task's ready time grows by exactly the time since its last update |
| Accounting.LeavingTimeIsSystem | so2_old/GAME/zeos/sched.c:110-148 | the two charges of a task that gives way add up to the time since its last update, all of it system time |
| Accounting.ModesAreMeasured | so2_old/GAME/zeos/sys.c:32-40 | over any run during which a task runs, its user ticks grow by the sum over its charged entries of the reading less the last update, its system ticks by the same sum over its returns and its giving way, modulo 2^32 |
| Accounting.UserTicksCountCalls | so2_old/GAME/zeos/entry.S:72-119 | over any series of interrupts and non-switching system calls up to the return of an interrupt, user ticks grow by the time in user mode and inside system calls, system ticks by the time inside interrupts |
| Accounting.UserTicksAreUserTime | so2_old/GAME/zeos/entry.S:72-119 | user ticks grow by the time in user mode if and only if the time inside system calls is 0 modulo 2^32 |
| Accounting.UserTimeIsMeasured | so2_old/GAME/zeos/entry.S:72-119 | a kernel entry charges the user time before it as user time if and only if it is an interrupt or no time passed |
| Accounting.YieldHidesUserTime | so2_old/GAME/zeos/entry.S:98-119 | a yield after some user time leaves the user ticks alone and charges that time as system time |
| Accounting.FirstYieldHidesUserTime | so2_old/GAME/zeos/entry.S:98-119 | the first process yielding one tick after boot is such a case |
| Lists.InitListHead | so2_old/GAME/zeos/list.c:6-10 | a sentinel linked to itself is an empty ring |
| Lists.ListAddBetween | so2_old/GAME/zeos/list.c:18-26 | links a node between two others, whose outer links stay |
| Lists.ListAddTail | so2_old/GAME/zeos/list.c:50-53 | the node becomes the last of the ring |
| Lists.ListDelBetween | so2_old/GAME/zeos/list.c:62-66 | two nodes become neighbours, their outer links stay |
| Lists.ListDel | so2_old/GAME/zeos/list.c:74-79 | the ring closes around the removed node, which is left unlinked |
| Lists.ListEmpty | so2_old/GAME/zeos/list.c:96-99 | true exactly for a ring without nodes |
| Lists.ListFirst | so2_old/GAME/zeos/include/list.h:127-132 | the first node of the ring |
| Kernels.UpdateStats | so2_old/GAME/zeos/p_stats.c:3-13 | both 32-bit operations together add the elapsed time modulo 2^32 |
| Kernels.Kernel.constructor | so2_old/GAME/zeos/sched.c:18-35 | the image as loaded: ten unlinked blocks, two sentinels, blank tables |
| Kernels.Kernel.MakeReady | so2_old/GAME/zeos/sys.c:148 | an unlinked block becomes the last of the ready queue; both rings stay well formed and disjoint |
| Kernels.Kernel.MakeFree | so2_old/GAME/zeos/sys.c:204 | an unlinked block becomes the last of the free queue |
| Kernels.Kernel.TakeFree | so2_old/GAME/zeos/sys.c:67-71 | the first free block leaves its queue unlinked |
| Kernels.Kernel.TakeReady | so2_old/GAME/zeos/sched.c:131-136 | the first ready block leaves its queue unlinked |
| Kernels.Kernel.RemoveReady | so2_old/GAME/zeos/sched.c:112 | a queued block is unlinked from the ready queue wherever it stands |
| Kernels.Kernel.InitFrames | so2_old/GAME/zeos/mm.c:198-210 | exactly the kernel frames are marked used |
| Kernels.Kernel.AllocFrame | so2_old/GAME/zeos/mm.c:214-227 | returns and marks the frame of the scan, or changes nothing and returns -1 |
| Kernels.Kernel.FreeFrame | so2_old/GAME/zeos/mm.c:242-246 | frees the frame if it is above frame 256 |
| Kernels.Kernel.SetSsPag | so2_old/GAME/zeos/mm.c:249-257 | one entry maps the frame with all permissions, nothing else changes |
| Kernels.Kernel.DelSsPag | so2_old/GAME/zeos/mm.c:260-263 | one entry becomes empty, nothing else changes |
| Kernels.Kernel.Touch | so2_old/GAME/zeos/mm.c:108-112 | with no stale entry cached, an access reaches the frame of the page table, whatever the TLB holds |
| Kernels.Kernel.CopyData | so2_old/GAME/zeos/utils.c:6-20 | the word loop and the byte loop together copy exactly the bytes of the range |
| Kernels.Kernel.UserToSystem | so2_old/GAME/zeos/sys.c:32-35 | the running block changes exactly as in the machine's entry event: time since the last update becomes user time |
| Kernels.Kernel.SystemToUser | so2_old/GAME/zeos/sys.c:37-40 | the running block changes exactly as in the machine's leave event: time since the last update becomes system time |
| Kernels.Kernel.UpdateProcessState | so2_old/GAME/zeos/sched.c:110-124 | queued before or not, the block ends up last in the ready queue, charged and in state ready, or with no destination in no queue, in state run and not charged |
| Kernels.Kernel.TaskSwitch | so2_old/GAME/zeos/sched.c:245-257 | both entry paths get the new task's kernel stack, its directory is loaded and the TLB is empty |
| Kernels.Kernel.SchedNext | so2_old/GAME/zeos/sched.c:126-148 | dispatches the head of the ready ring, or idle, as the machine does |
| Kernels.Kernel.ForceTaskSwitch | so2_old/GAME/zeos/sched.c:260-266 | queues, blocks, CR3 and TLB end as in the machine's yield, which rotates the queue by one |
| Kernels.Kernel.Schedule | so2_old/GAME/zeos/sched.c:98-158 | queues, blocks and quantum end as in the machine's clock event, on which the waiting-time and period theorems rest |
| Kernels.Kernel.SysYield | so2_old/GAME/zeos/sys.c:213-217 | the same under the conditions of the system call |
| Kernels.Kernel.FreeDataPages | so2_old/GAME/zeos/sys.c:197-201 | releases the frames of the first n data pages and empties exactly these entries |
| Kernels.Kernel.SysExit | so2_old/GAME/zeos/sys.c:190-210 | frames, page table, both rings and the choice of the next task end as in the machine's exit event |
| Kernels.Kernel.CopyBlock | so2_old/GAME/zeos/sys.c:73-77 | the child's block, list node included, is the parent's but for the directory, and both queues stay well formed |
| Kernels.Kernel.AllocDataPages | so2_old/GAME/zeos/sys.c:82-103 | maps twenty fresh frames, or releases every frame it got and reports failure |
| Kernels.Kernel.ShareLowPages | so2_old/GAME/zeos/sys.c:106-114 | the child maps the parent's kernel and code frames |
| Kernels.Kernel.CopyOnePage | so2_old/GAME/zeos/sys.c:119-121 | one page reaches the child's frame through a temporary page; no stale translation is used and the parent's table is as before |
| Kernels.Kernel.CopyDataPages | so2_old/GAME/zeos/sys.c:116-122 | all data pages reach the child's frames and no page table has changed |
| Kernels.Kernel.SysFork | so2_old/GAME/zeos/sys.c:59-151 | allocation, rollback, mapping, copying through temporary pages and queueing together end as in the machine's fork, with its result, for any number of free frames |
| Kernels.Kernel.CopyToUser | so2_old/GAME/zeos/utils.c:39-54 | the word loop and the byte loop together store exactly the bytes of the range, across page boundaries, each translated by the processor |
| Kernels.Kernel.SysGetStats | so2_old/GAME/zeos/sys.c:221-238 | answers and errors of the scan are those of the machine's first-match lookup, and the record reaches the caller's buffer |
| Kernels.Kernel.SysPollEvent | so2_old/GAME/zeos/sys.c:242-252 | the 128 bytes reach the buffer, or EFAULT and no change, as in the machine's event |
| Kernels.Kernel.InitTablePages | so2_old/GAME/zeos/mm.c:55-76 | every table identity-maps the kernel except page 0 and the guard pages |
| Kernels.Kernel.InitSched | so2_old/GAME/zeos/sched.c:212-230 | all ten blocks are in the free ring in order and the ready ring is empty |
| Kernels.Kernel.InitIdle | so2_old/GAME/zeos/sched.c:160-181 | the first free block becomes the idle task |
| Kernels.Kernel.SetUserPages | so2_old/GAME/zeos/mm.c:81-106 | eight read-only code pages, then twenty data pages, on successive frames |
| Kernels.Kernel.InitTask1 | so2_old/GAME/zeos/sched.c:185-210 | the next free block becomes the running first process with its own pages |
| Kernels.Kernel.BootKernel | so2_old/GAME/zeos/system.c:84-98 | the in-place boot sequence ends in the machine's boot state |
| Kernels.Kernel.StoreThrough | so2_old/GAME/zeos/mm.c:108-112 | a user store, let through or refused, leaves frames and TLB as in the machine's event |
| Kernels.Kernel.CacheEntry | so2_old/GAME/zeos/mm.c:108-112 | a present entry, and only such, is cached |
| Kernels.Kernel.Serve | so2_old/GAME/zeos/sys.c:59-238 | each event, kernel entries, user stores and TLB activity alike, is one machine step on the linked structures |
| Kernels.Kernel.BootAndServe | so2_old/GAME/zeos/system.c:84-109 | from boot, any series of events of whatever kind leaves the structures in the state the machine reaches |
| ContextSwitch.X86.SwitchStack | so2_old/GAME/zeos/kernel-utils.S:4-9 | saves ebp where told, loads the new stack and pops ebp and eip from it |
| ContextSwitch.X86.InnerTaskSwitch | so2_old/GAME/zeos/sched.c:245-257 | saves its frame's address in the running block, having read the new stack pointer first; writes nothing outside its own stack |
| ContextSwitch.X86.TaskSwitch | so2_old/GAME/zeos/kernel-utils.S:12-19 | leaves a frame with ebp, esi, edi, ebx and the return address, and goes on where the new task waits |
| ContextSwitch.X86.LeaveTaskSwitch | so2_old/GAME/zeos/kernel-utils.S:20-25 | takes the registers back from the frame |
| ContextSwitch.X86.CopyPage | so2_old/GAME/zeos/sys.c:73-74 | every word of the page is copied, no other page changes |
| ContextSwitch.X86.ForgeStack | so2_old/GAME/zeos/sys.c:129-141 | three words of the child's page change: the saved stack pointer, the return address and the saved ebp |
| ContextSwitch.X86.ForkStack | so2_old/GAME/zeos/sys.c:73-141 | above the frame pointer the child's page equals the parent's, below it wait the words for the first switch |
| ContextSwitch.X86.ForgeIdle | so2_old/GAME/zeos/sched.c:175-178 | the idle task waits for its first switch to `cpu_idle` |
| ContextSwitch.X86.RetFromFork | so2_old/GAME/zeos/sys.c:54-57 | returns 0 to the address above |
| ContextSwitch.X86.SystemCallEntry | so2_old/GAME/zeos/entry.S:98-104 | sixteen words are saved below the top of the kernel stack: the registers, the return address above the user's ebp, and ebp as the user's stack pointer |
| ContextSwitch.X86.SysenterFin | so2_old/GAME/zeos/entry.S:113-119 | the user registers come from the saved frame, eax from the result |
| ContextSwitch.SystemCallReturns | so2_old/GAME/zeos/entry.S:98-119 | entry and return are a round trip: with the frame kept, user mode goes on at the word above its ebp, with its ebp as stack pointer, its own ebx, esi, edi, ebp and segments, and the result in eax |
| ContextSwitch.ForkComesBackTwice | so2_old/GAME/zeos/sys.c:129-150 | after a fork both processes come back to where the parent called, with its registers at the call, the parent with the child's identifier, the child with 0 |
| ContextSwitch.ForkReturnsTwice | so2_old/GAME/zeos/sys.c:129-150 | for any frame position the child arrives where the parent returns, same offset, same ebp, same words above, and enters user mode with the same registers but eax = 0 |
| ContextSwitch.SwitchRestores | so2_old/GAME/zeos/kernel-utils.S:4-25 | the switched-to task is back at its call with its own stack pointer, frame pointer, callee-saved registers and return address |
| ContextSwitch.StepKeepsStacks | so2_old/GAME/zeos/kernel-utils.S:4-25 | computing, forking, switching and exiting keep the stacks of all waiting tasks |
| ContextSwitch.RoundTrip | so2_old/GAME/zeos/kernel-utils.S:4-25 | in every run every switch restores the context of the last call of the task switched to |
| ContextSwitch.ForkedStackStays | so2_old/GAME/zeos/sys.c:129-150 | the forged stack is still a copy of the parent's frame with the forged words at the end of `sys_fork` |
| ContextSwitch.ForkSpawns | so2_old/GAME/zeos/sys.c:129-141 | the forged stack is a context of the stack model, entered at `ret_from_fork` |
| ContextSwitch.ForkedChildInRun | so2_old/GAME/zeos/sys.c:129-150 | in every run a forked child, whenever first switched to, enters user mode as its parent with eax = 0 |
| ContextSwitch.SelfSwitch | so2_old/GAME/zeos/sched.c:256 | a switch to oneself comes back if and only if the stale saved stack pointer equals the one about to be saved |
| ContextSwitch.FirstYieldAlone | so2_old/GAME/zeos/sched.c:256 | with a saved stack pointer of 0 it does not come back |
| Joint.NextParked | so2_old/GAME/zeos/sched.c:126-148 | a switch parks the task that gave way and takes a parked one, an exit only takes one, a fork parks the child, nothing else moves a stack |
| Joint.Kinds | so2_old/GAME/zeos/sched.c:98-158 | an event switches stacks exactly on a preempting tick or a yield with somebody ready, for the last time on an exit, and to the same task on a lone yield; another task runs afterwards exactly after a switch or an exit |
| Joint.MoveTakesUp | so2_old/GAME/zeos/sched.c:245-257 | the task the scheduler chose goes on where it left off, if and only if it is no lone yield or the saved stack pointer fits |
| Joint.MoveKeepsTogether | so2_old/GAME/zeos/sched.c:126-148 | the prepared stacks stay exactly those of the ready tasks and of the idle task while it does not run |
| Joint.RunTakesUp | so2_old/GAME/zeos/sched.c:126-266 | in any run, every switch goes on where the chosen task left off if and only if every lone yield finds in its block the stack pointer it is about to save |
| Joint.PointersAreHistory | so2_old/GAME/zeos/sched.c:245-257 | the block holds that pointer if and only if the task's departure before, by a switch or by its own fork, was at this very stack pointer |
| Joint.ChosenWithContext | so2_old/GAME/zeos/sched.c:126-148 | in any run, however many switches a parked task waits for, it is first chosen with the context it was parked with |
| Joint.ForkedChildStarts | so2_old/GAME/zeos/sys.c:129-150 | in any run after a fork whose lone yields fit, the child the scheduler first chooses enters user mode as its parent with eax = 0 |
| Joint.ForkedChildComesBack | so2_old/GAME/zeos/entry.S:98-119 | in terms of the parent's registers at its call of fork: the child comes back there, with the same registers and 0 |
| Joint.BootTogether | so2_old/GAME/zeos/sched.c:160-210 | at boot the only prepared stack is that of the idle task, and the first process has never departed |
| Joint.BootRunTakesUp | so2_old/GAME/zeos/system.c:84-109 | in every run from boot, first switch to idle included, all goes on where it left off if and only if every lone yield departs where its task departed before |
| Joint.FirstYieldFails | so2_old/GAME/zeos/sched.c:256 | no run from boot in which the first process yields alone before any switch goes on where it left off |
| AddressSpaces.BootMemory.constructor | zeos/mm.c:103-110 | the kernel's last page follows from the image sizes |
| AddressSpaces.BootMemory.InitFrames | zeos/mm.c:166-182 | exactly the kernel range, the GDT and the screen are marked used |
| AddressSpaces.BootMemory.AllocFrame | zeos/mm.c:186-197 | returns and marks the lowest free frame above the kernel, or -1 exactly when there is none |
| AddressSpaces.BootMemory.ClearPageTable | zeos/mm.c:41-47 | every entry of the table is empty |
| AddressSpaces.BootMemory.SetKernelPages | zeos/mm.c:77-91 | exactly the pages from 0x10 up to the kernel's end, 0x90 and 0xb8 are identity-mapped for the kernel, every other entry is empty |
| AddressSpaces.BootMemory.SetUserPages | zeos/mm.c:51-75 | twenty writable data pages and eight read-only code pages on fresh frames |
| AddressSpaces.BootMemory.InitTask1 | zeos/sched.c:60-120 | the two-level walk of every logical page: below 4 MB the kernel range, 0x90, 0xb8 and the four own frames map to themselves, then twenty data and eight code pages, nothing else, on 32 frames that were free |
| AddressSpaces.IntendedIsInjective | zeos/sched.c:60-120 | no two logical pages of it share a frame |
| Ticks.DoDiv | so2_old/GAME/zeos/utils.c:103-115 | the inner division cannot overflow; the dividend becomes n / base and the result is n % base |
| Ticks.LongDivision | so2_old/GAME/zeos/utils.c:103-115 | division in two 32-bit digits is exact |
| Ticks.GetTicks | so2_old/GAME/zeos/utils.c:121-132 | the low word of the counter divided by 109000 |
| Ticks.ElapsedTicks | so2_old/GAME/zeos/utils.c:121-132 | the clock never runs backwards before truncation and differences of truncated readings are true differences modulo 2^32 |
| Keyboards.DecodeIsInjective | so2_old/GAME/zeos/interrupt.c:48-57 | the stored event determines the raw byte |
| Keyboards.DecodeMeans | so2_old/GAME/zeos/interrupt.c:48-57 | a byte below 0x80 is a press of that code, any other a release of the code without bit 7 |
| Keyboards.QueueSteps | so2_old/GAME/zeos/interrupt.c:59-87 | a key's event is appended exactly while fewer than 15 are pending, and a tick takes the first |
| Keyboards.KeyboardBuffer.constructor | so2_old/GAME/zeos/interrupt.c:39-43 | the buffer starts empty |
| Keyboards.KeyboardBuffer.KeyboardRoutine | so2_old/GAME/zeos/interrupt.c:46-72 | appends the event to the pending ones, or drops it exactly when 15 are pending |
| Keyboards.KeyboardBuffer.Consume | so2_old/GAME/zeos/interrupt.c:79-87 | takes the oldest pending event, if there is one |
| Keyboards.KeyboardBuffer.Serve | so2_old/GAME/zeos/interrupt.c:39-87 | over any series of key interrupts and ticks on the ring, consumed and then pending events are those pending before and the accepted ones, in order |
| Keyboards.NothingLost | so2_old/GAME/zeos/interrupt.c:39-87 | the same for the bounded queue that the ring represents, with never more than 15 pending |

## Left out

- Machine.CanStore: user stores to kernel frames that hold process blocks, page tables, kernel variables or code, which a forked child's page table permits, are not events of the machine, because these structures are not part of its frame contents; stores to all other kernel frames are.
- Kernels.Kernel.CopyData: models ranges that lie within one page each, as in the page copies of fork; words that cross a page boundary do not occur there.
- Kernels.Kernel.UpdateProcessState: takes a flag for the destination, the ready queue or none; the source would also accept the free queue, which no call passes.
- Kernels.Kernel.SysGetStats: a call whose copy reaches the unmapped page 284 raises a page fault and does not come back; the machine does not carry it out, and the page fault handler is not part of this model.
- Kernels.Kernel.SysPollEvent: the kernel's table of keys is a parameter; the same holds of its page fault.
- Kernels.Kernel.BootKernel: the copy of the user image into its pages is left out; initial memory contents are arbitrary.
- Kernels.Kernel.TaskSwitch: the stack part of the switch is modelled in `ContextSwitch.dfy`; the kernel stack address in the TSS and the MSR is represented by the slot it belongs to.
- ContextSwitch.X86.InnerTaskSwitch: compiled code is represented by its frame-pointer prologue, arbitrary words below it and arbitrary callee-saved registers; machine addresses do not wrap around and words do not overlap.
- ContextSwitch.X86.CopyPage: copies the last word of the page at once, where the byte loop of `copy_data` copies its four bytes.
- AddressSpaces.BootMemory.InitTask1: needs 32 free frames, since the source does not look at the result of `alloc_frame` there; the fields of the process block, the TSS and the MSR are left out.
- Page tables and process blocks live in arrays of their own, not in the kernel frames of physical memory; the write-through, cache and accessed bits of entries are left out, and frame numbers are below 1024.
- The process identifier counter is an unbounded integer.
- ContextSwitch.X86.SystemCallEntry: the check of the call number, the jump through the table of system calls and the ENOSYS answer are left out, and so are the kernel's own segment values between entry and return.
- `sys_write`, `sys_gettime`, `sys_getpid`, the display of keys, character maps and string routines: they read or print values and write to no process, frame, page table or queue.
- The other variants of the kernel (`so2_old/E1_E2`, `so2_old/EXAM`), `init_idle` of the newer tree, the boot sector, descriptor tables, port and MSR access.
