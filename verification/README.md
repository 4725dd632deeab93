# ZeOS process and memory core, in Dafny

This project models the kernel core of ZeOS: the process slots and their three queues, the process tree, the
round-robin scheduler, the frame allocator and page tables, the kernel stacks, and the system calls fork, exit,
block and unblock that change all of them at once. It proves what holds in every reachable state and over every run.

There are three layers.

* **The machine** is a state machine over values. `Processes` steps the process table, `Memory` holds frames, page
  tables and a TLB that may keep any translation used since CR3 was last loaded (section 4.10 of the Intel 64 and
  IA-32 Architectures Software Developer's Manual, volume 3A), `Stacks` holds the kernel stacks and registers, and
  `System` steps all three together. An event is a clock tick, a system call of the running process, or a user read
  or write of one byte. `Runs`, `Quantum`, `Stuck`, `KernelRuns` and `KernelStuck` prove what holds over all
  sequences of events; the runs of the process table and of the whole kernel are the same, both ways. `MemoryFacts`
  and `KernelFacts` say what that means to a process: the bytes it reads, the pages it may touch, the answers it gets.
* **The implementation** works on the real data structures: linked nodes with null links (`Lists`, `Queues`), the
  descriptor array and counters (`ProcessTables`), the bytemap, page tables and frames (`Paging`), the stack arrays
  push by push (`Switching`). `Kernels.Kernel` puts them together: each of its calls, made with any stack and
  registers of the running process, is proved to be exactly one step of the machine that keeps the invariant, and
  `Kernels.Kernel.RunAll` carries out any run of possible events on the heap, from the state `BootKernel` builds.
  `Building` makes all of it from nothing, boots it and runs it.
* **Small cores**: the overlap behaviour of copy_data (`Copying`), the boot loader's sector loop (`BootLoader`) and
  the two-step division (`Division`).

`dafny verify dfyconfig.toml` checks the whole project.

## What the code does

Where comments or the usual textbook scheme suggest otherwise, the model follows the code:

* A switch does not reload `quantum_ticks`; only a tick that finds readyq empty does (`Quantum.QuantumStep`). So a
  process does not get a full quantum per turn. Once the counter has expired, every tick switches exactly as long as
  no tick finds readyq empty (`Quantum.ExpiredStaysExpired`); whoever a tick dispatches loses the processor at the next
  tick (`Quantum.DispatchedByTickHasNoTurn`, and `Quantum.FirstChildHasNoTurn` from boot); and a turn is as long as
  what is left of the counter, no more (`Quantum.TurnLength`, `Quantum.FullQuantumIff`). `Runs.BoundedWaiting` states
  the waiting bound that follows.
* A child inherits its parent's `pending_unblocks`, since fork copies the whole slot (`Runs.ForkInherits`).
* Without frames fork would lose the slot it took from freeq, though it gives its frames back (`KernelFacts.FailedFork`,
  `MemoryFacts.FailedForkGivesBack`). `System.ForkNeverRunsOut` shows that this cannot happen.
* `free_frame` ignores frame 256 (`MemoryFacts.FreeFrameSpares`). It is always a code frame and never freed
  (`Memory.FreePagesFrees`).
* `alloc_frame` uses every second frame only, by design.
* copy_data does not move overlapping bytes correctly when the destination begins inside the source
  (`Copying.OverlapBreaks`, and `Copying.CopyIsMoveIff` for the exact condition). Copies between slots, between frames
  and of the user's image are not of that kind (`SlotCopy.SlotCopyCopiesFields`, `Copying.PageCopyMoves`,
  `UserImage.ImageNoClobber`).
* Some blocked processes can never run again, and their slots and 20 frames each are lost for good. A process can
  ever leave the blocked queue exactly if it, or a process up its line of parents, is not blocked (`Stuck.ReleaseIff`,
  `KernelStuck.KernelReleaseIff`); idle, at the end of a line, unblocks nobody. So a blocked process is stuck when its
  parent has exited (`Stuck.BlockedOrphanIsStuck`), when it is the initial process (`Stuck.BlockedFirstIsStuck`, and
  `Stuck.FirstBlockIsFinal` for the shortest run), and when its whole line is blocked. `Stuck.BlockingIsFinalIff` gives
  the condition before the call.

## Assumptions

* Every tick and every system call is one atomic step: all gates are interrupt gates (interrupt.c:39-81).
* Each clock tick calls `scheduler()` (interrupt.c:112-116), and idle makes no system calls (sched.c:54-62).
* Kernel stacks do not overflow into the descriptor at their foot: an event with too little room is not possible
  (`System.Possible`). Otherwise the running process's own stack and registers when the kernel acts are arbitrary.
* `int` counters (PIDs, pending unblocks, ticks) do not overflow.
* A user access that the page tables forbid stops the machine and is no step: the fault handler loops
  (interrupt.c:119-165).
* Static storage is zero before initialisation; frames, stacks and registers hold anything.
* The user's image lies in the kernel's frames, above page 0, and fits the 28 user pages (`UserImage.Fits`).
* `sys_fork`, `ret_from_fork` and `inner_task_switch` are compiled with a frame pointer, as the code itself
  presupposes (sys.c:137, sched.c:243-248).

## Model

| member | source | states |
|---|---|---|
| `Lists.InitListHead` | list.c:6-10 | makes a node the head of a closed empty ring, whatever it pointed at before |
| `Lists.InsertBetween` | list.c:18-26 | linking a node between two neighbours of a ring yields the ring of the sequence with the node inserted there: next and prev inverse, closed |
| `Lists.ListAddTail` | list.c:50-53 | the ring's sequence gains the node at its end |
| `Lists.ListAdd` | list.c:36-39 | the ring's sequence gains the node at its front |
| `Lists.ListDel` | list.c:62-79 | the ring's sequence loses exactly that position, and the node's own links become null |
| `Lists.ListEmpty` | list.c:96-99 | true exactly for the empty sequence |
| `Lists.ListFirst` | include/list.h:131-132 | the first node of a non-empty ring |
| `Queues.QueueSet.AddTail` | list.c:50-53 | append on one ring of a family of disjoint rings; every other ring's sequence is unchanged, and null links still decide membership |
| `Queues.QueueSet.Del` | list.c:74-79 | remove on one ring; every other ring's sequence is unchanged, the slot is on no ring and its links are null |
| `Queues.QueueSet.Unlink` | sched.c:174-179 | the null test decides membership: a queued slot is taken off the ring it is on, an unqueued one changes nothing |
| `Queues.QueueSet.Init` | list.c:6-10 | an empty ring can be (re)initialised without touching any other ring |
| `Queues.QueueSet.CopyNode` | sys.c:81 | copying a slot over an unqueued one copies its link field as it is; all rings survive, and null links still decide membership if the source is unqueued |
| `Queues.QueueSet.CopyHead` | sys.c:81 | copying a slot leaves the child's `childs` head pointing into the parent's ring; no other ring is harmed and the head counts as uninitialised until INIT_LIST_HEAD |
| `Queues.QueueSet.StepAlong` | include/list.h:114-115 | the cursor of list_for_each visits the ring's sequence in order and ends at the head |
| `Processes.TickKeeps` | sched.c:224-235 | a clock tick keeps the table invariant: slot partition, process tree, PIDs, wake-ups, idle |
| `Processes.BlockKeeps` | sys.c:172-181 | block keeps the table invariant |
| `Processes.UnblockKeeps` | sys.c:183-216 | unblock, for any argument, keeps the table invariant |
| `Processes.ForkParts` | sys.c:69-82 | fork makes exactly the first free slot live and keeps the partition of the slots |
| `Processes.ForkTree` | sys.c:123-133 | fork keeps the process tree: the child is once in its parent's ring, in no other, and has the larger PID |
| `Processes.ForkRings` | sys.c:131-133 | the child is the last of its parent's children and has none of its own; no other child ring changes |
| `Processes.ForkKeeps` | sys.c:69-148 | fork keeps the table invariant, with and without a free slot |
| `Processes.ExitParts` | sys.c:151-169 | exit takes exactly the running slot out of the live ones |
| `Processes.ExitRings` | sys.c:156-163 | idle's children become its old ones, without the exiting process, followed by that process's children in order; the parent loses one, all other rings are unchanged |
| `Processes.ExitTree` | sys.c:151-163 | after exit the tree is sound: orphans hang under idle, everyone else where they were |
| `Processes.ExitKeeps` | sys.c:151-169 | exit keeps the table invariant |
| `Processes.StepKeeps` | sys.c:69-216 | every tick and system call keeps the whole table invariant |
| `Processes.LiveStep` | sched.c:137-184 | no tick, block or unblock changes which slots hold a process |
| `Processes.Reparent` | sys.c:158-163 | exactly the given children get idle as parent, nothing else changes |
| `Processes.FindPid` | sys.c:189-197 | finds a child with that PID if and only if there is one on the ring |
| `Runs.Run` | sys.c:69-216 | the invariant holds in every state of every run |
| `Runs.BootInv` | sched.c:65-122 | the state built by init_sched, init_idle and init_task1 satisfies the invariant |
| `Runs.BootIs` | sched.c:65-122 | that state value by value: slot 1 runs with PID 1 and quantum 100, slots 2 to 9 are free in order, idle has PID 0 and quantum 1 |
| `Runs.PatienceStep` | sched.c:137-184 | a step dispatches a waiting process or lets max(quantum_ticks,0)+1+position only shrink, by at least one at each tick |
| `Runs.BoundedWaiting` | sched.c:137-184 | the process at position k of readyq runs within max(quantum_ticks,0)+1+k ticks, whatever calls interleave |
| `Runs.FifoStep` | sched.c:140-184 | what a step sees leave and enter readyq is a queue's behaviour |
| `Runs.Fifo` | sched.c:140-184 | over every run, everything put on readyq in order equals everything dispatched followed by what still waits |
| `Runs.FreeStep` | sys.c:75-76 | a step takes a slot off the front of freeq, for a fork's child, or puts the exiting process's at its end |
| `Runs.FreeFifo` | sys.c:167 | over every run slots are used again in the order in which they were given up |
| `Runs.BlockedInOrder` | sys.c:178 | the blocked queue keeps the order of blocking: one joins at its end, or one leaves |
| `Runs.UnblockFinds` | sys.c:189-198 | the search loop finds a child exactly when it is the one process with that PID among the caller's children |
| `Runs.ValueStep` | sys.c:172-216 | one step changes a process's semaphore value by its unblocks received minus its block calls |
| `Runs.Semaphore` | sys.c:172-216 | over every run: value (pending_unblocks, or -1 if blocked) = starting value + successful unblocks received - block calls made, so no wake-up is lost |
| `Runs.ForkInherits` | sys.c:81 | a child starts with its parent's pending_unblocks |
| `Runs.IdleIsAbsorbing` | sched.c:140-171 | once idle runs readyq is empty and nothing but quantum_ticks changes for the rest of the run, so idle is never queued |
| `Runs.SwitchesToAnother` | sched.c:140-158 | the running slot changes exactly when task_switch is called: it never targets the caller |
| `Runs.PidStep` | sys.c:123-128 | a fork issues the number after the last PID, or the one after that exactly if the first is the slot index; no other step issues any |
| `Runs.ForkPid` | sys.c:123-128 | the same of a fork alone, as the child's PID |
| `Runs.FirstPid` | sys.c:123-128 | the first fork after boot gives slot 2 the PID 3 |
| `Runs.SecondPid` | sys.c:123-128 | the second gives slot 3 the PID 4 |
| `Runs.PidsAreFresh` | sched.c:255-260 | over every run the PIDs issued increase strictly, start above last_pid and never exceed it at the end |
| `Runs.Root` | sys.c:130-133 | parent chains end, at idle or at the initial process |
| `Runs.OneRing` | sys.c:130-133 | a live process is exactly once on its parent's child ring and on no other |
| `Quantum.QuantumStep` | sched.c:137-171 | a tick reloads the counter exactly when readyq is empty, and else counts down and switches to the head of readyq exactly if it was used up; no other call changes it |
| `Quantum.ExpiredStaysExpired` | sched.c:160-171 | over every run from an expired counter: every tick switches exactly if no tick finds readyq empty, and then the counter stays expired |
| `Quantum.TurnLength` | sched.c:137-171 | the running process keeps the processor through n ticks exactly if nobody waits or n is at most what the counter has left |
| `Quantum.FullQuantumIff` | sched.c:137-171 | so it gets a whole quantum exactly if nobody waits or the counter still holds one |
| `Quantum.TurnOverRun` | sched.c:137-171 | over every run with calls between the ticks, while somebody waits: it keeps the processor exactly if nobody gives it up by exit or block and there are no more ticks than the counter has left |
| `Quantum.BoundIsAttained` | sched.c:137-184 | with ticks alone a waiting process is not dispatched before the bound of BoundedWaiting |
| `Quantum.DispatchedByTickHasNoTurn` | sched.c:224-235 | whoever a tick dispatches loses the processor at the next tick |
| `Quantum.FirstChildHasNoTurn` | sched.c:224-235 | a concrete run from boot in which that happens: one fork and 101 ticks |
| `Stuck.OnlyParentReleases` | sys.c:183-216 | no step of anyone but its parent changes a blocked process |
| `Stuck.HopelessStep` | sys.c:151-216 | a step gives no hope to a process all of whose line of parents is blocked |
| `Stuck.HopelessStaysBlocked` | sys.c:151-216 | over every run such a process stays blocked and keeps its slot |
| `Stuck.GentleRun` | sys.c:183-216 | ticks and unblocks leave the processes and the tree alone and block nobody |
| `Stuck.TicksDispatch` | sched.c:137-171 | ticks alone give the processor to any process that is not blocked |
| `Stuck.ParentReleases` | sys.c:183-216 | a running process releases any blocked child by one call |
| `Stuck.HopefulIsReleased` | sys.c:183-216 | if a process up its line is not blocked, some ticks and unblocks release the process, alive |
| `Stuck.ReleaseIff` | sys.c:151-216 | a process can ever leave the blocked queue if and only if it or a process up its line of parents, idle not counting, is not blocked |
| `Stuck.BlockedOrphanIsStuck` | sys.c:158-215 | a blocked process handed to idle stays blocked and keeps its slot for ever |
| `Stuck.BlockedFirstIsStuck` | sys.c:172-216 | so does the initial process once it is blocked |
| `Stuck.BlockingIsFinalIff` | sys.c:172-181 | blocking with nothing pending can be undone if and only if the caller's parent, or a process further up its line, is not blocked, idle not counting |
| `Stuck.FirstBlockIsFinal` | sys.c:172-181 | a concrete stuck process: the initial one, when its first call from boot is block |
| `Stuck.OrphanStep` | sys.c:158-163 | one step leaves an orphan under idle, gives it no unblock and does not unblock it |
| `Stuck.OrphansAreNeverUnblocked` | sys.c:158-215 | over every run, a process handed to idle never gains a pending unblock |
| `Stuck.ExitOrphans` | sys.c:158-163 | exit hands each child of the process to idle with all else unchanged, blocked or not |
| `Memory.FreeFrom` | mm.c:211-224 | the first unused frame at an even distance from the start, or -1 when all of those are used |
| `Memory.AllocFailsOnlyWhenFull` | mm.c:211-224 | alloc_frame returns -1 only when every second frame is in use |
| `Memory.CopyFrameIs` | sys.c:115-117 | copying a frame changes the contents of that frame only, to those of the source |
| `Memory.ForkPagesCopies` | sys.c:98-119 | while enough frames are left the data loop never fails, gives every page a fresh even frame equal byte for byte to the parent's, and touches no used frame |
| `Memory.ForkMemIs` | sys.c:84-121 | in every reachable memory fork's memory part succeeds: code shared, data copied into distinct fresh frames, parent's table back as it was with the temporary page unmapped and nothing cached |
| `Memory.ForkedPrivate` | sys.c:100-119 | after a fork data frames are injective in each process and disjoint between processes |
| `Memory.ForkMemKeeps` | sys.c:84-121 | fork keeps the memory invariant, with 20 more frames in use |
| `Memory.FreePagesFrees` | mm.c:226-243 | free_user_pages frees exactly the 20 distinct data frames; none of them is frame 256, which free_frame would ignore |
| `Memory.FreedOthers` | mm.c:226-243 | no page of another process loses its frame |
| `Memory.ExitMemKeeps` | mm.c:226-243 | exit keeps the memory invariant, with 20 fewer frames in use |
| `Memory.SwitchMemKeeps` | sched.c:237-241 | loading another directory keeps the memory invariant |
| `Memory.AccessKeeps` | mm.c:106-110 | a user access by any translation the TLB may hold keeps the memory invariant |
| `Memory.WritableIsPrivate` | mm.c:79-104 | the only pages user code can write are the private data pages of a live process |
| `Memory.CodeIsReadOnly` | mm.c:86-93 | no page table maps a code frame writable, or at any page but its own |
| `Memory.AccessSees` | mm.c:79-104 | a user access changes at most one byte of the running process's own view and nobody else's |
| `Memory.ForkSees` | sys.c:98-119 | a fork changes nobody's view and the child starts with its parent's |
| `Memory.ExitSees` | mm.c:226-243 | an exit changes nobody else's view |
| `MemoryBoot.NextFree` | mm.c:211-224 | alloc_frame returns the first free frame at an even distance |
| `MemoryBoot.SetUserPagesIs` | mm.c:79-104 | set_user_pages hands out frames 256, 258, ... to code and then data, in order |
| `MemoryBoot.BootMemInv` | mm.c:132-140 | init_mm and set_user_pages leave a memory satisfying the invariant, whatever the frames contained |
| `MemoryFacts.KernelEntries` | mm.c:65-72 | in every slot pages 1 to 255 are present, writable and the kernel's own, each in its frame; page 0 is unmapped |
| `MemoryFacts.UserEntries` | mm.c:86-103 | in every live slot pages 256 to 275 are writable user pages in even frames from 272 on, and pages 276 to 283 read-only user pages in frames 256, 258, ... |
| `MemoryFacts.OtherEntries` | mm.c:60-64 | everything else is unmapped, page 1023 included |
| `MemoryFacts.BootEntries` | mm.c:86-103 | the first process's 28 entries, from frame 256 on |
| `MemoryFacts.AllowedIff` | mm.c:86-103 | user code may read and write exactly its data pages and read exactly its code pages, besides those nothing |
| `MemoryFacts.AccessCaches` | mm.c:106-110 | an access leaves its translation in the TLB and drops none |
| `MemoryFacts.LoadingDrops` | mm.c:106-110 | a CR3 load drops them all and changes nothing else |
| `MemoryFacts.UnmappingNeedsLoad` | sys.c:117-118 | without a CR3 load a translation used and then unmapped is stale |
| `MemoryFacts.FreeFrameSpares` | mm.c:239-243 | frames 257 to 1023 are freed, no others, so not frame 256 |
| `MemoryFacts.ViewIsBytes` | mm.c:95-103 | the view of a process is what its page table shows, byte by byte |
| `MemoryFacts.ReadAfterWrite` | mm.c:95-103 | after a write the writer finds the value there, and no other byte of any process's data or code changes |
| `MemoryFacts.ForkBytes` | sys.c:93-119 | after a fork the child finds the parent's bytes in all its pages and nobody else's change |
| `MemoryFacts.FailedForkGivesBack` | sys.c:98-108 | the data loop, frames enough or not, has copied every page so far or, out of frames, has left the bytemap as it found it and the child without data pages |
| `Stacks.Saved` | entry.S:121-132 | task_switch leaves the seven expected words below the call and nothing else |
| `Stacks.RoomToSwitch` | entry.S:121-132 | a switch needs exactly room for seven words above the descriptor and its argument in place |
| `Stacks.RoomToFork` | sys.c:136-144 | a fork needs exactly its frame, with the handler's context above |
| `Stacks.SwitchRoundTrip` | entry.S:121-142 | resuming a saved stack gives back ebx, esi, edi, ebp, the return address and the stack above the call |
| `Stacks.SwitchWrites` | sched.c:237-253 | a switch writes only the stack and kernel_esp of the slot it leaves, which it leaves resumable |
| `Stacks.ForkedWords` | sys.c:136-144 | the child's saved stack pointer is at the parent's frame offset, on a null ebp and ret_from_fork, under a copy of the parent's stack |
| `Stacks.ForkReturnsTwice` | sys.c:136-147 | for every frame position the child's first dispatch enters ret_from_fork with ebp 0 and returns to the parent's return address, at the same offset, with the same user context but eax 0; the parent gets the PID |
| `Stacks.ForkWrites` | sys.c:136-144 | fork writes only the child's stack and kernel_esp, which it leaves resumable |
| `Config.EnoughFrames` | include/mm_address.h:6-12 | half the user frames are enough for the code and the data of all slots |
| `Config.Values` | include/mm_address.h:6-13 | the constants, as numbers |
| `System.ForkNeverRunsOut` | sys.c:100-108 | with a free slot alloc_frame never fails inside fork: the roll-back path, which would lose the slot, is dead |
| `System.KForkKeeps` | sys.c:69-148 | fork keeps the invariant of table, memory and stacks together |
| `System.KExitKeeps` | sys.c:151-169 | exit keeps that invariant |
| `System.KQuietKeeps` | sched.c:137-253 | ticks, block and unblock keep that invariant |
| `System.KStepKeeps` | sys.c:69-216 | every tick, system call and user access keeps the invariant of the whole kernel |
| `System.Projects` | sys.c:69-216 | the kernel's process table steps as the table alone does, so all run properties of the table hold of the kernel |
| `System.StepIsSwitch` | sched.c:237-253 | when the running slot changes, the step was a task_switch from the one to the other |
| `System.StepIsNoSwitch` | sys.c:81-144 | otherwise it wrote at most the running slot's stack and, in a fork, the child's |
| `KernelRuns.KRun` | sys.c:69-216 | the invariant of the whole kernel holds in every state of every run |
| `KernelRuns.KBootInv` | sched.c:65-122 | the machine as it first enters user mode satisfies it, whatever frames, stacks and registers hold and whatever the TLB may still hold |
| `KernelRuns.ProjectsRun` | sys.c:69-216 | every run of the kernel is a run of the process table |
| `KernelRuns.FramesAreConserved` | mm.c:195-243 | from boot on, in every run, the used user frames number 8 + 20 * live processes, all at even distances |
| `KernelRuns.ForkStepSees` | sys.c:93-119 | fork gives the child the parent's 20 data pages byte for byte and leaves every view alone |
| `KernelRuns.Isolation` | sys.c:93-119 | over every run, what a live process sees in its data pages is what it saw before changed by its own writes only |
| `KernelFacts.ReadsOwnLastWrite` | sys.c:93-119 | over every run, what a process reads in any byte of its data or code is its own last write there, or what it began with |
| `KernelFacts.ChildBytes` | sys.c:93-119 | what a child begins with is its parent's bytes |
| `KernelFacts.AllowedInRuns` | mm.c:86-103 | in every state of every run a process may read and write exactly pages 256 to 275 and read exactly pages 276 to 283 besides |
| `KernelFacts.FramesInUse` | mm.c:195-243 | in every state of every run the set of user frames in use has 8 + 20 * live processes members |
| `KernelFacts.UnblockAnswer` | sys.c:198-215 | eax becomes 0 if the caller has a child with that PID and -1 if not; no other register and no stack word changes |
| `KernelFacts.ForkAnswer` | sys.c:71-73 | eax becomes -1 if no slot is free and else the child's PID; no other register and no stack word of the parent changes |
| `KernelFacts.FailedFork` | sys.c:102-108 | without frames the answer would be -1 and the slot taken would be on no queue |
| `KernelFacts.QuietAnswer` | sched.c:224-235 | a tick or block that does not switch leaves registers, stack and memory alone |
| `KernelRuns.CodeIsNeverChanged` | mm.c:86-93 | over every run the shared code frames keep their contents |
| `KernelRuns.StepKeepsTable` | sys.c:93-119 | the page table of a process does not change while it lives |
| `KernelStuck.RealizesRun` | sys.c:69-216 | every run of the process table is the table's part of some run of the kernel |
| `KernelStuck.KernelReleaseIff` | sys.c:151-216 | in the whole kernel a process can ever leave the blocked queue if and only if it or a process up its line of parents, idle not counting, is not blocked |
| `KernelStuck.HopelessHoldsFrames` | sys.c:151-216 | over every run a process blocked with its whole line of parents holds its slot and each of its data frames |
| `KernelStuck.OrphanHoldsFrames` | sys.c:158-215 | in particular a blocked process handed to idle |
| `KernelRuns.StepKeepsStack` | sched.c:237-253 | no step writes the saved stack of a live slot other than the running one |
| `KernelRuns.ContextSwitchRoundTrip` | entry.S:121-142 | over every run, a process switched out and later dispatched continues after its call with the same ebx, esi, edi, ebp and stack |
| `KernelFacts.ContinuesWithItsOwn` | entry.S:121-142 | over every run it continues with the very registers and stack words it came to its call with |
| `KernelFacts.EntryStack` | sched.c:241 | a switch sets esp0 to the last word of the new slot; nothing else changes it |
| `KernelFacts.BootStacks` | sched.c:73-81 | the stacks, saved stack pointers and esp0 at boot, word by word |
| `KernelFacts.IdleEntersItsLoop` | sched.c:73-81 | over every run from boot, idle's first dispatch enters cpu_idle on its own stack |
| `KernelRuns.ForkChildReturns` | sys.c:136-147 | over every run, the child's first dispatch returns from the same system call as its parent, with eax 0 |
| `Copying.CopyMoves` | utils.c:10-24 | word-then-byte copying is a byte move whenever no byte is overwritten before it is read, also through a page table |
| `Copying.SafeCopyMoves` | utils.c:10-24 | copy_data equals memmove if the destination is at or below the source or beyond its end, for every size |
| `Copying.OverlapBreaks` | utils.c:10-24 | for every other position there is a memory content that it does not move correctly |
| `Copying.CopyIsMoveIff` | utils.c:10-24 | copy_data is memmove for every content if and only if the destination does not begin inside the source |
| `Copying.PageCopyMoves` | sys.c:116 | a 4096-byte copy between frames is exactly a frame copy |
| `SlotCopy.FieldsTileTheSlot` | include/sched.h:22-38 | the fields of task_struct and the stack words behind them are exactly the words of a slot |
| `SlotCopy.FieldOffsets` | include/sched.h:22-33 | the PID comes first and the other fields follow in the order of their declaration |
| `SlotCopy.SlotCopyCopiesFields` | sys.c:81 | copying the 4096 bytes of a slot copies each of its fields and stack words, and changes no other slot |
| `SlotCopy.SlotCopyStaysInside` | sys.c:81 | nor any byte outside the slot |
| `UserImage.ImageNoClobber` | system.c:96-97 | the copy of the user's image overwrites none of it and writes no byte twice |
| `UserImage.ImageArrives` | system.c:96-97 | the image arrives at user addresses 0x100000 and up, byte for byte, and nothing else changes |
| `UserImage.BootIgnoresContents` | mm.c:132-140 | what boot builds does not depend on what the frames contain |
| `Paging.Machine.LoadImage` | system.c:96-97 | the copy through the first process's page table, with the translations it leaves cached |
| `Paging.Machine.AllocFrame` | mm.c:211-224 | the loop finds and marks the first free frame at an even distance, or returns -1 and changes nothing |
| `Paging.Machine.FreeFrameNo` | mm.c:239-243 | frees frames above 256 only |
| `Paging.Machine.SetSsPag` | mm.c:246-254 | writes one entry, user and writable |
| `Paging.Machine.DelSsPag` | mm.c:257-260 | clears one entry |
| `Paging.Machine.LoadCr3` | mm.c:107-110 | loads a directory and drops every cached translation |
| `Paging.Machine.FreeUserPages` | mm.c:226-235 | the loop gives back the data frames as specified |
| `Paging.Machine.SetUserPagesOf` | mm.c:79-104 | the two loops build the first process's pages as specified |
| `Paging.Machine.UserByte` | mm.c:79-104 | a user byte access by whichever translation the processor picks |
| `Paging.Machine.CopyData` | utils.c:10-24 | the loops, reading and writing by any cached or current translation, compute the specified copy |
| `Paging.Machine.CopyThroughTemp` | sys.c:115-118 | with a TLB that may keep any translation used since the last CR3 load, the frame ends as a copy and page 1023 ends unmapped and uncached |
| `Paging.Machine.ForkDataPages` | sys.c:98-119 | the data loop, roll-back included, computes the specified memory |
| `Paging.Machine.ForkMemory` | sys.c:84-121 | the memory part of sys_fork computes the specified memory and result |
| `Paging.Machine.InitFrames` | mm.c:195-207 | kernel frames used, all others free |
| `Paging.Machine.InitTablePages` | mm.c:56-74 | every slot maps the kernel's pages to themselves and nothing else |
| `Paging.Machine.InitDirPages` | mm.c:40-53 | each directory points at its slot's table |
| `Paging.Machine.BootMemory` | mm.c:132-140 | init_mm and the memory part of init_task1 build the boot memory |
| `Switching.Processor.Save` | entry.S:121-132 | the pushes of task_switch and inner_task_switch save the context |
| `Switching.Processor.Restore` | sched.c:245-252 | loading kernel_esp, popping ebp and returning, then the pops of task_switch, resume the other slot |
| `Switching.Processor.TaskSwitch` | sched.c:237-253 | the whole switch, with esp0 set to the new slot's stack |
| `Switching.Processor.CopyStack` | sys.c:81 | the child's stack words and kernel_esp become the parent's |
| `Switching.Processor.PlantChildReturn` | sys.c:136-144 | the two planted words and kernel_esp of the child |
| `Switching.Processor.InitIdleStack` | sched.c:73-81 | idle's first dispatch will pop a frame pointer and enter cpu_idle |
| `ProcessTables.ProcessTable.NextSlot` | sched.c:140-158 | takes the head of readyq, or idle |
| `ProcessTables.ProcessTable.NeedsSched` | sched.c:163-171 | counts the quantum down, reloads it only when readyq is empty, and asks for a switch below zero |
| `ProcessTables.ProcessTable.Requeue` | sched.c:174-184 | the running slot, on no queue, is appended to readyq |
| `ProcessTables.ProcessTable.Scheduler` | sched.c:224-235 | a tick on the linked lists is the tick of the table |
| `ProcessTables.ProcessTable.FindChild` | sys.c:189-197 | the first loop of sys_unblock computes the search |
| `ProcessTables.ProcessTable.IsBlocked` | sys.c:200-208 | the second loop decides membership of the blocked queue |
| `ProcessTables.ProcessTable.HandOver` | sys.c:158-163 | the exit loop, under list_for_each_safe, ends and gives every child to idle from the front |
| `ProcessTables.GivenAllIs` | sys.c:158-163 | round by round that makes idle's ring its old children followed by the orphans in order |
| `ProcessTables.ProcessTable.CopyLinks` | sys.c:81 | the six link words of the slot become the running slot's, pointers and all, and every ring survives |
| `ProcessTables.ProcessTable.TakeSlot` | sys.c:75-82 | the first free slot becomes a copy of the running one, links included, and every ring survives |
| `ProcessTables.ProcessTable.FreshPid` | sys.c:123-127 | the retry loop ends after at most two new_pid calls with a PID different from the slot index |
| `ProcessTables.ProcessTable.LinkChild` | sys.c:123-146 | names the child and links it into family and readyq |
| `ProcessTables.TakeThenLink` | sys.c:69-148 | the two halves of fork make one fork step |
| `ProcessTables.ProcessTable.InitSched` | sched.c:111-122 | the three rings, with slots 2 to 9 free in order |
| `ProcessTables.ProcessTable.InitIdle` | sched.c:65-78 | idle's descriptor and empty child ring |
| `ProcessTables.ProcessTable.InitTask1` | sched.c:87-104 | the initial process's descriptor, quantum and empty child ring |
| `ProcessTables.ProcessTable.InitTable` | sched.c:65-122 | the linked structures hold the boot table |
| `ProcessTables.ProcessTable.RunningIsUnqueued` | sched.c:174-184 | in every reachable state the running slot is on no queue |
| `ProcessTables.ProcessTable.FreeSlotIsBare` | sys.c:75-81 | a free slot is nobody's child and heads no ring, so copying over it is harmless |
| `ProcessTables.ProcessTable.Tick` | sched.c:224-235 | on the linked lists a tick is the table's step and keeps everything well formed |
| `ProcessTables.ProcessTable.SysBlock` | sys.c:172-181 | so is block |
| `ProcessTables.ProcessTable.SysUnblock` | sys.c:183-216 | so is unblock, which returns 0 exactly if the caller has a child with that PID |
| `ProcessTables.ProcessTable.SysExit` | sys.c:151-169 | so is exit |
| `ProcessTables.ProcessTable.SysFork` | sys.c:69-148 | so is fork; without frames the slot taken from freeq would stay lost |
| `KernelHardware.Hardware.Boot` | system.c:84-97 | memory, stacks and the user's image as boot leaves them, on the arrays |
| `KernelHardware.Hardware.Copy` | sys.c:81-121 | the copy of the parent's stack, page tables and frames, with the code's result if frames are missing |
| `KernelHardware.Hardware.Plant` | sys.c:136-144 | the child's planted return path |
| `Kernels.NextIsResumable` | sched.c:237-253 | whoever a step dispatches has a saved stack that can be resumed |
| `Kernels.QuietParts` | sched.c:140-158 | a tick or block is its table part followed by a switch exactly if another slot is to run |
| `Kernels.ExitCallParts` | sys.c:151-169 | exit is its table part, the return of the frames and a switch |
| `Kernels.ForkCallParts` | sys.c:69-148 | fork with a free slot can copy its parent and always finds its frames, and is the code's fork into that slot |
| `Kernels.Kernel.BootKernel` | system.c:84-97 | on the real data structures boot, with the copy of the user's image and the translations that leaves cached, reaches a start state of the machine, in which the invariant holds |
| `Kernels.Kernel.Arrive` | entry.S:82-95 | the running process comes to its call with any stack and registers; nothing else changes |
| `Kernels.Kernel.Tick` | sched.c:224-253 | on lists, descriptors, page tables, frames and stacks together, a tick is one step of the machine, for any stack and registers, and keeps the invariant |
| `Kernels.Kernel.SysBlock` | sys.c:172-181 | so is block |
| `Kernels.Kernel.SysUnblock` | sys.c:183-216 | so is unblock, with its result in eax |
| `Kernels.Kernel.Leave` | sys.c:151-168 | exit in the order of the code: out of the tree, frames back, slot free, next chosen |
| `Kernels.Kernel.SysExit` | sys.c:151-169 | so is exit |
| `Kernels.Kernel.ForkSlot` | sys.c:75-147 | fork in the order of the code: slot, copy, frames, PID and family, return path, readyq; and what is left behind if frames are missing |
| `Kernels.Kernel.SysFork` | sys.c:69-148 | so is fork, with -1 or the child's PID in eax |
| `Kernels.Kernel.UserByte` | mm.c:79-104 | so is a user access of one byte, which sees the byte the loaded page table shows |
| `Kernels.Kernel.Do` | sys.c:69-216 | any possible event of the machine, on the real data structures |
| `Kernels.Kernel.RunAll` | sys.c:69-216 | any run of possible events of the machine, on the real data structures, ends in the state the machine ends in |
| `Building.PowerOn` | system.c:84-97 | the data structures, built from nothing with any contents of frames, stacks and registers, boot to a start state of the machine |
| `Building.PowerOnAndRun` | system.c:84-97 | and from there carry out any run of possible events, ending in the state the machine ends in |
| `BootLoader.Loader.SectorsToRead` | bootsect.S:227-237 | at least one sector, not past the track or the 64 kB segment, and up to one of the two |
| `BootLoader.Loader.AdvanceDisk` | bootsect.S:240-252 | the next sector on the disk, over heads and tracks |
| `BootLoader.Loader.AdvanceMemory` | bootsect.S:253-260 | the next address in memory, over segments |
| `BootLoader.Loader.ReadMore` | bootsect.S:221-260 | one round reads at least one sector, not past the end of the track or of the segment, to the next address in memory from the next on the disk |
| `BootLoader.Loader.ReadIt` | bootsect.S:213-260 | for every syssize below 0x8000 it ends, fills exactly floor(syssize/0x1000)+1 segments from 0x10000 with the disk from sector 1 on, so all 16*syssize bytes of the system, and stays below 0x90000 |
| `BootLoader.SegmentsSuffice` | bootsect.S:222-226 | those segments are enough for the system and not one too many, but for an exact fit |
| `Division.TwoSteps` | utils.c:190-202 | the second quotient fits in 32 bits and the two quotients and the last remainder combine to those of the 64-bit division |
| `Division.DivideByHalves` | utils.c:194-199 | both branches of do_div, for a zero and a nonzero upper half, compute the quotient and remainder of the 64-bit number |
| `Division.DoDiv` | utils.c:190-202 | quotient and remainder of every 64-bit number by every nonzero 32-bit base |
| `Division.GetTicks` | utils.c:208-219 | floor(tsc / 109000) mod 2^32 |

## Left out

- The keyboard handler's debugging keys, which call task_switch on fixed slots without touching the queues (interrupt.c:93-102): the source marks them for deletion.
- Dispatch through system_call_handler's table and the user-side wrappers: calls are modelled at the level of the sys_ functions, with any PID as argument of unblock.
- sys_write, access_ok, getpid, gettime, printk, itoa and the screen: easy members with no effect on the modelled state.
- GDT, IDT and TSS set-up except esp0, the CR0 paging flag, and the rest of the boot sector: register plumbing.
- The `state` field of task_struct and the statistics: unused by the code.
- Addresses: links are references and a slot is kept as separate link, descriptor and stack fields; that copying its bytes is copying those is proved on bytes (`SlotCopy.SlotCopyCopiesFields`), and the two views meet field by field.
- Paging.Machine.Translate: the TLB records translations of user accesses and of the kernel's accesses to user pages and to the temporary page; the kernel's own identity-mapped pages never change and are not recorded.
- Paging.Machine.UserByte: the access is made by the entry that cached and loaded translations agree on; that they agree is the invariant, and the machine's `User` event allows any cached one.
- Other configurations: slots, pages and stack sizes are the source's own constants (include/sched.h:12-13, include/mm_address.h:6-12).
- Page directories are one pointer per slot; their other 1023 entries are never used.
- BootLoader.Loader.ReadTrack: BIOS read errors are not modelled (the code ignores them), and the disk is the 1.44 MB one the source is configured for.
- Copying.CopyData: pointers that wrap around at 4 GB, and negative sizes, which copy nothing.
- list_is_last and get_frame on their own, and copy_from_user and copy_to_user, whose loops are those of copy_data.
