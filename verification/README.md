# Emyx: a verified model of the kernel's memory, scheduler and processes

Emyx is a small i386 kernel. Its frame allocator, page tables, heap, cooperative scheduler and
process table form one state machine: a frame moves from the allocator into a page table, from
there to a process record, to a task, and back. This project models that machine and proves
what holds in every reachable state and over every run of it, for any table sizes.

The project has two layers.

**Specification layer: values, functions, lemmas.** `PmmSpec` (frames), `VmSpec` (two-level page
tables with CR3 and TLB), `HeapSpec` and `HeapRuns` (the kernel heap), `SchedSpec` (tasks) and
`Machine` (processes, and the step relation of the whole kernel). A step of `Machine` is what the
current task does between two points where another task could run. `ProcInv`, `SchedProofs` and
the other `*Proofs` modules show that every step keeps one invariant. `Theorems`, `Fairness`,
`Delivery`, `Answered`, `Isolation`, `Success` and `Effects` state what follows for every run,
when each call succeeds and what it does to the tables:

- every allocated frame has exactly one owner, no frame is freed twice and no directory or stack
  is released twice; when all processes are gone, nothing has been taken but heap pages, which
  are bounded, and page tables of the kernel's own mappings;
- the TLB agrees with the page walk, rights are exact, and no process can change another;
- exactly one task runs, a dead task is never resumed, and a runnable task runs within
  one round of the table;
- an exit status reaches at most one wait, made by the parent, and a parent that waits gets it
  within one round of the table.

Frames have no owner field in the kernel. `Owners.FrameOf` reads the owner off the page tables and
the heap, and `Owners.Partition` says that allocated frames and owners correspond one to one.

**Code layer: classes and loops.** `PmmImpl.PageAllocator` (bitmap bytes), `VmmImpl.Paging`
(directory and table words in physical memory), `HeapImpl.KernelHeap` (header words in memory),
`SchedImpl.Scheduler`, `UserImpl.Processes` and `Keyboard.KeyboardBuffer` do what the C functions
do, in place, with the same loops and branches. Each method is proved to compute exactly the
function of the specification layer. `Startup` proves that boot ends in the state the runs start
from. `MemoryMap` and `Archive` hold the loops over the boot memory map and over the archive.

Some properties one might expect are false of the code. Each is stated with its exact condition:

- `vmm_map_page_in` called with flags that lack PRESENT reports success and adds no translation
  (`VmSpec.MapTranslations`, `VmSpec.MapWithoutPresent`).
- A kernel page is seen through a user directory as it was mapped exactly when its directory
  entry existed at creation and carried those rights (`VmSpec.SharedRightsExactIff`,
  `VmSpec.LateKernelPage`).
- The kernel location check passes exactly when no more kernel bytes are missing than are
  counted again by overlapping regions (`MemoryMap.KernelCheckExact`, `MemoryMap.OverlapFools`).
  The page counter of `pmm_init` is right exactly when no page is counted for two regions
  (`PmmImpl.PageAllocator.Init`, `PmmImpl.CountedTwice`), and the pages freed for a region lie inside it exactly when it
  starts on a page boundary or is shorter than a page (`PmmImpl.RegionPagesExact`).
- `KMALLOC_ALIGN` is 8, but the header has 12 bytes: payloads are 4-aligned, and exactly when
  a result is 8-aligned is `HeapSpec.MallocAlignment`; the first never is
  (`HeapSpec.FirstUnaligned`).
- A collected status can be told from the error result of wait exactly when it is not
  0xffffffff (`Delivery.StatusTellable`, `Delivery.StatusMistaken`).

## Model

| member | source | states |
|---|---|---|
| `Theorems.FrameOwnership` | kernel/user.c:100-154 | in every reachable state each allocated frame has exactly one owner and owners own only allocated frames; no frame was freed twice, nothing but a live directory destroyed, nothing but a live stack freed |
| `Theorems.NoLeak` | kernel/user.c:282-367 | once no process record and no zombie is left, the frames in use are exactly those of boot, the heap pages, and page tables the kernel's own mappings added to its directory, whatever failed on the way |
| `Theorems.UserFrameAlone` | kernel/user.c:118-154 | in every reachable state a user page's frame is no directory, page table, heap page or reserved frame and no other process's page |
| `Theorems.BootUse` | kernel/main.c:32-36 | the frames in use at boot are exactly the reserved ones, the kernel directory and its tables, the set `NoLeak` compares with |
| `Theorems.HeapBounded` | kernel/sched.c:72-102 | an endless run of thread creation and exit uses at most one heap page per task slot other than slot 0 |
| `Theorems.TlbAgrees` | kernel/mm/vmm.c:163-258 | in every reachable state, with kernel pages mapped, replaced and unmapped too, a cached translation is what a walk of the loaded directory gives, and a cached user page's frame is still allocated to that page |
| `Theorems.DirectMapEverywhere` | kernel/mm/vmm.c:59-79 | in every live space of every reachable state, base + p translates to p, supervisor only, whatever the kernel maps beside it |
| `Theorems.ProgramLoaded` | kernel/user.c:309-333 | a running process reads, read-only, the archive's code bytes then zeros, beside a writable stack in the same 4 MiB, and its entry point lies in the code |
| `Theorems.PackedProgramRuns` | scripts/mkemxa.py:33-43 | with an archive built from files, a running process reads the program of the first file packed under its path |
| `Theorems.SchedulerSafe` | kernel/sched.c:104-175 | exactly one task is running and it is the current one, so no zombie is resumed; task 0 lives in the kernel directory; CR3 is the current task's; directories and stacks in use are live |
| `Theorems.ProcessTable` | kernel/user.c:26-98 | pids and task ids are unique, parents are older and running, an exited record has a parent to collect it, a created process has no children, and a task finds its own record |
| `Theorems.ReachableInv` | kernel/syscall.c:60-92 | every state reached by any sequence of system calls, yields, reapings, TLB fills and user stores satisfies the kernel invariant |
| `RunProofs.StepInv` | kernel/syscall.c:60-92 | each single step keeps the kernel invariant |
| `Startup.StartMemory` | kernel/main.c:32-34 | `vmm_init` over a sound allocator succeeds exactly with more than four reachable free frames and leaves exactly the kernel directory and its tables taken |
| `Startup.StartKernel` | kernel/main.c:34-38 | scheduler and process table constructed over that memory are in a boot state of the machine |
| `Isolation.ProcessIsolated` | kernel/mm/vmm.c:192-194 | a step of any other task leaves a running process its record, every user-half translation of its space and every byte of its pages, and gives user mode nothing in the kernel half |
| `Fairness.YieldProgress` | kernel/sched.c:114-141 | a yield either chooses a runnable task or brings it strictly closer, whatever is reaped |
| `Fairness.WaitBelowDistance` | kernel/sched.c:79-141 | along any run that never chooses a runnable task, there are fewer yields than its distance, whatever is created or exits in between |
| `Fairness.BoundedWaiting` | kernel/sched.c:114-141 | with n task slots a runnable task is chosen at the latest by the (n-1)-th yield |
| `Delivery.StepRecords` | kernel/user.c:71-98 | no step changes pid or task of an occupied record; a record appears only with a fresh pid |
| `Delivery.GoneForever` | kernel/user.c:45-56 | a pid that has left the table is never found again, in any continuation |
| `Delivery.CollectedOnce` | kernel/user.c:257-280 | a status is collected at most once, after the one exit that set it, by the process that spawned the child, and the pid is never found afterwards |
| `Delivery.PollOutcome` | kernel/user.c:267-279 | a turn of wait fails exactly when the pid names no uncollected child of the caller, delivers exactly when that child has exited, and otherwise yields |
| `Effects.WaitEffect` | kernel/user.c:257-265 | entering wait leaves the caller in the loop with exactly the pid given and its own slot, and changes nothing else |
| `Effects.PollEffect` | kernel/user.c:267-279 | a turn answers by the record of that pid: the error word for no such child, the status and a released record for an exited one, no answer and a yield otherwise; an answer puts the caller back in user mode |
| `Effects.WaitThenPoll` | kernel/user.c:257-279 | the first turn after wait(pid) answers for that pid |
| `Delivery.FailedExecWait` | kernel/user.c:282-307 | waiting for a child whose exec failed returns -1 |
| `Delivery.BlockedCaller` | kernel/user.c:263-275 | until its wait is answered a blocked caller survives any steps of others and any number of its own yields, with its id and the slot it remembers, and that slot holds its own record under its own pid; while it does not run its task entry does not change |
| `Delivery.UntouchedCaller` | kernel/user.c:263-275 | while a blocked caller does not run, nothing others do changes its task entry or its record |
| `Answered.WaitAnswered` | kernel/user.c:267-279 | once the awaited child has exited, the waiting parent is chosen by the (n-1)-th yield, n being the number of task slots, whatever the others do; the status is still there, and its next turn delivers it |
| `Delivery.StatusTellable` | kernel/syscall.c:89-92 | a delivered status can be told from the error word if and only if it is not 0xffffffff |
| `Delivery.StatusMistaken` | kernel/syscall.c:89-92 | an input: a child that exited with 0xffffffff gives its parent the word for no such child |
| `ExecProofs.PrepareExecEffect` | kernel/user.c:309-333 | loading a program maps exactly code and stack, or leaves no page mapped; no other space, and no byte of a frame in use, changes, and no frame is lost |
| `StepProofs.ExitInv` | kernel/user.c:346-367 | exit, orphaning and death of the task keep the invariant |
| `Effects.ExitEffect` | kernel/user.c:346-367 | the history gains exactly this exit with the status given; the record keeps that status for a parent and is gone without one; exited children go, others lose their parent, no other record changes; the task is dead |
| `Effects.ExitDelivered` | kernel/syscall.c:60-66 | the status given to exit is the word the waiting parent gets, within n-1 yields |
| `StartProofs.ExecInv` | kernel/user.c:282-307 | exec keeps the invariant on success and on every failure path |
| `Success.ExecSucceeds` | kernel/user.c:282-333 | a fresh task reaches user mode if and only if its path names a well-formed program and the frames for code, stack and their table are there; otherwise its record is gone |
| `Effects.ExecEffect` | kernel/user.c:282-307 | success leaves the caller in user mode in its record's space with only its own record changed; failure leaves only its record gone, the failure in the history, and the task dead |
| `SpawnProofs.SpawnInv` | kernel/user.c:209-255 | spawn keeps the invariant on success and on every failure path |
| `Success.SpawnSucceeds` | kernel/user.c:209-255 | spawn succeeds if and only if the path is in the archive, a record is free, a frame is there for the directory, and a dead task can be reaped or a task slot is free with room for its stack in the heap or in one more frame |
| `Effects.SpawnEffect` | kernel/user.c:209-255 | a spawn that returns a pid leaves exactly one new record: created, with that pid, the path given, the caller as parent, a space and a task of its own; the history gains exactly that spawn; a failed spawn changes no record |
| `Effects.SpawnedRuns` | kernel/user.c:233-248 | over any run, whenever the spawned process is running, its code page is the program under the path given to spawn |
| `Success.ThreadSucceeds` | kernel/sched.c:72-102 | a thread can be created if and only if a dead task can be reaped, or a slot is unused and the heap has room or a frame to grow |
| `RunProofs.PollInv` | kernel/user.c:267-279 | a turn of wait keeps the invariant |
| `RunProofs.StoreInv` | kernel/user.c:143-144 | a user-mode store keeps the invariant: it can only reach the writable page of the storing process |
| `Effects.StoreEffect` | kernel/mm/vmm.c:219-226 | a user store writes exactly the byte it names if the walk of its own space grants user and write, and nothing otherwise |
| `RunProofs.KernelMapInv` | kernel/mm/vmm.c:163-176 | `vmm_map_page` of a supervisor page beside the direct map keeps the invariant |
| `RunProofs.KernelUnmapInv` | kernel/mm/vmm.c:229-232 | `vmm_unmap_page` beside the direct map keeps the invariant |
| `Effects.KernelMapStep` | kernel/mm/vmm.c:163-176 | after `vmm_map_page` the page is translated as asked, if its table was there or a frame was free, and no other kernel page changes |
| `Effects.KernelUnmapStep` | kernel/mm/vmm.c:229-232 | after `vmm_unmap_page` the page is untranslated and no other kernel page changes |
| `SchedProofs.ReapKeeps` | kernel/sched.c:149-175 | reaping destroys each dead task's space and stack once and keeps the scheduler invariant |
| `SchedProofs.ReapTasks` | kernel/sched.c:167-175 | reaping empties exactly the slots of zombies other than the current task |
| `SchedProofs.YieldKeeps` | kernel/sched.c:114-141 | a yield keeps the invariant and always ends with a running current task, also when the caller is dead |
| `Effects.YieldTasks` | kernel/sched.c:114-141 | a yield empties exactly the slots of dead tasks other than the caller's; of the others only the states of the chosen task and of the caller change |
| `Effects.DeadGone` | kernel/sched.c:167-175 | a task that is dead and not current is gone after the next step that yields |
| `Effects.OneYieldFrees` | kernel/sched.c:149-175 | once all records are gone, one yield of task 0 leaves in use exactly the frames of boot, of the heap and of the kernel's late tables |
| `SchedProofs.CreateThreadKeeps` | kernel/sched.c:72-102 | thread creation keeps the invariant; it fills the first unused slot with a fresh id and its own stack, or leaves only the reaping |
| `Effects.ThreadEffect` | kernel/sched.c:72-102 | the dead are gone, the new thread has a slot that was unused or dead, the next id and the kernel's directory, and no other task changes |
| `Owners.CreatePartition` | kernel/mm/vmm.c:90-114 | creating a space keeps frames and owners in correspondence |
| `Owners.MapPartition` | kernel/mm/vmm.c:178-227 | mapping a held frame moves it to its page and owns the table made on the way |
| `Owners.UnmapPartition` | kernel/mm/vmm.c:234-258 | unmapping hands the frame back to the kernel code that frees it |
| `Owners.DestroyPartition` | kernel/mm/vmm.c:116-134 | destroying an emptied space frees exactly its directory and tables, none twice |
| `Owners.KernelMapPartition` | kernel/mm/vmm.c:163-176 | a kernel mapping takes at most the frame of a page table |
| `UserPages.MapCopiedEffect` | kernel/user.c:118-154 | copying a page into a space adds that page, zero-filled behind the copied bytes, and nothing else, or changes nothing but bytes of a frame that is free again |
| `UserPages.FreePagesEffect` | kernel/user.c:100-116 | freeing a record's pages empties its space and frees exactly those frames |
| `VmSpec.MapTranslations` | kernel/mm/vmm.c:178-227 | a failed map changes nothing; a successful one adds exactly the one translation, in the directory and those sharing the table, and no neighbour's rights change |
| `VmSpec.MapWithoutPresent` | kernel/mm/vmm.c:219-226 | an input: a page mapped without PRESENT into a kernel directory; the call succeeds and the page stays untranslated |
| `VmSpec.MapKeepsInv` | kernel/mm/vmm.c:200-225 | a map keeps page tables and TLB in agreement |
| `Success.MapSucceeds` | kernel/mm/vmm.c:178-221 | on a live directory a map succeeds if and only if the page lies in the half it maps, is not mapped, and its table is there or a frame is free |
| `VmSpec.UnmapTranslations` | kernel/mm/vmm.c:234-258 | unmap succeeds exactly when there is a translation and removes exactly it |
| `VmSpec.UnmapKeepsInv` | kernel/mm/vmm.c:255-256 | an unmap keeps page tables and TLB in agreement |
| `VmSpec.MapUnmapRoundTrip` | kernel/mm/vmm.c:178-258 | unmapping a page just mapped restores every translation of every space |
| `VmSpec.RightsExact` | kernel/mm/vmm.c:223-224 | the AND of both levels is what the page was mapped with |
| `VmSpec.SharedRightsExactIff` | kernel/mm/vmm.c:109-111 | a kernel page is seen through a user directory as mapped if and only if its directory entry was copied and carried those rights |
| `VmSpec.LateKernelPage` | kernel/mm/vmm.c:109-111 | a kernel page mapped after a space was created is not seen there at all under a new entry, and with the old entry's rights otherwise |
| `VmSpec.AddSpaceTranslations` | kernel/mm/vmm.c:107-111 | a new space sees the kernel half as the kernel does and nothing else; no other translation changes |
| `VmSpec.MapKeepsDirect` | kernel/mm/vmm.c:193-194 | no map outside the direct-map pages alters the direct map of any space |
| `VmSpec.UnmapKeepsDirect` | kernel/mm/vmm.c:241-243 | no unmap outside the direct-map pages alters the direct map of any space |
| `VmmImpl.WalkIsLookup` | kernel/mm/vmm.c:136-161 | the processor's walk of the words in memory and the abstract tables translate every page alike |
| `VmmImpl.Conversions` | kernel/mm/vmm.c:19-37 | the two direct-map conversions are inverse on the first 16 MiB and their window, and 0 exactly outside |
| `VmmImpl.Paging.Init` | kernel/mm/vmm.c:39-83 | `vmm_init` succeeds exactly when the limit is a positive multiple of 4 MiB and the frames suffice; then exactly the direct map is translated and exactly those frames are taken |
| `VmmImpl.Paging.CreateAddressSpace` | kernel/mm/vmm.c:90-114 | the copy loop over directory words is `Create`, failure paths included; no word of an allocated frame that is neither directory nor table changes |
| `VmmImpl.Paging.DestroyAddressSpace` | kernel/mm/vmm.c:116-134 | the freeing loop over directory words is `Destroy` |
| `VmmImpl.Paging.MapPageIn` | kernel/mm/vmm.c:178-227 | the stores into directory and table words are `Map`; misaligned arguments and address space 0 fail and change nothing; no word of an allocated frame that is neither directory nor table changes |
| `VmmImpl.Paging.MapPage` | kernel/mm/vmm.c:163-176 | replacing a kernel page is `Unmap` followed by `Map`; no word of an allocated frame that is neither directory nor table changes |
| `VmmImpl.Paging.UnmapPageIn` | kernel/mm/vmm.c:234-258 | the store into the table word is `Unmap`; no word of an allocated frame that is neither directory nor table changes |
| `VmmImpl.Paging.GetPaddrIn` | kernel/mm/vmm.c:265-280 | succeeds exactly on translated pages, with the address the walk gives |
| `PmmSpec.FirstFree` | kernel/mm/pmm.c:301-312 | the lowest free frame above 0, and 0 exactly on exhaustion |
| `PmmSpec.AllocDirectEffect` | kernel/mm/vmm.c:97-105 | allocation with the direct-map check takes the lowest free frame and nothing else, or leaves the allocator as it was |
| `PmmImpl.PageAllocator.AllocPage` | kernel/mm/pmm.c:301-312 | the scan over bitmap bytes takes the lowest free page, whose address fits 32 bits; the counter stays the number of clear bits |
| `PmmImpl.PageAllocator.FreePage` | kernel/mm/pmm.c:314-322 | clears the bit of an allocated page; double frees, page 0 and out-of-range pages are ignored; the counter stays exact |
| `PmmImpl.PageAllocator.ReserveSegment` | kernel/mm/pmm.c:52-60 | exactly the pages sharing a byte with the range stop being free |
| `PmmImpl.PageAllocator.ClearUsablePages` | kernel/mm/pmm.c:95-128 | frees exactly the pages of usable regions; the returned count is right if and only if no page is counted twice |
| `PmmImpl.RegionPagesExact` | kernel/mm/pmm.c:104-115 | a region's pages lie inside it if and only if it starts on a page boundary or is shorter than a page |
| `PmmImpl.PageAllocator.Init` | kernel/mm/pmm.c:264-299 | afterwards a page is free exactly when it was counted for a usable region and holds no byte of kernel or bitmap and is not page 0; for page-aligned regions, exactly when it lies in usable memory; the counter is right if and only if no page is counted twice; the exact condition of each panic |
| `PmmImpl.CountedTwice` | kernel/mm/pmm.c:95-128 | an input: one region listed twice passes every check of `pmm_init`, and its pages are counted twice |
| `MemoryMap.CheckKernelLocation` | kernel/mm/pmm.c:244-262 | the loop compares summed overlap with the kernel's length |
| `MemoryMap.KernelCheckExact` | kernel/mm/pmm.c:155-172 | for every map the check passes if and only if no more kernel bytes are missing than are counted again, and is right if and only if none or more are; over disjoint regions it is exact |
| `MemoryMap.OverlapFools` | kernel/mm/pmm.c:244-262 | an input: a one-page kernel at 1 MiB, half of it usable and listed twice, passes the check |
| `MemoryMap.FindMaxPage` | kernel/mm/pmm.c:133-153 | one past the last page of the highest usable region |
| `MemoryMap.JumpSkipsNothing` | kernel/mm/pmm.c:208-230 | no start passed over by a jump behind an obstacle would fit |
| `MemoryMap.FindInRegion` | kernel/mm/pmm.c:199-233 | the least fitting start of a region, 0 exactly when none fits |
| `MemoryMap.FindSegment` | kernel/mm/pmm.c:186-239 | the least fitting start of the first region that has one, 0 exactly when no region has |
| `HeapSpec.AlignedSize` | kernel/mm/kmalloc.c:17-27 | the least multiple of 8 that is large enough; refused exactly for 0 and on overflow |
| `HeapSpec.FirstFit` | kernel/mm/kmalloc.c:104-110 | the first free block that is large enough |
| `HeapSpec.Disjoint` | kernel/mm/kmalloc.c:51-68 | blocks never share a byte, in whatever order they are listed |
| `HeapSpec.InsidePages` | kernel/mm/kmalloc.c:29-49 | blocks never leave the heap's pages |
| `HeapSpec.CarveKeeps` | kernel/mm/kmalloc.c:51-68 | splitting keeps every heap byte in exactly one block or in lost slack of at most 16 bytes |
| `HeapSpec.CoalesceKeeps` | kernel/mm/kmalloc.c:70-79 | coalescing, also across pages, keeps every byte in exactly one block |
| `HeapSpec.MallocEffect` | kernel/mm/kmalloc.c:81-120 | failure changes nothing; success returns a pointer that was not live to enough bytes and changes no other live block |
| `HeapEffects.MallocSucceeds` | kernel/mm/kmalloc.c:81-120 | for every size, a pointer is returned if and only if the rounded size is served and a free block holds it or a reachable frame is free |
| `HeapEffects.MallocPlace` | kernel/mm/kmalloc.c:101-119 | the pointer comes from the first block that fits, or from a fresh page at the end of the list, and no other block moves or changes |
| `HeapSpec.ReleaseEffect` | kernel/mm/kmalloc.c:122-130 | exactly the given block stops being live |
| `HeapEffects.ReleaseMerges` | kernel/mm/kmalloc.c:70-79 | the freed block absorbs exactly the longest run of free, adjacent successors; nothing else of the list changes, and no mergeable successor is left |
| `HeapEffects.TwoThereAndBack` | kernel/mm/kmalloc.c:51-130 | two blocks taken from a free page and freed in reverse order give the same list back if and only if the second left nothing, or enough for a block of its own |
| `HeapSpec.MallocAlignment` | kernel/mm/kmalloc.c:81-120 | a result is 8-aligned if and only if no page has to be taken and the first fitting header lies 4 bytes off an 8-byte boundary |
| `HeapSpec.FirstUnaligned` | kernel/mm/kmalloc.c:95-106 | the first allocation of all is not 8-aligned |
| `HeapSpec.SplitAlignment` | kernel/mm/kmalloc.c:55-62 | along split blocks every other payload is 8-aligned |
| `HeapRuns.RunSound` | kernel/mm/kmalloc.c:81-130 | any sequence of allocations, frees of live pointers and foreign frame traffic keeps the heap sound |
| `HeapRuns.LiveUntilFreed` | kernel/mm/kmalloc.c:81-130 | a live block survives with its size every run that does not free it |
| `HeapRuns.CarvePotential` | kernel/mm/kmalloc.c:51-68 | splitting for equal requests leaves unchanged the number of requests the blocks can hold |
| `HeapRuns.CoalescePotential` | kernel/mm/kmalloc.c:70-79 | merging never lowers that number |
| `HeapRuns.PagesWithinPeak` | kernel/mm/kmalloc.c:81-130 | with equal request sizes the heap takes no page beyond the peak number of live blocks |
| `HeapRuns.EmptyPagesWithinPeak` | kernel/mm/kmalloc.c:81-130 | the same from the empty heap |
| `HeapImpl.KernelHeap.AllocFromBlock` | kernel/mm/kmalloc.c:51-68 | the header stores are `Carve`, and only bytes of that block change |
| `HeapImpl.KernelHeap.NewBlock` | kernel/mm/kmalloc.c:29-49 | the header of a fresh page, or nothing |
| `HeapImpl.KernelHeap.FindFit` | kernel/mm/kmalloc.c:101-110 | the walk along next pointers finds the first fit and the block before it |
| `HeapImpl.KernelHeap.Kmalloc` | kernel/mm/kmalloc.c:81-120 | `kmalloc` on header words is `Malloc`, and no live payload word and no word outside the heap's pages changes |
| `HeapImpl.KernelHeap.CoalesceNext` | kernel/mm/kmalloc.c:70-79 | the loop on header words is `Coalesce`; it ends, and no live payload word changes |
| `HeapImpl.KernelHeap.Kfree` | kernel/mm/kmalloc.c:122-130 | `kfree` on header words is `Release`, and no payload word of a block that stays live and no word outside the heap's pages changes |
| `SchedSpec.NextDistance` | kernel/sched.c:120-125 | the nearest runnable slot going round, if any |
| `SchedImpl.Scheduler.constructor` | kernel/sched.c:38-55 | task 0 runs in the kernel directory and all other slots are unused |
| `SchedImpl.Scheduler.CleanupTask` | kernel/sched.c:149-165 | the slot is zeroed, its own directory destroyed, its stack freed |
| `SchedImpl.Scheduler.ReapZombies` | kernel/sched.c:167-175 | exactly the zombies other than the current task are cleaned up |
| `SchedImpl.Scheduler.SchedYield` | kernel/sched.c:114-141 | reaps, then switches to the nearest runnable task |
| `SchedImpl.Scheduler.KthreadCreate` | kernel/sched.c:72-102 | reaps, then fills the first unused slot with a fresh id and stack, or fails |
| `SchedImpl.Scheduler.KthreadExit` | kernel/sched.c:104-112 | panics exactly in task 0; otherwise marks the task dead and yields |
| `SchedImpl.Scheduler.SetCurrentAddressSpace` | kernel/sched.c:62-70 | refused exactly for task 0 and directory 0; otherwise adopts and loads the directory |
| `UserImpl.Processes.FindByPid` | kernel/user.c:45-56 | the first occupied record with the pid |
| `UserImpl.Processes.FindByTaskId` | kernel/user.c:58-69 | the first occupied record with the task id |
| `UserImpl.Processes.Alloc` | kernel/user.c:26-43 | the first free record, zeroed and marked |
| `UserImpl.Processes.OrphanChildren` | kernel/user.c:80-98 | exited children vanish, others lose their parent, no other record changes; the loop is also pinned for a record that is its own parent |
| `UserImpl.Processes.FreeProcessPages` | kernel/user.c:100-116 | unmaps and frees the pages in list order |
| `UserImpl.Processes.MapCopiedPage` | kernel/user.c:118-154 | allocates, fills and maps one page, or undoes the allocation |
| `UserImpl.Processes.LoadEmxf` | kernel/user.c:156-188 | maps the code of exactly the well-formed images |
| `UserImpl.Processes.PrepareProcess` | kernel/user.c:309-333 | finds the program, maps code and stack, or frees all pages of the record |
| `UserImpl.Processes.SpawnProcess` | kernel/user.c:209-255 | `user_spawn` on the table is the machine's spawn step, failure paths included |
| `UserImpl.Processes.ExecTask` | kernel/user.c:282-307 | `user_exec_task` and the exit behind it are the machine's exec step; the exit panics exactly in task 0 |
| `UserImpl.Processes.ExitCurrent` | kernel/user.c:346-367 | pages freed, children orphaned, record kept exactly while a parent record exists |
| `UserImpl.Processes.SysExit` | kernel/syscall.c:60-66 | `sys_exit` is the machine's exit step; it panics exactly in task 0 |
| `UserImpl.Processes.WaitStart` | kernel/user.c:257-265 | `user_wait` up to its loop is the machine's wait step |
| `UserImpl.Processes.WaitTurn` | kernel/user.c:267-279 | a turn of the wait loop is the machine's poll step, and its 32-bit result |
| `UserImpl.CopyStringFromUser` | kernel/syscall.c:94-112 | succeeds exactly for a nonempty string that fits with its NUL, which is then in the buffer, and reads no byte behind the NUL; on failure the buffer still holds a NUL |
| `Machine.ImageExact` | kernel/user.c:156-188 | an image is accepted as a program if and only if it begins with that program's layout, the code fits a page and the entry point lies in it |
| `Archive.PackRead` | kernel/lib/endian.c:5-11 | reading a little-endian word undoes packing it |
| `Archive.LeastFirst` | kernel/lib/endian.c:5-11 | the least significant byte comes first |
| `Archive.ReadPack` | kernel/lib/endian.c:5-11 | packing a word that was read gives its bytes |
| `Archive.PathMatches` | kernel/initramfs.c:36-48 | true exactly when the path field holds the path and its NUL |
| `Archive.InitramfsHeader` | kernel/initramfs.c:10-34 | accepts exactly archives whose entry table lies inside them |
| `Archive.InitramfsFind` | kernel/initramfs.c:50-81 | the span of the first matching entry, inside the archive, or nothing; no read outside any archive |
| `Archive.FindExact` | kernel/initramfs.c:50-81 | on any bytes, contents are found if and only if the header counts entries that fit and the first entry for the path spans them |
| `Archive.MkEmxa` | scripts/mkemxa.py:22-43 | refuses exactly over-long paths and otherwise writes the archive layout |
| `Archive.RoundTrip` | scripts/mkemxa.py:33-43 | looking a path up in a built archive yields the first file packed under it, and nothing exactly when there is none |
| `Keyboard.PushRefines` | kernel/keyboard.c:16-29 | a push is accepted exactly when it is a character and there is room, between any loads and stores of the consumer |
| `Keyboard.PopRefines` | kernel/keyboard.c:31-42 | a pop returns and removes the front of the queue, whatever is pushed meanwhile |
| `Keyboard.ClearRefines` | kernel/keyboard.c:44-47 | a clear drops exactly the characters present at its load |
| `Keyboard.FifoEveryRun` | kernel/keyboard.c:16-47 | over every interleaving: capacity size - 1, in order, nothing twice, every unread character still in its slot, and every character that left was returned or dropped by a clear, not both |
| `Keyboard.NothingLost` | kernel/keyboard.c:16-42 | without a clear, accepted input is what was returned followed by what is queued |
| `Keyboard.KeyboardBuffer.PushChar` | kernel/keyboard.c:16-29 | the ring in memory appends to the queue when there is room |
| `Keyboard.KeyboardBuffer.Pop` | kernel/keyboard.c:31-42 | the ring in memory takes the front of the queue, 0 when empty |
| `Keyboard.KeyboardBuffer.Clear` | kernel/keyboard.c:44-47 | the ring in memory becomes empty |

## Left out

- Port I/O, serial, terminal, timer, interrupt controller and keyboard decoding: device plumbing.
- GDT, IDT, boot code, interrupt stubs, `user_enter` and the context switch: assembly; a context switch resumes the target where it last yielded.
- `kshell.c`, `printk`, `initramfs_list`, `sys_write`, the user programs and the C library: no state of their own that the properties speak about.
- `userland_active` and `user_init`: bookkeeping around one spawn; `keyboard_buffer_clear` inside `user_spawn` is not a step of the process machine.
- Wrap-around of pids and task ids: both are unbounded here.
- Paging-structure caches of the processor other than the TLB.
- `Paging`, `KernelHeap` and user page contents are kept in separate memories. What one flat memory would need is proved piecewise: stores of `Paging` stay in directories, tables and fresh frames, stores of `KernelHeap` in heap pages, and `Theorems.UserFrameAlone` keeps user pages apart from both.
- `SchedImpl.Scheduler` and `UserImpl.Processes`: memory and heap operations appear as the functions `Paging` and `KernelHeap` are proved to compute; the objects are not linked at run time.
- Kernel mappings that are user-accessible or lie in the direct map are not steps of `Machine`; stores through kernel mappings are not modelled.
- Heap users other than thread stacks are covered by `HeapRuns` but are not steps of `Machine`.
- PmmImpl.PageAllocator.Init: requires that no 32-bit sum of the segment search wraps for the bitmap size at hand.
- MemoryMap.FindSegment: requires that no 32-bit sum wraps; with wrap-around the search can run past the end of memory.
- MemoryMap.FindInRegion: requires that no 32-bit sum wraps, as above.
- VmmImpl.Paging.Init: requires a limit of at most 1 GiB; beyond it `vmm_init` would write past the directory.
- VmmImpl.Paging.DestroyAddressSpace: requires 0, an address beyond the direct map, or a live directory; the code does not check, and `Theorems.FrameOwnership` shows that the kernel never passes anything else.
- HeapImpl.KernelHeap.Kfree: requires NULL or a live pointer, as its callers guarantee; `Theorems.FrameOwnership` shows that the kernel never passes anything else.
- VmmImpl.Paging.UnmapPageIn: takes the same address spaces as `MapPageIn` below.
- VmmImpl.Paging.GetPaddrIn: takes the same address spaces as `MapPageIn` below.
- VmmImpl.Paging.MapPageIn: an address space argument is 0, beyond the direct map, or a live directory; the code does not check more, and the kernel never passes anything else.
- Parsing of the Multiboot structures (`check_mmap`, entry sizes): the memory map is a sequence of entries.
- The frames of the boot module are not reserved by `pmm_init`; the archive is an immutable sequence outside the pool.
- Validity of user pointers: `CopyStringFromUser` takes the bytes as readable.
