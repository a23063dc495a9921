# ArcMonark kernel: a verified model

ArcMonark is a small x86-64 kernel. This project models its memory stack, its preemptive scheduler
and context switch, its framebuffer console and its input pipeline, and proves what they are for:
frames have one owner, the page tables are a map, the heap hands out disjoint blocks, a task that is
switched back in finds its registers and its stack as it left them, the console shows the text that
was printed, and no input is reordered or invented. One CPU is modelled; an interrupt handler, and
any code that runs with interrupts off, is one step.

| file | what it models |
|---|---|
| Pmm.dfy | the frame bitmap, its initialisation from the memory map, and the frame counter |
| PageTable.dfy, Vmm.dfy | 4-level page tables in physical memory, and mapping and unmapping through them |
| BlockList.dfy | the heap's block list as a value, and the heap as a state machine over whole runs |
| HeapGrowth.dfy | how many frames a growth of the heap takes, told beforehand from the page tables |
| HeapSpace.dfy | the heap's virtual range, grown frame by frame through the page tables |
| HeapImage.dfy, Heap.dfy | the linked block headers inside that range, and kmalloc, kfree and krealloc working on them |
| Boot.dfy | the three initialisations in order |
| RunQueue.dfy | the run queue as a value: steps, runs, round robin and reclamation |
| Scheduler.dfy, TaskIds.dfy | the circular list of tasks; task ids under preemption |
| Switch.dfy, Isolation.dfy | registers and stacks; heap, scheduler and context switch composed, and who owns which words |
| IsolatedSteps.dfy | what each step of the composed machine leaves alone |
| IsolatedRuns.dfy, TaskCreation.dfy | whole runs of the composed machine; its first state and the creation of tasks |
| HeapCalls.dfy, SchedulerCalls.dfy | kmalloc and kfree, ticks, yields and exits as steps of the composed machine |
| Gfx.dfy, TextConsole.dfy | drawing on a pitched buffer with a back buffer; the text console on top |
| Ring.dfy, EventQueue.dfy, Keyboard.dfy, Mouse.dfy | the two input rings, the keyboard driver and line input, the mouse packet decoder |
| LineEcho.dfy | what the console shows while a line is read |

Where the source updates state in place the model is a class whose methods are proved against
functions on values; the properties that span calls are lemmas about those functions. Many predicates
bind their conjunction to a name before returning it (`var sound := ...; sound`): the verifier then
passes it around as one fact instead of proving each conjunct again at every use.

## Hypotheses

- Usable memory-map entries are page-aligned and do not overlap (Limine Boot Protocol, "Memory Map
  Feature"), and one of them can hold the bitmap (`Pmm.WellFormedMap`, `Pmm.Fits`).
- The higher-half direct map covers every frame used; memory is indexed by frame number.
- The tables inherited from the bootloader form a tree outside usable memory (`PageTable.Tree`,
  `Vmm.Ownership`), no large page lies on a path that is walked, and no table on a path of the
  heap forbids writing (`Vmm.Plain`, `HeapSpace.RoomToGrow`).
- Rounding a request up to a multiple of 16 and then to whole pages does not wrap; `Heap.AlignUpExact`
  says exactly when the first rounding wraps.
- A task's stack does not overflow, and the boot task never exits. Tasks write the blocks they hold or
  share and anything outside the heap and the boot stack; nobody writes the heap's frames through the
  direct map, and nobody edits the page tables except through `vmm_map` and `vmm_unmap`.
- One task at a time reads the keyboard; two that are preempted between taking a character and moving
  the tail would receive the same one.
- Rectangles given to the drawing functions do not wrap 32 bits; a screen has fewer than 2^31 pixels a
  side; the pitch is a multiple of 4 and at least four bytes a pixel; the console has room for one
  character.
- The mouse has a screen of at least one pixel, and of fewer than 2^31 - 256 pixels a side, so that moving
  beyond its edge does not wrap 32 bits.

## Where the code falls short of a simple promise

- Mapping a page faults, through the unchecked NULL of the table walker, if and only if fewer frames
  are left than tables are missing (`Vmm.AddressSpace.Map`); `Vmm.MappingCanFault` is such a state.
  Growing the heap by several pages, and so kmalloc, faults if and only if the frames run out between
  a page's own frame and its last table (`Heap.Heap.ServedIffRoom`). It does
  so at once whenever there is a frame for the first page and not for all its tables
  (`HeapGrowth.FaultsAtOnce`, `HeapGrowth.GrowthCanFault`); `Boot.BootCanFault` is a machine of four
  usable frames whose boot sequence gets there.
- Headers and payloads tile the heap if and only if no growth has ever failed part-way
  (`BlockList.TilesIffNothingLeaked`); each abandoned page adds 4096 bytes to the slack for good.
  `BlockList.GrowthCanLeak`: a megabyte is asked for when three pages can be had.
- A task that exits is reclaimed if and only if the next task to enter the scheduler does so from a
  tick or a yield; if that task exits too, the first is never reclaimed (`RunQueue.ReclaimedIff`,
  `RunQueue.ExitedCanBeDropped`).
- Task ids are unique if and only if no creator is preempted inside the increment by another creator
  (`TaskIds.IdsUniqueIffAtomic`, `TaskIds.IdsCanCollide`).
- A row that scrolls in at the bottom is blank if and only if the height is a multiple of 16 or the
  background is still that of the last clear or scroll (`TextConsole.BottomBlankIff`);
  `TextConsole.BottomCanBeColoured` clears in one colour and scrolls in another.
- Backspace takes back the character typed before it if and only if that character was not refused
  because the line was full (`Keyboard.BackspaceUndoesIff`, `Keyboard.BackspaceCanTakeMore`).
- On the screen, backspace erases the character typed before it if and only if that character did not
  fill its row (`LineEcho.BackspaceErasesIff`): after the wrap it erases the first cell of the next row,
  and a character that the line no longer has stays visible (`LineEcho.EchoCanStay`). Within a row the
  screen shows the line (`LineEcho.EchoShowsLine`).
- A mouse event tells the cursor's position if and only if it is below 32768 (`Mouse.MoveTold`,
  `Mouse.PositionCanWrap`); the movements are told on screens of every size.

## Model

| member | source | states |
|---|---|---|
| `Pmm.SettingABit` | src/mm/pmm.c:23 | setting bit f in its byte adds exactly frame f to the set frames |
| `Pmm.ClearingABit` | src/mm/pmm.c:24 | clearing bit f in its byte removes exactly frame f |
| `Pmm.FrameAllocator.BmpSet` | src/mm/pmm.c:23 | the set of used frames gains f and nothing else |
| `Pmm.FrameAllocator.BmpClear` | src/mm/pmm.c:24 | the set of used frames loses f and nothing else |
| `Pmm.FrameAllocator.BmpTest` | src/mm/pmm.c:25 | true exactly for the frames in the set |
| `Pmm.HighestCovers` | src/mm/pmm.c:36-43 | every usable entry ends at or below the computed top of memory |
| `Pmm.TotalIsTop` | src/mm/pmm.c:36-43 | total_frames pages end exactly at the top of usable memory, which a usable entry reaches |
| `Pmm.BitmapSize` | src/mm/pmm.c:44 | the bitmap has the fewest bytes that hold a bit for each frame, in the fewest pages |
| `Pmm.UsableBelowTotal` | src/mm/pmm.c:36-43 | every usable frame has a bit |
| `Pmm.ClearingStep` | src/mm/pmm.c:59-66 | clearing one more entry removes exactly its frames, none of which was cleared before |
| `Pmm.FrameAllocator.ClearUsable` | src/mm/pmm.c:59-66 | after the loop exactly the usable frames are clear, and the counter is right in spite of counting blindly |
| `Pmm.BitmapWithinUsable` | src/mm/pmm.c:46-54 | the bitmap's own frames lie inside the usable entry that was chosen for it |
| `Pmm.ClearAtBoot` | src/mm/pmm.c:56-72 | setting all bits, clearing the usable frames and setting the bitmap's leaves clear exactly the usable frames minus the bitmap's |
| `Pmm.FrameAllocator.MarkBitmap` | src/mm/pmm.c:68-72 | the bitmap's frames, and only those, become used again |
| `Pmm.FrameAllocator.ClearAndMark` | src/mm/pmm.c:59-72 | the two loops together: bits and counter are those of a machine at boot |
| `Pmm.FrameAllocator.Init` | src/mm/pmm.c:27-73 | the clear bits are exactly the usable frames minus the bitmap's own; used_frames is the number of set bits below total_frames |
| `Pmm.FrameAllocator.Alloc` | src/mm/pmm.c:75-84 | the lowest clear frame at or above 1; NULL only when every frame from 1 on is taken; the counter stays exact |
| `Pmm.FrameAllocator.Free` | src/mm/pmm.c:86-91 | the frame becomes clear; a clear frame is left alone; the counter stays exact |
| `Pmm.FreeFramesCounter` | src/mm/pmm.c:95 | total minus used is the number of clear frames, frame 0 included |
| `Pmm.SpareZero` | src/mm/pmm.c:75-84 | no frame can be had exactly when all from 1 on are taken |
| `PageTable.IndexMacros` | src/mm/vmm.c:10-13 | the four macros are the base-512 digits of the page number |
| `PageTable.PageFromIndices` | src/mm/vmm.c:10-13 | the four indices give back the page number |
| `PageTable.IndicesInjective` | src/mm/vmm.c:10-13 | two canonical pages with the same four indices are the same page |
| `PageTable.TableEntryFields` | src/mm/vmm.c:47 | an entry made for a table is present, not large, grants writing and user access, and leads to the frame |
| `PageTable.PageEntryFields` | src/mm/vmm.c:56 | an entry made for a page leads to the frame; bits 0 to 11 are the flags with the present bit set, bits 52 to 63 the high flags; it grants what the flags grant |
| `PageTable.WalkDepends` | src/mm/vmm.c:33-36 | a walk, and the rights its tables grant, depend only on entries that cover the page |
| `PageTable.UnrelatedWrite` | src/mm/vmm.c:33-58 | writing an entry that does not cover a page leaves its translation and the rights its tables grant alone, because the tables form a tree |
| `PageTable.PtWrite` | src/mm/vmm.c:56-57 | writing the last-level entry sets one page's translation and keeps the tree, all other translations, and the rights that tables grant |
| `PageTable.DataWrite` | src/mm/vmm.c:33-58 | writing a frame that is no table changes no translation and no right |
| `PageTable.NewTableTree` | src/mm/vmm.c:39-48 | linking a cleared, fresh frame keeps the tables a tree |
| `PageTable.NewTableWalks` | src/mm/vmm.c:39-48 | linking a cleared, fresh frame changes no page's translation and no page's rights: the two cases below, for every page |
| `PageTable.SharedWalks` | src/mm/vmm.c:39-48 | pages below the new table find their hole one level further down, and the walk reaches the new table |
| `PageTable.UnsharedWalks` | src/mm/vmm.c:39-48 | the walks of all other pages are as before |
| `PageTable.RightsShared` | src/mm/vmm.c:33-49 | a change in or below a table that leaves the rights granted from there on alone leaves the rights of the page alone |
| `PageTable.NewRootWalks` | src/mm/vmm.c:79-85 | from the new root the upper half is walked as from the old one, with the same rights, and the lower half finds nothing |
| `Vmm.MappingsButOne` | src/mm/vmm.c:51-70 | if all other translations are kept, the abstract map differs at one key only |
| `Vmm.RightsOfOthers` | src/mm/vmm.c:51-70 | mapping or unmapping a page changes the rights of no other page |
| `Vmm.NewTableDigs` | src/mm/vmm.c:39-48 | after a table is created exactly the pages below it miss fewer tables, and how many |
| `Vmm.PresentDigs` | src/mm/vmm.c:34-36 | where the table exists no page below it misses it |
| `Vmm.DugThrice` | src/mm/vmm.c:52-54 | three levels down, every page misses only what it does not share with the mapped page |
| `Vmm.NewRootInherits` | src/mm/vmm.c:79-85 | all walks from the new root, upper and lower half |
| `Vmm.NewRootWhole` | src/mm/vmm.c:74-88 | cleared, filled and made the root, a fresh frame leaves the tables a tree, every frame with one owner, and the old root out of it |
| `Vmm.EmptyRoot` | src/mm/vmm.c:33-36 | under an empty root every page misses three tables |
| `Vmm.MappingCanFault` | src/mm/vmm.c:51-56 | an empty root and no frame left: every mapping faults |
| `Vmm.AddressSpace.Init` | src/mm/vmm.c:74-88 | kernel_pml4 is a fresh root with the inherited upper half, the tables are a tree and every frame keeps one owner; with no frame left it is the page at physical address 0, overwritten |
| `Vmm.AddressSpace.BuildRoot` | src/mm/vmm.c:79-85 | the new root's frame holds zeroes and the current upper half; no other frame changes |
| `Vmm.AddressSpace.CopyUpperHalf` | src/mm/vmm.c:83-85 | zeroes below, the current entries above |
| `Vmm.AddressSpace.GetNextLevel` | src/mm/vmm.c:33-49 | the table one level down on the page's path, created if asked for; no translation and no page's rights change, and exactly the pages below it miss one table less; NULL when absent or out of frames |
| `Vmm.AddressSpace.NewLevel` | src/mm/vmm.c:37-48 | a fresh frame becomes the missing table; with no frame left nothing changes |
| `Vmm.AddressSpace.AddTable` | src/mm/vmm.c:42-47 | the new table is cleared and linked; it is on the page's path and no translation changes |
| `Vmm.AddressSpace.FindPt` | src/mm/vmm.c:52-54 | three levels down: all missing tables are created, or none is left over when frames run out |
| `Vmm.AddressSpace.SetEntry` | src/mm/vmm.c:56-68 | the last-level write sets or removes one translation and keeps all others |
| `Vmm.AddressSpace.Map` | src/mm/vmm.c:51-58 | the abstract page map is updated at one key; the processor then allows on that page exactly what its flags and the tables found on its path allow, and on others what it allowed before; it takes exactly the missing tables from the allocator and creates no others; it faults exactly when fewer frames are free than tables are missing |
| `Vmm.AddressSpace.Unmap` | src/mm/vmm.c:60-70 | the abstract page map loses one key; no table is created or freed |
| `BlockList.FirstFitLowest` | src/mm/heap.c:104-108 | the chosen block is free and large enough, and no free block at a lower address is; none is chosen only if none fits |
| `BlockList.AllocateMembers` | src/mm/heap.c:56-70 | the chosen block is handed out whole if less than a header and 16 bytes would be left of it, otherwise it is cut to the request and the rest is a free block behind it; no other block changes |
| `BlockList.AllocateSize` | src/mm/heap.c:56-70 | the size handed out is that of the block if it is less than 48 bytes larger than the request, and otherwise the request |
| `BlockList.AllocateLive` | src/mm/heap.c:115-118 | exactly one live block more, which was not live before and is at least as large as asked; used bytes grow by its size |
| `BlockList.AllocateOrdered` | src/mm/heap.c:56-70 | splitting keeps address order, disjointness, bounds and sizes that are positive multiples of 16 |
| `BlockList.AllocateCoalesced` | src/mm/heap.c:56-70 | splitting never puts two free blocks side by side |
| `BlockList.AllocateSlack` | src/mm/heap.c:56-70 | splitting loses and gains no byte |
| `BlockList.BlocksDisjoint` | src/mm/heap.c:56-143 | two blocks of the list share no byte, headers included |
| `BlockList.LiveDisjoint` | src/mm/heap.c:97-121 | live payloads are pairwise disjoint, headers included |
| `BlockList.FreeOrdered` | src/mm/heap.c:131-141 | merging keeps order, disjointness, bounds and sizes |
| `BlockList.FreeCoalesced` | src/mm/heap.c:131-141 | after merging on both sides no two neighbours are free |
| `BlockList.FreeLive` | src/mm/heap.c:126-129 | exactly the released block stops being live; used bytes fall by its size |
| `BlockList.FreeSlack` | src/mm/heap.c:131-141 | merging loses and gains no byte |
| `BlockList.FreeUndoesAllocate` | src/mm/heap.c:97-143 | freeing what an existing block served restores the exact list |
| `BlockList.ExtendServes` | src/mm/heap.c:73-95 | the extended list serves the request from its last block, whether or not that was merged |
| `BlockList.GrownFit` | src/mm/heap.c:73-95 | a heap that grows serves the request from its new pages, together with what was free at its end |
| `BlockList.PagesFewest` | src/mm/heap.c:74-75 | the pages asked for are the fewest that hold a header and the request |
| `BlockList.GrownInv` | src/mm/heap.c:73-95 | growth keeps the list well-formed, the live blocks, and the unaccounted bytes |
| `BlockList.StepInv` | src/mm/heap.c:56-143 | every request and release, growth that fails part-way included, keeps the list well-formed |
| `BlockList.StepLive` | src/mm/heap.c:97-143 | a request adds one fresh live block, of the size asked for or less than 48 bytes larger, also from a heap that has grown, or, on NULL, changes no block; a release removes one |
| `BlockList.StepSlack` | src/mm/heap.c:31-39 | the unaccounted bytes grow by exactly the pages of a failed growth |
| `BlockList.RunInv` | src/mm/heap.c:41-143 | well-formedness over every run, with the unaccounted bytes equal to the pages abandoned |
| `BlockList.TilesIffNothingLeaked` | src/mm/heap.c:31-39 | headers and payloads tile the heap if and only if no growth failed part-way |
| `BlockList.GrowthCanLeak` | src/mm/heap.c:31-39 | a run after which the blocks do not tile the heap |
| `BlockList.LiveBlockStable` | src/mm/heap.c:145-151 | a live block keeps its address and size under any run of other operations, so its header may be read without the lock |
| `BlockList.FreeingAllRestores` | src/mm/heap.c:123-143 | freeing all live blocks in any order leaves one free block, spanning the heap up to the pages abandoned |
| `HeapGrowth.AheadStep` | src/mm/heap.c:32-37 | after a page of a growth is mapped, each later page misses only tables it does not share with that page |
| `HeapGrowth.NextNeeded` | src/mm/heap.c:32-37 | the next page takes one frame and the tables it then misses, as counted beforehand |
| `HeapGrowth.SupplyIs` | src/mm/heap.c:31-39 | the number of pages that can be had is the one at which the frames stop sufficing |
| `HeapGrowth.NeededBounds` | src/mm/heap.c:31-39 | a growth takes one to four frames a page |
| `HeapGrowth.OutlookIff` | src/mm/heap.c:31-39 | a growth succeeds if and only if the frames left are as many as it takes; four a page suffice |
| `HeapGrowth.FaultsAtOnce` | src/mm/heap.c:32-37 | with a frame for the first page but fewer than its tables take, growth faults |
| `HeapGrowth.GrowthCanFault` | src/mm/heap.c:41-44 | under an empty root the first growth faults with one, two or three frames |
| `HeapGrowth.Stops` | src/mm/heap.c:34 | a growth stops short, or faults, at exactly the page told beforehand |
| `HeapSpace.WordsApart` | src/mm/heap.c:31-39 | different heap words are different words of physical memory |
| `HeapSpace.WriteAllowed` | src/mm/heap.c:35 | the processor allows writing on every heap page |
| `HeapSpace.SingleOwner` | src/mm/heap.c:31-39 | each frame is exactly one of free, reserved or the bitmap's, a kernel page table, or one heap page |
| `HeapSpace.Space.GrowOne` | src/mm/heap.c:32-37 | one page more, backed by a fresh frame, with the old contents kept, taking one frame and the missing tables; fails exactly when no frame is left, faults exactly when there is a frame for the page but not for its tables |
| `HeapSpace.Space.GrowNext` | src/mm/heap.c:32-37 | one round of a growth under way |
| `HeapSpace.Space.AddPage` | src/mm/heap.c:36 | after the mapping the range is one page longer and its old words are unchanged |
| `HeapSpace.Space.GrowPages` | src/mm/heap.c:31-39 | whether all pages are had, or how many and whether it then stops or faults, is told by the frames and tables before; heap_end moves past the pages had, and the frames taken are those counted |
| `HeapSpace.Space.Load` | src/mm/heap.c:104-108 | a load through the page tables sees the last store to that heap word |
| `HeapSpace.Space.Store` | src/mm/heap.c:115-117 | a store, which the page allows, changes one heap word, no other, and no translation |
| `HeapImage.MarkImage` | src/mm/heap.c:116 | writing a free flag is marking that block of the linked list, payloads untouched |
| `HeapImage.AbsorbImage` | src/mm/heap.c:131-135 | the header writes of a merge are the merge of two list blocks; next and prev stay inverse |
| `HeapImage.SplitHere` | src/mm/heap.c:61-69 | the header writes of a split are the split of a list block, and disturb no payload |
| `HeapImage.SplitSizes` | src/mm/heap.c:57-69 | a block is cut to the request exactly if 48 bytes or more are left beyond it, and the rest is a free block behind it |
| `HeapImage.AppendImage` | src/mm/heap.c:80-87 | linking a new last block is appending it to the list |
| `HeapImage.AllocateBySteps` | src/mm/heap.c:104-116 | find, split and mark compose to the allocation on the list |
| `HeapImage.ExtendBySteps` | src/mm/heap.c:80-94 | append and merge compose to the extension on the list |
| `HeapImage.FreeBySteps` | src/mm/heap.c:126-141 | mark, merge forward and merge backward compose to the release on the list |
| `HeapImage.FreeTwice` | src/mm/heap.c:127 | releasing a free block changes nothing |
| `HeapImage.PayloadWrite` | src/mm/heap.c:145-158 | writing inside a live payload disturbs no header |
| `Heap.AlignUpExact` | src/mm/heap.c:26-28 | rounding up is exact if and only if the request is at most 0xFFFFFFFFFFFFFFF0; above, it yields 0 |
| `Heap.Heap.SplitBlock` | src/mm/heap.c:56-70 | the linked list is split at the block, which is cut to the request, exactly if 48 bytes or more are left beyond it; live payloads are kept |
| `Heap.Heap.FindFit` | src/mm/heap.c:104-108 | the first block that fits, or NULL; the loop terminates |
| `Heap.Heap.FindLast` | src/mm/heap.c:84-85 | the last block; the loop terminates |
| `Heap.Heap.AttachBlock` | src/mm/heap.c:80-94 | the new block is linked behind the last one and merged with it if that is free |
| `Heap.Heap.ExtendHeap` | src/mm/heap.c:73-95 | the list extended by the new pages and merged with a free last block; on failure the list is as it was; how it ends is told by the frames and tables before |
| `Heap.Heap.TakeBlock` | src/mm/heap.c:115-117 | the block is split, marked and added to used bytes; live payloads are kept |
| `Heap.Heap.AbsorbNext` | src/mm/heap.c:131-135 | two neighbouring blocks become one in memory and in the list |
| `Heap.Heap.Kmalloc` | src/mm/heap.c:97-121 | a step of the block-list machine: first fit, growth if needed, used bytes exact, every live payload kept word for word; the pointer is the payload of a fresh block, of the size asked for or less than 64 bytes larger; whether it succeeds, returns NULL or faults, and the frames it takes, are told by the state before |
| `Heap.Heap.ServedIffRoom` | src/mm/heap.c:97-121 | a request succeeds if and only if a free block fits or the frames suffice for its pages and the tables they miss (four frames a page always do); it faults if and only if frames are left at the page where it stops |
| `Heap.Heap.MergeForward` | src/mm/heap.c:131-135 | the block absorbs a free successor |
| `Heap.Heap.MergeBackward` | src/mm/heap.c:137-141 | a free predecessor absorbs the block |
| `Heap.Heap.Kfree` | src/mm/heap.c:123-143 | a step of the block-list machine; every other live payload kept; NULL and free blocks are left alone |
| `Heap.Heap.Krealloc` | src/mm/heap.c:145-158 | in place if the block is large enough, else a new block, the copied contents and the release; on NULL the old block is live and intact; whether the new block is had is told as for kmalloc |
| `Heap.ReallocatedLive` | src/mm/heap.c:145-158 | the pointer stays exactly if the block is large enough, and then nothing changes; otherwise the block gives way to one fresh block of the new size, or stays when there is none |
| `Heap.Heap.CopyPayload` | src/mm/heap.c:155 | the words of one live block are copied to another and nothing else changes |
| `Heap.HeapInit` | src/mm/heap.c:41-53 | one free block over 16 pages exactly when the frames suffice for them and their tables; otherwise a halt or a fault, as told by the state before |
| `Heap.LiveBlocksPhysicallyApart` | src/mm/heap.c:97-121 | words of different live blocks are different physical words, outside page tables and reserved memory |
| `Boot.HeapPagesInUpperHalf` | src/mm/heap.c:11 | the heap's pages lie in the half that is inherited |
| `Boot.RoomInherited` | src/mm/vmm.c:83-85 | where no large page is in the way before the new root, none is after |
| `Boot.OutlookInherited` | src/mm/vmm.c:83-85 | how the first growth ends can be told from the inherited tables |
| `Boot.InheritedOwned` | src/kernel/kernel.c:235-236 | the boot loader's tables lie in frames that pmm_init left set, so each frame has one owner when vmm_init begins |
| `Boot.Rise` | src/kernel/kernel.c:236-237 | vmm_init and heap_init on whatever frames pmm_init left, none included |
| `Boot.BringUp` | src/kernel/kernel.c:235-237 | the three initialisations compose: the heap starts empty over 16 mapped pages exactly when the usable frames, less the bitmap's and the root, suffice for them and the tables they miss; otherwise, and with no usable frame left, a halt or a fault, as told by the memory map and the inherited tables |
| `Boot.BootCanFault` | src/kernel/kernel.c:235-237 | four usable frames and an empty upper half meet every hypothesis of the boot sequence, and heap_init faults |
| `RunQueue.StepInv` | src/sched/sched.c:30-113 | every task is always in exactly one place: queue, zombie slot, freed once, or dropped |
| `RunQueue.RunInv` | src/sched/sched.c:30-113 | over every run, tasks are conserved and none is freed twice, while queued or while running |
| `RunQueue.InsertAfterMembers` | src/sched/sched.c:15-18 | a created task is added once, and the running task is not displaced |
| `RunQueue.HopsInsert` | src/sched/sched.c:15-18 | a creation delays a task by one exactly when the boot task stands before it |
| `RunQueue.StepHops` | src/sched/sched.c:75-113 | each switch and each exit brings a waiting task one position nearer |
| `RunQueue.RoundRobin` | src/sched/sched.c:75-113 | the distance of a waiting task is its first distance plus the tasks inserted before it minus the turns taken |
| `RunQueue.RunsWhenDue` | src/sched/sched.c:75-113 | a task runs exactly when the turns taken reach its distance plus the insertions |
| `RunQueue.ZombieFate` | src/sched/sched.c:30-37 | the zombie is freed, dropped or kept according to the first switch or exit that follows |
| `RunQueue.ReclaimedIff` | src/sched/sched.c:30-37 | an exited task is freed if and only if the next entry to the scheduler is no exit |
| `RunQueue.ExitedCanBeDropped` | src/sched/sched.c:106-111 | a run that drops an exited task |
| `Scheduler.Scheduler.constructor` | src/sched/sched.c:39-47 | one running task that is its own successor, with id 0 |
| `Scheduler.Scheduler.ListAdd` | src/sched/sched.c:15-18 | the next pointers of the boot task and the new task, and no others, change |
| `Scheduler.Scheduler.TaskCreate` | src/sched/sched.c:64-72 | the next pointers remain one cycle with the new task behind the boot task; ids stay distinct |
| `Scheduler.Scheduler.ListRemove` | src/sched/sched.c:21-25 | the predecessor is found and skips the task; the loop terminates |
| `Scheduler.Scheduler.Reap` | src/sched/sched.c:30-37 | the zombie is freed unless it is the running task, and the slot is empty |
| `Scheduler.Scheduler.NextAlive` | src/sched/sched.c:80-82 | the first task after prev that is not dead; the loop terminates |
| `Scheduler.Scheduler.Schedule` | src/sched/sched.c:75-92 | the run queue takes one switch step; the running task is the only one marked RUNNING, on a single cycle through the boot task |
| `Scheduler.Scheduler.TaskExit` | src/sched/sched.c:106-111 | the run queue takes one exit step; the task is dead, off the cycle and in the zombie slot, and another runs |
| `Scheduler.Scheduler.TaskCount` | src/sched/sched.c:115-125 | the length of the cycle; the loop terminates |
| `Scheduler.EnrollPlan` | src/sched/sched.c:15-18 | inserting behind the boot task keeps one cycle, one running task and distinct ids |
| `Scheduler.SwitchPlan` | src/sched/sched.c:79-88 | the task chosen is the next of the cycle, and the states after the switch are right |
| `Scheduler.ExitPlan` | src/sched/sched.c:108-110 | removing the dead task leaves one cycle of ready tasks, and its own next pointer still leads into it |
| `Scheduler.HeadCycle` | src/sched/sched.c:118-122 | from the boot task the next pointers lead through every task once |
| `TaskIds.IdsUniqueIffAtomic` | src/sched/sched.c:67 | ids are unique if and only if increments do not overlap |
| `TaskIds.IdsCanCollide` | src/sched/sched.c:67 | a run with two equal ids |
| `Switch.SavedFrame` | src/cpu/switch.asm:11-20 | saving leaves a frame that brings every callee-saved register back, and touches only that frame and the slot |
| `Switch.FrameUnique` | src/cpu/switch.asm:22-28 | a frame determines the registers it brings back |
| `Switch.Cpu.PushAll` | src/cpu/switch.asm:11-17 | the return address and six registers go below the stack pointer, in order |
| `Switch.Cpu.PopAll` | src/cpu/switch.asm:22-28 | the registers come from the frame at the stack pointer, in order |
| `Switch.Cpu.SwitchContext` | src/cpu/switch.asm:11-28 | memory gains the saved frame and the slot; the registers are those of the target's frame |
| `Switch.InitialFrame` | src/sched/sched.c:53-64 | the seven words below the top of the new stack: trampoline, 0, entry, arg and three zeroes, from the top down |
| `Switch.PushedFrame` | src/sched/sched.c:53-64 | switching to that frame yields those registers; nothing outside the top 56 bytes is written |
| `Switch.Cpu.StartTask` | src/cpu/switch.asm:32-35 | entered with the entry point in rbx and the argument in r12, the trampoline turns interrupts on and calls the entry point with the argument in rdi on a 16-aligned stack |
| `Switch.Cpu.EndTask` | src/cpu/switch.asm:36 | when the entry point returns, task_exit is called on the same stack |
| `Isolation.PrivateOnce` | src/sched/sched.c:49-51 | no word is private to two tasks: stacks, saved stack pointers and held blocks are apart because heap blocks are |
| `Isolation.OwnApart` | src/sched/sched.c:49-51 | a task's stack, saved stack pointer and held blocks are apart from each other |
| `TaskCreation.TwoAllocated` | src/sched/sched.c:50-51 | record and stack of a new task are two different blocks that its creator holds |
| `Isolation.ReapedOwned` | src/sched/sched.c:30-37 | reaping takes the zombie's two blocks and no block of another task |
| `Isolation.PrivateFromTask` | src/sched/sched.c:49-51 | a task that writes its own stack, its blocks, shared blocks and anything outside the heap and the boot stack cannot reach another task's private words |
| `Isolation.PrivateFromKernel` | src/sched/sched.c:30-37 | nor can the kernel working on its behalf, page tables and kernel variables included |
| `IsolatedSteps.JumpParks` | src/cpu/switch.asm:11-20 | a task switched away is parked with the registers it had |
| `IsolatedSteps.JumpResumes` | src/cpu/switch.asm:20-28 | a task switched to gets back the registers with which it was parked, its stack and the blocks it holds |
| `IsolatedSteps.LinkParked` | src/sched/sched.c:53-72 | a linked task is parked with the registers of the frame built for it on an empty, 16-aligned stack of its own |
| `IsolatedSteps.LinkSuspended` | src/sched/sched.c:53-72 | those are: rip at the trampoline, the entry point in rbx, the argument in r12, rsp at the top of its stack |
| `IsolatedSteps.StepUntouched` | src/sched/sched.c:30-113 | no step changes a suspended task, or it resumes it exactly as it was |
| `IsolatedSteps.StepInv` | src/sched/sched.c:30-113 | block ownership and the suspended frames survive every step |
| `IsolatedRuns.RunInv` | src/sched/sched.c:30-113 | and every run |
| `IsolatedRuns.ResumesAsSuspended` | src/sched/sched.c:75-104 | after any run in which it sleeps, a resumed task has the registers, the stack words and the held blocks, contents included, that it had when suspended |
| `IsolatedRuns.StartsFresh` | src/sched/sched.c:53-73 | a created task first runs with rip at the trampoline, the entry point in rbx, the argument in r12 and rsp at the top of its stack, however long that takes |
| `TaskCreation.BootedInv` | src/sched/sched.c:39-47 | on any heap from which sched_init can allocate, the machine after it satisfies the invariant |
| `TaskCreation.TaskCanBeCreated` | src/sched/sched.c:49-73 | in every state with room for a record and a stack, two allocations, the building of the frame and the link are legal steps |
| `TaskCreation.RoomForTask` | src/sched/sched.c:50-51 | both allocations succeed if and only if there is room for one after the other |
| `TaskCreation.BuiltInBlocks` | src/sched/sched.c:53-66 | the frame and the saved stack pointer are written inside the two blocks |
| `IsolatedRuns.TwoTasksAlternate` | src/sched/sched.c:75-104 | two tasks that yield to each other alternate, and the first resumes with its registers and stack |
| `HeapCalls.HeapCallIsKernelWrites` | src/mm/heap.c:97-143 | a call that keeps the live payloads does nothing the kernel may not, whatever it writes on the caller's stack and outside the heap |
| `HeapCalls.MallocIsStep` | src/mm/heap.c:97-121 | a kmalloc that does not fault is a legal step of the machine |
| `HeapCalls.ReleaseIsStep` | src/mm/heap.c:123-143 | a kfree of a block the caller may use is a legal step of the machine |
| `SchedulerCalls.NamedSwitch` | src/sched/sched.c:75-92 | a switch of the task list is the same switch of the tasks' names |
| `SchedulerCalls.NamedExit` | src/sched/sched.c:106-111 | an exit of the task list is the same exit of the tasks' names |
| `SchedulerCalls.SwitchTo` | src/sched/sched.c:91 | switch_context with the two tasks' slots gives the registers and the memory of the machine's jump |
| `SchedulerCalls.TickPlan` | src/sched/sched.c:75-92 | the tasks that schedule picks are those between which the machine's step jumps, a single task included |
| `SchedulerCalls.TickIsStep` | src/sched/sched.c:75-104 | schedule followed by switch_context, on objects that mirror the machine, leaves objects that mirror it after its yield step |
| `SchedulerCalls.ExitIsStep` | src/sched/sched.c:106-113 | task_exit followed by switch_context leaves objects that mirror the machine after its exit step |
| `Gfx.AtUnique` | src/gui/gfx.c:57-60 | row-major places of different pixels differ, so that no write to one changes another |
| `Gfx.AtSurjective` | src/gui/gfx.c:57-60 | every place of the flat buffer is a pixel of one of its rows, padding included |
| `Gfx.Screen.constructor` | src/gui/gfx.c:31-42 | single-buffered: the drawing target is the screen |
| `Gfx.Screen.Poke` | src/gui/gfx.c:101-104 | a store at y * pitch + x * 4 changes that pixel and no other of any row |
| `Gfx.Screen.Peek` | src/gui/gfx.c:77-83 | a load at y * pitch + x * 4 reads that pixel |
| `Gfx.Screen.BackbufferInit` | src/gui/gfx.c:45-52 | a zeroed back buffer becomes the drawing target; without memory nothing changes |
| `Gfx.Screen.FillRect` | src/gui/gfx.c:106-114 | exactly the on-screen part of the rectangle is written, and no padding |
| `Gfx.Screen.SetPixel` | src/gui/gfx.c:101-104 | one pixel if it is on the screen |
| `Gfx.Screen.HLine` | src/gui/gfx.c:116 | the on-screen part of a row of pixels |
| `Gfx.Screen.VLine` | src/gui/gfx.c:117 | the on-screen part of a column of pixels |
| `Gfx.Screen.Rect` | src/gui/gfx.c:119-125 | exactly the on-screen part of the outline is written |
| `Gfx.Screen.Clear` | src/gui/gfx.c:127 | every visible pixel, and no padding |
| `Gfx.Screen.ScrollUp` | src/gui/gfx.c:86-95 | each visible row is the one dy below it before, in place; the rest is filled; padding is kept |
| `Gfx.Screen.Blit` | src/gui/gfx.c:129-138 | the on-screen part of the source rectangle, at its own stride |
| `Gfx.Screen.CopyOut` | src/gui/gfx.c:77-83 | the rectangle's pixels row by row, and nothing beyond them |
| `Gfx.Screen.Present` | src/gui/gfx.c:54-60 | the whole back buffer is on the screen |
| `Gfx.Screen.PresentRect` | src/gui/gfx.c:63-74 | the visible part of the rectangle is on the screen, the rest as it was |
| `Gfx.Screen.Char` | src/gui/gfx.c:140-149 | the on-screen part of the glyph in its two colours; codes from 128 on look like '?' |
| `Gfx.DotsSpellRow` | src/gui/gfx.c:140-149 | the dots of a glyph row, column 0 first, are the binary digits of its byte from the highest down; codes from 128 on have those of code 63 |
| `Gfx.Screen.DrawAndErase` | src/kernel/kernel.c:125-133 | save-under: copying out, drawing inside the rectangle and blitting back restores the whole buffer |
| `TextConsole.ShadeSet` | src/drivers/fb.c:31-40 | redrawing a cell changes the pixels of that cell only |
| `TextConsole.ShadeScroll` | src/drivers/fb.c:22-26 | scrolling the pixels is scrolling the grid, margins included |
| `TextConsole.BottomBlankIff` | src/drivers/fb.c:22-26 | the row scrolled in is blank if and only if the height is a multiple of 16 or the background is that of the last clear or scroll |
| `TextConsole.ClearedBelow` | src/drivers/fb.c:16-20 | a clear leaves its background below the grid |
| `TextConsole.ScrolledBelow` | src/drivers/fb.c:22-26 | a scroll leaves its background below the grid |
| `TextConsole.PutBelow` | src/drivers/fb.c:28-41 | nothing else changes what lies below the grid |
| `TextConsole.BottomCanBeColoured` | src/drivers/fb.c:22-26 | on a screen 24 pixels high, a clear in one colour and a scroll in another bring in a row that is not blank |
| `TextConsole.EdgeStaysBlank` | src/drivers/fb.c:28-41 | with an unchanged background everything but characters stays background |
| `TextConsole.PutWellFormed` | src/drivers/fb.c:28-41 | the cursor ends inside the grid |
| `TextConsole.StepWindow` | src/drivers/fb.c:28-41 | each character keeps the screen a window on an endless sheet written without scrolling |
| `TextConsole.PrintedWindow` | src/drivers/fb.c:16-43 | after any text printed on a cleared console the screen shows its last lines, and the cursor is where the carriage is |
| `TextConsole.Console.ClearScreen` | src/drivers/fb.c:16-20 | blank grid, cursor at the origin, screen equal to buffer, whatever was there before |
| `TextConsole.Console.ConScroll` | src/drivers/fb.c:22-26 | the buffer renders the scrolled grid and the screen equals it |
| `TextConsole.Console.ScrollBuffer` | src/drivers/fb.c:22-26 | moving the buffer's pixels up 16 rows draws the scrolled grid |
| `TextConsole.Console.ScrollIntoView` | src/drivers/fb.c:40 | the scroll loop terminates with the cursor in the grid |
| `TextConsole.Console.Putchar` | src/drivers/fb.c:28-41 | the buffer renders the grid after the character, wrap, backspace and scroll included, and the screen equals it |
| `TextConsole.Console.Print` | src/drivers/fb.c:43 | the grid after all characters |
| `TextConsole.Console.SetColor` | src/drivers/fb.c:13-14 | colours apply to what is drawn next |
| `Ring.Overwrite` | src/kernel/event.c:18-26 | writing at head of a full ring gives up exactly the oldest element |
| `EventQueue.PushInv` | src/kernel/event.c:18-26 | after a push the contents are the newest events, at most 255 |
| `EventQueue.StepInv` | src/kernel/event.c:13-35 | a push is always recorded and gives up one event exactly when 255 wait; the contents are a suffix of what was pushed; what was handed out is, in order, part of what came before; nothing is unaccounted for; a poll returns the oldest; a reset empties the queue |
| `EventQueue.RunInv` | src/kernel/event.c:13-35 | the same over every run |
| `EventQueue.RunPushes` | src/kernel/event.c:18-26 | over every run, what has been pushed is every event that was ever given to event_push, in order |
| `EventQueue.LastHeld` | src/kernel/event.c:13-35 | so the queue holds the last of those events, at most 255, and hands out the oldest of them next |
| `EventQueue.LastPushedHeld` | src/kernel/event.c:18-26 | of events pushed without a poll into an empty queue the last 255 are held |
| `EventQueue.Queue.PushEvent` | src/kernel/event.c:18-26 | the ring takes the push step |
| `EventQueue.Queue.PushSlot` | src/kernel/event.c:20-25 | the slot is written and head moves on, and tail too when the ring is full: the contents are those after the push |
| `EventQueue.Queue.PollEvent` | src/kernel/event.c:28-35 | the ring takes the poll step and returns the oldest event, or none |
| `EventQueue.Queue.Pending` | src/kernel/event.c:37-39 | true exactly when an event waits |
| `EventQueue.Queue.Reset` | src/kernel/event.c:13-16 | the queue is empty |
| `Keyboard.ShiftedIff` | src/drivers/keyboard.c:62-67 | letters are shifted when exactly one of shift and caps lock is on, other keys when shift is |
| `Keyboard.CapsIff` | src/drivers/keyboard.c:60 | caps lock differs from what it was before exactly if it was pressed an odd number of times |
| `Keyboard.ShiftIff` | src/drivers/keyboard.c:58-59 | shift is on exactly if a shift key was pressed, or it was on before, and none was released since |
| `Keyboard.KeysTold` | src/drivers/keyboard.c:81-85 | for every sequence of scan codes, replaying the events gives the keys that are down |
| `Keyboard.InterruptInv` | src/drivers/keyboard.c:69-78 | an interrupt at any moment keeps the reader's view true; a character is refused exactly when 255 are waiting |
| `Keyboard.ReadInv` | src/drivers/keyboard.c:91-98 | each access of the reader keeps the invariant, and it never takes from an empty ring |
| `Keyboard.RunInv` | src/drivers/keyboard.c:69-98 | with interrupts between any two accesses and no lock, accepted characters are those delivered followed by those buffered |
| `Keyboard.RunAccepts` | src/drivers/keyboard.c:69-78 | over every run each typed character is accepted or refused, and if none is refused all are accepted as typed |
| `Keyboard.Delivers` | src/drivers/keyboard.c:91-98 | with a character waiting, the fourth access of the reader delivers the oldest, whatever interrupts come between |
| `Keyboard.WaitsWhenEmpty` | src/drivers/keyboard.c:92-94 | with none waiting the reader tests again and changes nothing |
| `Keyboard.Driver.Handler` | src/drivers/keyboard.c:46-89 | one scan code: modifiers, ring and reported event; the 0xE0 prefix does nothing |
| `Keyboard.Driver.Accept` | src/drivers/keyboard.c:72-76 | the ring takes the interrupt step |
| `Keyboard.Driver.ReaderStep` | src/drivers/keyboard.c:91-98 | the reader takes its next access, and returns the oldest character when done |
| `Keyboard.BackspaceUndoesIff` | src/drivers/keyboard.c:110-111 | backspace undoes a character if and only if it was not refused |
| `Keyboard.BackspaceCanTakeMore` | src/drivers/keyboard.c:110-111 | a line on which backspace takes a character that was not the last typed |
| `Keyboard.TypedLine` | src/drivers/keyboard.c:111 | what is typed without corrections is the line, up to the room there is |
| `Keyboard.EditInPlace` | src/drivers/keyboard.c:110-111 | the buffer holds the edited line; a character is echoed exactly when it changed the line |
| `Keyboard.ReadLine` | src/drivers/keyboard.c:105-113 | the line edited from the characters up to Enter, NUL-terminated within bounds; the echo alone produces the same line |
| `LineEcho.BackspaceErasesIff` | src/drivers/fb.c:31-40 | printing a character and then a backspace blanks its cell and puts the cursor back there if and only if the character did not fill the row |
| `LineEcho.LastColumnStays` | src/drivers/fb.c:38 | a character in the last column survives the backspace that follows it |
| `LineEcho.EchoCanStay` | src/drivers/keyboard.c:110-111 | a line whose echo leaves on the screen a character that the line no longer has |
| `LineEcho.EchoShowsLine` | src/drivers/keyboard.c:105-113 | while the line stays within its row, the echo, corrections included, shows what typing the finished line would have shown |
| `LineEcho.TypedInRow` | src/drivers/fb.c:28-41 | a line within its row moves the cursor by its length and leaves what follows blank |
| `LineEcho.CharacterDots` | src/drivers/fb.c:28-41 | a printed character is shown as the dots of its glyph in the foreground on the background, in the cell at the cursor |
| `LineEcho.TypedShows` | src/drivers/fb.c:28-41 | a line within its row is on the screen as typed, and nothing else has changed |
| `LineEcho.ReturnOverwrites` | src/drivers/fb.c:30 | after a carriage return the next line is written over the row, from column 0 on |
| `LineEcho.NewlineBelow` | src/drivers/fb.c:29 | after a newline it is written into the row below, from column 0 on |
| `Mouse.EncodeBits` | src/drivers/mouse.c:51-61 | the bits of an encoded packet give back movement, buttons and no overflow |
| `Mouse.DecodesStream` | src/drivers/mouse.c:50-97 | encoding any sequence of reports and receiving the bytes has exactly the effect of the reports |
| `Mouse.ReportMoves` | src/drivers/mouse.c:60-68 | a report moves the cursor right by dx and up by dy, or to the nearest edge |
| `Mouse.OverflowIgnored` | src/drivers/mouse.c:58 | a packet with an overflow bit moves nothing and reports nothing |
| `Mouse.OutOfStepIgnored` | src/drivers/mouse.c:52 | bytes without bit 3 are dropped where a packet should begin |
| `Mouse.ReportTold` | src/drivers/mouse.c:72-95 | a report is told by one movement event if the cursor moved, then one event for each changed button, left, right, middle; each carries x, y and the buttons after it |
| `Mouse.MoveTold` | src/drivers/mouse.c:73-81 | a movement event carries the clamped movement without loss on screens of every size, and a coordinate exactly if it is below 32768 |
| `Mouse.Int16Exact` | src/drivers/mouse.c:77-78 | a conversion to 16 bits loses nothing exactly in the signed 16-bit range |
| `Mouse.ButtonsTold` | src/drivers/mouse.c:84-95 | replaying presses and releases turns the old button state into the new |
| `Mouse.StreamAccounts` | src/drivers/mouse.c:44-100 | for every stream of bytes and every size of screen: cursor on screen, movement events sum to its displacement, replay gives the buttons |
| `Mouse.InitialInside` | src/drivers/mouse.c:104-106 | the starting position is on the screen exactly when both sides are positive |
| `Mouse.PositionCanWrap` | src/drivers/mouse.c:77 | a screen and a packet after which the cursor is at 32768 and the event says -32768 |
| `Mouse.Driver.constructor` | src/drivers/mouse.c:104-108 | the driver starts in the middle of the screen, without buttons, at the beginning of a packet |
| `Mouse.Driver.Irq` | src/drivers/mouse.c:44-99 | one byte takes the step of the packet machine, with its events in order |
| `Mouse.Driver.Move` | src/drivers/mouse.c:60-96 | one packet takes the movement step: clamped position, movement event, button events |
| `Mouse.Driver.Steer` | src/drivers/mouse.c:62-68 | moved and clamped to the screen on both axes |
| `Mouse.Driver.Buttons` | src/drivers/mouse.c:84-93 | one event for each changed button, left, right, middle |

## Left out

- Heap.Heap.Kmalloc: requests above 0xFFFFFFFFFFFFEFE0 bytes, whose rounding to 16 or to whole pages wraps, are excluded; `Heap.AlignUpExact` states the wrap itself.
- Heap.Heap.Kfree: pointers that no block of the list has are excluded, as in the source's own use.
- Heap.Heap.Krealloc: the contents are compared in words of 8 bytes; block sizes are multiples of 16.
- Vmm.AddressSpace.Map: a NULL table is reported as a fault instead of being followed; large pages on the path are excluded because the walker would misread them.
- Boot.BringUp: with no usable frame left the root is the page at physical address 0 and the heap halts; what overwriting that page does besides is not modelled.
- Pmm.FrameAllocator.Free: frames that the allocator never owned are excluded.
- Scheduler.Scheduler.Schedule: calls before sched_init, which return at once, are not modelled.
- Scheduler.Scheduler.TaskCreate: the two allocations succeed; Isolation splits the call into allocations, building and link, between which others may run, and TaskIds has the preemption between numbering and storing.
- IsolatedRuns.ResumesAsSuspended: memory is a map of 8-byte words of virtual memory; the interrupt frame that a tick pushes is part of the task's own stack; sharing a block is a step of its own, after which its contents are claimed no more.
- Heap.Heap.ExtendHeap: the stores to the fields of a new header are made in one order; their order is not observable.
- Gfx.Screen: a buffer is a flat array of pixels, pitch / 4 to a row; byte order within a pixel is not modelled, source and target of a copy are different buffers, and gfx_text is left out.
- TextConsole.Console.Putchar: characters are codes; the glyph bitmaps are a parameter.
- Keyboard.Driver.ReaderStep: waiting with hlt is the reader testing again; how long it waits is not modelled.
- Keyboard.ReadLine: takes the characters delivered to it as a sequence that contains Enter, since otherwise it does not return.
- EventQueue.Queue.Pending: its two reads are taken together; an interrupt between them can only make the answer out of date.
- Mouse.Driver.Irq: the status-port test for mouse data is taken as passed; pushing the events is left to the event queue.
- The cursor demonstration in src/kernel/kernel.c redraws indicators under a saved cursor; nothing is claimed about it beyond `Gfx.Screen.DrawAndErase`.
- Port I/O, interrupt controllers, TLB and CR3 instructions, the Limine structures beyond the memory map, the shell, settings, language and layout tables, font data, serial output and sleeping.
- Switch.Cpu.SwitchContext: of the flags register only the interrupt flag is modelled, and vector registers are not; the code saves neither.
- Several processors: one CPU runs at a time.
