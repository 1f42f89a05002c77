# Turnix kernel: model and proofs

A Dafny model of the core of the Turnix x86_64 kernel and of what its results mean. `dafny verify dfyconfig.toml` checks it.

- **Physical memory and page tables** (`Words`, `PageTables`, `CloneTables`, `AddressSpaces`, `PageAccess`, `PageFetch`, `KernelStacks`, `SpaceRuns`). Physical memory is a
  map from frame numbers to 512 words, and page tables live in it. `CloneTables` proves that `fork` copies the user half of an address space.
  `AddressSpaces` is the mapper, with the tree of tables and pages it has built and the frames that cost; `PageAccess` and `PageFetch` are what the
  MMU then lets user code do, on all four levels. `KernelStacks` maps the stacks of tasks
  into one slot that all address spaces share. `SpaceRuns` puts them together: over every run of making, loading and forking processes and adding
  tasks, all address spaces share the kernel half and none disturbs another.
- **Images** (`Elf`, `ElfFiles`, `UserMemory`, `LoadModel`, `ProcessCode`, `ProcessLoading`, `UserViews`, `KernelHalf`, `KernelImage`, `KernelMeaning`). Both ELF parsers, their
  exact agreement and the round trip with files as the format writes them. `LoadModel` says what loading a process does to any memory, and
  `ProcessCode` is the code that does it; `ProcessLoading` proves what comes of an image in the lower half, with the exact number of frames it
  takes, `UserViews` what a program then finds at each address, and `KernelHalf` what comes of any image. `KernelImage` loads and maps the kernel,
  from file bytes to what its addresses read, and `KernelMeaning` says what those bytes and its errors are.
- **Frame allocator** (`Frames`, `BootMaps`). The boot memory map, from its bytes on, and the cursor over it, over whole runs.
- **Kernel heap** (`HeapModel`, `HeapTiles`, `HeapRuns`, `HeapFits`, `HeapMemory`). The heap as a tiling with lists, invariants over every run,
  when a request is served and from where, and the class whose intrusive lists in memory words follow that model.
- **Scheduler** (`Contexts`, `Scheduling`, `SchedulerRuns`, `TaskLives`, `KernelCode`, `StackRefinement`). A machine with registers, GS bases, TSS, CR3, kernel
  stacks and the ready queue; what holds over every run, and the life of one task in it; the entry, exit and scheduler code, push by push, proved to be the machine's steps; and
  the machine's stacks refined to words of physical frames behind whatever CR3 is loaded.
- **Ramdisk and VFS** (`Ramdisk`, `Utf8`, `Vfs`, `VfsCalls`). The packer, the parser and the file system with its descriptors, and what a caller sees
  from one call to the next.

How the model stands for the code:

- The kernel is built in the debug profile, so arithmetic overflow is a panic. Panics are results (`false`, `None`, `Panicked`, `Overflow`).
- A page-table entry is three fields: flag bits 0-11, frame number, flag bits 52-63. Bytes are views of the same words.
- The frame allocator is a sequence of distinct frames to come where page tables use it; `Frames` proves that its frames are distinct.
- `translate_addr` treats any used last-level entry as mapped, and finds huge pages of 2 MiB and 1 GiB. `map_to` zeroes new tables and gives
  parent entries PRESENT, WRITABLE and USER as the page asks.
- The page iterator steps past each page it yields, so a region that has the last page of the lower half, or crosses the gap, panics.
- `try_lock` in the tick is a boolean of the event.

Five promises do not hold of the code as it is; the exact condition is proved for each: every usable frame is handed out if and only if the memory map
is in ascending order (`ExhaustiveIffAscending`, with `UnsortedMapLosesFrame`); what is written to a file reads back if and only if the descriptor is
at or past the end (`ReadBackIff`, with `WriteInside`); GS is right over a run if and only if no user fault occurs (`GsParity`, with
`FaultThenSyscallCrashes` and the run `CrashFromBoot`); a process's PML4 has the kernel's upper-half entries if and only if no segment that takes up
memory starts in the upper half (`KernelHalfKept`, with `KernelBaseOverwritten`, where a frame that was never allocated is written too); a file name
survives the ramdisk if and only if it has at most 63 bytes and no NUL (`NameRoundTrip`, with `NulNameCut`).

## Model

| member | source | states |
|---|---|---|
| `Words.FlagWeights` | kernel/src/memory/paging.rs:93-102 | the flags are the bits they are to the hardware: PRESENT 0, WRITABLE 1, USER 2, HUGE 7, BIT_9 9 of the entry, and NO_EXECUTE 11 of its upper twelve bits |
| `PageTables.PathIdentifiesPage` | kernel/src/memory/paging.rs:48-78 | two addresses of one half lie on one page exactly when their four table indices agree |
| `PageTables.HugeInOrder` | kernel/src/process.rs:235-240 | inside a huge page of 2 MiB or 1 GiB translate_addr finds the frame as many pages from the start as the address is |
| `CloneTables.LeafCopy` | kernel/src/memory/paging.rs:93-102 | a copied leaf keeps its frame and its high flags; with copy-on-write exactly WRITABLE is cleared and BIT_9 set, otherwise nothing changes |
| `CloneTables.ClonedWalk` | kernel/src/memory/paging.rs:83-139 | every walk below a copied entry ends in the copy of the leaf the source walk ends in, and in nothing where the source walk does |
| `CloneTables.ClonedAllows` | kernel/src/memory/paging.rs:83-139 | through a copied subtree user code can reach exactly what it can reach through the source, on every level, and write nothing of a copy-on-write copy |
| `CloneTables.ClonedWellFormed` | kernel/src/memory/paging.rs:106-138 | a copy of a well-formed tree is well formed, so it can be copied again |
| `CloneTables.ClonedTables` | kernel/src/memory/paging.rs:106-138 | the tables below a copied entry are exactly the frames taken from the allocator for it |
| `CloneTables.ClonedCount` | kernel/src/memory/paging.rs:106-113 | one frame is taken per table of the source subtree |
| `CloneTables.ClonedUnique` | kernel/src/memory/paging.rs:120-137 | two copies of one subtree made with the same frames agree on the entry and on every word of every new table |
| `CloneTables.StaleContentsIrrelevant` | kernel/src/memory/paging.rs:48-138 | two runs that start in memories differing only in the frames about to be handed out take the same number of frames and end with the same lower half and the same words in every new table |
| `CloneTables.LowerHalfTranslation` | kernel/src/memory/paging.rs:62-77 | for every lower-half address the destination translates to the copied leaf of the source translation, and keeps what it had in slots the source does not use |
| `CloneTables.UpperHalfShared` | kernel/src/memory/paging.rs:37-41 | address spaces with equal upper-half entries translate every upper-half address alike, whatever state the shared tables are in |
| `CloneTables.NoSharedTables` | kernel/src/memory/paging.rs:106-138 | the lower-half tables of a copy are exactly the new frames, so it shares none with its source |
| `CloneTables.ForkDone` | kernel/src/process.rs:187-214 | the promises of fork (`ForkedFrom`) follow from the copy: child translations, unchanged parent, the parent's upper-half entries in the child, disjoint lower-half tables, only new frames written |
| `CloneTables.PhysicalMemory.CloneTableLevel` | kernel/src/memory/paging.rs:83-139 | succeeds exactly when the source subtree is well formed and as many frames as it has tables are left; takes exactly those, writes only them and the one slot, and the slot holds a copy of the subtree |
| `CloneTables.PhysicalMemory.CloneEntries` | kernel/src/memory/paging.rs:123-137 | the same for all 512 entries of a table, unused ones being cleared |
| `CloneTables.PhysicalMemory.CreateProcessPml4` | kernel/src/memory/paging.rs:16-45 | takes one frame and fills it with an empty lower half and the upper half of the running PML4; nothing else is written, and the allocator stays sound |
| `CloneTables.PhysicalMemory.CloneUserMappings` | kernel/src/memory/paging.rs:48-78 | succeeds exactly when the lower half is well formed and enough frames are left; takes one frame per table; the lower half of the destination is a copy and its upper half is as before |
| `CloneTables.PhysicalMemory.CloneUserMappingsCow` | kernel/src/memory/paging.rs:142-176 | the same with copy-on-write leaves, and the upper half of the destination equals the source's |
| `CloneTables.PhysicalMemory.Fork` | kernel/src/process.rs:187-214 | succeeds exactly when the parent is well formed and one frame plus one per table is left; then every lower-half address of the child translates to the parent's frame read-only and marked, the parent's translations stand, the upper-half entries are the parent's, on every level user code can reach and execute the same pages and write none, no lower-half table is shared, and the allocator and the new tree are fit for the next call |
| `AddressSpaces.SetFlagsWalk` | kernel/src/process.rs:249-253 | changing the flags of an upper-level entry changes no walk |
| `AddressSpaces.LinkTableWalk` | kernel/src/process.rs:240-246 | linking a new zeroed table changes no walk |
| `AddressSpaces.LinkPageWalk` | kernel/src/process.rs:240-246 | linking a page changes the walk along its own path and no other |
| `AddressSpaces.WalkEndsAtOwner` | kernel/src/process.rs:240-246 | a walk ends in the frame recorded under the path walked: distinct pages have distinct frames, none of them a table |
| `AddressSpaces.OffsetPageTable.CreateNextTable` | kernel/src/process.rs:240-246 | for any entry of any table: computes `NextTable`, a new zeroed table below an unused entry, the asked flags added to a used one, and a refusal at a huge page or without a frame |
| `AddressSpaces.OffsetPageTable.MapTo` | kernel/src/process.rs:240-246 | for any page and any tables, huge parents included: computes `MapPath`; in the managed slots of a tree it also keeps the tree, as `MapPathGrown` says |
| `AddressSpaces.MapPathGrown` | kernel/src/process.rs:240-246 | mapping a page of a tree: refused exactly when it is mapped, and then nothing changes when the parents have the asked flags; otherwise the page translates to the given frame and flags and every other page as before; frames are taken for exactly the missing tables; the PML4 changes only where its entry has to be made or lacks a flag |
| `LoaderElf.HeadersAgree` | boot/uefi-loader/src/elf.rs:145-185 | the loader accepts exactly the headers the kernel accepts whose version byte is 1, and reads the same fields |
| `LoaderElf.ProgramHeadersAgree` | boot/uefi-loader/src/elf.rs:187-233 | the loader accepts exactly the program headers the kernel accepts whose segment is page aligned, and reads the same segment |
| `LoaderElf.SegmentsAgree` | boot/uefi-loader/src/elf.rs:69-79 | over any number of program headers: accepted by the loader exactly when accepted by the kernel and all segments are page aligned, with equal lists |
| `LoaderElf.ImagesAgree` | boot/uefi-loader/src/elf.rs:145-233 | for every byte string: accepted by the loader exactly when accepted by the kernel, the version byte is 1 and all segments are page aligned; then the entry point and the segments are the same |
| `ElfFiles.HeaderParsed` | kernel/src/elf.rs:43-81 | for a file whose first 64 bytes are the fields of an ELF64 header in order: accepted exactly when magic, class, byte order, type, machine and entry size are the supported ones, and the fields come back as written |
| `ElfFiles.HeaderRefused` | kernel/src/elf.rs:43-81 | which error a header gives: the first, in this order, of magic, class, byte order, type, machine and program header size to be wrong |
| `ElfFiles.LoaderRefused` | boot/uefi-loader/src/elf.rs:145-185 | the same of the loader, with the version after the byte order; the errors carry the value found |
| `ElfFiles.AcceptedIffSupported` | kernel/src/elf.rs:43-81 | for every byte string: accepted exactly when it has 64 bytes and they are a supported header; the fields given are the ones written |
| `ElfFiles.EntryParsed` | kernel/src/elf.rs:83-197 | a program header written field by field comes back as written; other types than PT_LOAD give none, and a file size above the memory size is refused |
| `ElfFiles.EntryOutside` | kernel/src/elf.rs:83-197 | a program header that reaches past the file is refused |
| `ElfFiles.SegmentsParsed` | kernel/src/elf.rs:83-197 | for any number of program headers of any type, the load segments come back in order, exactly when none is larger in the file than in memory |
| `UserMemory.ChunkStored` | kernel/src/process.rs:154-168 | storing bytes through the translation of one page changes exactly those bytes of user memory and no translation |
| `ProcessCode.MapPage` | kernel/src/process.rs:233-247 | for any page and any tables: computes `PageIn`, a mapped page left alone, huge ones included, an unmapped one given a new frame, or a panic |
| `ProcessCode.MapUserRegion` | kernel/src/process.rs:216-255 | for any region of either half: the loop over the pages and the last write to the PML4 compute `RegionIn`, panics included |
| `ProcessCode.StoreChunk` | kernel/src/process.rs:154-168 | computes `StoreIn`: the bytes go to the frame that translate_addr gives, whatever it is |
| `ProcessCode.FillSegment` | kernel/src/process.rs:151-180 | the copy loop and the zero-fill loop compute `FillIn` |
| `ProcessCode.LoadSegment` | kernel/src/process.rs:132-180 | computes `SegmentIn` |
| `ProcessCode.LoadSegments` | kernel/src/process.rs:112-182 | the loop over the program headers computes `HeadersIn`: it stops at the first that is refused or panics |
| `ProcessCode.NewFromElf` | kernel/src/process.rs:82-185 | for every image and every state of the page tables: computes `LoadIn`, of which the rows below speak |
| `ProcessLoading.RegionExtended` | kernel/src/process.rs:216-255 | a region of the lower half: exactly its pages become mapped where they were not, with the asked flags; what was mapped keeps translation and bytes; only the tree and allocated frames are written, and not the upper half of the PML4; fails exactly when the missing tables and pages need more frames than are left |
| `ProcessLoading.FillStored` | kernel/src/process.rs:151-180 | the chunks of a mapped segment together store the file bytes and then zeros up to the memory size, and change nothing else |
| `ProcessLoading.SegmentHeld` | kernel/src/process.rs:112-181 | one segment mapped and filled: memory holds the image of the segments so far and this one, or there are too few frames for it |
| `ProcessLoading.HeadersLoaded` | kernel/src/process.rs:112-182 | after any number of program headers memory holds the image of their segments and the tree has exactly their nodes, or the result is the error of the first bad header, or there are too few frames for the image |
| `ProcessLoading.LowerHalfLoaded` | kernel/src/process.rs:82-185 | an image in the lower half loads exactly when it is good, the entry is canonical and there are as many frames as the stack and the segments have tables and pages, and takes exactly that many; then through the new page tables exactly those pages are mapped, each with the flags it was first mapped with, and every address a segment covers reads the byte of the last segment covering it; the upper half is the kernel's; only allocated frames are written, the allocator stays sound and the new tree can be forked; otherwise the first error, or a panic with no frame left |
| `ProcessLoading.ImageOfLastCover` | kernel/src/process.rs:151-180 | the last segment that covers an address gives its byte: the file byte within the file size, and zero from there to the memory size |
| `ProcessLoading.FlagsOfFirstTouch` | kernel/src/process.rs:136-149 | the first segment on a page off the stack decides the flags: present and open to user code, writable exactly when bit 1 of p_flags is set, not executable exactly when bit 0 is clear |
| `ProcessLoading.ImageNodesAre` | kernel/src/process.rs:112-181 | the tables and pages counted are the prefixes of the paths of the pages that the stack or a segment touches, and the root |
| `UserViews.LoadedView` | kernel/src/process.rs:82-185 | after a load, for every address of the lower half: mapped exactly when it shares a page with the eight stack pages or a segment; stack pages are writable; off the stack the first segment on the page gives WRITABLE (p_flags bit 1) and NO_EXECUTE (bit 0 clear); the last segment covering the address gives its byte; the entry point is the header's and the stack top 0x7000_0000_8000 |
| `UserViews.LoadedMappable` | kernel/src/process.rs:90-149 | for any memory and any image: a load succeeds only if the entry point is a canonical address and each segment that takes up memory starts and ends at one and stays off the last page of the lower half |
| `PageAccess.MapPathGains` | kernel/src/process.rs:240-246 | mapping a page takes no access flag from any entry of any table in use, and moves none |
| `PageAccess.LoadedAccess` | kernel/src/process.rs:216-255 | after a load the entries on all four levels above every mapped user page are present and open to user code, and all are writable exactly when the page's own entry is: no parent takes away what a page was given, whatever pages share it |
| `PageFetch.LoadedFetch` | kernel/src/process.rs:216-255 | after a load no table above a mapped user page forbids execution: code can be fetched from it exactly when its own entry allows it |
| `PageFetch.LoadedRights` | kernel/src/process.rs:82-255 | what all four levels together let user code do after a load: read, write and execute the stack; on a page of segments, read, and write exactly when bit 1 of p_flags of the first segment there is set, and execute exactly when bit 0 is; no other page of the lower half is mapped |
| `KernelHalf.RegionAdvanced` | kernel/src/process.rs:216-255 | a region of either half, through any tables by level: pages that are mapped stay where they are and new ones get new frames; the PML4 entry of its first page ends with USER; in the lower half the kernel half of the PML4 is as before |
| `KernelHalf.HeadersAdvanced` | kernel/src/process.rs:112-182 | the same over any number of program headers: every segment ends with USER in its PML4 entry, and with no segment in the upper half the kernel half is as before |
| `KernelHalf.KernelHalfKept` | kernel/src/process.rs:82-255 | for every image: when no kernel entry of the running PML4 is open to user code, a successful load leaves the process with the kernel's upper-half entries if and only if no segment that takes up memory starts in the upper half |
| `KernelHalf.KernelFrameWritten` | kernel/src/process.rs:151-180 | a last segment on a mapped page of the upper half: after the load the kernel's frame, which was never to be handed out, holds the bytes of the segment |
| `KernelHalf.UpperImageLoads` | kernel/src/process.rs:82-185 | such an image does load, given an entry that is an address and frames for the stack |
| `KernelHalf.KernelBaseOverwritten` | kernel/src/process.rs:151-180 | a one-byte segment at 0xFFFF_FFFF_8000_0000: the load succeeds, a frame outside the supply is changed, and entry 511 is not the kernel's any more |
| `Frames.Get` | shared/abi/src/boot.rs:69-87 | an entry exists exactly when its index is in range, the map is not null and the stride holds a descriptor; every byte read is inside the map |
| `Frames.Descriptors` | shared/abi/src/boot.rs:89-110 | iteration yields the entries in order up to the first index without one |
| `BootMaps.MapRead` | shared/abi/src/boot.rs:30-110 | a map written descriptor by descriptor, fields in the order of the structure, reads back with the type, start and page count of each, in order and no others, whatever the stride, the unused fields and an incomplete descriptor at the end |
| `BootMaps.BootFrames` | kernel/src/memory.rs:36-65 | from the bytes of a sound ascending map: the frames handed out are exactly the whole pages at or above 1 MiB inside descriptors of type 3, 4 or 7, ascending, and then none ever again |
| `Frames.FrameAllocator.AllocatePhysicalFrame` | kernel/src/memory.rs:36-65 | the loop returns the frame that the scan of the descriptors gives and moves the cursor just past it |
| `BootMaps.ScanFirst` | kernel/src/memory.rs:36-65 | one call, for any map in any order: the first descriptor of type 3, 4 or 7 that does not end before the first page boundary from the cursor on decides: a panic when its end is past 64 bits, nothing when the frame would end there, else that frame |
| `BootMaps.ScanNone` | kernel/src/memory.rs:36-65 | with no such descriptor there is no frame |
| `Frames.RunIncreasing` | kernel/src/memory.rs:36-65 | for any map and any number of calls: frames are page aligned, strictly increasing, at or above the first cursor and start in usable descriptors |
| `Frames.RunIsDistinct` | kernel/src/memory.rs:67-81 | no frame number is handed out twice |
| `Frames.RunUsable` | kernel/src/memory.rs:36-65 | from a sound map every frame is a usable frame above 1 MiB |
| `Frames.ScanLeast` | kernel/src/memory.rs:36-65 | in a sound ascending map one call returns a frame no higher than any usable one at or above the cursor |
| `Frames.RunReaches` | kernel/src/memory.rs:36-65 | in a sound ascending map enough calls hand out any usable frame ahead of the cursor |
| `Frames.RunSkipsNothing` | kernel/src/memory.rs:36-65 | in a sound ascending map every usable frame below one handed out has been handed out |
| `Frames.ServedIffUsable` | kernel/src/memory.rs:36-65 | from a sound ascending map exactly the usable frames are handed out |
| `Frames.AllUsableInOrder` | kernel/src/memory.rs:36-65 | from a sound ascending map some number of calls gives exactly the usable frames, in ascending order, and every later call gives nothing |
| `Frames.RunIsSupply` | kernel/src/memory.rs:67-81 | the frame numbers of any run from a sound map are a supply for the page-table code: existing and distinct |
| `Frames.ExhaustiveIffAscending` | kernel/src/memory.rs:54-57 | for a sound map: every usable frame is eventually handed out if and only if the usable descriptors are in ascending order |
| `Frames.UnsortedMapLosesFrame` | kernel/src/memory.rs:54-57 | a concrete two-descriptor map in descending order loses its lower frame for good |
| `Frames.ExhaustedForGood` | kernel/src/memory.rs:36-65 | after one call that finds nothing no call finds anything, and in an ascending map no usable frame is left |
| `Frames.FrameAvoidsUnusable` | kernel/src/memory.rs:83-89 | no frame overlaps an unusable descriptor of a sound map |
| `HeapModel.ClearBelowIsFloor` | kernel/src/memory/allocator/mod.rs:29-31 | clearing the bits below a power of two rounds down to a multiple of it |
| `HeapModel.ListIndex` | kernel/src/memory/allocator/fixed_size_block.rs:35-38 | the smallest class that holds the layout, and none exactly when size or alignment exceeds 2048 |
| `HeapFits.RegionFits` | kernel/src/memory/allocator/linked_list.rs:69-83 | a block fits a region at `a` if and only if `a` is the least multiple of the alignment from the start of the region on, rounding up does not overflow, the block ends inside the region and leaves nothing or at least 16 bytes; it overflows, or is refused, exactly otherwise |
| `HeapFits.LaterPlaceMissed` | kernel/src/memory/allocator/linked_list.rs:69-83 | a region of 24 bytes refuses 16 bytes aligned to 8, although they fit eight bytes on |
| `HeapModel.FindRegion` | kernel/src/memory/allocator/linked_list.rs:54-67 | the first region of the list that fits, all earlier ones not fitting |
| `HeapTiles.TilingTotal` | kernel/src/memory/allocator/linked_list.rs:41-115 | in a tiling of the heap the bytes of the four uses add up to the heap |
| `HeapRuns.AllocKeeps` | kernel/src/memory/allocator/fixed_size_block.rs:41-58 | alloc keeps the invariant; a block it returns is inside the heap, aligned, large enough and disjoint from every live block; a null result changes nothing |
| `HeapFits.RequestIs` | kernel/src/memory/allocator/linked_list.rs:85-92 | what is asked of the free list: up to 2048 bytes the least power of two from 8 up that holds size and alignment, on its own boundary and at least 16 bytes; above, the least multiple of the alignment; a panic exactly when that is no isize |
| `HeapFits.AllocAnswers` | kernel/src/memory/allocator/fixed_size_block.rs:41-58 | from the class list when that has a block; otherwise null if and only if every free region refuses, a block at `a` if and only if the first region that does not refuse holds it there, and a panic if and only if the request panics or that region overflows |
| `HeapFits.NullIffNothingFits` | kernel/src/memory/allocator/fixed_size_block.rs:41-58 | with no region near the top of the address space: never a panic, and null if and only if the class list is empty and no region holds the block |
| `HeapFits.AllocTakes` | kernel/src/memory/allocator/linked_list.rs:94-109 | a block from the free list: the rest of the region goes to the front of the list, the others keep their order, and exactly the gap before the block is stranded |
| `HeapFits.AllocReuses` | kernel/src/memory/allocator/fixed_size_block.rs:43-48 | a block from a class list is its front, and nothing is stranded |
| `HeapFits.FreeThenAlloc` | kernel/src/memory/allocator/fixed_size_block.rs:41-78 | a live block that is freed and asked for again with its layout comes back at the same address, and the heap is what it was |
| `HeapRuns.DeallocKeeps` | kernel/src/memory/allocator/fixed_size_block.rs:60-78 | dealloc of a live block keeps the invariant |
| `HeapRuns.RunKeeps` | kernel/src/memory/allocator/fixed_size_block.rs:41-78 | every state of every run of legal calls satisfies the invariant, and stranded bytes never decrease |
| `HeapRuns.InitOk` | kernel/src/memory/allocator/linked_list.rs:35-39 | the initial heap, one free region, satisfies the invariant |
| `HeapRuns.Accounting` | kernel/src/memory/allocator/linked_list.rs:94-109 | in every reachable state the heap size is the free list plus the class lists plus live blocks plus stranded gaps |
| `HeapRuns.Disjointness` | kernel/src/memory/allocator/fixed_size_block.rs:35-79 | in every reachable state free regions, cached blocks and live blocks are inside the heap and pairwise disjoint, live blocks are aligned and large enough, and free and cached ones are in their lists |
| `HeapMemory.ListPush` | kernel/src/memory/allocator/linked_list.rs:41-52 | writing a node in front makes the list in memory represent the sequence with the region in front |
| `HeapMemory.ListUnlink` | kernel/src/memory/allocator/linked_list.rs:54-67 | moving one link makes the list in memory represent the sequence without the region |
| `HeapMemory.FixedSizeBlockAllocator.AddFreeRegion` | kernel/src/memory/allocator/linked_list.rs:41-52 | writes exactly the two words of the node and the head; its assertions are preconditions, so no caller makes them fail |
| `HeapMemory.FixedSizeBlockAllocator.FindFit` | kernel/src/memory/allocator/linked_list.rs:54-67 | finds the first fitting region of the list in memory and unlinks it, touching no word outside free regions |
| `HeapMemory.FixedSizeBlockAllocator.Allocate` | kernel/src/memory/allocator/linked_list.rs:94-109 | the list in memory becomes the free list without the region but with its tail in front; the result is the aligned start |
| `HeapMemory.FixedSizeBlockAllocator.constructor` | kernel/src/memory/allocator/fixed_size_block.rs:24-28 | the initial memory represents the initial heap |
| `HeapMemory.FixedSizeBlockAllocator.Alloc` | kernel/src/memory/allocator/fixed_size_block.rs:41-58 | the lists in memory follow alloc of the heap model exactly, and the invariant holds again |
| `HeapMemory.FixedSizeBlockAllocator.Dealloc` | kernel/src/memory/allocator/fixed_size_block.rs:60-78 | the lists in memory follow dealloc of the heap model exactly, and the invariant holds again |
| `HeapMemory.FixedSizeBlockAllocator.UserStore` | kernel/src/memory/allocator/fixed_size_block.rs:41-58 | a program's store to a word of a block it owns disturbs no list |
| `Contexts.SaveRestore` | kernel/src/interrupts/mod.rs:96-135 | what the entry code saves below a stack top is what the exit code restores: fifteen registers and the return frame |
| `Scheduling.StacksDisjoint` | kernel/src/task/mod.rs:83-92 | the stacks of different tasks share no address |
| `Scheduling.ComputeKeeps` | kernel/src/task/mod.rs:78-114 | code that runs on its own stack keeps the invariant |
| `Scheduling.StepKeeps` | kernel/src/task/scheduler.rs:31-165 | every event keeps the invariant, and the frame it will restore is there |
| `SchedulerRuns.RunInv` | kernel/src/task/scheduler.rs:31-165 | in every reachable state queued tasks are Ready with a whole frame on their own stack, the current one is Running or Zombie, current_task_id, TSS, per-CPU stack and CR3 are its own, and task_count is queued plus current plus retired |
| `SchedulerRuns.StepMoves` | kernel/src/task/scheduler.rs:104-149 | in one step the queue moves up by one exactly when its front is dispatched; every task that stays keeps its place and its saved context |
| `SchedulerRuns.CurrentMoves` | kernel/src/task/scheduler.rs:104-149 | in one step the current task goes on, or is queued with its context saved, or, being dead, is dropped |
| `SchedulerRuns.ContextPreserved` | kernel/src/interrupts/mod.rs:78-195 | over every run a task that was switched out goes on with exactly the registers, flags, stack and code address it was interrupted with |
| `SchedulerRuns.FirstRunIsInitial` | kernel/src/task/mod.rs:116-148 | over every run a new task first runs at its entry point with flags 0x202 and all fifteen registers zero: a user task with selectors 0x2B and 0x23 on the stack it was given, a kernel task with 0x08 and 0x10 on the top of its own kernel stack |
| `SchedulerRuns.RetiredForGood` | kernel/src/task/scheduler.rs:115-140 | over every run a retired task never runs and never waits again |
| `SchedulerRuns.HaltedAllExited` | kernel/src/task/scheduler.rs:133-140 | when the system has halted every task ever added has been retired |
| `SchedulerRuns.PlaceInQueue` | kernel/src/task/scheduler.rs:31-37 | a task at place k is at place k - n after n ticks that got the lock, whatever additions, exits, system calls, faults and failed ticks came between |
| `SchedulerRuns.BoundedWaiting` | kernel/src/task/scheduler.rs:104-149 | a task at place k is dispatched by exactly the (k+1)-th tick that gets the lock, and not before |
| `SchedulerRuns.GsStep` | kernel/src/interrupts/mod.rs:89-94 | from a state with the right GS bases every event leaves them right if and only if it is not a user fault |
| `SchedulerRuns.GsParity` | kernel/src/gdt.rs:85-91 | over every run from boot, kernel code always runs with GS at the per-CPU block and user code with KernelGsBase there if and only if no user fault occurs |
| `SchedulerRuns.NoFaultNoCrash` | kernel/src/syscall/mod.rs:57-64 | without a user fault the only crash is start_scheduling with no task |
| `SchedulerRuns.FaultThenSyscallCrashes` | kernel/src/interrupts/mod.rs:296-303 | the concrete failure behind that condition: a user fault, a switch to a user task, and its next system call faults in the kernel |
| `SchedulerRuns.CrashFromBoot` | kernel/src/interrupts/mod.rs:286-323 | such a run from boot: two user tasks, start, a fault, a tick, a system call, crashed |
| `SchedulerRuns.SyscallTransparent` | kernel/src/syscall/mod.rs:56-116 | over every run a system call returns with the rip, rsp, flags and registers it was made with and the user selectors; only rax (the result), rcx (the return address) and r11 (the flags) differ, however often the task is switched out inside it |
| `SchedulerRuns.DispatchSees` | kernel/src/syscall/mod.rs:10-32 | the dispatcher is given the address of twenty words at the top of the caller's kernel stack, which are the fields of SyscallFrame in their order with the user's values |
| `TaskLives.EndedIsRetired` | kernel/src/task/scheduler.rs:104-158 | over every run: the first tick that gets the lock after a task exits or faults retires it, and halts the system if no other task waits, else the longest waiting one runs |
| `TaskLives.RetiredIffEnded` | kernel/src/task/scheduler.rs:104-158 | over every run from boot: a task is retired if and only if it exited or faulted as the current task and a tick got the lock later |
| `TaskLives.RunsInItsSpace` | kernel/src/task/mod.rs:258-270 | over every run: whenever a task runs, CR3 holds the PML4 it was made with, and the TSS and the per-CPU block the top of its own kernel stack |
| `TaskLives.SavedWhere` | kernel/src/interrupts/mod.rs:88-119 | a task that is switched out leaves its frame in the 160 bytes below its kernel stack top, or below its own stack pointer rounded down to 16 |
| `TaskLives.FaultEnters` | kernel/src/interrupts/mod.rs:286-323 | a fault enters the kernel 48 bytes below the stack top with the five words of the return frame saved there and GS not exchanged |
| `TaskLives.TicksCounted` | kernel/src/task/scheduler.rs:104-107 | over every run the uptime counter is the number of timer and yield interrupts |
| `KernelCode.Kernel.SaveRegisters` | kernel/src/interrupts/mod.rs:97-111 | the fifteen pushes leave the whole frame below the stack top |
| `KernelCode.Kernel.RestoreRegisters` | kernel/src/interrupts/mod.rs:121-135 | the fifteen pops load the registers of the frame |
| `KernelCode.Kernel.SwitchToTask` | kernel/src/task/mod.rs:258-270 | TSS, per-CPU stack and CR3 become the task's |
| `KernelCode.Kernel.Tick` | kernel/src/task/scheduler.rs:104-149 | the step-by-step scheduler code computes the tick of the model: queue, current task, counters and the stack pointer to go on with |
| `KernelCode.Kernel.TraceTick` | kernel/src/interrupts/mod.rs:79-86 | the trace at the start of the timer entry restores rax and rdx and leaves nothing the frame does not overwrite |
| `KernelCode.Kernel.EnterAndSave` | kernel/src/interrupts/mod.rs:88-111 | entry code: the frame saved below the entry stack, GS exchanged exactly when it came from user mode |
| `KernelCode.Kernel.ResumeFrom` | kernel/src/interrupts/mod.rs:119-143 | exit code: the frame restored, GS exchanged exactly when it goes to user mode |
| `KernelCode.Kernel.HandleInterrupt` | kernel/src/interrupts/mod.rs:78-195 | the timer or yield interrupt, instruction by instruction, is exactly the tick event of the machine |
| `KernelCode.Kernel.EnterSyscall` | kernel/src/syscall/mod.rs:57-88 | syscall_entry up to the dispatch is exactly the enter event, including the fault on a wrong GS |
| `KernelCode.Kernel.LeaveSyscall` | kernel/src/syscall/mod.rs:89-116 | syscall_entry after the dispatch is exactly the leave event |
| `KernelCode.Kernel.StartScheduling` | kernel/src/task/scheduler.rs:39-84 | start_scheduling is exactly the start event |
| `KernelCode.Kernel.ExitCurrentTask` | kernel/src/task/scheduler.rs:151-158 | exit_current_task up to its yield is exactly the exit event |
| `KernelCode.Kernel.SpawnTask` | kernel/src/task/mod.rs:116-160 | writing the twenty words from the top down and queueing the task is exactly the spawn event |
| `KernelStacks.StackInSlot` | kernel/src/task/mod.rs:88-92 | a stack lies wholly below the anchor's PML4 entry if and only if its task id is at most 13,421,771 |
| `KernelStacks.GuardPages` | kernel/src/task/mod.rs:83-100 | the pages on either side of a stack are never mapped, whatever tasks exist |
| `KernelStacks.PagesOwnFrames` | kernel/src/task/mod.rs:101-113 | different pages of the region have different frames, so no two stacks share memory |
| `KernelStacks.MapStackPage` | kernel/src/task/mod.rs:100-113 | maps one page for the kernel only; the other pages of the region keep their translations |
| `KernelStacks.InitKernelStackRegion` | kernel/src/task/mod.rs:48-75 | panics exactly when the anchor is unmapped and no frame is left; the anchor is mapped afterwards unless a table frame was missing, an error the code ignores; an anchor already mapped changes nothing; in an empty region only the anchor is mapped and the slot is linked |
| `KernelStacks.MapKernelStack` | kernel/src/task/mod.rs:94-114 | exactly the eight pages of the new stack become mapped, earlier stacks keep their frames, the PML4 and all frames outside the tree and the allocator are as before, and every address space that shares the upper half sees the stack |
| `KernelStacks.MapAgain` | kernel/src/task/mod.rs:205-219 | mapping a page of the stack region that is mapped again, through a process PML4 that shares the slot, is refused as already mapped and changes no word and takes no frame |
| `KernelStacks.MapUserTaskStack` | kernel/src/task/mod.rs:178-220 | the loop of new_user: the stack is mapped as for a kernel task and all eight mappings into the process PML4 are refused |
| `SpaceRuns.StepKeeps` | kernel/src/boot.rs:59-210 | making an address space, loading, forking, a failed load and a new stack each keep: every process PML4 has the kernel's upper-half entries, a well-formed lower half, and tables and pages that neither the allocator nor the stack mapper can reach |
| `SpaceRuns.RunKeeps` | kernel/src/boot.rs:59-210 | every state of every run satisfies that invariant, and no step changes the user memory of a process or the translation of a stack page there was |
| `SpaceRuns.UpperHalfEverywhere` | kernel/src/memory/paging.rs:37-41 | over every run, every PML4 made so far has the kernel's upper-half entries and translates every upper-half address as the kernel does |
| `SpaceRuns.StacksEverywhere` | kernel/src/task/mod.rs:48-113 | over every run, each byte of each stack lies in one frame, the same in the kernel's and in every process's address space, then and later, also in processes made later; it is writable and not open to user code |
| `SpaceRuns.GuardsEverywhere` | kernel/src/task/mod.rs:83-100 | over every run, the pages on either side of each stack are unmapped in every address space |
| `SpaceRuns.UserMemoryStays` | kernel/src/process.rs:82-214 | over every run, what is done for other processes and tasks leaves every translation and every byte of the user half of a process as it is |
| `SpaceRuns.LoadThenFork` | kernel/src/process.rs:82-214 | over every run, a process that was loaded and later forked reads, and its child reads, at every address a segment covers, the byte the image put there, at any time after |
| `SpaceRuns.KernelMemory.Init` | kernel/src/boot.rs:59-59 | with an empty slot the stack region is set up and the invariant holds |
| `SpaceRuns.KernelMemory.CreateSpace` | kernel/src/memory/paging.rs:16-45 | create_process_pml4 is a step of the runs, and fails exactly when no frame is left |
| `SpaceRuns.KernelMemory.Load` | kernel/src/process.rs:82-185 | new_from_elf for any image; for one in the lower half it is a step of the runs, loading or failing, and loads exactly when the image is good and enough frames are left |
| `SpaceRuns.KernelMemory.ForkProcess` | kernel/src/process.rs:187-214 | fork is a step of the runs, and succeeds exactly when one frame plus one per table is left |
| `SpaceRuns.KernelMemory.AddTask` | kernel/src/task/mod.rs:83-114 | the stack of a kernel task is a step of the runs |
| `SpaceRuns.KernelMemory.AddUserTask` | kernel/src/task/mod.rs:172-220 | the stack of a user task is the same step, its eight second mappings refused |
| `StackRefinement.WordStored` | kernel/src/task/mod.rs:48-113 | a store to a word of a stack through any address space changes that word in all of them, no other word of any stack, no user memory and no translation |
| `StackRefinement.JointStart` | kernel/src/boot.rs:59-210 | boot code with no task, running on one of the address spaces while there is no stack yet: a state from which the machine and the address spaces can run together |
| `StackRefinement.JointRunKeeps` | kernel/src/interrupts/mod.rs:78-195 | over every run of the scheduler's machine together with the address spaces: both invariants hold, every CR3 the machine may load is one of the address spaces, and the frames back the machine's stack words |
| `StackRefinement.StacksRefined` | kernel/src/task/mod.rs:48-113 | over every such run each word of each task's stack, read through the CR3 in force or any other address space, is the word of the machine |
| `StackRefinement.StoresExist` | kernel/src/interrupts/mod.rs:97-111 | every step of the machine but the making of a task is a sequence of stores through the CR3 in force |
| `KernelImage.MeasureImage` | boot/uefi-loader/src/elf.rs:64-79 | the first pass gives the bounds of all segments, or the error of the first header that is refused or wraps |
| `KernelImage.CopySegments` | boot/uefi-loader/src/elf.rs:101-127 | all writes fall inside the allocated frames; every byte of them is the file byte of the last segment whose file part covers it, or zero |
| `KernelImage.LoadKernel` | boot/uefi-loader/src/elf.rs:61-135 | succeeds exactly when the image is loadable and the firmware gives the pages; then entry and bounds are the image's and the frames hold its bytes; frames in use are not written; otherwise the error is the first in the order of the checks |
| `KernelImage.MapKernel` | boot/uefi-loader/src/main.rs:241-255 | the pages of the image are mapped to consecutive frames and no byte of them is written |
| `KernelImage.KernelReads` | boot/uefi-loader/src/main.rs:241-255 | through that mapping the address x bytes into the image reads byte x of the frames |
| `KernelImage.LoadAndMap` | boot/uefi-loader/src/main.rs:241-255 | from the image file to the running kernel: virtual_base + x reads the file byte of the last segment whose file part covers it, or zero, for every x below the image size, or the loader gives the first error, or no frame for a table is left |
| `KernelMeaning.ByteOfLastCover` | boot/uefi-loader/src/elf.rs:101-127 | the byte at an address is the file byte of the last segment whose file part covers it |
| `KernelMeaning.ByteOutside` | boot/uefi-loader/src/elf.rs:101-127 | where no file part reaches there is a zero |
| `KernelMeaning.BoundsAttained` | boot/uefi-loader/src/elf.rs:69-79 | the image goes from the least segment start to the greatest segment end |
| `KernelMeaning.FailureIs` | boot/uefi-loader/src/elf.rs:61-135 | which error an image gives: the header's; that of the first program header that is refused or wraps; then no load segment, no pages, a file part outside the file, in this order; there is no other |
| `Ramdisk.RamdiskBuilder.AddFile` | tools/xtask/src/main.rs:290-298 | appends the packed form of one more file |
| `Ramdisk.PackLayout` | tools/xtask/src/main.rs:290-298 | byte by byte: at most 63 bytes of name, zeros up to 64, eight bytes of length, the data |
| `Ramdisk.ParseRamdisk` | kernel/src/vfs.rs:78-103 | the loop computes the recursive parse of the image |
| `Ramdisk.ParseTruncated` | kernel/src/vfs.rs:78-103 | parsing any truncation of an image gives a prefix of its files: those that are whole |
| `Ramdisk.NameRoundTrip` | tools/xtask/src/main.rs:291-293 | a text name comes back unchanged if and only if it has at most 63 bytes and no NUL |
| `Ramdisk.NulNameCut` | kernel/src/vfs.rs:79-98 | the name "a", NUL, "b" comes back as "a" |
| `Ramdisk.RoundTrip` | tools/xtask/src/main.rs:290-298 | for every list of text-named files, parsing the packed image gives exactly that list if and only if every name has at most 63 bytes and no NUL |
| `Utf8.ValidIffEncoded` | kernel/src/vfs.rs:92-98 | the validity test of names and terminal output accepts exactly the UTF-8 encodings of sequences of Unicode scalar values |
| `Vfs.RunInv` | kernel/src/vfs.rs:130-288 | in every state of every run from the empty file system each open descriptor names an existing entry and carries the type of the first one so called |
| `Vfs.OthersUnchanged` | kernel/src/vfs.rs:130-288 | no call changes a descriptor it was not given, except that unlink closes exactly those of the removed name |
| `Vfs.OpenLowest` | kernel/src/vfs.rs:130-147 | open succeeds exactly when the name exists and a slot is free; it takes the lowest, at offset zero, with the entry's type |
| `Vfs.RunGrows` | kernel/src/vfs.rs:161-288 | over every run, until a file is unlinked its old contents are a prefix of its new contents |
| `Vfs.ReadAdvances` | kernel/src/vfs.rs:161-192 | a read gives the bytes from the offset as far as the file goes and advances by as many |
| `Vfs.ReadsConcatenate` | kernel/src/vfs.rs:161-192 | reads of any sizes concatenate to the file from the starting offset on |
| `Vfs.WriteAtEnd` | kernel/src/vfs.rs:207-216 | a write at or past the end reads back after seeking, with zeros in the gap |
| `Vfs.WriteInside` | kernel/src/vfs.rs:207-216 | a one-byte write before the end reads back the old byte: it appended instead |
| `Vfs.ReadBackIff` | kernel/src/vfs.rs:194-220 | whatever is written reads back if and only if the descriptor is at or past the end of the file |
| `Vfs.BootContents` | kernel/src/vfs.rs:72-128 | booting with a packed image gives exactly the default entries followed by the packed files |
| `VfsCalls.BootState` | kernel/src/vfs.rs:64-128 | at boot: sixteen free descriptors, working directory `/`, the entries `.`, `dev`, `null` and `tty` with their types and no data, then the files |
| `VfsCalls.BootRead` | kernel/src/vfs.rs:72-192 | a file of the RAM disk can be opened and read at once, unless an earlier entry has its name |
| `VfsCalls.UnlinkRemoves` | kernel/src/vfs.rs:273-288 | unlink succeeds if and only if an entry has the name; it removes the least such index, keeps the other entries in their order, and closes exactly the descriptors of the name |
| `VfsCalls.UnlinkThenOpen` | kernel/src/vfs.rs:273-288 | when the name occurred once, opening it after unlink fails; when it occurred again, an entry of the name is left |
| `VfsCalls.UnlinkCloses` | kernel/src/vfs.rs:273-288 | reading, writing, seeking and closing a descriptor of the removed name all fail |
| `VfsCalls.CloseFrees` | kernel/src/vfs.rs:149-159 | close succeeds exactly on an open descriptor and frees that slot alone; a second close fails, and open takes the slot if no lower one is free |
| `VfsCalls.OpenThenClose` | kernel/src/vfs.rs:130-159 | opening and closing a file leaves the file system as it was |
| `VfsCalls.OpenThenRead` | kernel/src/vfs.rs:130-192 | a newly opened file is read from its start |
| `VfsCalls.OtherFilesUnchanged` | kernel/src/vfs.rs:130-288 | no call changes whether a name exists or what it holds, but a write to a descriptor of that name, its unlink or mkdir, and filling the file system |
| `VfsCalls.WriteAdvances` | kernel/src/vfs.rs:194-220 | a write gives its length, moves the offset by it, and leaves the old bytes, zeros up to the old offset, and the new bytes last |
| `VfsCalls.WriteThenRead` | kernel/src/vfs.rs:161-220 | a read right after a write at or past the end gives no bytes, and otherwise what lies as many bytes on |
| `VfsCalls.WritesConcatenate` | kernel/src/vfs.rs:194-220 | two writes at the end are one write of both |
| `VfsCalls.SeekThenRead` | kernel/src/vfs.rs:161-232 | seek succeeds exactly on an open descriptor, and the next read starts there |
| `VfsCalls.TerminalKept` | kernel/src/vfs.rs:161-205 | a terminal read gives the front of the line, a write all of a valid text or nothing, and neither changes the file system |
| `VfsCalls.MkdirAdds` | kernel/src/vfs.rs:260-271 | mkdir succeeds if and only if no entry has the name; the directory can be changed into, opened as a directory and read as empty, and not made again |
| `VfsCalls.ChdirIff` | kernel/src/vfs.rs:250-258 | chdir succeeds if and only if some entry of the name is a directory, and sets the working directory alone; not after the directory is removed |
| `Vfs.FileSystem.constructor` | kernel/src/vfs.rs:64-70 | the new file system is empty with sixteen free slots |
| `Vfs.FileSystem.OpenFile` | kernel/src/vfs.rs:130-147 | the nested loops compute `Open` |
| `Vfs.FileSystem.CloseFile` | kernel/src/vfs.rs:149-159 | computes `Close` |
| `Vfs.FileSystem.ReadFile` | kernel/src/vfs.rs:161-192 | computes `Read`: fills the front of the buffer and leaves the rest |
| `Vfs.FileSystem.WriteFile` | kernel/src/vfs.rs:194-220 | computes `Write` |
| `Vfs.FileSystem.SeekFile` | kernel/src/vfs.rs:222-232 | computes `Seek` |
| `Vfs.FileSystem.MakeDirectory` | kernel/src/vfs.rs:260-271 | computes `Mkdir` |
| `Vfs.FileSystem.ChangeDirectory` | kernel/src/vfs.rs:250-258 | computes `Chdir` |
| `Vfs.FileSystem.UnlinkFile` | kernel/src/vfs.rs:273-288 | computes `Unlink`, closing the descriptors of the name in place |
| `Vfs.FileSystem.InitFromRamdisk` | kernel/src/vfs.rs:72-128 | adds the defaults and then the parsed files; fails exactly when a length takes the offset past 64 bits |

## Left out

- ProcessLoading.LowerHalfLoaded: speaks of images that end before the last page of the lower half; of other images the rows of KernelHalf and `LoadedMappable` speak.
- UserViews.LoadedView: speaks of the same images.
- PageAccess.LoadedAccess: speaks of the same images.
- PageFetch.LoadedRights: speaks of the same images.
- KernelHalf.KernelHalfKept: nothing is said of an image with a segment over an upper-half address that is mapped to a page table or to a free frame, as the direct map of physical memory is. Such a segment can rewrite any table, the new PML4 among them.
- CloneTables.PhysicalMemory.CloneTableLevel: memory after a panic is not described.
- AddressSpaces.MapPathGrown: speaks of slots whose tables and pages form a tree; of any other tables `MapPath` alone speaks.
- HeapMemory.FixedSizeBlockAllocator.AddFreeRegion: the order of the two words of a list node is fixed, size first.
- KernelImage.MapKernel: the image's pages are required to be unmapped and in the upper half, as they are when the loader calls it.
- KernelImage.LoadAndMap: the image is required to lie in the upper half, and of the loader's mappings only the kernel's own are made. The loader's scratch allocator never answers that it is empty: past its 256 pages it gives out memory it does not own, where the model reports that no frame is left.
- KernelCode.Kernel.EnterSyscall: with the user's GS base the access to gs:[8] is taken to fault; a program with a segment at address 0 has address 8 mapped.
- SchedulerRuns.FaultThenSyscallCrashes: speaks of programs without a page at address 0, for the same reason.
- SchedulerRuns.CrashFromBoot: its last step rests on the same assumption.
- SpaceRuns.KernelMemory.Init: the slot of the stacks is required to be empty, as it is at boot; a second call, which finds the anchor mapped and returns, is stated by KernelStacks.InitKernelStackRegion.
- StackRefinement.StoresExist: the making of a task is not covered, because mapping its stack can fail for want of frames.
- Scheduling.ComputeKeeps: kernel code is assumed to write only its own stack, below a pending system-call frame, and to leave room for an interrupt frame; what the Rust handlers push below the saved frame is not modelled.
- SchedulerRuns.RunInv: the interrupt flag is not modelled; ticks may come at any point where the stack has room.
- SpaceRuns.RunKeeps: loading an image with a segment in the upper half is not a step of the runs; KernelHalfKept says what it does to the PML4.
- SpaceRuns.UserMemoryStays: the stores of user programs are not events of the runs.
- Vfs.FileSystem.WriteFile: running out of memory is not modelled; a file that cannot be held panics in `resize` or `extend_from_slice`, before the offset could overflow.
- Copy-on-write isolation and its page-fault resolution: the parent keeps WRITABLE and the fault handler only ends the task.
- map_kernel_region and set_user_accessible.
- TLB flushes, PCID and memory types.
- Process ids and thread lists, the uptime counter's wrap-around.
- `stat`, `list_dir` and `getcwd`: they only read. The terminal behind "tty" is a parameter.
- Lock implementations and interrupts disabled around them; SMP.
- UEFI calls and the other steps of `setup_mappings`.
- The decoding and checking of system-call arguments, user-space wrappers, mounts, ext2, security contexts, the service manager, shells and the rest of the build tool.
- Hardware access: drivers, ACPI, APIC, network, video, fonts, terminal.
