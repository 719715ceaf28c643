# Verified model of the kernel and of easy-fs

This project models a teaching RISC-V kernel and its file system in Dafny and
proves what they keep over whole runs. It follows four areas of the code.

**Copy-on-write memory.** `FrameAllocator` is the reference-counting frame
allocator. `PrivateMemory` is the reference: every process owns its pages and a
fork copies them all. `CopyOnWrite` says what the kernel does, with every
assertion and panic of the source as an explicit outcome; `CowRefinement`,
`CowFork` and `CowRuns` prove that no process can tell the two apart, and
`CowFrames` how many frames each operation takes.
`MemorySet` is the same kernel as an object with loops, proved equal to
`CopyOnWrite`. `RadixTable` is the Sv39 page table over bit vectors (section 4.4
of the RISC-V Privileged Architecture v1.12), proved to be a flat map from
27-bit page numbers to entries, and `TableRefinement` proves that map to be the
one `CopyOnWrite` works on.

**easy-fs.** From blocks to paths, each building on those before: `Bitmap`,
`Layout`, `IndexTree` (an inode's index tree is one list of blocks), `FileBytes`
(a block list is one sequence of bytes), `FileSystem` (blocks have one owner),
`DirBytes` (directory bytes are a list of entries), `DirTree` (entries form a
tree), `Paths`. `Volume` is the reference for the whole: a tree, the bytes of
the regular files, the space left and whether a block has leaked, with every
operation a function on that value. `Vfs` proves that the operations on blocks,
bitmaps and directory bytes do what `Volume` says, over every run. `BlockCache`
stands by itself: whatever its sixteen write-back entries do, its view is a
plain map of blocks, and a plain map of blocks is what the other modules read
and write; no module runs over the cache.

**Scheduling.** `Scheduler`: eight FIFO queues, aging, rotation.

**Synchronisation.** `Eisenberg` (with `EisenbergBypass`), `BlockingSync`,
`BoundedBuffer` and `Pipe` are step machines for any number of threads. Kernel code is not preempted, so a
stretch between suspend points is one step; in user programs each load, store
and system call is one.

**What users see.** The reference machines above are themselves pinned down by
laws that do not name how they compute: `MemoryLaws` (loads, stores, forks,
mappings), `DirLookups`, `VolumeLaws` and `PathLaws` (which names and paths lead
where, which bytes files hold), `SchedulerLaws` (aging in ticks), `SyncLaws` (what
each call does, no lost wakeups), `BufferProgress` and `PipeLaws` (things get
through).

Where a function is given twice, once as a function on values and once as a
method with loops, the method is proved equal to the function, and the
properties are proved of the function. `hide` statements keep proofs small; they
assume nothing.

Points where the code and what one might expect of it differ; each is proved:

- The comment that a refresh examines each ready task once
  (os/src/task/scheduler/priority.rs:22-23) does not hold when
  `set_base_priority` has demoted a queued task. A task is examined once iff it
  has earned no less than the level where it stands (`Scheduler.ExaminedOnce`);
  `Scheduler.DemotedIsExaminedTwice` has one that is examined twice. The result
  is still the closed form (`Scheduler.PriorityScheduler.RefreshAging`).
- `link` does not check that it links into a directory, so a rename whose new
  parent is a file is accepted and breaks the tree
  (`DirTree.MoveUnderFileAccepted`). An accepted move is safe iff the new parent
  is a directory (`DirTree.MoveSafeIffDirectory`). On the disk the entry is
  written over the end of the file's bytes (`Vfs.MoveUnderFile`), and what was
  moved has no name any more (`Volume.MoveUnderFileBreaks`).
- Normalising a path can make one resolve that did not, `/a/..` for instance
  (`Paths.NormalizeRepairs`). `Paths.NormalizeExact` says when the answer is the
  same.
- `ensure_private_range` on a range that passes the top of the address space from
  the lower half wraps round and may check nothing
  (`PrivateMemory.PrivateRangeWraps`). `PrivateMemory.PrivateRangeSound` says
  exactly for which ranges a yes can be trusted, and
  `PrivateMemory.PrivateRangeIsExact` for which the answer is exact: a range of
  the upper half that reaches the top is refused whatever its pages are.
- In `eisenberg` the leaving thread looks for a flag that is `Want`, so a waiting
  thread whose flag is `In`, while it scans for conflicts, is passed over. A
  thread can be overtaken any number of times while it waits
  (`EisenbergBypass.OvertakenForEver`); how often is bounded by how often it is
  passed over (`EisenbergBypass.BoundedBypass`), and conversely
  (`EisenbergBypass.SkipsAreEntries`).
- The inode bitmap has more bits than the inode area has room
  (`Layout.InodeEscapes`), and the data bitmap may have more bits than the data
  area has blocks (`Layout.SpareBits`). `alloc_inode` and `alloc_data` do not
  check; the model reports failure exactly where they would leave their area.
- Removing a directory entry never returns a block. Exact accounting is lost
  exactly when the block count falls (`FileSystem.EasyFileSystem.Shrink`): when
  an entry is taken from a directory of 32 bytes more than a multiple of 512. A
  rename inside a directory whose size is a multiple of 512 loses a block every
  time (`Vfs.Rename`), and a leak stays over the rest of the run
  (`Volume.RunKeeps`).
- An empty write at a block boundary at or past the end asks for a block the
  file does not have (`FileBytes.FirstBlockExists`). It is harmless where it
  meets a block of the device, and fails otherwise, for example after 28 blocks
  (`FileBytes.EmptyWriteLooksUp`).
- A name of 28 bytes fits the entry but cannot be read back
  (`DirBytes.EntryRoundTrip`): creating or renaming to it succeeds and leaves an
  entry without the NUL that `name()` looks for. A longer name panics at once (`Vfs.CreateAs`,
  `Vfs.Rename`, `Vfs.RenameAt`).

`dafny verify dfyconfig.toml` checks the project.

## Model

| member | source | states |
|---|---|---|
| `CowRuns.RunRefines` | os/src/mm/memory_set.rs:329-425 | Main theorem of the memory part. Over every run of spawns, forks, user loads and stores (faulting through `handle_cow_fault`), `insert_framed_area`, `mmap`, `munmap`, `ensure_private_range`, exits and reaps, each answer and each process's whole view equal those of the machine in which every fork copies all pages; a run stops early iff it reaches an operation that costs more frames than are free, and never at an assertion of the source |
| `CowRuns.SharingInvariant` | os/src/mm/frame_allocator.rs:71-179 | In every state reachable from boot: allocated and recycled frames partition the issued range, a reference count is the number of live trackers, a COW entry is never hardware-writable, and the frame of a writable user page has count 1 |
| `CowRuns.NothingLost` | os/src/mm/frame_allocator.rs:53-179 | After any run from boot the free frames are all but those in use, and all of them once every process has been reaped |
| `CowRuns.MunmapUndoesMmap` | os/src/mm/memory_set.rs:121-154 | `munmap` of the range `mmap` returned finds the new area, restores every address space entry for entry, and releases exactly the data-frame references the area held |
| `CowRuns.StepRefines` | os/src/mm/memory_set.rs:329-451 | One kernel operation gives the reference machine's answer and view, trips no assertion, and lacks memory iff it costs more frames than are free |
| `CowFrames.StepFrames` | os/src/mm/memory_set.rs:329-452 | Every operation takes exactly its cost, one frame for each page it maps or copies and one for each missing page-table page on the way, or gives back exactly the frames no longer in use; it lacks memory only if it costs more than is free |
| `CowFrames.StepGivesBack` | os/src/mm/memory_set.rs:121-154 | `munmap`, exit and reaping never fail and give back the frames that were in use and are used by nothing left |
| `CowFrames.FreeIsUnused` | os/src/mm/frame_allocator.rs:53-179 | The frames that are not free are those some page is mapped to or some page table lies in |
| `CowFrames.ForkFree` | os/src/mm/memory_set.rs:348-388 | A fork takes its tables and one frame for each kernel-only page; sharing a user page takes none beyond missing tables |
| `CowFrames.FaultFree` | os/src/mm/memory_set.rs:389-425 | A fault takes a frame iff the page is COW and its frame is shared |
| `CowFrames.EnsureFree` | os/src/mm/memory_set.rs:426-452 | The range check takes one frame for each COW page whose frame is still shared after the copies before it, up to the first page it refuses |
| `CowRuns.PlacementInsertable` | os/src/mm/memory_set.rs:53-120 | A placement chosen by `mmap` overlaps no area, so `map`'s assertion cannot fire |
| `CowRuns.BootOk` | os/src/mm/frame_allocator.rs:66-70 | The freshly initialised allocator satisfies the whole-kernel invariant |
| `CowFork.ForkSpaceOk` | os/src/mm/memory_set.rs:348-388 | The copy-on-write fork is the eager fork: the child's view is the parent's, the parent's and everybody else's are unchanged, the invariant holds, and only a lack of frames stops it |
| `CowFork.NewSpaceOk` | os/src/mm/memory_set.rs:155-160 | A new address space takes fresh table frames and shows no pages |
| `CowRefinement.HandleCowFaultOk` | os/src/mm/memory_set.rs:389-425 | `handle_cow_fault` answers yes exactly for a COW entry; with count 1 only that entry changes, in place; with a higher count the page moves to a frame nobody held, which gets its bytes, and the old frame loses one reference; it lacks memory only with a higher count and no free frame |
| `CowRefinement.FaultInvisible` | os/src/mm/memory_set.rs:389-425 | Handling a fault changes nobody's view and no other entry |
| `CowRefinement.EnsurePagesOk` | os/src/mm/memory_set.rs:426-452 | `ensure_private_range` answers yes iff every page of the range is writable to the process, leaves them hardware-writable and private, and changes no view |
| `CowRefinement.WritableIsPrivate` | os/src/mm/memory_set.rs:348-425 | The frame behind a hardware-writable user page is mapped by no other page of any process |
| `CowRefinement.StoreByteOk` | os/src/mm/memory_set.rs:389-425 | A user store changes one byte of one page of one process in the private view |
| `CowRefinement.MapOneOk` | os/src/mm/memory_set.rs:500-519 | `map_one` maps a zeroed frame that nobody held, and changes no other entry |
| `CowRefinement.UnmapOneOk` | os/src/mm/memory_set.rs:520-525 | `unmap_one` drops one tracker and one entry, keeping counts and partition |
| `CowRefinement.SharePageOk` | os/src/mm/memory_set.rs:348-388 | Sharing a user page adds one tracker and one count; parent and child get the same entry, COW and read-only if the page was writable or COW, and nobody else's changes |
| `CowRefinement.CopyPageOk` | os/src/mm/memory_set.rs:348-388 | A kernel-only page is copied: the child gets the parent's bytes in a frame of its own |
| `CowRefinement.InsertFramedOk` | os/src/mm/memory_set.rs:165-175 | `insert_framed_area` on a free range adds zeroed pages to one process and nothing to the others |
| `CowRefinement.RemoveAreaOk` | os/src/mm/memory_set.rs:520-537 | Unmapping an area removes exactly its entries, trackers and frames |
| `CowRefinement.ExitOk` | os/src/mm/memory_set.rs:463-466 | Exit drops all data frames of one process and touches no other view |
| `CowRefinement.ReapOk` | os/src/mm/frame_allocator.rs:40-44 | Dropping the table frames of a dead space keeps counts, partition and every view |
| `PrivateMemory.MmapPicksLowestGap` | os/src/mm/memory_set.rs:53-120 | With start 0 and valid arguments, `mmap` returns the lowest page-aligned address from which every page the bytes asked for touch is in the window and in no area, and none iff there is none |
| `PrivateMemory.MmapHonoursStart` | os/src/mm/memory_set.rs:85-97 | With a start and valid arguments, `mmap` takes that start iff every page the bytes asked for touch is in the window and in no area, and fails otherwise |
| `PrivateMemory.MmapRefuses` | os/src/mm/memory_set.rs:53-79 | A length of 0 or one that overflows when rounded up, and a `prot` that is 0 or above 7, are refused |
| `PrivateMemory.MmapMaps` | os/src/mm/memory_set.rs:53-120 | An answered `mmap` adds exactly the pages that the bytes from the answer on touch, zeroed, readable iff `prot` is 1, 2, 3, 5, 6 or 7, writable iff 2, 3, 6 or 7, executable iff at least 4, and one user area of just these pages; no other page changes |
| `PrivateMemory.MmapUsable` | os/src/mm/memory_set.rs:53-120 | After it every byte asked for loads as 0 or faults, and takes a store or faults, by `prot` |
| `PrivateMemory.MunmapExact` | os/src/mm/memory_set.rs:121-154 | `munmap` says yes iff start and length are page multiples, the length is not 0, the end does not overflow, and some user area covers exactly the range, addresses cut to 39 bits; then exactly the pages of the range go, and that area |
| `MemoryLaws.WholeMappingOnly` | os/src/mm/memory_set.rs:121-154 | With the address of a mapping, `munmap` accepts exactly its page-rounded length, cut to 39 bits, and then everything is as before `mmap` |
| `MemoryLaws.OverlapRefused` | os/src/mm/memory_set.rs:85-97 | While a mapping is there, none can be asked for that shares a byte with it |
| `MemoryLaws.StepTells` | os/src/mm/memory_set.rs:155-175 | Spawn, fork, exit, reap, load, store and `insert_framed_area` in the reference machine: when each is refused or faults, what is there afterwards, and that nothing else changes |
| `MemoryLaws.KernelStore` | os/src/mm/memory_set.rs:389-425 | In the kernel, shared frames and all, a store that is done is read back and no other load of any process answers differently |
| `MemoryLaws.KernelFork` | os/src/mm/memory_set.rs:348-388 | In the kernel, after a fork the child reads what the parent does and nobody else reads anything new |
| `MemoryLaws.KernelMmap` | os/src/mm/memory_set.rs:53-120 | In the kernel, after an answered `mmap` every byte asked for reads as 0, or faults if `prot` does not allow reads |
| `MemoryLaws.KernelMunmap` | os/src/mm/memory_set.rs:121-154 | In the kernel, `munmap` answers yes exactly when some user area covers exactly the range and the arguments are page multiples that do not overflow |
| `PrivateMemory.FirstFitIsLowest` | os/src/mm/memory_set.rs:99-115 | The candidate loop ends at the lowest candidate that fits, or proves that none does |
| `PrivateMemory.ConflictIsSharedPage` | os/src/mm/memory_set.rs:44-52 | `area_conflicts` is true iff some page lies in both the candidate and an area |
| `PrivateMemory.FitsIsFreeGap` | os/src/mm/memory_set.rs:99-115 | A candidate the loop accepts is a gap with no page in common with any area, and conversely |
| `PrivateMemory.PrivateRangeIsExact` | os/src/mm/memory_set.rs:426-452 | Whatever the pages are, the answer is yes iff every address of the range is writable, exactly for the ranges that are empty, end below the top of the 39-bit space, or contain every page number and have every one checked |
| `PrivateMemory.PrivateRangeSound` | os/src/mm/memory_set.rs:426-452 | Whatever the pages are, a yes means every address is writable, exactly for those ranges, the ranges of the upper half and those that pass 64 bits |
| `PrivateMemory.PrivateRangeWraps` | os/src/mm/memory_set.rs:426-452 | A range of the lower half that reaches the top wraps round: here no page is writable and the answer is yes |
| `FrameAllocator.AllocKeeps` | os/src/mm/frame_allocator.rs:98-117 | `alloc` hands out a frame nobody holds, with count 1, and fails only when no frame is left |
| `FrameAllocator.AddRefKeeps` | os/src/mm/frame_allocator.rs:12-18 | Cloning a tracker keeps count = number of trackers |
| `FrameAllocator.DeallocKeeps` | os/src/mm/frame_allocator.rs:150-179 | Dropping a tracker keeps the invariant; the frame is recycled exactly when its last tracker goes |
| `FrameAllocator.Exclusive` | os/src/mm/frame_allocator.rs:79-81 | A frame of count 1 has one holder |
| `FrameAllocator.Conservation` | os/src/mm/frame_allocator.rs:53-87 | Allocated plus free frames are the whole range |
| `FrameAllocator.LastBackFirst` | os/src/mm/frame_allocator.rs:98-117 | A frame given back for good is the next one handed out, and then the allocator is as before |
| `FrameAllocator.StackFrameAllocator.Alloc` | os/src/mm/frame_allocator.rs:98-117 | The object's fields change as the value-level `Alloc` says |
| `FrameAllocator.StackFrameAllocator.AddRef` | os/src/mm/frame_allocator.rs:71-78 | As above for `add_ref`, including its assertion |
| `FrameAllocator.StackFrameAllocator.Dealloc` | os/src/mm/frame_allocator.rs:150-179 | As above for `dealloc`, including its panics |
| `MemorySet.Kernel.Run` | os/src/mm/memory_set.rs:329-452 | The kernel object, run on any operations, does what the value-level run does: it answers like private memory, never panics, and stops iff an operation costs more frames than are free |
| `MemorySet.Kernel.Fork` | os/src/mm/memory_set.rs:348-388 | The nested loops of `from_existed_user_cow` compute the value-level fork |
| `MemorySet.Kernel.ForkPages` | os/src/mm/memory_set.rs:348-388 | The loop over one area's pages |
| `MemorySet.Kernel.HandleCowFault` | os/src/mm/memory_set.rs:389-425 | The method equals the value-level fault handler |
| `MemorySet.Kernel.EnsurePrivateRange` | os/src/mm/memory_set.rs:426-452 | The page loop equals the value-level range check |
| `MemorySet.Kernel.Place` | os/src/mm/memory_set.rs:85-115 | The candidate loop of `mmap` equals the value-level placement |
| `MemorySet.Kernel.AreaConflicts` | os/src/mm/memory_set.rs:44-52 | The scan over areas equals the value-level conflict test |
| `MemorySet.Kernel.Mmap` | os/src/mm/memory_set.rs:53-120 | `mmap` equals the value-level operation |
| `MemorySet.Kernel.Munmap` | os/src/mm/memory_set.rs:121-154 | `munmap`, with its search loop, equals the value-level operation |
| `MemorySet.Kernel.MapPages` | os/src/mm/memory_set.rs:526-530 | The loop of `map` |
| `MemorySet.Kernel.UnmapPages` | os/src/mm/memory_set.rs:531-535 | The loop of `unmap` |
| `MemorySet.Kernel.Exit` | os/src/mm/memory_set.rs:463-466 | The loop of `recycle_data_pages` |
| `MemorySet.Kernel.StoreByte` | os/src/mm/memory_set.rs:389-425 | A user store: fault, resolve, write |
| `RadixTable.MapChangesOne` | os/src/mm/page_table.rs:170-176 | `map` fills the entry of exactly one 27-bit page number even when table pages are created on the way, with the frame number from bit 10 on and the flags and V below; it panics iff that page was mapped, and lacks memory iff the tables to create outnumber the free frames; other frames are untouched |
| `RadixTable.MapCowChangesOne` | os/src/mm/page_table.rs:184-197 | The same for `map_cow`; the entry is valid, COW, read-only and names the frame, bit by bit |
| `RadixTable.MarkCowChangesOne` | os/src/mm/page_table.rs:204-234 | `mark_cow` panics iff the page is unmapped or COW = writable, leaves a COW page alone, and otherwise clears bit 2 and sets bit 8 at one page number |
| `RadixTable.ResolveCowChangesOne` | os/src/mm/page_table.rs:242-260 | `resolve_cow` panics iff the page has no COW mapping; otherwise one entry becomes plain and writable, bit by bit |
| `RadixTable.UnmapChangesOne` | os/src/mm/page_table.rs:263-269 | `unmap` panics iff the page is unmapped; otherwise one entry becomes empty |
| `RadixTable.CreateOk` | os/src/mm/page_table.rs:121-144 | `find_pte_create` reaches the leaf without changing any translation, keeps the tables a tree, and creates exactly the missing pages |
| `RadixTable.UnmapUndoesMap` | os/src/mm/page_table.rs:170-269 | Mapping then unmapping restores every translation |
| `RadixTable.ResolveUndoesMark` | os/src/mm/page_table.rs:204-260 | Marking a writable page COW and resolving it in place gives back its entry |
| `RadixTable.EncodingRoundTrip` | os/src/mm/page_table.rs:43-95 | Frame, flags and COW bit survive the encoding and do not interfere |
| `RadixTable.EntryBits` | os/src/mm/page_table.rs:43-60 | The entry in bits: the frame number from bit 10 on, the flags in bits 0 to 7, the COW mark in bit 8 |
| `RadixTable.AccessorBits` | os/src/mm/page_table.rs:61-95 | The accessors in bits, for any 64-bit entry |
| `RadixTable.IndexesInjective` | os/src/mm/address.rs:158-168 | The three 9-bit indexes determine the page number |
| `RadixTable.Indexes` | os/src/mm/address.rs:158-168 | The shift loop yields the three indexes |
| `RadixTable.FreshTree` | os/src/mm/page_table.rs:104-111 | `PageTable::new` on a cleared frame maps nothing |
| `TableRefinement.RunAlike` | os/src/mm/page_table.rs:97-269 | Over every run of `map`, `map_cow`, `mark_cow`, `resolve_cow` and `unmap` the tree and the flat table of the copy-on-write machine have the same entries and the same table pages, take the same number of frames, and panic or lack memory at the same operation |
| `TableRefinement.StepAlike` | os/src/mm/page_table.rs:170-269 | One such operation |
| `TableRefinement.NewImplements` | os/src/mm/page_table.rs:104-111 | A new page table implements the empty flat table with its root page |
| `TableRefinement.MapPteIsFlat` | os/src/mm/page_table.rs:170-197 | What the copy-on-write machine does when it maps a page is the flat table's `map`: entry, table pages and frames taken |
| `TableRefinement.MarkIsFlat` | os/src/mm/page_table.rs:204-234 | Its `mark_cow` is the flat table's, with the same panics |
| `TableRefinement.ResolveIsFlat` | os/src/mm/page_table.rs:242-260 | Its resolved entry is the flat table's `resolve_cow` |
| `TableRefinement.UnmapIsFlat` | os/src/mm/page_table.rs:263-269 | Its `unmap_one` is the flat table's `unmap` |
| `TableRefinement.PermNumbers` | os/src/mm/page_table.rs:24-36 | The flags 2, 4, 8 and 16 let read, write, execute and the user in, and combine |
| `RadixTable.PageTable.FindPte` | os/src/mm/page_table.rs:146-167 | The walk loop finds the place the tree assigns |
| `RadixTable.PageTable.FindPteCreate` | os/src/mm/page_table.rs:121-144 | The creating walk loop, frame by frame |
| `RadixTable.PageTable.MapPage` | os/src/mm/page_table.rs:170-176 | The method changes the one entry its lemma says, and reports failure exactly where the source panics |
| `RadixTable.PageTable.MapPageCow` | os/src/mm/page_table.rs:184-197 | The method changes the one entry its lemma says, and reports failure exactly where the source panics |
| `RadixTable.PageTable.MarkPageCow` | os/src/mm/page_table.rs:204-234 | The method changes the one entry its lemma says, and reports failure exactly where the source panics |
| `RadixTable.PageTable.ResolvePageCow` | os/src/mm/page_table.rs:242-260 | The method changes the one entry its lemma says, and reports failure exactly where the source panics |
| `RadixTable.PageTable.UnmapPage` | os/src/mm/page_table.rs:263-269 | The method changes the one entry its lemma says, and reports failure exactly where the source panics |
| `IndexTree.FillAndClear` | easy-fs/src/layout.rs:149-295 | Round trip: from an empty inode, after any number of `increase_size` calls with distinct ids, `clear_size` returns exactly the concatenation of the lists supplied, of length `total_blocks(size)` |
| `IndexTree.BlockIdIsIth` | easy-fs/src/layout.rs:125-148 | `get_block_id(i)` is the i-th data block across the direct, single- and double-indirect ranges, and is on the device |
| `IndexTree.TotalIsNextPosition` | easy-fs/src/layout.rs:105-120 | `total_blocks` counts the list up to and including the last data block |
| `IndexTree.DataBlocksLeast` | easy-fs/src/layout.rs:98-103 | `data_blocks` is the least number of blocks that hold the bytes |
| `IndexTree.PosOnto` | easy-fs/src/layout.rs:105-120 | Every position of the list is an index block or a data block |
| `IndexTree.InlineAppended` | easy-fs/src/layout.rs:159-173 | Storing an id in the inode appends it to the list |
| `IndexTree.WordAppended` | easy-fs/src/layout.rs:174-219 | Storing an id in an index block appends it to the list and disturbs no other position |
| `IndexTree.DiskInode.IncreaseSize` | easy-fs/src/layout.rs:149-220 | The supplied ids are appended to the list; only index blocks are written |
| `IndexTree.DiskInode.FillDirect` | easy-fs/src/layout.rs:159-163 | Its first loop |
| `IndexTree.DiskInode.FillIndirect1` | easy-fs/src/layout.rs:174-182 | The loop over the single-indirect block |
| `IndexTree.DiskInode.FillIndirect2` | easy-fs/src/layout.rs:193-219 | The loop over the double-indirect block |
| `IndexTree.DiskInode.ClearSize` | easy-fs/src/layout.rs:225-295 | The whole list is returned in order and forgotten |
| `IndexTree.ListIndirect2` | easy-fs/src/layout.rs:262-292 | The nested loops over full and partial sub-blocks |
| `IndexTree.DiskInode.GetBlockId` | easy-fs/src/layout.rs:125-148 | The lookup on any inode, also past its list; none where an index block on the way is not on the device |
| `BlockDevice.WordAfter` | easy-fs/src/layout.rs:67-68 | Writing one 32-bit word of a block changes that word only |
| `BlockDevice.WordBytes` | easy-fs/src/layout.rs:67-68 | Words of a block are four bytes, lowest first, and writing one changes no other byte |
| `FileBytes.WriteFile` | easy-fs/src/vfs.rs:335-343 | With zeroed new blocks, the file's bytes become the old ones overwritten at the offset and extended with zeros; slack stays zero; only the file's blocks change; it fails iff the file would pass its longest size or an empty write past the last block meets no block of the device |
| `FileBytes.WriteAt` | easy-fs/src/layout.rs:336-372 | The block loop writes the buffer up to the current size and nothing else; it fails iff the offset is past the end or the first block it looks up is not on the device, and then writes nothing |
| `FileBytes.ReadAt` | easy-fs/src/layout.rs:296-334 | The block loop fills the front of the buffer with the slice of the file and leaves the rest of it alone |
| `FileBytes.ReadBlocks` | easy-fs/src/layout.rs:310-333 | The loop of `read_at`: the buffer's front is the stretch of the file, its rest as before |
| `FileBytes.ReadAfterWrite` | easy-fs/src/layout.rs:296-372 | Reading back what was written gives the buffer, disjoint ranges read as before, gaps read as zero |
| `FileBytes.FirstBlockExists` | easy-fs/src/layout.rs:342-357 | The first block `write_at` asks for belongs to the file except for an empty write at a block boundary at or past the end |
| `FileBytes.EmptyWriteLooksUp` | easy-fs/src/layout.rs:125-148 | What an empty write past the last block looks up where no id was stored: with a direct index the super block, on the device; without the single index block the block named by the super block's magic, on the device iff the device is that large |
| `FileBytes.SuperBlockWords` | easy-fs/src/layout.rs:39-56 | The six words of the super block, in order |
| `FileBytes.BytesKept` | easy-fs/src/vfs.rs:79-94 | Growing by zeroed blocks changes no byte of the file |
| `Bitmap.Bitmap.Alloc` | easy-fs/src/bitmap.rs:28-54 | The lowest free bit is taken and no other bit changes; none exactly when all are marked |
| `Bitmap.Bitmap.Dealloc` | easy-fs/src/bitmap.rs:56-64 | The bit is cleared and no other changes; the assertion fails iff it was clear |
| `Bitmap.ClearBitBits` | easy-fs/src/bitmap.rs:60-63 | Subtracting `1 << k` from a word with bit k set borrows from no other bit |
| `Bitmap.SetBitBits` | easy-fs/src/bitmap.rs:43-43 | Or-ing `1 << k` sets bit k and no other |
| `Bitmap.Decomposition` | easy-fs/src/bitmap.rs:14-18 | Block, word and bit recompose to the bit number |
| `BlockCache.Run` | easy-fs/src/block_cache.rs:137-189 | Whatever is loaded, held, evicted or synced, a run shows the plain map of blocks that its writes describe and the handles its operations describe; it stops exactly at the first operation that wants a block while sixteen others are held; after a sync the disk is that map |
| `BlockCache.StuckIff` | easy-fs/src/block_cache.rs:137-167 | A block cannot be loaded iff sixteen others are held |
| `BlockCache.FewHandles` | easy-fs/src/block_cache.rs:137-167 | With fewer than sixteen handles out no operation is stuck |
| `BlockCache.EvictKeeps` | easy-fs/src/block_cache.rs:145-158 | Eviction with write-back leaves the view and keeps one entry per block |
| `BlockCache.LoadKeeps` | easy-fs/src/block_cache.rs:159-165 | Loading a block leaves the view, with at most sixteen entries and none twice |
| `BlockCache.UpdateView` | easy-fs/src/block_cache.rs:105-107 | A modification changes the view at its block only |
| `BlockCache.PutBytes` | easy-fs/src/block_cache.rs:105-107 | A modification changes its bytes of its block and no others |
| `BlockCache.SyncKeeps` | easy-fs/src/block_cache.rs:109-116 | Syncing an entry leaves the view |
| `BlockCache.CleanViewIsDisk` | easy-fs/src/block_cache.rs:184-189 | With all entries clean the view is the disk |
| `BlockCache.BlockCacheManager.GetBlockCache` | easy-fs/src/block_cache.rs:137-167 | Hit, miss or eviction: the view is as before, one more handle on the block and no other; it panics iff the block is not cached and all sixteen entries are held |
| `BlockCache.BlockCacheManager.Modify` | easy-fs/src/block_cache.rs:90-107 | The view changes at the held block only; the bounds assertion fails iff the access leaves the block |
| `BlockCache.BlockCacheManager.Release` | easy-fs/src/block_cache.rs:175-182 | Dropping a handle leaves the view |
| `BlockCache.BlockCacheManager.SyncAll` | easy-fs/src/block_cache.rs:184-189 | The disk becomes the view |
| `Layout.PlanFits` | easy-fs/src/efs.rs:25-44 | The areas follow one another without gap up to the last block, and every data block has a bit |
| `Layout.InodeAreaLeast` | easy-fs/src/efs.rs:26-29 | The inode area is the least number of blocks that holds 132 bytes for each bit of the inode bitmap |
| `Layout.SpareBits` | easy-fs/src/efs.rs:31-37 | The data bitmap has bits for no block exactly when the last group of 4097 is incomplete |
| `Layout.InodeContained` | easy-fs/src/efs.rs:112-120 | An inode lies in the inode area iff its number is below three times the area's blocks |
| `Layout.InodeEscapes` | easy-fs/src/efs.rs:26-29 | The inode bitmap can hand out a number whose inode would lie in the data bitmap |
| `Layout.InodePosRoundTrip` | easy-fs/src/vfs.rs:159-167 | `inode_number` inverts `get_disk_inode_pos`; inodes fit their block and do not overlap |
| `FileSystem.EasyFileSystem.constructor` | easy-fs/src/efs.rs:20-80 | `create`: a file system with a super block, an empty root, all blocks of the data area zero and free, nothing leaked, and room for three inodes in each block of the inode area |
| `FileSystem.EasyFileSystem.AllocData` | easy-fs/src/efs.rs:130-133 | The lowest free block of the area, unmarked and zero until then; fails iff the area has none |
| `FileSystem.EasyFileSystem.AllocMany` | easy-fs/src/vfs.rs:88-92 | The allocation loop succeeds iff the area has enough free blocks |
| `FileSystem.EasyFileSystem.Write` | easy-fs/src/vfs.rs:335-343 | The file's bytes are overwritten and extended, every other file keeps its bytes, no block gets a second owner, the free blocks fall by the blocks needed, nothing leaks that had not; fails iff the file would be too long, the area is too full, or an empty write past the last block meets no block of the device |
| `FileSystem.EasyFileSystem.Clear` | easy-fs/src/vfs.rs:345-356 | The file becomes empty, its blocks are zeroed and freed, every assertion on the way holds, other files keep their bytes, the free blocks rise by all the file's blocks |
| `FileSystem.EasyFileSystem.DeallocData` | easy-fs/src/efs.rs:140-152 | The block is zeroed and its bit, which is set, cleared |
| `FileSystem.EasyFileSystem.CreateInode` | easy-fs/src/vfs.rs:115-125 | The lowest unused inode number gets an empty inode; fails iff every number below the limit is used, which the constructor sets to what the inode area holds |
| `FileSystem.EasyFileSystem.RemoveInode` | easy-fs/src/efs.rs:135-138 | The inode's bit is set when it is cleared, and only that inode disappears |
| `FileSystem.EasyFileSystem.Shrink` | easy-fs/src/vfs.rs:393-394 | Lowering a directory's size keeps all invariants, and leaks a block iff the block count falls |
| `FileSystem.EasyFileSystem.Read` | easy-fs/src/vfs.rs:326-329 | The slice of the file's bytes |
| `FileSystem.GrowKeeps` | easy-fs/src/vfs.rs:79-94 | Growing a file by fresh blocks keeps single ownership, marking, zeroed free blocks and every other file's bytes; something has leaked after it iff before |
| `FileSystem.ClearKeeps` | easy-fs/src/vfs.rs:345-356 | Giving a file's blocks back keeps the same, and neither causes nor cures a leak |
| `FileSystem.ShrinkKeeps` | easy-fs/src/vfs.rs:390-394 | Cutting a list keeps single ownership; nothing has leaked after it iff nothing had and no block is cut |
| `FileSystem.CutLeaks` | easy-fs/src/vfs.rs:393-394 | A block cut off stays marked and belongs to nobody |
| `FileSystem.FreshIsApart` | easy-fs/src/bitmap.rs:28-54 | Unmarked blocks belong to no file |
| `DirTree.RunKeeps` | easy-fs/src/vfs.rs:400-527 | Every run of create, unlink and rename with directory parents keeps the tree well-formed: parent chains end at the root, names are unique in their directory, every inode but the root has exactly one entry, and a directory's is in its parent |
| `DirTree.CreateKeeps` | easy-fs/src/vfs.rs:97-151 | `create_as` keeps the tree well-formed and fails iff the name is reserved or taken |
| `DirTree.UnlinkKeeps` | easy-fs/src/vfs.rs:476-527 | `unlink` keeps it, and fails iff the name is reserved or missing or names a non-empty directory |
| `DirTree.RenameKeeps` | easy-fs/src/vfs.rs:424-457 | `rename` keeps it, with its exact failure cases |
| `DirTree.MoveKeeps` | os/src/fs/inode.rs:243-277 | A move into a directory keeps it |
| `DirTree.MoveRefusal` | os/src/fs/inode.rs:243-268 | A move is refused for a listed reason and no other; for a directory, that the new parent is the source or lies below it |
| `DirTree.AboveIsBelow` | os/src/fs/inode.rs:250-263 | The upward ancestor search finds the source iff following entries down from the source reaches the new parent |
| `DirTree.MoveIntoFileBreaks` | easy-fs/src/vfs.rs:400-420 | `link` does not check its directory: every accepted move under a file breaks the tree |
| `DirTree.MoveSafeIffDirectory` | easy-fs/src/vfs.rs:400-420 | The result of an accepted move is well-formed iff the new parent is a directory |
| `DirTree.MoveUnderFileAccepted` | easy-fs/src/vfs.rs:400-420 | With two files `/a` and `/b`, renaming `/a` to `/b/a` is accepted and breaks the tree |
| `DirTree.OrphanedIsBroken` | easy-fs/src/vfs.rs:459-470 | A well-formed tree that loses one entry is broken |
| `DirTree.DirectoryNamedOnce` | easy-fs/src/vfs.rs:264-290 | In a well-formed tree a directory is named by one entry, in the directory it calls its parent |
| `DirLookups.FindIs` | easy-fs/src/vfs.rs:45-62 | A name leads to an inode iff the directory has that entry; in a file it leads nowhere |
| `DirLookups.CreateLeads` | easy-fs/src/vfs.rs:97-151 | After `create_as` the name leads to the new inode, of the kind asked for and empty, and every other name where it did |
| `DirLookups.UnlinkLeads` | easy-fs/src/vfs.rs:476-527 | After `unlink` the name leads nowhere, the inode is gone, and every other name leads where it did |
| `DirLookups.RenameLeads` | easy-fs/src/vfs.rs:424-457 | After `rename` the new name leads where the old one did, the old one nowhere, and every other name where it did |
| `DirLookups.MoveLeads` | os/src/fs/inode.rs:243-277 | The same for a move between directories; a directory that was moved has the new parent |
| `VolumeLaws.StepTells` | easy-fs/src/vfs.rs:97-527 | Every operation on a volume: which names lead where afterwards, which bytes every file holds, position by position, and exactly when it is refused or does not apply |
| `DirBytes.EntryRoundTrip` | easy-fs/src/layout.rs:383-411 | An entry is read back as written iff its name has at most 27 bytes and no NUL |
| `DirBytes.ReadsBack` | easy-fs/src/layout.rs:383-411 | An entry whose name fits the array is read back with the name cut at its first NUL; its name is terminated iff that leaves less than 28 bytes |
| `DirBytes.EntryBytes` | easy-fs/src/layout.rs:376-399 | The 32 bytes of an entry: name, zeros up to byte 28, inode number with its lowest byte first |
| `DirBytes.Appended` | easy-fs/src/vfs.rs:126-139 | Writing an entry at the end of the bytes appends it to the list, with its name cut at the first NUL; the directory stays readable iff that leaves less than 28 bytes, and what was found before still is |
| `DirBytes.Removed` | easy-fs/src/vfs.rs:380-395 | Shifting, clearing the last entry and cutting it off removes one entry and keeps the order; the directory is readable after it iff it was before |
| `Vfs.Run` | easy-fs/src/vfs.rs:97-527 | Main theorem of the file system part. On blocks, bitmaps and directory bytes: every run of create, unlink, rename, write and truncate does what the same run does to the volume, so the tree, every file's bytes, the free blocks, whether a block has leaked and all answers are the volume's; it stops early exactly at the first operation for which the volume's space does not suffice; single ownership, marking, zeroed free blocks and a well-formed tree hold throughout |
| `Vfs.Step` | easy-fs/src/vfs.rs:97-527 | One operation of such a run: the volume's new state and answer, out of memory iff the volume has no room |
| `Vfs.Format` | easy-fs/src/efs.rs:20-80 | A new file system is sound and stands for the volume with an empty root, all its data blocks free, three inode numbers for each block of the inode area, and no leak |
| `Vfs.CreateAs` | easy-fs/src/vfs.rs:97-151 | For any name, the volume's result: the lowest unused number is taken and the entry appended, refused iff the name is reserved or taken, out of memory iff no number or no room for the entry is left; panics iff the parent is a file or the name to be stored has more than 28 bytes; the directory can be read afterwards iff the stored name ends before the 28th byte |
| `Vfs.Unlink` | easy-fs/src/vfs.rs:476-527 | The volume's result: the entry and the inode go, a file's blocks come back, every `dealloc` assertion holds, refused exactly when the tree operation is; a leak iff there was one or the directory gave up its last block |
| `Vfs.Rename` | easy-fs/src/vfs.rs:424-457 | For any names, the volume's result, refused exactly when the tree operation is, out of memory iff there is no room for one more entry, panicking iff a name of more than 28 bytes is to be stored; a rename in a directory whose size is a multiple of 512 leaks a block, and only then |
| `Vfs.RenameAt` | os/src/fs/inode.rs:238-277 | For any names and both kinds of new parent: the volume's result, its exact refusals, out of memory iff the new parent has no room, a panic iff a name of more than 28 bytes is to be stored, a leak iff there was one or the old directory gives up its last block |
| `Vfs.MoveUnderFile` | easy-fs/src/vfs.rs:400-420 | A file moved under a file: the entry is written over the last incomplete 32 bytes of the new parent, or behind them, and the old entry goes |
| `Volume.MoveUnderFileBreaks` | easy-fs/src/vfs.rs:400-420 | Every such move that is not refused breaks the tree |
| `Vfs.FindsAbove` | os/src/fs/inode.rs:250-263 | The ancestor loop ends and answers whether the source is at or above the new parent |
| `Vfs.RemoveDirent` | easy-fs/src/vfs.rs:362-396 | The search and shift loops remove the first entry of that name, even if a later name cannot be read; a leak iff there was one or the block count falls |
| `Vfs.ShiftForward` | easy-fs/src/vfs.rs:381-389 | The shift loop moves the later entries one place forward |
| `Vfs.FindInodeId` | easy-fs/src/vfs.rs:45-62 | The first entry of that name, none for a file |
| `Vfs.AddDirent` | easy-fs/src/vfs.rs:126-139 | For any name: one entry appended and its blocks taken, all else unchanged; out of memory iff the directory would be too long or the area is too full, else a panic iff the name has more than 28 bytes |
| `Vfs.PutBytes` | easy-fs/src/vfs.rs:335-343 | A write to a regular file is the volume's write, failing exactly when it has no room |
| `Vfs.ClearBytes` | easy-fs/src/vfs.rs:345-356 | Truncating a regular file empties it and gives all its blocks back |
| `Volume.RunKeeps` | easy-fs/src/vfs.rs:97-527 | Over every run on a volume the tree stays well-formed, and a leak, once there, stays |
| `Volume.StepKeeps` | easy-fs/src/vfs.rs:97-527 | Every operation, with the lowest unused number and the depth the ancestor search needs, keeps the tree well-formed |
| `Volume.LeaksStay` | easy-fs/src/vfs.rs:97-527 | No operation cures a leak, and creating, writing and truncating cause none |
| `Volume.LowestIs` | easy-fs/src/bitmap.rs:28-54 | The number taken is unused and all below it are used |
| `Paths.NormalizePreserves` | os/src/fs/inode.rs:96-121 | An absolute path that resolves from the root of a well-formed tree resolves to the same inode when normalised |
| `Paths.NormalizeExact` | os/src/fs/inode.rs:96-121 | Normalising an absolute path keeps its answer, resolving or not, iff the normal form does not resolve, or the walk stands at a directory before each `.`, each `..` and a trailing slash |
| `Paths.NormalizePlain` | os/src/fs/inode.rs:96-121 | An absolute path without `.`, `..` and trailing slash gets the same answer in every tree |
| `Paths.NormalizeRepairs` | os/src/fs/inode.rs:96-121 | In an empty root `/a/..` does not resolve and its normal form does |
| `Paths.LookupExact` | easy-fs/src/vfs.rs:173-226 | Looking up any path, absolute or not, from any directory is walking all its pieces from there and then testing a trailing slash |
| `Paths.NormalizeIdempotent` | os/src/fs/inode.rs:96-121 | Normalising twice is normalising once, for every path |
| `Paths.NormalizedIsClean` | os/src/fs/inode.rs:94-96 | No `.`, no `..` and no empty component besides the leading slash |
| `Paths.Normalize` | os/src/fs/inode.rs:96-121 | The stack loop and the joining loop |
| `Paths.LookupPath` | easy-fs/src/vfs.rs:173-226 | The walk with its directory checks, `..` and trailing slash |
| `Paths.LookupIsWalk` | easy-fs/src/vfs.rs:203-223 | From the root, looking up is walking the non-empty components |
| `Paths.SplitJoin` | os/src/fs/inode.rs:98-113 | Splitting at slashes undoes joining with them |
| `Paths.JoinSplit` | os/src/fs/inode.rs:98-113 | Joining undoes splitting |
| `PathLaws.EveryInodeHasPath` | easy-fs/src/vfs.rs:173-262 | In a well-formed tree whose names have no slash every inode has an absolute path that leads to it and that normalising leaves alone |
| `PathLaws.ComponentIs` | easy-fs/src/vfs.rs:230-262 | One piece of a path: a dot stays, two dots go to the parent, a name to what it leads to |
| `PathLaws.DotDotIsUp` | easy-fs/src/vfs.rs:230-262 | Two dots lead from a directory to the one whose entry names it |
| `Paths.PushWalks` | easy-fs/src/vfs.rs:230-262 | One component: `..` leads from a directory to where the shortened stack leads |
| `Scheduler.NoOvertaking` | os/src/task/scheduler/priority.rs:21-69 | If A is made ready before B with no lower base, and while A waits A's base (and B's once queued) is not changed, B is handed out only after A, whatever other tasks, refreshes, priority changes and clock readings there are |
| `Scheduler.BoundedStarvation` | os/src/task/scheduler/priority.rs:61-69 | A task that has waited 140 ticks with k tasks before it on the top level is handed out within k + 1 fetches of any run |
| `SchedulerLaws.HigherFirst` | os/src/task/scheduler/priority.rs:61-69 | A later task with a higher base is handed out before an earlier one that has waited less than 20 ticks for each level of difference, over every run |
| `SchedulerLaws.FetchTakesHighest` | os/src/task/scheduler/priority.rs:61-69 | A fetch hands out a queued task, and no queued task has come to a level that this one has not, in ticks waited |
| `SchedulerLaws.FetchNone` | os/src/task/scheduler/priority.rs:61-69 | A fetch hands out none iff no task is queued |
| `SchedulerLaws.StandsOn` | os/src/task/scheduler/priority.rs:21-37 | After a refresh a task stands on level l below 7 iff it is queued and has waited from 20 (l - base) up to less than 20 (l - base + 1) ticks, and on level 7 iff at least 20 (7 - base) |
| `SchedulerLaws.EarnedInNumbers` | os/src/task/task.rs:65-77 | The level earned, in ticks waited |
| `SchedulerLaws.TaskLaws` | os/src/task/task.rs:38-100 | What each call does to a task's base, to whether it is queued and to the time it is ready since |
| `SchedulerLaws.SevenTicksAreTooFew` | os/src/task/task.rs:65-77 | A task of priority 6 made ready at tick 7 is fetched before one of priority 0 made ready at tick 0 |
| `Scheduler.OldSitsOnTop` | os/src/task/task.rs:65-77 | 140 ticks after becoming ready a task is on the top level at any dequeue, whatever its priority was set to |
| `Scheduler.FirstLateFetch` | os/src/task/scheduler/priority.rs:61-69 | The first such dequeue hands it out or leaves it within the bound's reach |
| `Scheduler.WaitsStep` | os/src/task/scheduler/priority.rs:21-69 | Each fetch hands it out or brings it strictly closer; nothing moves it back |
| `Scheduler.PairStep` | os/src/task/scheduler/priority.rs:21-69 | One step never lets B past A |
| `Scheduler.RefreshAhead` | os/src/task/scheduler/priority.rs:21-37 | A refresh keeps a waiting task ahead of one that has earned no more |
| `Scheduler.RefreshKeeps` | os/src/task/scheduler/priority.rs:21-37 | A refresh loses and duplicates nobody |
| `Scheduler.RefreshLevels` | os/src/task/scheduler/priority.rs:21-37 | After a refresh a task is at the level it has earned, which `SchedulerLaws.StandsOn` gives in ticks |
| `Scheduler.VisitLevel` | os/src/task/scheduler/priority.rs:24-36 | Visiting one level, including tasks just demoted into it, gives the closed form |
| `Scheduler.ExaminedAt` | os/src/task/scheduler/priority.rs:22-36 | The levels where a refresh examines a task are the one where it stands and, iff lower, the one it has earned |
| `Scheduler.ExaminedOnce` | os/src/task/scheduler/priority.rs:22-36 | A task is examined once iff it has earned no less than the level where it stands |
| `Scheduler.DemotedIsExaminedTwice` | os/src/task/scheduler/priority.rs:22-36 | A task made ready at the top level and then set to base 0 is examined twice by the next refresh |
| `Scheduler.StepOk` | os/src/task/manager.rs:19-38 | Every step keeps: one place per queued task, counter = queued tasks, base priority for tasks that are not queued |
| `Scheduler.RunAccounts` | os/src/task/task.rs:49-58 | Over every run `runtime_ticks` counts timer ticks, `scheduled_count` counts hand-outs and `total_wait_ticks` sums the waits, saturating |
| `Scheduler.PriorityScheduler.RefreshAging` | os/src/task/scheduler/priority.rs:21-37 | The nested rotation loops compute the closed form, stayers first and then arrivals by the level they left, even where a demoted task is examined twice |
| `Scheduler.PriorityScheduler.RefreshLevel` | os/src/task/scheduler/priority.rs:25-35 | The inner loop for one level |
| `Scheduler.PriorityScheduler.HighestReady` | os/src/task/scheduler/priority.rs:39-43 | The highest non-empty level |
| `Scheduler.PriorityScheduler.AddTask` | os/src/task/manager.rs:19-28 | Enqueue at the effective level; nothing if already queued |
| `Scheduler.PriorityScheduler.FetchTask` | os/src/task/manager.rs:29-35 | Refresh, pop the highest level's front, account; the counter never disagrees with the queues; `SchedulerLaws.FetchTakesHighest` says which task that is |
| `Scheduler.PriorityScheduler.ShouldPreempt` | os/src/task/scheduler/priority.rs:71-82 | True iff tasks are ready and the slice of two ticks is used up or a higher level has a task |
| `Eisenberg.Safety` | user/src/bin/eisenberg.rs:40-104 | For any number of threads and any schedule of single loads and stores, no two threads are past the conflict scan, no GUARD assertion fails, and the holder owns TURN until it gives it away |
| `Eisenberg.CanEnter` | user/src/bin/eisenberg.rs:40-104 | From every reachable state with a thread that wants in, some schedule brings a thread into the section |
| `EisenbergBypass.BoundedBypass` | user/src/bin/eisenberg.rs:40-104 | In every run of n threads, from every reachable state, a thread that waits is overtaken at most 2 to the power n - 1 times for each time a leaving thread passes it over, and as often once more |
| `EisenbergBypass.SkipsAreEntries` | user/src/bin/eisenberg.rs:84-103 | A waiting thread is passed over at most once more often than it is overtaken |
| `EisenbergBypass.OvertakenForEver` | user/src/bin/eisenberg.rs:84-103 | For every k there is a run of two threads in which one waits all the time and is overtaken k times |
| `EisenbergBypass.StepDebt` | user/src/bin/eisenberg.rs:40-104 | Every step that takes TURN is paid for: the threads that may still come before the waiting one, weighed by their place on the ring, grow only when it is passed over |
| `Eisenberg.TurnWrittenByHolder` | user/src/bin/eisenberg.rs:84-103 | A step that changes TURN is taken by the one thread in the section, its flag `In` |
| `Eisenberg.StepOneWay` | user/src/bin/eisenberg.rs:67-80 | Two threads never have both checked each other |
| `Eisenberg.StepGuard` | user/src/bin/eisenberg.rs:28-38 | GUARD is 1 while a thread is inside and 0 otherwise, so the three assertions hold |
| `BlockingSync.Safety` | os/src/sync/mutex.rs:67-88 | Any number of threads, mutexes and condvars, only holders unlocking: `locked` iff exactly one owner (hand-off included), and it is the last one granted; each blocked thread in exactly one queue once; grants in request order; a thread inside `wait_with_mutex` waits for, or is about to lock, the mutex it gave |
| `BlockingSync.StepInv` | os/src/sync/condvar.rs:27-57 | Every lock, unlock, wait, signal and re-lock keeps that |
| `BlockingSync.HandOffOwned` | os/src/sync/mutex.rs:79-87 | `unlock` passes ownership to the first waiter or frees the mutex |
| `BlockingSync.WaitReturnsOwning` | os/src/sync/condvar.rs:50-57 | One step: a thread inside `wait_with_mutex` stays inside with its mutex, or comes out owning that mutex, alone |
| `BlockingSync.WaitCall` | os/src/sync/condvar.rs:50-57 | A call of `wait_with_mutex` gives up the mutex; over any run after it the thread stays inside up to some operation, and that one brings it out owning, alone, the mutex it gave |
| `BlockingSync.WaitRun` | os/src/sync/condvar.rs:50-57 | The same from any state inside the call |
| `BlockingSync.UnlockAsserts` | os/src/sync/mutex.rs:81-81 | `unlock`'s assertion never fails |
| `SyncLaws.SignalWakes` | os/src/sync/condvar.rs:27-32 | `signal` with a waiter: the first is no longer blocked, the others wait on in order, nothing else changes; without one nothing happens |
| `SyncLaws.NoLostWakeups` | os/src/sync/condvar.rs:27-57 | Over every run, those who waited before it or began to wait in it are those first in the queue at each signal, in order, and then those still in the queue |
| `SyncLaws.WaitParks` | os/src/sync/condvar.rs:50-57 | `wait_with_mutex` puts the caller at the end of the queue, blocked and without the mutex |
| `SyncLaws.LockTakes` | os/src/sync/mutex.rs:67-77 | `lock`, and the one at the end of a wait: a free mutex is the caller's at once, alone; otherwise the caller is last in the queue and blocked |
| `SyncLaws.UnlockPasses` | os/src/sync/mutex.rs:79-87 | `unlock`: the first waiter runs on and owns the mutex, alone, the others wait on; without one it is free |
| `SyncLaws.SignalledReturns` | os/src/sync/condvar.rs:27-57 | A thread that locks, waits and is signalled comes back owning the mutex |
| `BoundedBuffer.Safety` | user/src/bin/mpsc_sem.rs:25-53 | Any number of producers and consumers, any schedule of single steps: what consumers see is a prefix of what producers put in, in order; occupancy is at most 8; no slot about to be written holds an unread item; queue lengths match counts |
| `BoundedBuffer.NoDeadlock` | user/src/bin/mpsc_sem.rs:25-53 | After any schedule, with a producer and a consumer among the threads, some thread is not blocked |
| `BufferProgress.Progress` | user/src/bin/mpsc_sem.rs:25-53 | With n threads, from every reachable state, any 65 + 8n steps of threads that are not blocked take an item out, and some thread is not blocked |
| `BufferProgress.StepItems` | user/src/bin/mpsc_sem.rs:25-53 | Advancing the tail puts in the producer's own number, reading takes out the oldest item not yet read, and no other step does either |
| `BoundedBuffer.SomeoneRuns` | user/src/bin/mpsc_sem.rs:25-53 | The same in every state that meets the invariant |
| `BoundedBuffer.StepInv` | user/src/bin/mpsc_sem.rs:25-53 | Every step keeps the permits, the ring and the queues |
| `BoundedBuffer.SemaphoreBalance` | os/src/sync/semaphore.rs:26-44 | The wait queue's length is max(0, -count) after every `up` and `down` |
| `BoundedBuffer.SlotFree` | user/src/bin/mpsc_sem.rs:28-32 | A producer in the critical section has room |
| `BoundedBuffer.MutexExclusive` | user/src/bin/mpsc_sem.rs:28-49 | At most one thread is between `down` and `up` of the mutex |
| `Pipe.StreamIntegrity` | os/src/fs/pipe.rs:115-172 | Every interleaving of chunked reads and writes: bytes read, then bytes buffered, are the bytes written; at most 32 are buffered; each read, in progress or finished, has got exactly the bytes it took from the stream, in order; each write has put in exactly the part of its data that is not left, and a finished one all of it; a read came back short only to a drained pipe whose write ends are all closed |
| `PipeLaws.Transfer` | os/src/fs/pipe.rs:115-172 | A reader that wants what is in the ring and what a writer still has, and that writer, taking turns, both come to their end with every byte in order, however many there are |
| `PipeLaws.ReadTells` | os/src/fs/pipe.rs:121-144 | One stretch of a read in bytes, with exactly when it returns |
| `PipeLaws.WriteTells` | os/src/fs/pipe.rs:152-171 | One stretch of a write in bytes, with exactly when it returns |
| `PipeLaws.StartTells` | os/src/fs/pipe.rs:115-172 | How calls begin, and what closing the last write end does |
| `Pipe.StepInv` | os/src/fs/pipe.rs:115-172 | One kernel stretch keeps that |
| `Pipe.ReadOnce` | os/src/fs/pipe.rs:121-144 | A stretch moves the front of the ring to the caller; it returns short only when closed and empty, and suspends only when open and empty |
| `Pipe.WriteOnce` | os/src/fs/pipe.rs:152-171 | A stretch fills the ring in order and suspends only when it is full |
| `Pipe.PipeRingBuffer.Read` | os/src/fs/pipe.rs:115-145 | The read loops do one such stretch |
| `Pipe.PipeRingBuffer.Write` | os/src/fs/pipe.rs:146-172 | The write loops do one such stretch |
| `Pipe.PipeRingBuffer.WriteByte` | os/src/fs/pipe.rs:61-68 | Appends a byte to a ring that is not full |
| `Pipe.PipeRingBuffer.ReadByte` | os/src/fs/pipe.rs:69-77 | Takes the oldest byte |
| `Pipe.PipeRingBuffer.AvailableRead` | os/src/fs/pipe.rs:78-86 | The number of buffered bytes |
| `Pipe.PipeRingBuffer.AvailableWrite` | os/src/fs/pipe.rs:87-93 | Adds up with it to 32 |

## Left out

- ELF loading, argument stacks, signals, job control, threads of one process, sibling threads after exit: they depend on foreign crates or assembly, or add no property to the ones above.
- Device drivers, interrupts, the network stack, the shell, the GUI and other user programs.
- `sfence.vma` and TLB effects, `UPIntrFreeCell`: kernel steps are atomic.
- The trampoline page is present only as the table frames its mapping needs; all areas are `Framed`, as the assertion at os/src/mm/memory_set.rs:361 demands of user areas.
- `alloc_more` and DMA frames: they are held outside trackers.
- Dead address spaces: after exit a space is a list of table frames to reap; its stale entries are never read.
- TableRefinement.RunAlike: table pages come from a list of distinct frames, where the machine takes them from its allocator one by one; their number is the same.
- RadixTable.PageTable.constructor: takes the frames that `frame_alloc` will return as a parameter, because the allocator is modelled in `FrameAllocator`.
- RadixTable.MapChangesOne: an unmapped page reads as the empty entry whether or not its leaf table exists, which `translate` tells apart.
- Block contents are bytes for the index tree, files and directories; bitmap blocks are their 64 words, and an inode is its record rather than its 132 bytes.
- FileBytes.WriteFile: reports failure where the source panics, so past the 16540 blocks an inode can index; the truncation of a size to 32 bits lies beyond that.
- The file system is not run over the block cache: its modules read and write the map of blocks that the cache is proved to show, so that they never hold sixteen handles at once is not proved.
- BlockCache.Run: one device; operations name blocks of it and stay inside a block.
- Vfs.Unlink: handles are freshly resolved inode numbers; stale handles and truncating a directory are not modelled.
- Vfs.RenameAt: starts after both parents are resolved, and leaves out a directory to be put under a file: there the ancestor search begins at the file's parent field, which `rename_at` does not keep up to date and which may name a freed inode.
- Vfs.Step: writes are of non-empty slices, as `translated_byte_buffer` yields no other; an operation with a dead inode, the wrong kind of inode or a name that does not fit is skipped, since a run goes on only from a well-formed tree; what such names and parents do is said by `Vfs.CreateAs` and `Vfs.RenameAt`.
- `split_path`, `ls`, `open_file_at` and the system-call layer: they only combine what is modelled.
- Round-robin scheduling, and which task the processor switches to between scheduler calls.
- Scheduler.NoOvertaking: the clock is the one reading per operation that the manager takes, and never goes back.
- Fair schedules: that a given thread of the bounded buffer is served in the end; memory orders weaker than one interleaving of the loads and stores.
- BlockingSync.Safety: only holders unlock, and nothing wakes a thread between its joining a queue and blocking; the spinning mutex is not modelled.
- BoundedBuffer.Safety: threads loop for ever instead of a fixed number of times; `isize` overflow of a count is not modelled.
