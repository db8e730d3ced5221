# A verified model of a RISC-V kernel's memory, storage and process core

This project models, in Dafny, the parts of a small RISC-V kernel that carry the most state: the two buddy
allocators it links (a frame allocator and a heap whose free lists live inside the free memory), the FAT file
system library it mounts its disk with, the block cache below that, Sv39 page tables and user address spaces,
pipes, the initial user stack, and the process tree with its scheduler queues. Code that updates objects in place
is modelled as classes with loops; each such method is proved against a specification function or a stated
property, and what the code is for is proved about that specification.

`dafny verify dfyconfig.toml` verifies the project.

## What is proved

- **Buddy allocators.** Over every run, free and handed-out blocks tile the managed units and the counters account for
  all of them; allocation fails exactly when no aligned free run of the size exists; freeing at once undoes an
  allocation, list order included. Any run of heap calls, with stores and loads by the holders of blocks, has the
  outcomes of a model in which every block handed out is a memory of its own. Two promises are false of the code and
  come with their exact condition. From one added range, no frame is lost over any run if and only if the range holds no
  whole aligned window of 2^order frames; a single free loses frames exactly when all buddies on the way up are free,
  and the heap then panics. Requests are served as said if and only if moreover the range does not run from frame 0 to
  frame 64 or beyond, because the constant 32 for frame 0 carves it into unmerged buddies. The kernel itself adds its
  frames from frame 0 (`kernel/crates/memory/src/frame_allocator.rs:131-137`).
- **FAT volumes.** Setting a 12-, 16- or 32-bit entry changes that entry only, in every mirror; chains of files stay
  chains and stay disjoint under allocation, truncation and freeing; the cached free count stays the true one. Any
  sequence of reads, writes, seeks and truncations through a handle has the outcomes of the same sequence on a byte
  sequence with a cursor, and changes no other file; a write fails exactly at the end of the last cluster of a full
  volume, and writing a whole buffer stops exactly at the largest size the clusters allow; what was written is read back
  after any reads and seeks. Freeing a cyclic or broken chain ends, and counts right exactly when the links lead,
  without repeating a cluster, to an end mark or a bad cluster.
- **Names.** A long name stored as directory entries is read back, exactly unless its last unit looks like padding; from
  any entries, a short name gets a long one exactly if those just before it are a whole name with its checksum. A
  generated short name is none of those in the directory, and the search for one ends unless every one of 65536
  checksums is used up, which for every name some directory does.
- **Formatting.** The chosen table size fits, covers every cluster and wastes little more than one sector; when a
  geometry is accepted is stated exactly.
- **Block cache.** Loading, eviction and write-back do not show: any sequence of driver calls is that sequence on one
  flat byte array. Its copy loops end exactly for buffers below 2^32 bytes.
- **Page tables and address spaces.** The radix tree in memory is a flat map of 27-bit page numbers, for every run of
  map and unmap; address spaces keep areas, translations and frame ownership consistent, and any run of inserting,
  removing and resizing areas is the same run on the user's view of ranges, permissions and contents, and leaves
  separate spaces alone; fork copies every area and page into frames of its own. Frames only move between free and
  owned, and every operation, every run and fork fail exactly when fewer frames are free than the pages and the page
  tables still missing for them need.
- **Pipes.** For any number of readers and writers and every interleaving, delivered bytes followed by the ring are the
  accepted bytes in order. When a call has returned is stated exactly: a write only after a turn that leaves room in the
  ring, so one whose last byte fills it waits for a reader, and a read likewise for a writer or the end of the stream.
  Every turn of a writer followed by one of a reader brings 32 bytes across, or all there are.
- **User stack.** The arguments the kernel lays out through its own addresses are those user code reads, exactly when
  none holds a NUL. The auxiliary vector's pair for the random bytes is pushed the wrong way round; when that matters
  is stated exactly.
- **Processes.** In every state reached from boot, each process but init is the child of exactly one living process,
  pids in use are distinct, and every live thread is in exactly one of current, ready queue and timers. A process that
  forks and later waits for the child gets that child's pid and exit code, whatever happened in between; threads run in
  the order in which they became ready, and sleepers not before their time.

## Files

`Bits`, `Sequences`, `Options` and `Disk` hold arithmetic on powers of two, sequences without repetition, options and
flat byte storage. `Buddy` and `Carving` hold the theory both allocators share; `FrameAllocator`, `LinkedList` and
`Heap` the allocators. `FatTable`, `Chains`, `FatFs`, `FatFile`, `LongName`, `ShortName` and `Format` model the file
system library; `BlockCache` the cache and disk driver; `PageTable` and `MemorySet` address spaces; `Pipe`, `ArgvStack`
and `Process` the rest of the kernel.

Where code and comments disagree the model follows the code: `kernel/crates/major/src/task/loader/stack.rs:99` says
that types lie below values, which line 97 does not do; the pipe's write returns only once the ring has room again.

## Model

| member | source | states |
|---|---|---|
| `Buddy.BuddyOf` | deps/buddy_system_allocator/src/frame.rs:154 | xor with the block size is the other half of the enclosing block, never the block itself |
| `Buddy.BuddyHalves` | deps/buddy_system_allocator/src/frame.rs:154-158 | two buddies of class k are exactly the halves of the aligned block of class k+1 at the lower one |
| `Buddy.Nested` | deps/buddy_system_allocator/src/frame.rs:96-97 | aligned blocks that share a unit are nested, whatever their classes |
| `Buddy.HalveTiles` | deps/buddy_system_allocator/src/frame.rs:104-109 | splitting a block keeps the tiling: aligned, disjoint, same units covered |
| `Buddy.JoinTiles` | deps/buddy_system_allocator/src/frame.rs:153-158 | merging two buddies keeps the tiling |
| `Buddy.WeightHalve` | deps/buddy_system_allocator/src/frame.rs:104-109 | splitting keeps the number of units held |
| `Buddy.WeightJoin` | deps/buddy_system_allocator/src/frame.rs:153-158 | merging keeps the number of units held |
| `Buddy.OneBlockAt` | deps/buddy_system_allocator/src/frame.rs:98-127 | at most one block, free or handed out, starts at a unit |
| `Buddy.FirstNonEmpty` | deps/buddy_system_allocator/src/frame.rs:100-102 | the search for a class stops at the smallest nonempty one that is large enough |
| `Buddy.SplitDownHas` | deps/buddy_system_allocator/src/frame.rs:104-114 | what a cascade of splits leaves, class by class: the block at the wanted class and one upper half in every class passed |
| `Buddy.AllocSplit` | deps/buddy_system_allocator/src/frame.rs:98-127 | an allocation moves units from free to outstanding: together they still tile the managed units, and the two weights change by the block size |
| `Buddy.AllocNoBuddies` | deps/buddy_system_allocator/src/frame.rs:98-127 | allocating from the smallest nonempty class leaves no new pair of free buddies below any class |
| `Buddy.RunInBlock` | deps/buddy_system_allocator/src/frame.rs:98-127 | without free buddies of smaller classes, every aligned run of free units lies inside one free block |
| `Buddy.AllocFailsIff` | deps/buddy_system_allocator/src/frame.rs:98-127 | without free buddies, a request fails if and only if no aligned run of its size is wholly free |
| `Buddy.CoalesceSplit` | deps/buddy_system_allocator/src/frame.rs:150-163 | merging upwards keeps tiling and weight |
| `Buddy.ClimbEnds` | deps/buddy_system_allocator/src/frame.rs:150-163 | merging stops at a free block around the freed one whose buddy is not free, unless it is at the top class |
| `Buddy.CoalesceNoBuddies` | deps/buddy_system_allocator/src/frame.rs:150-163 | merging one freed block restores the absence of free buddies below the top class, and in it too unless the top class would have to merge |
| `Buddy.TopMergeIff` | deps/buddy_system_allocator/src/frame.rs:150-163 | without free buddies below the top class, merging runs off the top class if and only if the aligned window of 2^order units around the block is all free |
| `Buddy.TopMerges` | deps/buddy_system_allocator/src/frame.rs:150-163 | in every state, merging runs off the top class if and only if in every class from that of the block up the buddy of the block around it is free |
| `Buddy.WindowFreed` | deps/buddy_system_allocator/src/frame.rs:150-163 | without free buddies below the top class, giving back an outstanding block finds all those buddies free if and only if the rest of its 2^order window is managed and free |
| `Buddy.NoWindowKept` | deps/buddy_system_allocator/src/frame.rs:150-163 | giving back a block never finds them all free when no such window is managed as a whole |
| `Buddy.NoTopMerge` | deps/buddy_system_allocator/src/frame.rs:150-163 | it never does when no such window is managed as a whole |
| `Buddy.CoalesceSplitDown` | deps/buddy_system_allocator/src/frame.rs:98-163 | merging undoes a cascade of splits exactly |
| `Carving.CarveSize` | deps/buddy_system_allocator/src/frame.rs:59-70 | the bit arithmetic of the carving loop computes the class of the carved block (lowest set bit, power of two that fits, top class; 32 frames at frame 0) |
| `Carving.CarveFits` | deps/buddy_system_allocator/src/frame.rs:58-72 | a carved block is aligned and inside the range |
| `Carving.CarveSplit` | deps/buddy_system_allocator/src/frame.rs:52-75 | adding a range extends the tiling by exactly its frames and the free weight by their number |
| `Carving.TakeSplit` | deps/buddy_system_allocator/src/frame.rs:155 | taking out a free block leaves a tiling of the other units |
| `Carving.CarveHas` | deps/buddy_system_allocator/src/frame.rs:58-72 | every carved block has the class the rule gives for its start |
| `Carving.CarveNoBuddiesIff` | deps/buddy_system_allocator/src/frame.rs:52-75 | a fresh allocator has no free buddies if and only if the range holds no whole top window and does not run from frame 0 to frame 64 or beyond |
| `Carving.LowBuddiesIff` | deps/buddy_system_allocator/src/frame.rs:52-75 | a fresh allocator has no free buddies below the top class if and only if its range does not run from frame 0 to frame 64 or beyond, or there are at most 6 classes |
| `Carving.ZeroBuddies` | deps/buddy_system_allocator/src/frame.rs:59-63 | the constant 32 for frame 0 leaves blocks 0 and 32 as unmerged buddies whenever 64 frames are added from 0 |
| `Carving.ZeroBlocks` | deps/buddy_system_allocator/src/frame.rs:59-63 | with 64 frames or more added from frame 0 and more than 6 classes, blocks 0 and 32 are free as separate blocks of 32 |
| `Carving.RangeNoTopWindow` | deps/buddy_system_allocator/src/frame.rs:64-67 | a range without a whole top window manages none |
| `Carving.TopWindowBuddies` | deps/buddy_system_allocator/src/frame.rs:64-67 | a whole top window is carved into unmerged buddies of the top class |
| `Carving.TopPair` | deps/buddy_system_allocator/src/frame.rs:64-67 | the two halves of a whole top window are carved as separate blocks of the top class |
| `FrameAllocators.Least` | deps/buddy_system_allocator/src/frame.rs:105-115 | the first element of the ordered set is its minimum |
| `FrameAllocators.ReturnCoalesces` | deps/buddy_system_allocator/src/frame.rs:147-163 | the deallocation loop is full merging, except that a merge out of the top class drops both blocks |
| `FrameAllocators.ReturnWeight` | deps/buddy_system_allocator/src/frame.rs:147-163 | the deallocation loop loses exactly 2^order frames if all buddies on the way up are free, and none otherwise |
| `FrameAllocators.InitInv` | deps/buddy_system_allocator/src/frame.rs:43-49 | an empty allocator satisfies the invariant |
| `FrameAllocators.AddInv` | deps/buddy_system_allocator/src/frame.rs:52-75 | adding unmanaged frames keeps tiling and frame counts |
| `FrameAllocators.AllocInv` | deps/buddy_system_allocator/src/frame.rs:98-127 | an allocation returns an aligned block of frames that were all free, keeps the invariant and full merging, and changes nothing when it fails |
| `FrameAllocators.AllocMeans` | deps/buddy_system_allocator/src/frame.rs:98-127 | a request gets the lowest block of the smallest class, from its own up, that has any; it fails if and only if there is none; the allocated count grows by the block size |
| `FrameAllocators.FreeInv` | deps/buddy_system_allocator/src/frame.rs:147-166 | freeing an outstanding block keeps tiling and counts if and only if not all buddies on the way up are free, and then also full merging |
| `FrameAllocators.FreeLosesIff` | deps/buddy_system_allocator/src/frame.rs:147-166 | in every state, freeing loses frames, and then exactly 2^order, if and only if in every class from that of the block up the buddy of the block around it is free |
| `FrameAllocators.FreeConservesIff` | deps/buddy_system_allocator/src/frame.rs:147-166 | without free buddies below the top class, freeing keeps free + allocated == total if and only if the aligned 2^order window around the block keeps a frame that is unmanaged or handed out |
| `FrameAllocators.FreeDropsExample` | deps/buddy_system_allocator/src/frame.rs:153-163 | one class, frames 2 and 3: freeing frame 2 loses both frames |
| `FrameAllocators.AllocComplete` | deps/buddy_system_allocator/src/frame.rs:98-127 | a request fails if and only if every aligned run of its size holds an unmanaged or handed-out frame |
| `FrameAllocators.AllocFreeRestores` | deps/buddy_system_allocator/src/frame.rs:98-166 | freeing what was just allocated restores the whole allocator state |
| `FrameAllocators.RunInv` | deps/buddy_system_allocator/src/frame.rs:84-166 | over every run of allocations and frees the blocks tile the managed frames, the counters account for all of them, and merging stays complete |
| `FrameAllocators.RunSafe` | deps/buddy_system_allocator/src/frame.rs:84-166 | over every run, also one that loses frames, free and handed-out blocks tile a subset of the managed frames, the allocated count is right, and merging below the top class stays complete |
| `FrameAllocators.FreeSafe` | deps/buddy_system_allocator/src/frame.rs:147-166 | a free that loses frames takes exactly a block and its buddy out of the tiling |
| `FrameAllocators.WindowLoses` | deps/buddy_system_allocator/src/frame.rs:52-166 | from every added range with a whole top window some run loses 2^order frames |
| `FrameAllocators.ZeroLoses` | deps/buddy_system_allocator/src/frame.rs:52-166 | from frame 0, with more than 6 classes, taking 32 frames and giving them back does |
| `FrameAllocators.ConservedIff` | deps/buddy_system_allocator/src/frame.rs:52-166 | from one added range, free + allocated == total after every run if and only if the range holds no whole aligned window of 2^order frames |
| `FrameAllocators.RunComplete` | deps/buddy_system_allocator/src/frame.rs:52-166 | from one added range without a whole top window that does not run from frame 0 to frame 64 or beyond, after any run, a request fails exactly when no aligned free run of its size exists; nothing managed is lost |
| `FrameAllocators.ZeroStartIncomplete` | deps/buddy_system_allocator/src/frame.rs:59-63 | for every range from frame 0 to frame 64 or beyond there is a run after which 64 aligned frames are free and a request for 64 fails |
| `FrameAllocators.ZeroStartExample` | deps/buddy_system_allocator/src/frame.rs:59-63 | the smallest case: 64 frames, all free, none to be had 64 at a time |
| `FrameAllocators.CompleteIff` | deps/buddy_system_allocator/src/frame.rs:52-166 | from one added range: every request after every run is served if and only if the range holds no whole aligned window of 2^order frames and does not run from frame 0 to frame 64 or beyond |
| `FrameAllocators.Drain` | deps/buddy_system_allocator/src/frame.rs:98-127 | requests for 64 frames, repeated, end in a failing one and leave the two unmerged blocks free |
| `FrameAllocators.SplitDownLeast` | deps/buddy_system_allocator/src/frame.rs:104-117 | after every split the lowest block of the next class is the one being split, so the inner empty checks never fire |
| `FrameAllocators.FrameAllocator.constructor` | deps/buddy_system_allocator/src/frame.rs:43-49 | starts empty with the invariant |
| `FrameAllocators.FrameAllocator.AddFrame` | deps/buddy_system_allocator/src/frame.rs:52-75 | the loop carves the range as specified: exactly the frames from start up to end become managed, and the counter grows by their number |
| `FrameAllocators.FrameAllocator.NextBlock` | deps/buddy_system_allocator/src/frame.rs:59-67 | the computed size is a power of two whose class has a list, and the block fits |
| `FrameAllocators.FrameAllocator.AllocPowerOfTwo` | deps/buddy_system_allocator/src/frame.rs:98-127 | returns the lowest block of the smallest sufficient class, or nothing exactly when there is none; new state as specified |
| `FrameAllocators.FrameAllocator.SplitLoop` | deps/buddy_system_allocator/src/frame.rs:104-113 | the split loop performs the specified cascade and leaves the block as the lowest of its class |
| `FrameAllocators.FrameAllocator.Alloc` | deps/buddy_system_allocator/src/frame.rs:84-87 | rounds the count up to a power of two and allocates that class |
| `FrameAllocators.FrameAllocator.DeallocPowerOfTwo` | deps/buddy_system_allocator/src/frame.rs:147-166 | the merge loop performs the specified deallocation, and keeps the invariant if and only if not all buddies on the way up are free |
| `FrameAllocators.FrameAllocator.Dealloc` | deps/buddy_system_allocator/src/frame.rs:132-135 | frees a block of the rounded-up count, under the same condition |
| `LinkedLists.LinkedUnique` | deps/buddy_system_allocator/src/linked_list.rs:13-49 | memory determines the list: one head links only one sequence |
| `LinkedLists.PushOk` | deps/buddy_system_allocator/src/linked_list.rs:33-36 | pushing an absent block onto one list keeps all lists well formed and separate |
| `LinkedLists.PopOk` | deps/buddy_system_allocator/src/linked_list.rs:39-49 | popping a nonempty list yields its first block, keeps all lists well formed, and the block is then in none |
| `LinkedLists.UnlinkOk` | deps/buddy_system_allocator/src/linked_list.rs:104-110 | removing a node through its predecessor, or through the head, removes exactly that node |
| `Heaps.SplitHeadSets` | deps/buddy_system_allocator/src/lib.rs:115-121 | one split on the linked lists is one split of the block sets |
| `Heaps.MergeHeadSets` | deps/buddy_system_allocator/src/lib.rs:160-175 | one merge on the linked lists is one merge of the block sets |
| `Heaps.MergeUnfolds` | deps/buddy_system_allocator/src/lib.rs:156-180 | one merge on the lists followed by merging one class up is merging, on the lists and on the block sets alike |
| `Heaps.MergeStops` | deps/buddy_system_allocator/src/lib.rs:176-178 | where the buddy is not in the list, merging changes nothing more and not all buddies are free |
| `Heaps.SameMergeNext` | deps/buddy_system_allocator/src/lib.rs:169-175 | a merge in the lists leads to the same end of merging, on lists, block sets and the question whether it runs off the top |
| `Heaps.SameMergeEnds` | deps/buddy_system_allocator/src/lib.rs:156-180 | where the loop stops the lists are fully merged; where it runs off the top all buddies were free |
| `Heaps.SplitStep` | deps/buddy_system_allocator/src/lib.rs:115-121 | pop, push the upper half, push the block: lists in memory stay well formed and no word of an outstanding block is written |
| `Heaps.MergeStep` | deps/buddy_system_allocator/src/lib.rs:160-175 | unlink the buddy, pop, push one class up: same guarantees |
| `Heaps.FreeStep` | deps/buddy_system_allocator/src/lib.rs:153-154 | putting a block back writes only inside that block |
| `Heaps.TakeStep` | deps/buddy_system_allocator/src/lib.rs:126-131 | popping a block to hand it out writes nothing |
| `Heaps.WordCarve` | deps/buddy_system_allocator/src/lib.rs:86-91 | the uncapped carving size is a power of two whose class has a list if and only if no whole window of 2^order bytes starts here |
| `Heaps.WindowsNext` | deps/buddy_system_allocator/src/lib.rs:84-92 | no whole window starts inside a carved block, so one in the region is met by the loop |
| `Heaps.RequestBytes` | deps/buddy_system_allocator/src/lib.rs:105-109 | the rounded request size is a power of two, at least the size, the alignment and a word, and the least such |
| `Heaps.WordMask` | deps/buddy_system_allocator/src/lib.rs:79-80 | masking with !8 + 1 rounds down to a word |
| `Heaps.AllocAccounts` | deps/buddy_system_allocator/src/lib.rs:104-142 | user, allocated and total bytes after an allocation match the live requests and the tiling |
| `Heaps.FreeAccounts` | deps/buddy_system_allocator/src/lib.rs:145-184 | the same after a deallocation |
| `Heaps.Freed` | deps/buddy_system_allocator/src/lib.rs:145-184 | the whole state after freeing and merging satisfies the invariant if not all buddies were free, and no free buddies appear |
| `Heaps.NodesAreFree` | deps/buddy_system_allocator/src/lib.rs:50-58 | every list node is the start of a free block; links live only in memory no caller holds |
| `Heaps.HeapComplete` | deps/buddy_system_allocator/src/lib.rs:104-142 | a request finds no block if and only if every aligned run of its size holds an unmanaged or handed-out byte |
| `Heaps.FreshNoBuddies` | deps/buddy_system_allocator/src/lib.rs:77-96 | one region added to an empty heap leaves no free buddies |
| `Heaps.TakeThenFree` | deps/buddy_system_allocator/src/lib.rs:104-184 | deallocating straight after an allocation restores every list, order included |
| `Heaps.Heap.constructor` | deps/buddy_system_allocator/src/lib.rs:62-69 | an empty heap satisfies the invariant |
| `Heaps.Heap.ListPush` | deps/buddy_system_allocator/src/linked_list.rs:33-36 | one word of memory and one head change |
| `Heaps.Heap.ListPop` | deps/buddy_system_allocator/src/linked_list.rs:39-49 | the head moves to the stored successor; nothing on an empty list |
| `Heaps.Heap.ListUnlink` | deps/buddy_system_allocator/src/lib.rs:162-168 | the scan finds the address if and only if it is in the list, and then unlinks its first occurrence |
| `Heaps.Heap.RoundToWords` | deps/buddy_system_allocator/src/lib.rs:79-80 | start goes up by less than a word and end down by less than a word, to multiples of 8 |
| `Heaps.Heap.AddToHeap` | deps/buddy_system_allocator/src/lib.rs:77-96 | panics if and only if the rounded range ends before it starts, is nonempty and starts at 0, or holds a whole aligned window of 2^order bytes; otherwise exactly the bytes of the whole 8-byte words inside the range become managed, are carved into the lists and counted, and no outstanding word is written |
| `Heaps.Heap.SplitLoop` | deps/buddy_system_allocator/src/lib.rs:114-124 | splits the first block of a class down to the wanted one inside memory |
| `Heaps.Heap.SplitOnce` | deps/buddy_system_allocator/src/lib.rs:115-121 | one split inside memory |
| `Heaps.Heap.FindClass` | deps/buddy_system_allocator/src/lib.rs:110-112 | finds the smallest nonempty class |
| `Heaps.Heap.Alloc` | deps/buddy_system_allocator/src/lib.rs:104-142 | succeeds exactly when some sufficient class is nonempty; the block was wholly free; lists, requests and counters as specified; no word of an outstanding block is written |
| `Heaps.Heap.MergeLoop` | deps/buddy_system_allocator/src/lib.rs:156-180 | merges the freed block upwards inside memory, as full coalescing; panics if and only if all buddies on the way up are free |
| `Heaps.Heap.MergeRound` | deps/buddy_system_allocator/src/lib.rs:159-179 | one round of that loop keeps where it leads |
| `Heaps.Heap.MergeOnce` | deps/buddy_system_allocator/src/lib.rs:160-178 | one round: merges if and only if the buddy is in the list, writes no word of an outstanding block, and panics exactly for a merge in the top class |
| `Heaps.Heap.Dealloc` | deps/buddy_system_allocator/src/lib.rs:145-184 | panics if and only if all buddies on the way up are free; otherwise frees and merges, keeps the invariant, counters and the absence of free buddies; no word of another outstanding block is written |
| `Heaps.StoreHeld` | deps/buddy_system_allocator/src/lib.rs:145-154 | a store by the holder of a block disturbs neither the free lists nor what another holder stored |
| `Heaps.AllocHeld` | deps/buddy_system_allocator/src/lib.rs:104-142 | a block handed out is none of those held, and what holders stored stays |
| `Heaps.FreeHeld` | deps/buddy_system_allocator/src/lib.rs:145-184 | giving one block back keeps what the other holders stored |
| `Heaps.RunOne` | deps/buddy_system_allocator/src/lib.rs:104-184 | one request, free, addition, store or load is one step of a model in which every holding has a memory of its own: lists, counters, outcome and panic; a block handed out is none of those held |
| `Heaps.RunAll` | deps/buddy_system_allocator/src/lib.rs:104-184 | any sequence of them has the outcomes and the effect of the same sequence on that model, up to a panic; without additions full merging stays, and nothing panics when no whole window of 2^order bytes is managed |
| `Heaps.FreshHeap` | deps/buddy_system_allocator/src/lib.rs:62-96 | one region added to an empty heap: exactly the carved region of the model, without free buddies |
| `Heaps.Serve` | deps/buddy_system_allocator/src/lib.rs:62-184 | one region, any run of requests, frees, stores and loads, then a request: nothing panics, and the request fails if and only if after that run every aligned run of its size holds an unmanaged or handed-out byte |
| `Disks.MirrorWriteWindows` | deps/rust-fatfs/src/fs.rs:816-831 | a mirrored write changes every mirror alike, and only the mirrors written to |
| `Disks.MirrorWriteElsewhere` | deps/rust-fatfs/src/fs.rs:816-831 | nothing outside the mirrors changes |
| `FatTables.Set12` | deps/rust-fatfs/src/table.rs:269-300 | writing a 12-bit entry stores it and leaves every other entry alone, also the neighbour sharing a byte |
| `FatTables.Set16` | deps/rust-fatfs/src/table.rs:392-416 | the same for 16-bit entries |
| `FatTables.Set32` | deps/rust-fatfs/src/table.rs:503-544 | the same for 32-bit entries, which keep their reserved top four bits |
| `FatTables.DecodeEncode` | deps/rust-fatfs/src/table.rs:467-544 | a storable value survives encoding and decoding |
| `FatTables.DecodeMeans` | deps/rust-fatfs/src/table.rs:254-487 | the value of every raw entry of each width, with all end marks and the unusable cluster numbers of 32-bit tables |
| `FatTables.EntryLayout` | deps/rust-fatfs/src/table.rs:239-465 | which bytes and nibbles hold an entry of each width |
| `FatTables.SetGet` | deps/rust-fatfs/src/table.rs:238-544 | in every width, setting an entry and reading any entry gives the new value there and the old one elsewhere |
| `FatTables.FindFree12` | deps/rust-fatfs/src/table.rs:302-331 | the sliding 12-bit scan finds the first free entry, or none if and only if there is none |
| `FatTables.FindFreeWide` | deps/rust-fatfs/src/table.rs:418-434 | so do the 16- and 32-bit scans |
| `FatTables.FindFree` | deps/rust-fatfs/src/table.rs:105-121 | so does the scan of the volume's width |
| `FatTables.OddAssembly` | deps/rust-fatfs/src/table.rs:333-363 | the odd entries assembled by the 12-bit count are zero exactly when the entries are |
| `FatTables.CountFree12` | deps/rust-fatfs/src/table.rs:333-363 | the streaming 12-bit count is the number of free entries |
| `FatTables.CountFree` | deps/rust-fatfs/src/table.rs:180-192 | so is the count of every width |
| `Chains.ChainNotFree` | deps/rust-fatfs/src/table.rs:636-659 | no cluster of a chain is free |
| `Chains.FreeChain` | deps/rust-fatfs/src/table.rs:625-633 | freeing a chain frees exactly its clusters and counts all of them |
| `Chains.FreeAny` | deps/rust-fatfs/src/table.rs:625-633 | on every in-range table, cyclic ones included, the loop ends, only ever frees entries, frees the first, and counts one too many exactly when the last entry it visits is free by then |
| `Chains.FreeCountsIff` | deps/rust-fatfs/src/table.rs:625-633 | the count is the number of newly free clusters if and only if the links in the table lead, without repeating a cluster, to an end mark or a bad cluster; otherwise it is one more |
| `Chains.CyclicExample` | deps/rust-fatfs/src/table.rs:625-633 | a two-cluster loop is freed but counted as three |
| `Chains.ExtendedChain` | deps/rust-fatfs/src/table.rs:123-153 | linking a free cluster behind the last one extends the chain by it and uses up one free cluster |
| `Chains.AllocKeepsChains` | deps/rust-fatfs/src/table.rs:123-153 | giving a cluster to one file keeps every file's chain; the cluster was in no file |
| `Chains.OthersKept` | deps/rust-fatfs/src/table.rs:612-633 | a change confined to one file's clusters keeps all other chains |
| `Chains.TruncateKeepsChains` | deps/rust-fatfs/src/table.rs:612-623 | cutting one chain to any length, down to nothing, keeps every chain |
| `Chains.TruncatedFree` | deps/rust-fatfs/src/table.rs:612-623 | cutting frees exactly the clusters cut off |
| `FatFs.ClusterOffsetProduct` | deps/rust-fatfs/src/fs.rs:439-453 | the offset of a cluster is data start plus index times cluster size |
| `FatFs.WriteEntryTable` | deps/rust-fatfs/src/fs.rs:816-831 | writing an entry through the mirrored slice updates that entry in all mirrors and no data |
| `FatFs.DataWrite` | deps/rust-fatfs/src/fs.rs:451-453 | writing cluster data leaves the table and its mirrors alone |
| `FatFs.ClustersApart` | deps/rust-fatfs/src/fs.rs:439-453 | different clusters occupy different bytes |
| `FatFs.CountsAllFree` | deps/rust-fatfs/src/table.rs:180-192 | the count over the packed bytes is the number of free clusters of the volume |
| `FatFs.BlankVolume` | deps/rust-fatfs/src/fs.rs:365-412 | a volume whose table is all zeros is sound, has only free clusters and holds any set of empty files |
| `FatFs.TruncateFacts` | deps/rust-fatfs/src/table.rs:612-623 | freeing from the successor of the last kept cluster cuts the chain there and returns the right count |
| `FatFs.AllocFacts` | deps/rust-fatfs/src/table.rs:123-153 | an allocation keeps every chain and lowers the number of free clusters by one |
| `FatFs.FileSystem.Mount` | deps/rust-fatfs/src/fs.rs:365-412 | a sound volume with a true or absent free count is a valid file system |
| `FatFs.FileSystem.WriteFat` | deps/rust-fatfs/src/table.rs:78-90 | changes one entry of the table and no data |
| `FatFs.FileSystem.MirrorLoop` | deps/rust-fatfs/src/fs.rs:816-831 | the same bytes reach every mirror |
| `FatFs.FileSystem.NextCluster` | deps/rust-fatfs/src/table.rs:92-103 | follows a data entry, and ends on any other |
| `FatFs.FileSystem.FreeLoop` | deps/rust-fatfs/src/table.rs:625-633 | ends on every in-range table with the specified table and count |
| `FatFs.FileSystem.FreeClusterChain` | deps/rust-fatfs/src/fs.rs:484-490 | a file loses all its clusters, every other chain stays, the free clusters grow by them, a known free count stays the true one |
| `FatFs.FileSystem.TruncateClusterChain` | deps/rust-fatfs/src/fs.rs:476-482 | a file keeps its first clusters, every other chain stays, the free clusters grow by the rest, the free count stays true |
| `FatFs.FileSystem.FindFreeCluster` | deps/rust-fatfs/src/table.rs:135-146 | finds a free cluster if and only if there is one: the first at or after the hint, else the first of all |
| `FatFs.FileSystem.AllocCluster` | deps/rust-fatfs/src/fs.rs:492-508 | appends that cluster, in no file before, to a file; fails if and only if none is free; count and hint follow |
| `FatFs.FileSystem.Stats` | deps/rust-fatfs/src/fs.rs:532-552 | the cached or recounted free count is the true number of free clusters |
| `FatFiles.FlatWrite` | deps/rust-fatfs/src/file.rs:325-386 | writing inside one cluster of a chain writes the same bytes into the flattened file |
| `FatFiles.FlatElsewhere` | deps/rust-fatfs/src/file.rs:325-386 | a file without that cluster does not change |
| `FatFiles.CursorIndex` | deps/rust-fatfs/src/file.rs:123-142 | the cursor is on chain element (offset - 1) / cluster size, or before the first cluster at offset 0 |
| `FatFiles.OffsetCluster` | deps/rust-fatfs/src/file.rs:261-290 | the cluster at the offset is the first one, the successor of the cursor's or the cursor's own, as the offset says |
| `FatFiles.ReadFlat` | deps/rust-fatfs/src/file.rs:261-311 | bytes read at the computed disk position are the file's bytes at the offset |
| `FatFiles.CapacityFacts` | deps/rust-fatfs/src/file.rs:340-370 | a write trades free clusters for held ones, and lacks room only at the largest size the file can reach |
| `FatFiles.CutRoom` | deps/rust-fatfs/src/file.rs:63-86 | cutting keeps exactly the clusters that hold a byte before the cut |
| `FatFiles.File.constructor` | deps/rust-fatfs/src/file.rs:40-54 | a handle opens at offset 0 with the file's bytes |
| `FatFiles.File.ClusterAtOffset` | deps/rust-fatfs/src/file.rs:261-285 | finds the chain element of the offset |
| `FatFiles.File.Read` | deps/rust-fatfs/src/file.rs:261-311 | returns the next bytes, up to the end of the cluster or file, and moves the cursor past them |
| `FatFiles.File.ClusterForWrite` | deps/rust-fatfs/src/file.rs:340-370 | gives the cluster for the offset, allocated if need be; the file's bytes and all other files stay; fails exactly when one is needed and none is free |
| `FatFiles.File.Store` | deps/rust-fatfs/src/file.rs:371-385 | overwrites the file at the cursor, growing it if need be, and no other file |
| `FatFiles.File.Write` | deps/rust-fatfs/src/file.rs:325-386 | writes up to the end of the cluster or the largest file size, and takes a free cluster exactly when the cursor is behind the last one; fails if and only if there is something to write, the cursor is there and no cluster is free, and then changes nothing |
| `FatFiles.File.WriteInto` | deps/rust-fatfs/src/file.rs:340-385 | writes inside one cluster, allocated if need be; fails if and only if there is none |
| `FatFiles.File.Seek` | deps/rust-fatfs/src/file.rs:412-473 | moves to the start, the cursor or the end plus the given distance, clamped to the file size, or fails without moving when that is negative or 2^32 or more |
| `FatFiles.CountsMean` | deps/rust-fatfs/src/file.rs:283-332 | a call moves at most what is left of the cluster at the offset; a write also stays below 2^32 bytes |
| `FatFiles.RoomMeans` | deps/rust-fatfs/src/file.rs:340-369 | a write takes a new cluster if and only if its offset is behind those held, and fails if and only if there is no other |
| `FatFiles.CutMeans` | deps/rust-fatfs/src/file.rs:63-86 | a cut keeps as many clusters as the bytes before it need and frees the others |
| `FatFiles.OverwriteAt` | deps/rust-fatfs/src/file.rs:372-386 | a write replaces exactly the bytes it covers |
| `FatFiles.SeekLaws` | deps/rust-fatfs/src/file.rs:412-423 | a seek from the end or the cursor is one from the start, further by the size or the position; before the start it fails |
| `FatFiles.SeekThenRead` | deps/rust-fatfs/src/file.rs:261-307 | after a seek to a byte, reading begins at that byte wherever the cursor was |
| `FatFiles.ReadBack` | deps/rust-fatfs/src/file.rs:261-473 | what a write call has taken is read at its place later, after any sequence of reads and seeks in between |
| `FatFiles.File.Walk` | deps/rust-fatfs/src/file.rs:452-464 | following links from the first cluster reaches the wanted chain element |
| `FatFiles.File.Truncate` | deps/rust-fatfs/src/file.rs:63-86 | cuts the file at the cursor and frees the clusters behind; no other file changes |
| `FatFiles.File.WriteAll` | deps/rust-fatfs/src/io.rs:102-115 | writes as many bytes as the largest file size and the clusters of file and volume can hold, and succeeds exactly when that is the whole buffer |
| `FatFiles.File.ReadAll` | kernel/crates/fat32/src/lib.rs:85-99 | repeated reads return everything from the cursor to the end |
| `FatFiles.RunOne` | deps/rust-fatfs/src/file.rs:261-473 | one call is one step of a byte sequence with a cursor and a number of clusters held and free, outcome included |
| `FatFiles.RunAll` | deps/rust-fatfs/src/file.rs:261-473 | any sequence of reads, writes, seeks and truncations has the outcomes and the effect of the same sequence on that byte sequence, failures included, and no other file's chain or bytes change |
| `PageTables.PteFields` | kernel/crates/memory/src/page_table.rs:44-63 | an entry gives back its flags and the low 44 bits of its page number |
| `PageTables.IndexesInjective` | kernel/crates/memory/src/address.rs:122-131 | two page numbers have the same three indexes if and only if their low 27 bits agree |
| `PageTables.SplitIndexes` | kernel/crates/memory/src/address.rs:122-131 | the masking loop computes those indexes: the low 27 bits, nine at a time |
| `PageTables.WalkIsLeaf` | kernel/crates/memory/src/page_table.rs:126-140 | the walk through memory is the lookup in the tree |
| `PageTables.GrowOk` | kernel/crates/memory/src/page_table.rs:142-162 | linking a zeroed frame adds an empty table and changes no mapping |
| `PageTables.SetLeafOk` | kernel/crates/memory/src/page_table.rs:163-176 | writing a last-level entry changes one page's mapping only |
| `PageTables.TreeElsewhere` | kernel/crates/memory/src/page_table.rs:66-70 | writes to frames outside the tree change no mapping |
| `PageTables.SetLeafRefines` | kernel/crates/memory/src/page_table.rs:163-176 | such a write is one update of the flat map |
| `PageTables.MappedLeaf` | kernel/crates/memory/src/page_table.rs:163-176 | the validity test on the entry decides exactly whether the page is mapped |
| `PageTables.LastMapping` | kernel/crates/memory/src/page_table.rs:163-180 | after any run a page translates to what the last operation on it said |
| `PageTables.LinkFacts` | kernel/crates/memory/src/page_table.rs:142-162 | a new table comes from the free frames, is owned once, and disturbs nothing |
| `PageTables.BorrowTree` | kernel/crates/memory/src/memory_set.rs:70-83 | copying a root entry makes the other tree's subtree part of this one, and changes no other mapping |
| `PageTables.BorrowFacts` | kernel/crates/memory/src/memory_set.rs:70-83 | both trees stay intact, the borrowed tables are not owned, only own frames are written |
| `PageTables.ViewLines` | kernel/crates/memory/src/memory_set.rs:70-83 | mapped pages lie below existing root entries |
| `PageTables.Ram.constructor` | kernel/crates/memory/src/frame_allocator.rs:131-137 | memory of given frames, all free |
| `PageTables.Ram.FrameAlloc` | kernel/crates/memory/src/frame_allocator.rs:21-37 | a zeroed frame that was free, or nothing exactly when none is |
| `PageTables.PageTable.WithRoot` | kernel/crates/memory/src/page_table.rs:74-80 | a zeroed root maps nothing |
| `PageTables.PageTable.FindPte` | kernel/crates/memory/src/page_table.rs:126-140 | the walk returns the entry of the flat map |
| `PageTables.PageTable.Translate` | kernel/crates/memory/src/page_table.rs:178-180 | the page number of the mapping, or nothing exactly when unmapped |
| `PageTables.PageTable.Descend` | kernel/crates/memory/src/page_table.rs:147-158 | one level: an existing or newly linked table, and nothing if and only if it is missing and no frame is free; the flat map is unchanged |
| `PageTables.PageTable.AddTable` | kernel/crates/memory/src/page_table.rs:150-156 | a free frame, zeroed, is linked as a new table; nothing if and only if no frame is free; the flat map is unchanged |
| `PageTables.PageTable.FindPteCreate` | kernel/crates/memory/src/page_table.rs:142-162 | reaches the leaf table, creating exactly the missing ones, each from a free frame; fails if and only if fewer frames are free than tables are missing; the flat map is unchanged |
| `PageTables.PageTable.Map` | kernel/crates/memory/src/page_table.rs:163-170 | an unmapped page becomes mapped as asked, everything else stays; fails if and only if fewer frames are free than tables are missing on the path, and otherwise takes exactly so many, none lost |
| `PageTables.PageTable.Unmap` | kernel/crates/memory/src/page_table.rs:172-176 | a mapped page becomes unmapped, everything else stays, and no table is given back |
| `PageTables.PageTable.CopyLine` | kernel/crates/memory/src/memory_set.rs:70-83 | borrows one root entry |
| `PageTables.PageTable.MapKernelAreas` | kernel/crates/memory/src/memory_set.rs:70-83 | root entries 508, 510 and 511 are shared: below them both tables map alike, elsewhere nothing changes |
| `PageTables.PageTable.Run` | kernel/crates/memory/src/page_table.rs:163-176 | any legal run of map and unmap is the same run on a flat map of 27-bit page numbers; it fails if and only if fewer frames are free at the start than tables are missing for all the pages it maps, and otherwise costs exactly so many |
| `PageTables.LackIs` | kernel/crates/memory/src/page_table.rs:147-158 | the tables missing on the path to a page are those of its two that the tree does not have |
| `PageTables.MissingJoin` | kernel/crates/memory/src/page_table.rs:147-158 | tables come once: what two groups of pages lack is what the first lacks, and then what the second lacks |
| `PageTables.TablesHas` | kernel/crates/memory/src/page_table.rs:142-158 | the tables of a set of pages are those on the path of at least one of them |
| `MemorySets.MapSpace` | kernel/crates/memory/src/memory_set.rs:373-387 | mapping one page to an unused frame keeps areas, translation and frame ownership consistent |
| `MemorySets.UnmapSpace` | kernel/crates/memory/src/memory_set.rs:388-393 | so does unmapping one and freeing its frame |
| `MemorySets.SumClose` | kernel/crates/memory/src/memory_set.rs:268-274 | the finished area joins the others: mapped pages are the disjoint union of the areas |
| `MemorySets.MappingStep` | kernel/crates/memory/src/memory_set.rs:394-398 | one more page of a range: new pages are mapped to zeroed frames, old ones keep frame and contents |
| `MemorySets.UnmappingStep` | kernel/crates/memory/src/memory_set.rs:399-404 | one page less of a range: the remaining ones keep frame and contents |
| `MemorySets.ShrunkArea` | kernel/crates/memory/src/memory_set.rs:409-415 | the cut area has frames for exactly its new range |
| `MemorySets.GrownArea` | kernel/crates/memory/src/memory_set.rs:416-421 | so has the extended area |
| `MemorySets.Bystander` | kernel/crates/memory/src/memory_set.rs:164-183 | work on one space leaves a space with separate frames as it was |
| `MemorySets.SharedKernel` | kernel/crates/memory/src/memory_set.rs:70-83 | sharing the kernel's entries changes neither space's user pages |
| `MemorySets.MemorySet.NewBare` | kernel/crates/memory/src/memory_set.rs:62-67 | an empty space with one root frame |
| `MemorySets.MemorySet.MapOne` | kernel/crates/memory/src/memory_set.rs:373-387 | a page gets a zeroed frame of its own; fails if and only if fewer frames are free than one and the missing tables, and otherwise takes exactly so many |
| `MemorySets.MemorySet.UnmapOne` | kernel/crates/memory/src/memory_set.rs:388-393 | the page is gone and its frame free; no table is given back |
| `MemorySets.MemorySet.MapRange` | kernel/crates/memory/src/memory_set.rs:394-398 | a range is mapped page by page; earlier pages keep frame and contents; fails if and only if fewer frames are free than the pages and their missing tables, and otherwise takes exactly so many |
| `MemorySets.MemorySet.UnmapRange` | kernel/crates/memory/src/memory_set.rs:399-404 | a range is unmapped page by page, and as many frames become free |
| `MemorySets.MemorySet.Push` | kernel/crates/memory/src/memory_set.rs:268-274 | a whole area is mapped to fresh zeroed frames and inserted, under that condition and at that cost |
| `MemorySets.MemorySet.InsertFramedArea` | kernel/crates/memory/src/memory_set.rs:245-260 | the same for a new area |
| `MemorySets.MemorySet.RemoveAreaWithStartVpn` | kernel/crates/memory/src/memory_set.rs:262-266 | exactly the area's pages are gone and their frames free; a missing area changes nothing |
| `MemorySets.MemorySet.SetUserBrk` | kernel/crates/memory/src/memory_set.rs:190-206 | the heap area ends at the new end: pages beyond are gone and their frames free, or new pages are zeroed; kept pages keep their contents; growing fails if and only if the new pages and their missing tables are more than the free frames |
| `MemorySets.MemorySet.Shrink` | kernel/crates/memory/src/memory_set.rs:409-415 | exactly the pages from the new end on are gone and their frames free; the area ends there |
| `MemorySets.MemorySet.Expand` | kernel/crates/memory/src/memory_set.rs:416-421 | exactly the pages up to the new end are added, zeroed, under the same condition and at the same cost; the area ends there |
| `MemorySets.MemorySet.Translate` | kernel/crates/memory/src/memory_set.rs:285-287 | the frame of a mapped page, or nothing exactly when unmapped |
| `MemorySets.MemorySet.CopyPage` | kernel/crates/memory/src/memory_set.rs:170-178 | one page is copied into the other space's frame |
| `MemorySets.MemorySet.CopyPages` | kernel/crates/memory/src/memory_set.rs:170-178 | a range of pages is copied, only frames of the other space are written |
| `MemorySets.MemorySet.ForkArea` | kernel/crates/memory/src/memory_set.rs:166-179 | one area with equal range, permissions and contents in fresh frames, under the same condition and at the same cost |
| `MemorySets.MemorySet.Fork` | kernel/crates/memory/src/memory_set.rs:164-183 | the copy has the same areas with the same ranges and permissions, maps the same pages with the same contents and shares no owned frame with the original, which keeps its pages; below the kernel's root entries both map alike; fails if and only if fewer frames are free than one for the root, one for every page and one for every other table of those pages, and otherwise takes exactly so many, none lost |
| `MemorySets.MemorySet.ShareKernel` | kernel/crates/memory/src/memory_set.rs:180-182 | the copy takes over the kernel's root entries |
| `MemorySets.ZerosView` | kernel/crates/memory/src/memory_set.rs:394-398 | to the user, mapping a range adds zeroed pages |
| `MemorySets.WithoutView` | kernel/crates/memory/src/memory_set.rs:399-404 | to the user, unmapping a range takes those pages away and keeps the rest with permissions and contents |
| `MemorySets.RunOne` | kernel/crates/memory/src/memory_set.rs:190-266 | one insertion, removal or change of the heap end is one step of the user's view: area ranges, permissions and page contents |
| `MemorySets.RunAll` | kernel/crates/memory/src/memory_set.rs:190-266 | any sequence of them is the same sequence on that view; it runs out of memory if and only if its pages and their missing tables, less what it gives back on the way, come to more than the free frames |
| `MemorySets.NeedJoin` | kernel/crates/memory/src/memory_set.rs:394-398 | what two ranges need is what the first needs, and then what the second needs besides the tables of the first |
| `MemorySets.RunBeside` | kernel/crates/memory/src/memory_set.rs:164-266 | meanwhile a space that shares no owned frame, such as the parent of a fork, keeps areas, permissions and contents |
| `BlockCaches.EvictKeeps` | kernel/crates/drivers/src/block/block_cache.rs:75-87 | dropping an entry with write-back does not change what callers see |
| `BlockCaches.LoadKeeps` | kernel/crates/drivers/src/block/block_cache.rs:18-29 | loading a block does not either |
| `BlockCaches.PutView` | kernel/crates/drivers/src/block/block_cache.rs:64-73 | writing into an entry and marking it dirty writes the block callers see |
| `BlockCaches.SyncKeeps` | kernel/crates/drivers/src/block/block_cache.rs:75-81 | writing one entry back does not show |
| `BlockCaches.SyncedView` | kernel/crates/drivers/src/block/block_cache.rs:145-150 | after a sync the device is what callers see |
| `BlockCaches.CopyEndsIff` | kernel/crates/fat32/src/lib.rs:186-221 | the copy loops end if and only if the buffer is shorter than 2^32 bytes: the length is cut to 32 bits in every round |
| `BlockCaches.JoinedPut` | kernel/crates/fat32/src/lib.rs:205-221 | a write inside a block is a write to the flat byte array |
| `BlockCaches.JoinedSlice` | kernel/crates/fat32/src/lib.rs:186-203 | a read inside a block is a read of the flat byte array |
| `BlockCaches.BlockCacheManager.GetBlockCache` | kernel/crates/drivers/src/block/block_cache.rs:101-128 | the block is cached afterwards, at most once, in place of the oldest unused entry; what callers see and entries in use stay; it fails exactly when all 16 are in use |
| `BlockCaches.BlockCacheManager.constructor` | kernel/crates/drivers/src/block/block_cache.rs:94-99 | an empty cache shows the device |
| `BlockCaches.BlockCacheManager.Evict` | kernel/crates/drivers/src/block/block_cache.rs:83-87 | drops one entry, written back if dirty |
| `BlockCaches.BlockCacheManager.Read` | kernel/crates/drivers/src/block/block_cache.rs:56-62 | the bytes callers see, cut at the block's end |
| `BlockCaches.BlockCacheManager.Write` | kernel/crates/drivers/src/block/block_cache.rs:64-73 | overwrites the block callers see |
| `BlockCaches.BlockCacheManager.SyncAll` | kernel/crates/drivers/src/block/block_cache.rs:145-150 | the device holds what callers see |
| `BlockCaches.DiskDriver.Read` | kernel/crates/fat32/src/lib.rs:186-203 | returns the bytes of the flat disk at the cursor, across blocks and evictions |
| `BlockCaches.DiskDriver.Write` | kernel/crates/fat32/src/lib.rs:205-221 | overwrites the flat disk at the cursor |
| `BlockCaches.DiskDriver.Flush` | kernel/crates/fat32/src/lib.rs:223-226 | the device holds the flat disk |
| `BlockCaches.DiskDriver.Seek` | kernel/crates/fat32/src/lib.rs:228-242 | moves to a valid position, or fails without moving |
| `BlockCaches.RunOne` | kernel/crates/fat32/src/lib.rs:186-242 | one call is one step of a flat byte array with a cursor |
| `BlockCaches.RunAll` | kernel/crates/fat32/src/lib.rs:186-242 | any sequence of reads, writes, seeks and flushes, whatever is loaded and evicted on the way, is the same sequence on a flat byte array with a cursor, with the same results; after a flush the device holds that array |
| `LongNames.SerializeRoundTrip` | deps/rust-fatfs/src/dir_entry.rs:324-340 | a long-name entry written to 32 bytes is read back |
| `LongNames.SerializedAt` | deps/rust-fatfs/src/dir_entry.rs:324-340 | at which of the 32 bytes each field and each unit is, low byte first |
| `LongNames.LfnChecksum` | deps/rust-fatfs/src/dir.rs:722-728 | the loop computes the rotate-and-add checksum |
| `LongNames.RotateMeans` | deps/rust-fatfs/src/dir.rs:722-728 | each step rotates right by one bit, which a rotation left undoes, and adds the next byte, modulo 256 |
| `LongNames.LfnEntriesGenerator.constructor` | deps/rust-fatfs/src/dir.rs:954-965 | starts before the first entry |
| `LongNames.LfnEntriesGenerator.Next` | deps/rust-fatfs/src/dir.rs:971-1001 | yields the padded parts last chunk first, numbered and flagged, then nothing |
| `LongNames.LongNameBuilder.Process` | deps/rust-fatfs/src/dir.rs:881-913 | accepts a first entry or the expected next one, and starts over on any other |
| `LongNames.LongNameBuilder.Truncate` | deps/rust-fatfs/src/dir.rs:865-873 | cuts trailing zeros and paddings |
| `LongNames.LongNameBuilder.ValidateChksum` | deps/rust-fatfs/src/dir.rs:915-926 | discards the name when the short name's checksum differs |
| `LongNames.LongNameBuilder.IntoBuf` | deps/rust-fatfs/src/dir.rs:854-863 | gives the name only if the sequence is complete |
| `LongNames.LongNameBuilder.Finish` | deps/rust-fatfs/src/dir.rs:644-653 | checksum test, then the name |
| `LongNames.FedParts` | deps/rust-fatfs/src/dir.rs:881-913 | after k stored entries, whatever came before, the builder holds the last k parts |
| `LongNames.LongNameRoundTrip` | deps/rust-fatfs/src/dir.rs:832-1006 | a name of 1 to 260 units, stored and read back, comes back without trailing zeros and paddings if the checksum fits, and as nothing otherwise |
| `LongNames.EntryLayout` | deps/rust-fatfs/src/dir.rs:953-1006 | order, marks, checksum, terminator and padding of each generated entry, unit by unit |
| `LongNames.Building` | deps/rust-fatfs/src/dir.rs:881-913 | whatever entries it is fed, a builder has a name under way if and only if the latest entries are the end of one, and holds their units |
| `LongNames.NameOrNothing` | deps/rust-fatfs/src/dir.rs:615-665 | after any entries the long name of a short one is that of the entries just before it if they are a whole name with its checksum, and none otherwise |
| `LongNames.ReadName` | deps/rust-fatfs/src/dir.rs:615-665 | so is the name the loop over a directory's entries finds |
| `LongNames.RoundTripIff` | deps/rust-fatfs/src/dir.rs:832-1006 | it comes back unchanged if and only if its last unit is neither 0 nor the padding 0xFFFF |
| `ShortNames.CopyShortNamePart` | deps/rust-fatfs/src/dir.rs:1088-1118 | fills the field with the first characters of the part that are neither space nor dot, with _ for characters not allowed, in capitals; exact if and only if the part fits and holds allowed characters only |
| `ShortNames.KeptJoin` | deps/rust-fatfs/src/dir.rs:1088-1118 | what is kept of a text is kept character by character |
| `ShortNames.KeptAllowed` | deps/rust-fatfs/src/dir.rs:1088-1118 | allowed characters are all kept, in capitals |
| `ShortNames.HexRoundTrip` | deps/rust-fatfs/src/dir.rs:1223-1235 | four printed hexadecimal digits parse back |
| `ShortNames.PrefixedHit` | deps/rust-fatfs/src/dir.rs:1132-1164 | a name the generator makes is recognised as a collision with its own digit and checksum |
| `ShortNames.ScanFinds` | deps/rust-fatfs/src/dir.rs:1120-1164 | a scan records exactly the collisions there are |
| `ShortNames.GeneratedNone` | deps/rust-fatfs/src/dir.rs:1175-1195 | generation fails if and only if the plain form and all digits of both prefixed forms are taken |
| `ShortNames.HitsMean` | deps/rust-fatfs/src/dir.rs:1130-1164 | an existing name blocks a digit if and only if it agrees with that prefixed name in prefix, tilde, digit and extension, and for the checksum form also in the number spelled |
| `ShortNames.GeneratedIs` | deps/rust-fatfs/src/dir.rs:1175-1195 | the plain form is used if it is exact and free, else the long prefix with the smallest free digit up to 4, else the checksum form with the smallest free digit |
| `ShortNames.PrefixedLayout` | deps/rust-fatfs/src/dir.rs:1205-1223 | where prefix, checksum digits, tilde, digit, spaces and extension are in a prefixed name |
| `ShortNames.GeneratedIsNew` | deps/rust-fatfs/src/dir.rs:1175-1195 | a generated name is none of the names scanned |
| `ShortNames.ChksumAtIs` | deps/rust-fatfs/src/dir.rs:1197-1203 | round r uses the checksum plus r modulo 2^16 |
| `ShortNames.FailsIff` | deps/rust-fatfs/src/dir.rs:167-192 | a round fails if and only if the plain name and all digits with its checksum are taken |
| `ShortNames.FailedRounds` | deps/rust-fatfs/src/dir.rs:167-192 | r failed rounds need 9 r names in the directory |
| `ShortNames.FailsForeverIff` | deps/rust-fatfs/src/dir.rs:167-192 | the search never ends if and only if every one of the 65536 checksums is used up and neither other form is free |
| `ShortNames.FullDirectory` | deps/rust-fatfs/src/dir.rs:167-192 | for every name there is a directory in which the search never ends |
| `ShortNames.Checksum` | deps/rust-fatfs/src/dir.rs:1166-1173 | the loop computes the rotate-and-add checksum |
| `ShortNames.RotateMeans` | deps/rust-fatfs/src/dir.rs:1166-1173 | each step rotates right by one bit, which a rotation left undoes, and adds the next character, modulo 65536 |
| `ShortNames.ShortForm` | deps/rust-fatfs/src/dir.rs:1049-1073 | splits at the last dot that is not first and fills both fields |
| `ShortNames.ShortNameGenerator.constructor` | deps/rust-fatfs/src/dir.rs:1049-1073 | the plain form is offered exactly when base and extension fit, and then spells the name in capitals |
| `ShortNames.ShortNameGenerator.AddExisting` | deps/rust-fatfs/src/dir.rs:1120-1164 | records one existing name |
| `ShortNames.ShortNameGenerator.Generate` | deps/rust-fatfs/src/dir.rs:1175-1195 | plain, then digit, then checksum and digit |
| `ShortNames.ShortNameGenerator.NextRound` | deps/rust-fatfs/src/dir.rs:1197-1203 | next checksum, empty bitmaps |
| `ShortNames.FindEntry` | deps/rust-fatfs/src/dir.rs:127-154 | returns the first entry of the name, or shows all short names to the generator |
| `ShortNames.CheckForExistence` | deps/rust-fatfs/src/dir.rs:167-192 | returns an existing entry exactly when there is one, and otherwise a short name no entry has, after at most a ninth of the entry count in rounds |
| `Formats.TablesFit` | deps/rust-fatfs/src/boot_sector.rs:524-578 | the table copies take no more than the space there is |
| `Formats.TableHolds` | deps/rust-fatfs/src/boot_sector.rs:524-578 | the table has an entry for every data cluster and the two reserved ones |
| `Formats.SurplusWide` | deps/rust-fatfs/src/boot_sector.rs:886-903 | a 16- or 32-bit table has at most one sector of entries and one entry more than it needs |
| `Formats.SurplusNarrow` | deps/rust-fatfs/src/boot_sector.rs:886-903 | a 12-bit table of a volume small enough for one has at most one sector of entries and 12 entries more than it needs |
| `Formats.GeometryOk` | deps/rust-fatfs/src/boot_sector.rs:580-626 | an accepted geometry fits the volume, has enough entries, wastes at most a sector of entries and 1, or for 12 bits 12, more, and its cluster count is one of its type |
| `Formats.GeometryIff` | deps/rust-fatfs/src/boot_sector.rs:580-626 | a geometry is accepted if and only if there are more than eight sectors besides the reserved ones and the root directory, and the number of clusters the tables leave is one of the type |
| `Pipes.PipeRingBuffer.constructor` | kernel/crates/filesystem/src/pipe.rs:54-63 | an empty ring |
| `Pipes.PipeRingBuffer.ReadByte` | kernel/crates/filesystem/src/pipe.rs:68-77 | takes the oldest byte |
| `Pipes.PipeRingBuffer.WriteByte` | kernel/crates/filesystem/src/pipe.rs:78-85 | appends a byte |
| `Pipes.ReadOnce` | kernel/crates/filesystem/src/pipe.rs:125-151 | one round of a read takes all that is still wanted or all there is, and returns exactly at the end of the stream or when bytes are left over |
| `Pipes.WriteOnce` | kernel/crates/filesystem/src/pipe.rs:152-176 | one round of a write fills the ring or sends what is left, and returns exactly when room is left over |
| `Pipes.ReadTurn` | kernel/crates/filesystem/src/pipe.rs:125-151 | a step changes a reader only if it is its turn; its turn takes exactly what is wanted or what there is, from the front of the ring |
| `Pipes.WriteTurn` | kernel/crates/filesystem/src/pipe.rs:152-176 | a step changes a writer only if it is its turn; its turn appends to the ring exactly what there is room for or what is left |
| `Pipes.ReadInv` | kernel/crates/filesystem/src/pipe.rs:125-151 | a reader's turn keeps the invariant of the whole system |
| `Pipes.WriteInv` | kernel/crates/filesystem/src/pipe.rs:152-176 | so does a writer's turn |
| `Pipes.StepInv` | kernel/crates/filesystem/src/pipe.rs:118-176 | so does every step, with any number of readers, writers and write ends |
| `Pipes.RunInv` | kernel/crates/filesystem/src/pipe.rs:118-176 | over every interleaving, bytes delivered followed by the ring are the bytes accepted, in order; each writer's bytes are a prefix of its data and each reader has its share |
| `Pipes.OneToOne` | kernel/crates/filesystem/src/pipe.rs:118-176 | one writer and one reader: the reader has a prefix of the data; a returned write sent everything; a short read means the end of the stream |
| `Pipes.WriteReturnsIff` | kernel/crates/filesystem/src/pipe.rs:152-176 | over every run, a write has returned if and only if it got a turn that found more room in the ring than it had bytes left |
| `Pipes.FullRingWaits` | kernel/crates/filesystem/src/pipe.rs:152-176 | a write whose last byte filled the ring does not return over any run without a read, although everything is sent |
| `Pipes.ReadReturnsIff` | kernel/crates/filesystem/src/pipe.rs:125-151 | over every run, a read has returned if and only if it got a turn at the end of the stream or one that found more bytes than it still wanted |
| `Pipes.EmptyRingWaits` | kernel/crates/filesystem/src/pipe.rs:125-151 | a read whose last wanted byte emptied the ring does not return before somebody writes or the last write end closes |
| `Pipes.WriteFills` | kernel/crates/filesystem/src/pipe.rs:152-176 | a write of as many bytes as there is room for reaches that state in one turn: all sent, ring full, not returned |
| `Pipes.ReadEmpties` | kernel/crates/filesystem/src/pipe.rs:125-151 | a read of as many bytes as there are reaches the other |
| `Pipes.BothWait` | kernel/crates/filesystem/src/pipe.rs:118-176 | both are reached from an empty pipe with one write and one read of 32 bytes |
| `Pipes.LastRead` | kernel/crates/filesystem/src/pipe.rs:125-151 | with all write ends closed, a reader that nobody disturbs returns with its second turn at the latest, with all that was left in the ring or all it wanted |
| `Pipes.Transfer` | kernel/crates/filesystem/src/pipe.rs:118-176 | in every run, every turn of the writer followed by one of the reader brings 32 bytes across, or all there are |
| `Pipes.WholeTransfer` | kernel/crates/filesystem/src/pipe.rs:118-176 | so from an empty pipe the reader has a prefix of the data, and all of it after as many such rounds as the data has pieces of 32 bytes |
| `ArgvStacks.AliasInjective` | kernel/crates/major/src/task/loader/stack.rs:24-35 | different user addresses have different kernel addresses |
| `ArgvStacks.StoreThrough` | kernel/crates/major/src/task/loader/stack.rs:52-66 | a store through the kernel address is a write to user memory |
| `ArgvStacks.WordRoundTrip` | kernel/crates/major/src/task/loader/stack.rs:59-66 | a word written as bytes is read back |
| `ArgvStacks.UpToNulIff` | user/src/lib.rs:59-61 | a reader of NUL-terminated strings sees the whole string if and only if it holds no NUL |
| `ArgvStacks.StringLength` | user/src/lib.rs:59-61 | the scan finds the first zero byte |
| `ArgvStacks.Start` | user/src/lib.rs:49-70 | user code collects each argument up to its first NUL |
| `ArgvStacks.StackInit.SpDown` | kernel/crates/major/src/task/loader/stack.rs:26-34 | moving down keeps the kernel address the alias of the stack pointer, also across pages |
| `ArgvStacks.StackInit.PushByte` | kernel/crates/major/src/task/loader/stack.rs:52-57 | one byte of user memory is written below the old stack pointer |
| `ArgvStacks.StackInit.PushUsize` | kernel/crates/major/src/task/loader/stack.rs:59-66 | one word is, little-endian |
| `ArgvStacks.StackInit.PushStr` | kernel/crates/major/src/task/loader/stack.rs:36-44 | a terminated string lies at the new stack pointer; everything above stays |
| `ArgvStacks.StackInit.PushPtrs` | kernel/crates/major/src/task/loader/stack.rs:46-50 | the words lie in order at the new stack pointer; everything above stays |
| `ArgvStacks.StackInit.InitStack` | kernel/crates/major/src/task/loader/stack.rs:68-117 | the words from the aligned stack pointer up are argc, argv, its end, the end of the environment and the auxiliary vector; each argv word points to its terminated string; the random words are where the vector says |
| `ArgvStacks.StackInit.PushAuxv` | kernel/crates/major/src/task/loader/stack.rs:91-106 | the exact words of the auxiliary vector and of the empty environment |
| `ArgvStacks.LayoutAt` | kernel/crates/major/src/task/loader/stack.rs:68-117 | at which word above the stack pointer argc, each argument, each auxiliary pair and the ends are |
| `ArgvStacks.WordBytesAt` | kernel/crates/major/src/task/loader/stack.rs:59-66 | byte i of a word counts 256^i |
| `ArgvStacks.AuxvRead` | kernel/crates/major/src/task/loader/stack.rs:95-103 | read as pairs of type and value, the vector gives every pair, last one first, but the pair for the random bytes the wrong way round |
| `ArgvStacks.RandomFoundIff` | kernel/crates/major/src/task/loader/stack.rs:95-103 | so the address of the random bytes is found under its type if and only if the caller's own vector names it |
| `ArgvStacks.LaidOut` | kernel/crates/major/src/task/loader/stack.rs:68-117 | strings pushed first survive the pointer vectors pushed below them |
| `ArgvStacks.Launch` | kernel/crates/major/src/task/loader/stack.rs:68-117 | the arguments the kernel lays out are those user code reads, if and only if none holds a NUL |
| `Processes.BootInv` | kernel/crates/major/src/task/mod.rs:120-134 | the state with only init satisfies the invariant |
| `Processes.ForkInv` | kernel/crates/major/src/task/process.rs:73-117 | fork keeps family tree, pids and queues |
| `Processes.ForkMeans` | kernel/crates/major/src/task/process.rs:73-117 | after a fork exactly one process is new, with a pid not in use, alive and without children, and listed last by the current process, which it names as its parent; all others are as before; it is last in the ready queue |
| `Processes.ForkPids` | kernel/crates/major/src/task/resource.rs:31-38 | an allocated pid was not in use; used and recycled pids are exactly the numbers handed out |
| `Processes.AdoptedIs` | kernel/crates/major/src/task/mod.rs:83-90 | adopting moves exactly the exiting process's children to init, in order |
| `Processes.ExitTree` | kernel/crates/major/src/task/mod.rs:63-118 | exit keeps the tree: every process is in exactly one list of children |
| `Processes.ExitInv` | kernel/crates/major/src/task/mod.rs:63-118 | exit keeps tree, pids and queues; the thread is in no queue |
| `Processes.ReapTree` | kernel/crates/major/src/trap/syscall/process.rs:133-192 | a reaped child leaves the only list it was in |
| `Processes.ReapPids` | kernel/crates/major/src/task/resource.rs:39-64 | its pid goes back once |
| `Processes.WaitInv` | kernel/crates/major/src/trap/syscall/process.rs:133-192 | wait keeps tree, pids and queues |
| `Processes.WaitMeans` | kernel/crates/major/src/trap/syscall/process.rs:133-192 | no child exactly when none matches; a child is reaped exactly when a matching one is a zombie, and then its pid and code are returned and it is gone; otherwise the state stays, or without the no-hang option the caller goes to the end of the ready queue |
| `Processes.WaitForChild` | kernel/crates/major/src/trap/syscall/process.rs:133-192 | a wait by the parent for one child's pid is about that child: its pid and code if it has exited, and never an error |
| `Processes.YieldInv` | kernel/crates/major/src/task/mod.rs:47-59 | yielding keeps the invariant |
| `Processes.SleepInv` | kernel/crates/major/src/trap/syscall/sync.rs:7-14 | sleeping keeps the invariant |
| `Processes.ScheduleInv` | kernel/crates/major/src/task/processor.rs:52-106 | scheduling keeps the invariant |
| `Processes.WakeInv` | kernel/crates/major/src/task/time.rs:43-59 | a firing timer keeps the invariant |
| `Processes.StepInv` | kernel/crates/major/src/task/mod.rs:34-118 | every step keeps the invariant |
| `Processes.RunInv` | kernel/crates/major/src/task/mod.rs:34-118 | over every run: every process but init is a child of exactly one living process, pids in use are distinct, every live thread is in exactly one of current, ready queue and timers |
| `Processes.LifeStep` | kernel/crates/major/src/task/mod.rs:63-118 | only a process's own exit makes it a zombie, with that code; only its parent's exit changes its parent, to init; only its parent's wait takes it away, answering its pid and code |
| `Processes.GoneStays` | kernel/crates/major/src/task/mod.rs:63-118 | over every run, a process that is gone stays gone and a zombie stays one |
| `Processes.Life` | kernel/crates/major/src/task/mod.rs:34-118 | a process still there after a run has its pid, its parent unless that has exited, and is a zombie exactly if it exited in the run, with that code |
| `Processes.ForkThenWait` | kernel/crates/major/src/trap/syscall/process.rs:133-192 | a process forks and later, after any run, waits for the child's pid: unless it has reaped the child before, the answer is that pid with the code the child exited with, or that it has not exited |
| `Processes.ReapedByParent` | kernel/crates/major/src/trap/syscall/process.rs:133-192 | a process gone after a run was reaped in it by a wait of its parent, which got its pid and code |
| `Processes.Fifo` | kernel/crates/major/src/task/mod.rs:47-59 | over every run threads run in the order in which they became ready |
| `Processes.SleepsOn` | kernel/crates/major/src/task/time.rs:43-59 | a sleeper is neither ready nor running in any run without a timer check at or after its expiry |
| `Processes.OneParent` | kernel/crates/major/src/task/mod.rs:83-90 | a process is listed once, by its living recorded parent and by nobody else |
| `Processes.AllDescend` | kernel/crates/major/src/task/mod.rs:83-90 | following parents from any process leads to init |
| `Processes.Kernel.constructor` | kernel/crates/major/src/task/mod.rs:120-134 | boot state |
| `Processes.Kernel.PidAlloc` | kernel/crates/major/src/task/resource.rs:31-38 | last recycled pid first, else the next number |
| `Processes.Kernel.PidFree` | kernel/crates/major/src/task/resource.rs:39-47 | the pid is recycled; it must be in use |
| `Processes.Kernel.ForkCurrent` | kernel/crates/major/src/task/process.rs:73-117 | the returned process is new, alive and childless, with a pid not in use; the current process is its parent and has it as last child; all others are as before, and it is last in the ready queue |
| `Processes.Kernel.ExitCurrent` | kernel/crates/major/src/task/mod.rs:63-118 | the current process is a zombie with that code and without children, which are now the last children of init; all others are as before and no queue holds it |
| `Processes.Kernel.AdoptAll` | kernel/crates/major/src/task/mod.rs:83-90 | the adoption loop moves all children |
| `Processes.Kernel.WaitOnce` | kernel/crates/major/src/trap/syscall/process.rs:133-192 | one round of wait is the specified step |
| `Processes.Kernel.Scan` | kernel/crates/major/src/trap/syscall/process.rs:150-161 | the scan finds whether a child matches and the last matching zombie |
| `Processes.Kernel.ReapChild` | kernel/crates/major/src/trap/syscall/process.rs:166-177 | the child is removed and its pid recycled |
| `Processes.Kernel.Suspend` | kernel/crates/major/src/task/mod.rs:47-59 | the current thread goes to the end of the ready queue |
| `Processes.Kernel.SleepUntil` | kernel/crates/major/src/trap/syscall/sync.rs:7-14 | the current thread goes to the timers with its expiry |
| `Processes.Kernel.RunNext` | kernel/crates/major/src/task/processor.rs:52-106 | the front of the ready queue runs |
| `Processes.Kernel.PeekTimer` | kernel/crates/major/src/task/time.rs:43-59 | a timer that expires first |
| `Processes.Kernel.CheckTimer` | kernel/crates/major/src/task/time.rs:43-59 | wakes exactly what has expired, earliest first: those timers are gone and their threads ready, the others stay; reports whether no timer is left |
| `Processes.ReapFree` | kernel/crates/major/src/task/resource.rs:39-47 | the pid of a child to reap is in use, as freeing it asserts |

## Left out

- FrameAllocators.FrameAllocator.AddFrame: requires frames that are not managed yet and an end below 2^64; the source does not check for frames added twice.
- Heaps.Heap.AddToHeap: requires memory that is not managed yet, as the unsafe source does; a range starting at 0 is taken to panic, as it does with overflow checks or at most 64 lists. What a panic leaves behind is not modelled.
- Heaps.Heap.Dealloc: requires an outstanding block and its own layout, as the source does; what a panic leaves behind is not modelled.
- Heaps.RunAll: holders store and load whole words, and load only what they have stored.
- FatFs.FileSystem.Stats: a volume whose information sector starts with a wrong free count is not modelled; a known count is taken to be true when mounted.
- FatFs.FileSystem.Mount: reading the boot sector and the information sector is not modelled; geometry, count and hint are parameters, and a known count is taken to be true.
- LongNames.ReadName: which entries are skipped, deleted ones and volume labels, is a parameter.
- FatFs.FileSystem.AllocCluster: zeroing the new cluster of a directory is not modelled, because directories are not.
- FatFiles.CursorIndex: the position on the disk that the source computes from the cluster is stated by ReadFlat, not here.
- FatFiles.File.Seek: the branch for a chain shorter than the file size is not reached, because a valid file has clusters for its size.
- PageTables.Ram.FrameFree: dropping a frame is modelled as giving it back; the kernel's wrapper around the allocator (`kernel/crates/memory/src/frame_allocator.rs:112-124`) is not modelled.
- PageTables.PageTable.Map: the source's panic when memory for tables runs out is the result false.
- MemorySets.MemorySet.Push: the optional copying of initial data is not modelled.
- MemorySets.RunAll: a call that runs out of memory ends the run, where the source panics; what it leaves behind is not modelled.
- BlockCaches.DiskDriver.Read: requires the bytes to lie on the disk, as the source assumes, and a buffer below 2^32 bytes; CopyEndsIff says what happens beyond.
- ShortNames.CheckForExistence: requires fewer than 589824 entries, so that the search ends; FailsForeverIff says exactly when it does not.
- ShortNames.FindEntry: whether an entry has the wanted name is a flag of the entry, because comparison ignores case in the original; which entry is returned is stated exactly.
- ShortNames.ShortNameGenerator.constructor: names that start with a character beyond ASCII, on which the source's search for the dot can panic, are not modelled.
- ArgvStacks.StackInit.InitStack: the environment is empty, as it is in every call in the kernel; strings of a nonempty one would leave the stack pointer unaligned for the word pushed next.
- Processes.Kernel.ExitCurrent: init does not exit, and every process has one thread.
- Processes.Kernel.WaitOnce: writing the status word to user memory is not modelled.
- `alloc_aligned` and `dealloc_aligned` of the frame allocator: the same loops with another rounding of the size.
- Spin locks, the rescue allocator and the kernel's global allocator instances.
- Boot sector and information sector encoding, volume labels, dates, file attributes, the dirty flag: codecs of fixed records.
- Directories as files: creating, removing and renaming entries.
- Errors returned by the storage device.
- Conversion of names between UTF-8, UTF-16 and code pages; case-insensitive comparison.
- Linear (kernel) areas, `mmap`, recycling of a whole space at exit, activation of a space and TLB flushes.
- ELF loading, `execve`, signals, file descriptors, `sys_clone` flags, wait options other than WNOHANG, process groups.
- Seeking the disk driver from the end, which the source leaves unimplemented.
- Drivers, traps, assembly, the SBI console and user programs.
- Clock readings are parameters; which timer fires first among equals is left open.
