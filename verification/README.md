# Basekernel: the storage, memory and process core

A Dafny model of the core of a small 32-bit kernel and of its user-space heap, with proofs of what
that core is for. `dafny verify dfyconfig.toml` checks all of it.

## What is modelled

**The user heap** (`library/malloc.c`, in the built configuration: 32-bit words, 8-byte alignment,
no mapped chunks, no footers, no locks, one segment). `Words` and `Bits` give wrapping words, shifts
and the bit tricks; `TreeIndex` the size classes; `Rings` and `Tries` the doubly linked rings and the
bitwise digital tries, as invariants on links alone; `Bins` all bins together with their maps;
`BestFit` the search; `Tiling` the chunks with their boundary tags. The class `Malloc.MState` has the
heap's own fields and rewrites heads, feet, links, maps, victim and top in place, as the source does;
its ghost fields say what the links mean.

**The disk stack** (`kernel/fs.c` over `kernel/diskfs.c` over `kernel/bcache.c`). `Bcache` is the
bounded write-back cache, with a logical disk that only writes change. `Codec` is the union of block
layouts at the level of bytes. `DiskState` says what a well-formed volume is: pointers, direct,
indirect and inside indirect blocks, never name the same block, and what is named is marked.
`DiskFs`, `Dirents` and `Format` are the file system over it, `Directory` the meaning of a directory
as a map, `Fs` the byte-level reads and writes and the reference counts. `FileRuns` and `Persistence`
are about whole runs.

**Kernel memory** (`kernel/kmalloc.c`, `kernel/page.c`, `kernel/pagetable.c`). `Kmalloc` is the
first-fit heap with its list of chunks; `Pages` the page bitmap and physical memory; `TableState` and
`PageTables` the two-level page tables (32-bit paging, section 4.3 of the Intel Software Developer's
Manual, Volume 3A) as a flat page map; `Fork` whole runs over one and two tables.

**Processes** (`kernel/process.c`, `kernel/mutex.c`, `kernel/event_queue.c`, `kernel/pipe.c`,
`kernel/list.c`). `Lists` is the intrusive list with its pointers. `ProcessState` and `Processes`
are the scheduler as a machine whose steps interrupts cannot split: system calls and interrupt
handlers run with interrupts off, and preemption is never switched on (`kernel/process.c:301`).
`Mutexes`, `EventQueues` and `Pipes` are machines of smaller steps, which other processes or
interrupts may come between.

Sizes, addresses and words are numbers; where the source wraps, the model says so. What the source
gets from outside is a parameter: the device's answer to a read (`io`), a failing allocation
(`outOfMemory`), the uninitialised dirty flag of a new cache entry (`garbage`), the steps of a run.

## Where the code does less than it means to

Each of these is stated with its exact condition, and with an input for which it happens.

- Allocation numbers blocks so that every block has one bit only with one bitmap block or at most
  4096 data blocks (`DiskFs.AllocationNumbering`); freeing finds the bit of a block only below 4096
  (`DiskFs.FreeNumbering`); format makes such a volume exactly on devices below 32796 blocks
  (`Format.FormatNumbering`). The volume invariant asks for it.
- Creating a file succeeds although its name does not go into the directory, exactly when there is no
  room for a write of the block that the entry goes to (`Dirents.Dirent.Add`,
  `Dirents.Dirent.Create`, `Persistence.NameLost`).
- Format does not count the superblock, so the last data block of every volume it makes lies one block
  past the end of the device (`Format.FormatEnd`); on a device of 31 blocks that is the root directory.
- Taking a node out of a list leaves the list's count as it was exactly when the node is neither the
  first nor the last (`Lists.List.Remove`, `Lists.MiddleRemoved`).
- Mapping over a page that came with its old mapping loses that page: it is neither the table's nor
  free afterwards. Every other mapping keeps the balance of pages (`PageTables.MapBalance`,
  `PageTables.PageLost`).
- A page mapped for the user is within the user's reach exactly when its directory entry was absent or
  the user's already; one made for the kernel is left as it is (`PageTables.Pagetable.Map`,
  `PageTables.OutOfReach`).
- The pid given out last is never looked at again until another one has been found, so allocation
  fails exactly when every other pid is taken (`Processes.Scheduler.AllocatePid`,
  `Processes.LastPidFree`).
- Waiting for one child is answered by any dead child, and by any dead process with the pid: the
  answer is the one asked for exactly when that process is in the grave and no child lies before it
  (`Processes.Scheduler.WaitChild`, `Processes.AnswerIsDue`, `Processes.OtherChildAnswers`).
- A non-blocking pipe write overruns the reader exactly when the reader is at position 0 and there is
  less room than there are bytes (`Pipes.Pipe.WriteNonblock`, `Pipes.Overrun`); the test that is to
  prevent it fails at one position (`Pipes.NonblockingFullTest`).

## Model

| member | source | states |
|---|---|---|
| Words.PrefixByDivision | library/malloc.c:4435-4453 | Shifting bit by bit, as the trie walks do, reads the leading bits of a size: the first n bits are the quotient, and the shifted word is the remainder times a power of two, of a division by a power of two. |
| Words.FirstDifference | library/malloc.c:4439-4454 | Of two sizes with equal leading bits, the one with a 0 next is smaller: turning left in a trie goes to smaller sizes. |
| TreeIndex.IndexRange | library/malloc.c:2843-2918 | Every large size lies in the range of the tree bin that compute_tree_index gives it: at least that bin's least size and below the next bin's. |
| TreeIndex.IndexMonotone | library/malloc.c:2843-2855 | A bin with a larger index holds only larger sizes. |
| TreeIndex.SameIndexPrefix | library/malloc.c:2910-2913 | All sizes of one bin agree on the bits that leftshift_for_tree_index skips. |
| Bits.LowestSetBit | library/malloc.c:2935-2951 | compute_bit2idx of least_bit is the index of the lowest set bit of a map. |
| Bits.NextSetBit | library/malloc.c:4457-4462 | The left_bits trick finds the next set bit above an index, and gives 0 exactly when there is none. |
| Bits.TwoSmallBits | library/malloc.c:4575-4579 | The two low bits of the shifted small map say whether the bin asked for or the next one has a chunk, and which of them is used. |
| Bits.NextSmallBit | library/malloc.c:4591-4597 | The shifted map and left_bits together find the next nonempty small bin. |
| Bits.With | library/malloc.c:2926-2930 | Setting a bit of a bin map changes that bit and no other. |
| Bits.Without | library/malloc.c:2927-2931 | Clearing a bit of a bin map changes that bit and no other. |
| Rings.InsertAfterOk | library/malloc.c:3595-3598 | Linking a chunk right behind the owner of a ring keeps every ring well linked: fd and bk inverse to each other, one owner and one rank each. |
| Rings.RemoveOk | library/malloc.c:3615-3616 | Unlinking a chunk that does not own its ring keeps every ring well linked. |
| Rings.PromoteOk | library/malloc.c:3732-3737 | A ring survives its owner: with the chunk before it as the new owner every ring is well linked. |
| Rings.DropPairOk | library/malloc.c:3610-3612 | A ring of an owner and one chunk may fall apart with no link written: the others stay well linked. |
| Tries.Descend | library/malloc.c:4435-4454 | Below a node, every other node is below the child that its next bit picks, so no walk by bits misses a size. |
| Tries.BelowRoot | library/malloc.c:4433-4433 | Every node of a bin is below the bin's root. |
| Tries.SubtreeOrder | library/malloc.c:4447-4450 | Everything in a right subtree that a walk leaves aside is larger than everything further along the walk. |
| Tries.AddRootOk | library/malloc.c:3667-3673 | A new root keeps the digital trie well formed: bits pick children, links agree both ways, one node per size, headers lead to roots. |
| Tries.AddChildOk | library/malloc.c:3676-3688 | A node hung into the empty place that its bits lead to keeps the trie well formed. |
| Tries.RemoveLeafOk | library/malloc.c:3738-3769 | Cutting off a node without children keeps the trie well formed. |
| Tries.ReplaceOk | library/malloc.c:3753-3796 | A node put into another's place, with its parent and children, keeps the trie well formed; the order survives because the size leads there too. |
| Bins.InsertSmallStep | library/malloc.c:3583-3599 | The link writes of insert_small_chunk keep the invariant of all bins, with its map, and bin exactly one chunk more. |
| Bins.RemoveSmallStep | library/malloc.c:3602-3625 | The link writes of unlink_small_chunk keep the invariant of all bins and take exactly this chunk out. |
| Bins.ChainStep | library/malloc.c:3692-3701 | A chunk of a size that has a node goes onto that node's ring: the invariant of all bins holds and exactly this chunk is binned besides. |
| Bins.PlantStep | library/malloc.c:3667-3673 | The first chunk of a tree bin becomes its root and the map bit is set: invariant kept, exactly this chunk added. |
| Bins.GraftStep | library/malloc.c:3680-3688 | A chunk of a new size becomes a node in the empty place its bits lead to: invariant kept, exactly this chunk added. |
| Bins.UnchainStep | library/malloc.c:3732-3737 | A chunk that hangs behind a node leaves it without touching the tree: invariant kept, exactly this chunk gone. |
| Bins.PromoteStep | library/malloc.c:3732-3796 | When a node with chunks behind it goes, the one before it takes over its place in the tree: invariant kept, exactly this chunk gone. |
| Bins.UprootStep | library/malloc.c:3738-3775 | A lone node without children goes, with its map bit when it was the root: invariant kept, exactly this chunk gone. |
| Bins.MoveLeafStep | library/malloc.c:3738-3796 | A lone node with children is replaced by any leaf from below it: invariant kept, exactly this chunk gone. |
| Bins.FirstInSmallBin | library/malloc.c:4577-4583 | A marked small bin has a first chunk, and its size is the bin's size. |
| Bins.PlaceOfChunk | library/malloc.c:3729-3737 | A large binned chunk is a tree node exactly when it has a parent; otherwise it hangs behind a node, so the test of unlink_large_chunk tells them apart. |
| Malloc.MState.InsertSmallChunk | library/malloc.c:3583-3599 | The links written in place are those of the step: invariant kept, the binned chunks gain exactly this one. |
| Malloc.MState.UnlinkSmallChunk | library/malloc.c:3602-3643 | The same for leaving a small bin; the binned chunks lose exactly this one. |
| Malloc.MState.WalkDown | library/malloc.c:3674-3709 | The insertion loop ends, within the bits of a word, at the node of the same size or at the empty place for the size. |
| Malloc.MState.InsertLargeChunk | library/malloc.c:3661-3710 | insert_large_chunk keeps the whole bin invariant and bins exactly one chunk more. |
| Malloc.MState.FindLeaf | library/malloc.c:3738-3747 | The walk for a replacement ends at a leaf below the node, with the place it hangs in. |
| Malloc.MState.UnlinkLargeChunk | library/malloc.c:3729-3798 | unlink_large_chunk keeps the whole bin invariant and bins exactly one chunk less, in each of its four shapes. |
| BestFit.TrialRemainder | library/malloc.c:4439-4444 | The wrapping remainders order candidates rightly: below the request they are larger than any remainder of a fit. |
| BestFit.WalkStep | library/malloc.c:4437-4454 | One step of the walk keeps it true that every fitting node lies ahead, in the subtree set aside, or is no better than the best so far. |
| BestFit.LeftmostStep | library/malloc.c:4466-4473 | One step to the leftmost child keeps it true that everything better lies ahead. |
| BestFit.NextBin | library/malloc.c:4456-4464 | When the request's own bin has no fit, all fits are in later bins and the least of them in the next nonempty one. |
| Malloc.MState.WalkForFit | library/malloc.c:4429-4455 | After the walk, the best so far and the subtree set aside together cover every fit of the bin. |
| Malloc.MState.Leftmost | library/malloc.c:4466-4473 | The descent ends with the best fit of the subtree. |
| Malloc.MState.SearchLarge | library/malloc.c:4428-4473 | Best fit: the chunk found is a least one among all tree chunks that hold the request, and none is found only when none holds it. |
| Malloc.MState.SearchSmall | library/malloc.c:4500-4514 | tmalloc_small finds a least chunk among all tree chunks. |
| Tiling.Disjoint | library/malloc.c:3436-3463 | Chunks that tile the segment do not overlap, and top is the last. |
| Tiling.Occupy | library/malloc.c:3087-3090 | set_inuse_and_pinuse on a free chunk keeps the boundary tags right and hands out exactly that chunk. |
| Tiling.Carve | library/malloc.c:4607-4609 | Splitting a free chunk keeps the tags right; the front is handed out and the rest is free with its foot. |
| Tiling.CarveTop | library/malloc.c:4651-4656 | Splitting the top keeps the tags right and hands out exactly the front. |
| Tiling.ReleaseBeforeUsed | library/malloc.c:4743-4744 | Freeing a chunk before one in use, joined with a free one in front of it, keeps the tags right and leaves no two free neighbours. |
| Tiling.ReleaseBeforeFree | library/malloc.c:4726-4742 | Freeing a chunk before a free one joins them, with the one in front too. |
| Tiling.ReleaseBeforeTop | library/malloc.c:4714-4725 | Freeing a chunk before the top gives it to the top. |
| Malloc.Need | library/malloc.c:2225-2239 | The chunk that a request needs is the least multiple of 8 that is at least 16 bytes and holds the request and one word. |
| Malloc.RequestSizes | library/malloc.c:2230-2239 | Below 0xFFFFFFC0 the size that dlmalloc computes is the one needed, and small requests are those whose chunk is below 256 bytes. |
| Malloc.MState.constructor | library/malloc.c:3910-3934 | From the first aligned address on, a new heap is one top chunk with empty bins, and satisfies the whole invariant. |
| Malloc.MState.ReplaceDv | library/malloc.c:3647-3656 | replace_dv makes the rest of the chunk the victim and bins the old one, if there was one, and nothing else. |
| Malloc.MState.TmallocLarge | library/malloc.c:4426-4495 | The chunk taken is a least tree chunk that fits, and only when it fits better than the victim; otherwise nothing changes. |
| Malloc.MState.TmallocSmall | library/malloc.c:4498-4534 | A small request is served from the least tree chunk, and what is left of it becomes the victim. |
| Malloc.MState.MallocSmall | library/malloc.c:4570-4621 | Small requests: the least binned chunk that fits is taken, past a victim that fits only when it can be used whole; nothing changes when the victim is to be used or no binned chunk fits. |
| Malloc.MState.MallocRest | library/malloc.c:4632-4661 | The victim is used when it fits, then the top; 0 only when no free chunk holds the request and top is not larger than it. |
| Malloc.MState.Malloc | library/malloc.c:4538-4671 | 0 comes back if and only if the request is at least 0xFFFFFFC0 bytes, or every free chunk is smaller than the least possible chunk for it and top is not larger than that; then nothing has changed. Otherwise one new chunk is handed out, less than 16 bytes larger than needed, all others are left alone and the invariant is kept. A binned chunk is picked only when it is a least fit; the victim is passed over by a small request only for a chunk without remainder, by a large one only for a better fit; top comes last. The rest of the chunk becomes the victim (the old one goes to a bin), or for a large request goes to a bin, or stays victim or top. |
| Malloc.MState.MergeBack | library/malloc.c:4690-4711 | Consolidating backward takes the free chunk in front out of its bin, unless it is the victim. |
| Malloc.MState.DisposeChunk | library/malloc.c:4360-4421 | dispose_chunk gives back exactly the one chunk and keeps the invariant. Joined with its free neighbours it becomes part of top if that is behind it, part of the victim if that is next to it, and else goes to a bin; nothing else moves. |
| Malloc.MState.FreeMem | library/malloc.c:4675-4776 | dlfree gives back exactly the one chunk, to top, the victim or a bin as dispose_chunk does, and keeps the invariant; freeing 0 does nothing. |
| Malloc.MState.Run | library/malloc.c:4538-4776 | In any run of requests and releases the chunks tile the segment with right tags and no two free neighbours, every free chunk is in exactly one of bin, victim and top, and the live pointers are exactly the chunks in use, each with room for its request; when none is live, the segment is one top chunk. |
| Malloc.PayloadsDisjoint | library/malloc.c:3299-3313 | The memory of two live pointers never overlaps, and lies inside the segment below the top. |
| Malloc.AllReleased | library/malloc.c:4712-4770 | When everything has been released, in whatever order, the segment is one top chunk again, with empty bins and no victim. |
| Bcache.Cache.Evict | kernel/bcache.c:51-71 | Cleaning and dropping the oldest entry does not change the logical disk. |
| Bcache.Cache.Trim | kernel/bcache.c:62-71 | The oldest entries go until 100 remain, and the logical disk is unchanged. |
| Bcache.Cache.FindOrCreate | kernel/bcache.c:88-103 | A block that is cached is found and nothing changes. Otherwise a new entry is at the front and the oldest of a full cache is gone, keys stay unique and all other blocks keep their meaning, whatever the dirty flag of the new entry says; without memory for it nothing changes. |
| Bcache.Cache.ReadBlock | kernel/bcache.c:105-129 | A cached block is read whatever the device would say, and any other one as the device and the memory allow. A read returns the block of the logical disk and leaves it cached; a failed one leaves it out, and the logical disk as it was. |
| Bcache.Cache.WriteBlock | kernel/bcache.c:151-168 | A write changes the logical disk at that block only; it fails exactly when the block is not cached and there is no memory. |
| Bcache.Cache.Read | kernel/bcache.c:131-148 | Reading several blocks returns them in order, up to the first failure. |
| Bcache.Cache.Write | kernel/bcache.c:170-187 | Writing several blocks changes exactly those of the logical disk. |
| Bcache.Cache.FlushBlock | kernel/bcache.c:190-195 | After the flush the device holds that block of the logical disk, and its other blocks are as before. |
| Bcache.Cache.FlushDevice | kernel/bcache.c:197-208 | After the flush the device itself equals the logical disk, and other devices are as before. |
| Bcache.Cache.FlushAll | kernel/bcache.c:210-219 | After the flush every device equals the logical disk. |
| Bcache.Cache.Run | kernel/bcache.c:51-219 | Cache transparency: in any run of reads, writes and flushes, a read that succeeds returns what a plain disk would, at every moment of the run, and the logical disk ends as the plain disk. Only the device or want of memory makes a call fail; after a last flush the devices equal the plain disk. |
| Codec.InodeBytes | kernel/diskfs.h:30-35 | Inode j of a block is nine words with the low byte first, from byte 36 j on: in use, size, six pointers, the indirect one. |
| Codec.PointerBytes | kernel/diskfs.h:53-61 | Pointer j of an indirect block is the word at byte 4 j. |
| Codec.ItemBytes | kernel/diskfs.h:37-51 | Item j of a directory block is 32 bytes: the inode number, the kind (0, 1 or 2), the length of the name and 26 bytes for it. |
| Codec.PointerSet | kernel/diskfs.h:53-61 | Setting a pointer of a pointer block changes that pointer and no other. |
| Codec.InodeRoundTrip | kernel/diskfs.h:30-35 | An inode stored in a block reads back the same. |
| Codec.InodeSet | kernel/diskfs.h:53-61 | Setting an inode of an inode block changes that inode and no other. |
| Codec.ItemRoundTrip | kernel/diskfs.h:44-51 | A directory item stored in a block reads back the same. |
| Codec.ItemSet | kernel/diskfs.h:53-61 | Setting an item of a directory block changes that item and no other. |
| DiskState.UnmarkedIsUnnamed | kernel/diskfs.c:77-111 | A block that is not marked is named by no pointer: what allocation hands out is nobody's. |
| DiskState.TakeOne | kernel/diskfs.c:83-103 | Marking an unmarked block leaves exactly one block less to allocate. |
| DiskState.DirectStep | kernel/diskfs.c:207-225 | A new block under a direct pointer keeps all pointers of all files apart and marked, and disturbs no other block of any file. |
| DiskState.IndirectStep | kernel/diskfs.c:226-236 | A new indirect block, cleared, does the same. |
| DiskState.IndirectSpace | kernel/diskfs.c:224-246 | With its indirect block allocated, a file needs one block where it needed two, and there is room for the write exactly when there was before. |
| DiskState.EntryStep | kernel/diskfs.c:237-246 | A new block under an entry of the indirect block does the same. |
| DiskState.WriteStep | kernel/diskfs.c:247-250 | Writing the block that a file block has changes that one block of that one file. |
| DiskState.EmptyStep | kernel/diskfs.c:401-423 | Clearing a new inode makes all its blocks holes and disturbs no other file. |
| DiskState.FileBlocks | kernel/diskfs.c:193-205 | Where a file is, in bytes: block i is named by the word at byte 8 + 4 i of its 36-byte inode for the first six, and else by word i - 6 of the indirect block that the word at byte 32 names; inode n is in inode block n / 113; numbers count from the data region. |
| DiskState.BitmapBits | kernel/diskfs.c:77-111 | Data block k is marked by bit k % 8 of byte k / 8 of the bitmap. |
| DiskFs.Volume.constructor | kernel/diskfs.c:515-546 | A volume object over a cache sees exactly the logical disk of its device. |
| DiskFs.Volume.BlockRead | kernel/diskfs.c:19-22 | A block read returns the volume's block. |
| DiskFs.Volume.BlockWrite | kernel/diskfs.c:24-27 | A block write changes that block of the volume and nothing else. |
| DiskFs.Volume.DataBlockAlloc | kernel/diskfs.c:77-111 | The first block that is unmarked, not 0 and inside the data region gets marked; 0 comes back only when every one of them is marked. |
| DiskFs.Volume.InodeSave | kernel/diskfs.c:177-191 | Saving an inode changes that inode and nothing else. |
| DiskFs.Volume.InodeLoad | kernel/diskfs.c:162-175 | Loading returns the inode as last saved. |
| DiskFs.Volume.InumberAlloc | kernel/diskfs.c:128-150 | The first unused inode is put in use; 0 comes back only when all are in use. |
| DiskFs.AllocationNumbering | kernel/diskfs.c:83-101 | Allocation gives each block one bit of the bitmap if and only if there is one bitmap block or there are at most 4096 data blocks; otherwise block 4096 has two. |
| DiskFs.FreeNumbering | kernel/diskfs.c:113-126 | Freeing clears the bit that allocation set if and only if the block is below 4096 (on a volume with one bitmap block). |
| Dirents.Dirent.ReadBlock | kernel/diskfs.c:193-205 | Reading a file block returns its contents, and block 0, which is zero, for a hole. |
| Dirents.Dirent.WriteBlock | kernel/diskfs.c:207-251 | The block becomes what was written, no other block of any file changes, no two pointers name one block. It fails if and only if fewer blocks are free than the write has to allocate (none, one, or two with the indirect block), and then changes no file; when it succeeds exactly that many are taken. |
| Dirents.Dirent.Save | kernel/diskfs.c:177-191 | Saving the private inode copy puts exactly that inode on the volume. |
| Dirents.Dirent.Close | kernel/diskfs.c:269-274 | Closing saves the inode and disturbs no file. |
| Dirents.Dirent.Lookup | kernel/diskfs.c:283-307 | The result is a fresh dirent for what the directory maps the name to, or none exactly when the name is not in the directory. |
| Dirents.Dirent.Add | kernel/diskfs.c:351-399 | The entry goes to the first blank item, or to a new block, and the size takes it in. The directory gains exactly this entry if and only if there is room for a write of that block; otherwise it means what it did. |
| Dirents.Dirent.Create | kernel/diskfs.c:401-423 | Creation fails exactly for a long name, a name that is there, or no free inode, and then changes nothing. Otherwise the new file is empty, no other file changes, and the directory gains the name if and only if there was room for the entry. |
| Directory.ItemPlace | kernel/diskfs.c:283-307 | Item s of a directory is in its block s / 128, at byte 32 (s % 128); the name is as many bytes of the field as the length says. |
| Directory.EntriesSet | kernel/diskfs.c:351-386 | Filling a blank slot adds exactly one name to what the items mean, since names are unique. |
| Directory.AbsentFromEntries | kernel/diskfs.c:278-307 | A name that no item carries is not in the directory, and the other way round. |
| Directory.AddStep | kernel/diskfs.c:358-379 | An entry in a blank slot keeps names unique and slots past the size blank, and adds one name to the directory. |
| Directory.GrowStep | kernel/diskfs.c:380-394 | An entry in a new block does the same for a directory that was full. |
| Directory.TwoAreEnough | kernel/diskfs.c:351-399 | Two free blocks are always room for one entry. |
| Directory.DirKept | kernel/diskfs.c:351-399 | What happens to other files does not change what a directory means. |
| Format.SuperblockRoundTrip | kernel/diskfs.h:19-28 | The superblock written by format is read back by open, with its magic number. |
| Format.SuperblockBytes | kernel/diskfs.h:19-28 | The fields of a superblock are its first eight words; the magic number is there exactly when it begins with 21 43 cd ab. |
| Format.FormatEnd | kernel/diskfs.c:569-580 | A data block of a formatted volume lies on the device if and only if it is not the last one. |
| Format.FormatNumbering | kernel/diskfs.c:558-580 | Format lays out a volume whose blocks have one bit each if and only if the device has fewer than 32796 blocks. |
| Format.VolumeFormat | kernel/diskfs.c:558-631 | After format the device holds, byte by byte, the superblock (from 21 43 cd ab on), an inode table that is zero but for the root, a bitmap with blocks 0 and 1, and a root directory with the entry "."; every other block is as before, and all of it is on the device. |
| Format.VolumeOpen | kernel/diskfs.c:515-546 | Opening succeeds exactly when the first bytes of the device are 21 43 cd ab, and takes the layout from the words at bytes 8 to 31. |
| Format.FormattedOk | kernel/diskfs.c:558-631 | A formatted volume satisfies the whole volume invariant. |
| Format.FormattedRoot | kernel/diskfs.c:600-626 | Its root directory has the one entry for itself. |
| Fs.Read | kernel/fs.c:251-309 | A read returns exactly the bytes from the offset, cut at the size, for every alignment and length. |
| Fs.Write | kernel/fs.c:347-411 | Exactly a prefix of the buffer is written, all of it unless the volume is full, no other byte of any file changes, and the size becomes the maximum. |
| Fs.WriteSplices | kernel/fs.c:347-411 | On a file as one sequence of bytes, a complete write is a splice, with zeros in a gap. |
| Fs.ReadSlices | kernel/fs.c:251-309 | On a file as one sequence of bytes, a read is a slice. |
| Fs.VolumeClose | kernel/fs.c:147-162 | The last reference flushes: the device equals the volume. |
| Fs.VolumeRoot | kernel/fs.c:164-173 | The root dirent is fresh and holds a reference to the volume. |
| Fs.Mkfile | kernel/fs.c:325-337 | As creation, with one more reference to the volume for the new dirent. |
| Fs.Lookup | kernel/fs.c:183-198 | As directory lookup; "." gives the directory itself once more. |
| Fs.DirentClose | kernel/fs.c:234-249 | The last reference saves the inode and lets go of the volume; earlier ones only count down. |
| FileRuns.Run | kernel/diskfs.c:193-251 | In any run of block writes and reads over several open files, a read returns the last block written there, or what was there before; no write disturbs another block; if a write fails, the volume is full. |
| FileRuns.CreateAll | kernel/diskfs.c:351-423 | In any run of creations with space, the directory means what it meant and the new names besides, all distinct, each on an inode of its own that was not in use. |
| Persistence.NameLost | kernel/diskfs.c:351-423 | An input for which creation succeeds and the name is not stored: a new directory on a volume of 32 blocks whose one free block is taken. |
| Persistence.WriteEach | kernel/fs.c:347-411 | Any sequence of writes, with enough free blocks, leaves the splices of all of them and no other file changed. |
| Persistence.CloseAll | kernel/fs.c:147-249 | After closing the file, the root and the volume, the device holds a volume with this root directory and exactly this file, and no other file has changed. |
| Persistence.ReadBack | kernel/fs.c:126-309 | Through a cache that starts empty over what the device holds, the volume opens, the name is found and the bytes are read. |
| Persistence.Persist | kernel/fs.c:126-411 | End to end, on any well-formed volume with a free inode and room: open, make a file, write anywhere, close everything, open again with an empty cache, look up and read: the bytes are those written, zeros in the holes. On the device every file that was there keeps inode and blocks, and the root directory every name. |
| Persistence.FormatAndPersist | kernel/fs.c:118-411 | The same from a device that is formatted first. |
| Kmalloc.Kheap.Ksplit | kernel/kmalloc.c:46-60 | Splitting a chunk keeps links and tiling; the list of chunks has exactly the rest inserted. |
| Kmalloc.Kheap.Kmalloc | kernel/kmalloc.c:69-100 | The first free chunk with room for the rounded request and the header is taken, split where a rest remains; 0 only when there is none. |
| Kmalloc.Kheap.Kmerge | kernel/kmalloc.c:107-123 | Two free neighbours become one chunk, and nothing else changes. |
| Kmalloc.Kheap.Kfree | kernel/kmalloc.c:130-144 | The chunk is freed and joined with its free neighbours; a chunk that is not in use is left alone. |
| Kmalloc.Kheap.Run | kernel/kmalloc.c:69-144 | In any run the chunks tile the heap and no two neighbours are free, the chunks in use are exactly those handed out and not given back, each with room; when all are given back the heap is as it began. |
| Kmalloc.TakenOk | kernel/kmalloc.c:69-100 | Taking a chunk keeps the heap well formed, and what is left over becomes a free chunk exactly when it is longer than two headers. |
| Kmalloc.ReleasedOk | kernel/kmalloc.c:107-144 | Releasing a chunk keeps the heap well formed, with no two free neighbours. |
| Kmalloc.UsedTaken | kernel/kmalloc.c:69-100 | Taking adds exactly one chunk in use. |
| Kmalloc.UsedReleased | kernel/kmalloc.c:130-144 | Releasing removes exactly one chunk in use, whatever is merged. |
| Kmalloc.TakeThenRelease | kernel/kmalloc.c:69-144 | Freeing what was just allocated restores the exact list of chunks. |
| Kmalloc.NothingUsed | kernel/kmalloc.c:32-39 | A heap with nothing in use is the single free chunk that kmalloc_init made. |
| Kmalloc.PayloadsApart | kernel/kmalloc.c:69-100 | Live payloads do not overlap and lie inside the heap, each as long as asked. |
| Pages.Machine.PageAlloc | kernel/page.c:62-96 | The lowest free page is handed out, from 2 MB up, cleared if asked, and no page changes state but this one; 0 only when there is none. |
| Pages.Machine.PageFree | kernel/page.c:98-107 | Exactly this page becomes free, and the counter follows. |
| TableState.SetLeafAt | kernel/pagetable.c:119-133 | Setting an entry changes the meaning of that virtual page only. |
| TableState.SetLeafOk | kernel/pagetable.c:119-133 | It keeps every table and every page that came with a mapping in exactly one place. |
| PageTables.Pagetable.GetMap | kernel/pagetable.c:53-84 | The result is what the flat page map says for the address. |
| PageTables.Pagetable.Map | kernel/pagetable.c:86-137 | The flat map changes at this page only, to the page asked for or to one that was free, cleared if asked; memory of others is unaffected. The page can be written to as asked, and user code reaches it if and only if that was asked and the directory entry was absent or the user's; entries that were there are left alone. The pages of the table and the free ones stay the same together, but for the page of its own that a replaced mapping had. |
| PageTables.OutOfReach | kernel/pagetable.c:102-121 | An input for which a page mapped for the user is out of the user's reach: the first page below a table made for the kernel. |
| PageTables.MapBalance | kernel/pagetable.c:119-133 | Mapping keeps the balance of pages if and only if it does not replace a mapping that came with a page of its own; then that page is neither the table's nor free. |
| PageTables.PageLost | kernel/pagetable.c:119-133 | An input for which a page is lost: one mapping with its own page, mapped over. |
| PageTables.Pagetable.Unmap | kernel/pagetable.c:139-153 | The page becomes absent, no other page changes and no directory entry does. |
| PageTables.Pagetable.AllocRange | kernel/pagetable.c:181-198 | Exactly the missing pages of the range get pages of their own, cleared if asked, with the rights asked for as far as their directory entries allow. |
| PageTables.Pagetable.FreeRange | kernel/pagetable.c:200-220 | Exactly the pages of the range become absent, and those that came with the mapping are free again. |
| PageTables.Pagetable.Delete | kernel/pagetable.c:155-179 | Every table page and every page that came with a mapping is freed exactly once. |
| PageTables.Pagetable.Duplicate | kernel/pagetable.c:243-294 | The copy maps the same pages, with the same rights in the entries and over both levels together, pages that came with a mapping in fresh pages with equal contents, others shared; the source is unchanged and the two own no page in common. |
| Fork.Create | kernel/pagetable.c:35-38 | A new table is empty and owns one page that was free. |
| Fork.OwnPagesDistinct | kernel/pagetable.c:86-137 | Two virtual pages whose pages came with the mapping never share one. |
| Fork.TableUntouched | kernel/pagetable.c:86-220 | A table and the contents of its pages do not notice what happens to pages that are not its own. |
| Fork.RunAndDelete | kernel/pagetable.c:86-220 | Whatever one table does, mapping and unmapping included, and its deletion, leaves another table's mappings and pages as they were. |
| Fork.ForkAndDelete | kernel/pagetable.c:155-294 | Fork isolation: after duplication either one may run in any way and be deleted; the other maps and holds what it did. |
| Fork.CreateRunDelete | kernel/pagetable.c:35-220 | Page conservation: after creation, any run and deletion, the free pages and their counter are back at the start, but for the pages lost by mapping over or unmapping; a run of allocations, frees and stores loses none. The one other outcome is that the pages run out. |
| Lists.List.PushHead | kernel/list.c:9-21 | The list is the node and then what it was. |
| Lists.List.PushTail | kernel/list.c:23-35 | The list is what it was and then the node. |
| Lists.List.PopHead | kernel/list.c:65-79 | The first node comes off, if there is one. |
| Lists.List.PopTail | kernel/list.c:81-95 | The last node comes off, if there is one. |
| Lists.List.Remove | kernel/list.c:97-114 | Exactly the node comes out, from any place; the count goes down exactly when it was the first or the last. |
| Lists.MiddleRemoved | kernel/list.c:97-114 | An input for which the count is wrong: three nodes, the middle one removed. |
| ProcessState.PidsDiffer | kernel/process.c:191-198 | Different live processes have different pids. |
| ProcessState.SomePlace | kernel/process.c:240-299 | A launched process is running, on the ready list, on a wait queue or in the grave. |
| ProcessState.OnePlace | kernel/process.c:240-299 | It is in no second place: not on two lists, not twice on one, not running as well. |
| Processes.Scheduler.constructor | kernel/process.c:28-38 | After process_init one process, with pid 1, is running, and the invariant of all runs holds. |
| Processes.Scheduler.AllocatePid | kernel/process.c:86-107 | The next free pid in cyclic order; it fails if and only if all pids are taken but perhaps the one given out last, which is not looked at again. |
| Processes.LastPidFree | kernel/process.c:92-104 | An input for which a pid is free and none is found. |
| Processes.Scheduler.Create | kernel/process.c:191-224 | A new process gets a pid of its own and is nowhere yet. |
| Processes.Scheduler.Launch | kernel/process.c:240-243 | The process goes to the tail of the ready list. |
| Processes.Scheduler.Dispatch | kernel/process.c:272-284 | The first ready process runs; with none ready nothing changes. |
| Processes.Scheduler.Yield | kernel/process.c:303-315 | The running process goes to the tail of the ready list and the head runs. |
| Processes.Scheduler.Wait | kernel/process.c:326-330 | The running process goes to the tail of the queue and the first ready one runs. |
| Processes.Scheduler.Wakeup | kernel/process.c:332-340 | The process that has waited longest becomes the last of the ready ones. |
| Processes.Scheduler.WakeupAll | kernel/process.c:367-374 | All waiting processes become ready, in order. |
| Processes.Scheduler.WakeupParent | kernel/process.c:351-365 | Afterwards no parent on the queue waits for the running process, and at most one was woken. |
| Processes.Scheduler.Exit | kernel/process.c:317-324 | The process ends in the grave with its exit code; a parent that waited for it is ready or running, and one that asks later finds it. All pids and parents, and the exit codes of others, stay as they were; only the woken parent stops waiting. |
| Processes.Scheduler.WaitChild | kernel/process.c:460-474 | The first dead process that answers is found if there is one, with its exit code; otherwise the caller waits, and nothing in the grave answers it. A wait for one pid is answered with that pid if and only if that process is in the grave and no child of the caller lies before it. |
| Processes.AnswerIsDue | kernel/process.c:461-471 | That condition, for the first answer in any state. |
| Processes.OtherChildAnswers | kernel/process.c:464-469 | An input for which a wait for one child is answered by another. |
| Processes.Scheduler.Reap | kernel/process.c:483-496 | The first dead process with the pid is deleted and its pid is free; 1 exactly when there is none. |
| Processes.Scheduler.ReapAll | kernel/process.c:342-348 | Exactly the processes in the grave are deleted; nothing else changes its list. |
| Processes.Scheduler.Run | kernel/process.c:86-496 | In any run every launched, unreaped process is in exactly one place, live pids differ, and no parent waits for a child in the grave. |
| Mutexes.LetGo | kernel/mutex.c:22-28 | Letting go hands on: if anyone sleeps, the one who slept longest is ready and has yet to look. |
| Mutexes.Mutex.LockStep | kernel/mutex.c:11-20 | One look at the lock takes it if it is free, disturbing nobody, and goes to the tail of its queue if not, and the first ready process runs. |
| Mutexes.Mutex.Unlock | kernel/mutex.c:22-28 | The lock is free and the first sleeper is ready, to look at it again. |
| Mutexes.Mutex.Run | kernel/mutex.c:11-28 | For any number of processes, which are created, sleep, wait for children, exit and are reaped in any interleaving: at most one holds the lock, it is set exactly when one does, and when it is free while some sleep, one that was woken is ready or running. |
| Mutexes.FromTheStart | kernel/mutex.c:11-28 | The same from a machine that has just started. |
| RingBuffers.PutPending | kernel/event_queue.c:48-52 | What is put in at the head is the last item pending. |
| RingBuffers.TakePending | kernel/event_queue.c:87-88 | The first item pending is what comes out at the tail. |
| EventQueues.EventQueue.Post | kernel/event_queue.c:39-54 | The event is accepted, or counted as overflow exactly when 31 are pending; a sleeping reader is woken when it is accepted. |
| EventQueues.EventQueue.StartRead | kernel/event_queue.c:68-76 | A buffer too small for an event is refused; otherwise a read begins with interrupts off. |
| EventQueues.EventQueue.ReadStep | kernel/event_queue.c:76-97 | Each statement of a read keeps accepted events equal to those read, those in hand and those pending. A read ends only without room or without an event pending, and sleeps only with nothing read; a blocking read returns at least one. |
| EventQueues.EventQueue.ReadAlone | kernel/event_queue.c:68-97 | A read that no post comes between returns the first events pending, as many as there are and the buffer has room for; with none pending a blocking read sleeps. |
| EventQueues.EventQueue.Run | kernel/event_queue.c:39-97 | For any interleaving of posts with the statements of reads: accepted events are the events read and then those pending, at most 31 pending, and overflow_count is the number dropped. |
| Pipes.Pipe.WriteStep | kernel/pipe.c:69-97 | Each step of a blocking write keeps the stream: while there is room one byte goes in, in a full pipe the writer waits. A write returns what it sent, less than asked only after a flush of a full pipe. |
| Pipes.Pipe.ReadStep | kernel/pipe.c:109-140 | Each step of a blocking read keeps the stream: while there is a byte it comes out, on an empty pipe the reader waits. A read returns what it received, less than asked only after a flush of an empty pipe. |
| Pipes.Pipe.ReadNonblock | kernel/pipe.c:131-139 | A non-blocking read returns the first bytes in the pipe, as many as asked or as there are. |
| Pipes.Pipe.WriteNonblock | kernel/pipe.c:88-96 | A non-blocking write writes as much as there is room for, but everything when the reader is at position 0. It keeps the stream if and only if the reader is elsewhere or there is room for everything. |
| Pipes.Overrun | kernel/pipe.c:88-96 | An input that breaks the stream: 4096 bytes written to a new pipe are all accepted, and it looks empty. |
| Pipes.Pipe.Run | kernel/pipe.c:69-140 | For any interleaving of blocking and non-blocking writes and reads, with flushes at any time and non-blocking writes where they keep the stream: the bytes written are the bytes read and then those still in the pipe. |
| Pipes.NonblockingFullTest | kernel/pipe.c:89-89 | The full test of the non-blocking write is right if and only if it is not the case that the reader is at position 0 and the writer at the last. |

## Left out

- Malloc.MState.Malloc: does not ask the system for memory (sys_alloc, sys_trim, mapped chunks, segments, mspaces, footers, locks); a request the segment cannot serve gets 0.
- Malloc.MState.FreeMem: does not trim the top, release segments or check for corruption.
- Malloc.MState.constructor: the end of the segment is aligned, as it is wherever the source calls init_top; the size of the marker behind the top is not modelled.
- Malloc.MState.DisposeChunk: the chunk is marked in use, as every caller in the file marks it first (library/malloc.c:4811, library/malloc.c:4857, library/malloc.c:4912, library/malloc.c:4925, library/malloc.c:5085).
- realloc, memalign, calloc, independent allocation and heap inspection are left out; they are built from the operations here.
- Bcache.Cache.WriteBlock: device writes succeed, as the source takes for granted when it writes an entry back.
- Bcache.Cache.Run: is sequential; that a read may yield inside the driver is left out, and so are the statistics.
- DiskFs.Volume.BlockRead: the device and page allocation do not fail; the source takes a negative cache result for success (kernel/diskfs.c:21, kernel/diskfs.c:26), so nothing could be promised.
- DiskFs.Volume.BlockWrite: the device has every block that the layout names, also the last one, which format puts past its end.
- DiskState.Ok asks that data block 0, which holes read, is zero; format does not write it, so a new device has to hold zeros there.
- Dirents.Dirent.Close: one dirent is open per inode, because each holds its own copy and saves it when it is closed.
- Dirents.Dirent.WriteBlock: file blocks past the 1030 that an inode can name are outside the model; the source does not check for them.
- Dirents.Dirent.Create: names are sequences of bytes, compared exactly; creation in a directory that already fills all its blocks is left out.
- Fs.Read: offset plus length does not wrap around 32 bits.
- Fs.Write: ends within the largest file, and the buffer page can be had.
- Format.VolumeFormat: writes through a volume object of its own, where the source fills a superblock on the stack; devices under 31 blocks, where its layout has no data block for the root, are left out.
- Persistence.Persist: one file in the root directory, with the free blocks that its writes need.
- File removal, inode and block freeing: removal hands the directory's own inode to the delete routine (kernel/diskfs.c:493), after which blocks are shared; only the numbering of freed blocks is stated.
- Directory listing, path resolution, copying trees, kernel objects and the cdrom file system are left out.
- Kmalloc.Kheap.Kmalloc: negative lengths and lengths for which the rounding would overflow are left out.
- Pages.Machine.PageAlloc: where the machine halts for want of pages the model returns 0, and the methods above it stop; page_init is left out and any well-formed bitmap may be the start.
- PageTables.Pagetable.Duplicate: the clean-up after a failed allocation is never reached, because the machine halts first.
- Loading, refreshing and enabling a page table, the identity mapping of the kernel and the accessed and dirty bits that hardware sets are left out.
- Lists.List.Remove: from the middle of a list the source decrements a count through the list pointer that it has just cleared, a write to low memory that the model leaves out; insertion by priority is left out. The cache and the queues are modelled on sequences, and `Lists` shows that the pointers realise them.
- Processes.Scheduler.Create: kernel stacks, page tables and object tables of processes are left out, and so is what happens after the pids have run out, where the source goes on with pid 0 and the runs here stop.
- Processes.Scheduler.WaitChild: is one round; the timeout is left out.
- Processes.Scheduler.Run: process_kill is left out; it wakes no parent.
- Processes.Scheduler.Dispatch: saving registers, stacks and switching address spaces are left out.
- EventQueues.EventQueue.ReadStep: one reader at a time; the queue keeps one buffer position per read.
- Pipes.Pipe.WriteStep: one write and one read in progress at a time; that waiters are woken only after a whole transfer, so that a long one may wait for ever, is left out.
- Hardware, boot, display, console, program loading, user programs and hash sets are left out.
