# CF-OS kernel: verified models

A Dafny model of the parts of the CF-OS kernel where correctness is hardest to see, with proofs of what those
parts promise. Nothing here was executed: the statements below are what the Dafny verifier accepts about the
model, and the model follows the C code branch by branch. `dafny verify dfyconfig.toml` checks the whole project.

## What is modelled

**FAT12/16/32** (`Fat*.dfy`). The disk is an array of 512-byte sectors. `FatLayout` has the probe arithmetic,
`FatCodec` the three entry encodings, `FatDisk` and `FatVolume` the sector reads and writes, `FatChain`,
`FatContent`, `FatFile`, `FatIo`, `FatTruncate`, `FatGrow` and `FatWrite` the file operations in place on the
volume, and `FatName`, `FatSlots`, `FatSearch`, `FatFolder`, `FatIter`, `FatFree`, `FatEntry`, `FatDir` and
`FatUnlink` the directories. `FatOwn` says which chain belongs to which entry, `FatShelf` what a directory and all that
is in it keep. Two theorems close this part: `FatRun.RunRefines` (files refine byte sequences, and no cluster is lost)
and `FatDirRun.RunRefines` (a directory under any mix of calls by name refines a finite map with contents).

**Memory.** `HeapModel`, `HeapStep`, `Heap` and `HeapRun` are the kernel heap over raw bytes with its headers;
`Pmm` the frame bitmap; `PageTable`, `Spaces` and `Paging` the two-level page tables; `Budgets` what mapping pages
costs in frames; `UserSpace`, `CleanSpace`,
`Elf`, `ElfImage`, `ExecStack` and `Exec` what a program finds in its address space after exec, and what a failed exec
gives back. Physical memory is a sequence of frames, each a table of entries or a page of bytes.

**Threads and processes.** `Links` is the intrusive list, `SchedSpec` the scheduler on sequences, `Scheduler` the
scheduler on links, `Procs` and `ProcTable` the process table, `SchedRun` whole runs.

**Signals.** `SigSet` are the bit words, `Rtq` the real-time queue in its fixed pool, `Signals` delivery.

**Paths and references.** `Path` is path resolution in the kernel and in the copy command. `Refs` keeps the
reference counts of files and vnodes and a log of what was freed, `RamTree`, `Ramfs`, `RamfsDir` and `RamRelease` the
ramfs tree, `VfsCalls` and `VfsOpen` the calls, `VfsRun` and `VfsOffsets` whole runs, and `Vfs` the same state updated in
place.

**Locks.** `Spinlock` and `Atomic` are state machines whose steps are single accesses to the shared word, by any
CPU, in any order.

Where the code works in place, the model is a class with the code's fields, and each method is proved against a
specification function or predicate; the theorems over runs are about those. Allocations that may fail are
nondeterministic choices, or an arbitrary oracle in the calls on ramfs. A constant `granted` says that none is refused;
under it every failure is proved to have another reason, so that success conditions are exact in both directions.

## Where a promise has a condition

The model follows the code. Where that makes a promise fail, the condition under which it holds is proved exact:

- Shrinking a FAT file: the size rounded up to clusters wraps for sizes within one cluster of 2^32. The file is then
  freed although bytes should remain (`FatTruncate.KeepExact`, `FatTruncate.ShrinkExact`, `FatWrite.TruncateExact`),
  and there are files that large (`FatTruncate.WrapHappens`).
- Unlinking an entry whose chain runs through its directory, as "." has, leaves no directory (`FatUnlink.UnlinkExact`,
  `FatUnlink.UnlinkDot`).
- FAT bounds test: the FAT size in bytes wraps at 2^23 sectors (`FatLayout.GuardExact`).
- Short names ending in a dot: the dot is lost, so that the name stored is another one
  (`FatName.NameRoundTrip`, `FatDir.CreatedMap`).
- Heap sizes within a page of 2^32: too few pages are requested (`Heap.PagesExact`).
- Reserving frames up to the last page of the address space: nothing is reserved (`Pmm.UpExact`,
  `Pmm.FrameAllocator.Reserve`).
- Mapping a user page behind a directory entry without the user bit: other pages there may become user pages
  (`PageTable.MapOthersExact`), and if the entry is the kernel's, destroying the space frees the kernel's table
  (`Spaces.MapExact`, `Spaces.SharedSlotBreaks`).
- ELF segments whose rounded end wraps: a successful load has the segment on fresh pages if and only if it does not
  wrap (`Elf.LoadSegment`, `Elf.PageEndExact`). With address 0xFFFFF000 and size 0x1000 no page is mapped, the table of
  pages has one entry, and the copy goes to frame 0 (`Elf.TopPageWraps`).
- ELF images in memory: a range that is let through lies inside the image if and only if its end does not wrap
  (`Elf.RangeExact`); offset 0xFFFFFFF0 with size 0x20 is let through (`Elf.RangeWraps`).
- Sleeping: a sleep whose end lies at 2^32 ticks or later never ends, because the tick counter has 32 bits; every other
  one ends with its tick (`SchedRun.SleepExact`, `SchedRun.SleepsForever`).
- Unlocking a spinlock without holding it lets two CPUs in (`Spinlock.StrangerUnlocks`).

Documentation and code differ in places; the code is what is modelled. `spinlock_destroy` returns 1 or 0, not the new
state. Some error codes are negated twice and come out positive (`-EINVAL` is 2, `-ENOENT` is 40 in the signal code).

## Model

| member | source | states |
|---|---|---|
| FatLayout.ProbeSound | src/kernel/fs/fat/fat.c:86-153 | whenever the probe accepts a BIOS parameter block, the reserved, FAT, root and data regions are disjoint, follow one another inside the device without 32-bit wrap, every valid cluster number has its entry inside the FAT and none is an end-of-chain marker |
| FatLayout.ProbeExact | src/kernel/fs/fat/fat.c:86-153 | the probe accepts a parameter block if and only if the block describes a volume: its fields, taken without wrap-around, leave room for the FATs, the root and at least one cluster, and the FAT has an entry for every cluster |
| FatLayout.MountSound | src/kernel/fs/fat/fat.c:203-286 | the same for every content of sector 0 of every device of at most 2^28 sectors |
| FatLayout.ClustersDisjoint | src/kernel/fs/fat/fat.c:184-187 | cluster numbers map, without wrap, one to one to disjoint sector ranges inside the volume |
| FatLayout.FatCopiesDisjoint | src/kernel/fs/fat/fat12.c:51-56 | each FAT copy lies between the reserved sectors and the root directory, and no two copies share a sector |
| FatLayout.GuardExact | src/kernel/fs/fat/fat12.c:6-11 | the 32-bit bounds test of get and set lets every valid index through if and only if the wrapped FAT size still covers the last entry; it never wraps below 2^23 FAT sectors and refuses everything at exactly 2^23 |
| FatCodec.GetPutSame | src/kernel/fs/fat/fat12.c:31-82 | for FAT12, FAT16 and FAT32, get after set of the same index gives the value back |
| FatCodec.GetPutOther | src/kernel/fs/fat/fat12.c:40-96 | set of one index leaves every other entry alone, a FAT12 neighbour sharing a byte included |
| FatCodec.NeighbourKept | src/kernel/fs/fat/fat12.c:72-82 | the two 12-bit entries of a three-byte pair do not disturb each other |
| FatCodec.PutKeepsReserved | src/kernel/fs/fat/fat32.c:29-61 | set keeps the reserved top four bits of every FAT32 entry |
| FatCodec.PutIsUpdate | src/kernel/fs/fat/fat16.c:25-53 | on the table seen as a map from cluster to entry, set is map update |
| FatVolume.SetRefines | src/kernel/fs/fat/fat12.c:40-96 | writing the entry into every FAT copy is one map update of the abstract table and keeps the copies equal |
| FatVolume.SetKeepsReserved | src/kernel/fs/fat/fat32.c:29-61 | in every FAT copy set keeps the reserved bits of every entry |
| FatVolume.SectorPatched | src/kernel/fs/fat/fat.c:729-748 | rewriting bytes of one directory sector is a patch of the matching place of the volume and changes no FAT copy |
| FatVolume.Volume.Fat12Get | src/kernel/fs/fat/fat12.c:4-38 | returns the table entry, also for an entry straddling two sectors, or the error of the index and guard tests |
| FatVolume.Volume.Fat12Set | src/kernel/fs/fat/fat12.c:40-96 | every FAT copy gets the encoded entry and nothing else on the disk moves; on an error the disk is unchanged |
| FatVolume.Volume.Fat16Set | src/kernel/fs/fat/fat16.c:25-53 | every FAT copy gets the entry and nothing else moves |
| FatVolume.Volume.Fat32Set | src/kernel/fs/fat/fat32.c:29-61 | every FAT copy gets the entry with its old top bits and nothing else moves |
| FatVolume.Volume.SetEntry | src/kernel/fs/fat/fat16.c:25-53 | on a volume whose copies agree: map update of the table, mirrored in every copy, with the data and root regions unchanged |
| FatVolume.Volume.ReadCluster | src/kernel/fs/fat/fat.c:189-199 | gives exactly the bytes of the cluster |
| FatVolume.Volume.WriteCluster | src/kernel/fs/fat/fat.c:75-84 | replaces exactly one cluster of the data region |
| FatChain.LinkedIsDistinct | src/kernel/fs/fat/fat.c:340-355 | a sequence of clusters linked through the table up to an end marker never repeats a cluster |
| FatChain.ChainUnique | src/kernel/fs/fat/fat.c:340-355 | a first cluster determines its chain |
| FatChain.ChainCut | src/kernel/fs/fat/fat.c:1110-1124 | ending a chain after k clusters and freeing the rest leaves the first k as a chain and the others free |
| FatFile.NextCluster | src/kernel/fs/fat/fat.c:340-355 | the successor in the table, 0 at an end marker, and the errors for bad numbers |
| FatFile.AllocCluster | src/kernel/fs/fat/fat.c:640-674 | the lowest free cluster, zeroed and marked as an end; fails for space only when no cluster is free, and then changes nothing |
| FatFile.FreeChain | src/kernel/fs/fat/fat.c:676-690 | on a chain exactly its clusters become free; on any table entries only become free |
| FatFile.EnsureCluster | src/kernel/fs/fat/fat.c:692-727 | the index-th cluster of the file; the chain grows by free, zeroed clusters as far as needed, and what was added stays in the chain when space runs out |
| FatIo.Read | src/kernel/fs/fat/fat.c:563-629 | reading a file gives the slice of its content that the offset and length name |
| FatTruncate.KeepExact | src/kernel/fs/fat/fat.c:1099-1101 | the number of clusters kept when shrinking is the number the new size needs if and only if rounding the size up does not wrap; when it wraps the result is 0 |
| FatTruncate.ShrinkExact | src/kernel/fs/fat/fat.c:1097-1125 | shrinking leaves a sound file with the first n bytes if and only if that rounding does not wrap |
| FatTruncate.WrapHappens | src/kernel/fs/fat/fat.c:1097-1125 | there is a sound file large enough for the rounding to wrap |
| FatTruncate.UpdateDirent | src/kernel/fs/fat/fat.c:729-748 | first cluster and size go into the 32-byte entry, every other byte of the volume stays |
| FatTruncate.Shrink | src/kernel/fs/fat/fat.c:1097-1125 | the content is cut at the new size, exactly the clusters behind it become free |
| FatGrow.Grow | src/kernel/fs/fat/fat.c:1126-1180 | the content is padded with zeros, never with old slack bytes; it fails for space if and only if the free clusters do not suffice, and for memory only if memory is refused, and then the content is as before |
| FatWrite.Truncate | src/kernel/fs/fat/fat.c:1088-1184 | the content becomes its first n bytes, or itself padded with zeros to n; a failure leaves size and content; a shrink whose rounded size wraps frees every cluster and keeps the size, and only first cluster and size of the entry change |
| FatWrite.TruncateExact | src/kernel/fs/fat/fat.c:1088-1184 | a successful truncate leaves a sound file with the resized content if and only if it does not shrink to a size whose rounding wraps |
| FatWrite.Write | src/kernel/fs/fat/fat.c:875-930 | the content becomes the old one with the buffer written at the offset and zeros in a gap; a failure leaves it as it was or only padded. It says NoSpaceLeft exactly when the end passes 2^32 or the free clusters do not suffice, and OutOfMemory only when memory is refused |
| FatRun.InvStep | src/kernel/fs/fat/fat.c:1088-1184 | a step of one file keeps all chains acyclic, in range and disjoint, and the content of every other file |
| FatRun.PoolStep | src/kernel/fs/fat/fat.c:640-727 | a step of one file neither leaks nor invents a cluster |
| FatRun.PoolCount | src/kernel/fs/fat/fat.c:640-690 | free clusters plus the lengths of all chains add up to the pool |
| FatRun.OtherFileKept | src/kernel/fs/fat/fat.c:875-930 | chain, table entries and bytes of every separate file are untouched |
| FatRun.OtherEntryKept | src/kernel/fs/fat/fat.c:729-748 | the directory entry of every separate file keeps its bytes |
| FatRun.StepRefines | src/kernel/fs/fat/fat.c:563-629 | each read, write and truncate refines the call on plain byte sequences and conserves clusters, and every error it answers has its reason |
| FatRun.RunRefines | src/kernel/fs/fat/fat.c:875-930 | in every run from every sound volume all calls refine byte sequences, every error has its reason, and free clusters plus chain lengths stay constant, also after calls that ran out of space |
| FatRun.GrantedExact | src/kernel/fs/fat/fat.c:875-1184 | where no memory is refused, a call succeeds if and only if its range fits 32 bits and the free clusters suffice |
| FatRun.SuccessfulRun | src/kernel/fs/fat/fat.c:1088-1184 | a run of successful calls ends with exactly the contents that the calls compute on byte sequences |
| FatName.MakeShortName | src/kernel/fs/fat/fat.c:834-873 | succeeds exactly on names that fit 8.3, with the packed upper-case form; otherwise the error of the first character that cannot be accepted |
| FatName.NameToStr | src/kernel/fs/fat/fat.c:326-338 | formats eleven packed bytes as base, dot and extension |
| FatName.NameRoundTrip | src/kernel/fs/fat/fat.c:326-338 | formatting the packed name gives the upper-cased name if and only if the name does not end in a dot; otherwise just the dot is lost |
| FatName.SameNameIsSameKey | src/kernel/fs/fat/fat.c:470-493 | the case-insensitive comparison of lookup identifies exactly the names with the same upper-cased form |
| FatSlots.DirIsListing | src/kernel/fs/fat/fat.c:357-460 | the finite map of a directory holds exactly the listed entries |
| FatSlots.ListingCounts | src/kernel/fs/fat/fat.c:415-460 | a directory with distinct names lists as many entries as its map has keys |
| FatSlots.CreateDir | src/kernel/fs/fat/fat.c:932-1033 | an entry put into the first free slot adds exactly one key and keeps every slot behind the terminator empty |
| FatSlots.UnlinkDir | src/kernel/fs/fat/fat.c:1055-1086 | marking an entry deleted removes exactly one key |
| FatSlots.ReplaceDir | src/kernel/fs/fat/fat.c:729-748 | rewriting an entry under its own name changes what that name maps to, and nothing else |
| FatSearch.LookupIsMap | src/kernel/fs/fat/fat.c:495-513 | a scan for a name finds the entry of the map, or shows that the map has none |
| FatSearch.ReaddirIsListing | src/kernel/fs/fat/fat.c:543-559 | readdir(index) is the index-th listed entry and fails exactly beyond the last |
| FatFolder.SlotWritten | src/kernel/fs/fat/fat.c:729-748 | writing a slot replaces that slot of the directory, in the root region or along a chain, and no other |
| FatIter.IterDir | src/kernel/fs/fat/fat.c:357-460 | the first slot that meets the query, in root or chain order, stopping at the terminator |
| FatIter.Lookup | src/kernel/fs/fat/fat.c:495-513 | the node carries first cluster, size and place of the entry the map holds, or NotFound if there is none |
| FatIter.Readdir | src/kernel/fs/fat/fat.c:543-559 | name and kind of the index-th entry, or NotFound beyond the last |
| FatFree.FindFreeSlot | src/kernel/fs/fat/fat.c:750-832 | the first free slot, in a new zeroed cluster if all are taken; names and listing do not change, and without room nothing does |
| FatEntry.NewSlotReads | src/kernel/fs/fat/fat.c:1015-1021 | the entry create writes reads back: name, kind, first cluster and size 0 |
| FatEntry.NewFolder | src/kernel/fs/fat/fat.c:982-1009 | the first cluster of a new directory lists itself and its parent and counts as empty |
| FatDir.CreatedMap | src/kernel/fs/fat/fat.c:932-1033 | after a create the directory is unambiguous if and only if the stored key was not taken, and then its map is the old one with that key added |
| FatDir.DuplicateBreaks | src/kernel/fs/fat/fat.c:932-1033 | an entry under a taken key leaves two entries for one name |
| FatDir.Create | src/kernel/fs/fat/fat.c:932-1033 | on success exactly one key is added, with fresh clusters only; on failure the map is as before and a cluster taken is given back. It succeeds only for a proper name that is not taken while clusters and root slots suffice, and then always if no memory is refused; each error has its reason |
| FatUnlink.EmptyTest | src/kernel/fs/fat/fat.c:1040-1053 | the emptiness scan finds nothing exactly when a directory lists only itself and its parent |
| FatUnlink.Unlink | src/kernel/fs/fat/fat.c:1055-1086 | removes exactly one key and frees exactly the entry's chain; refuses directories that are not empty; what happens to the volume is said for every entry, "." included |
| FatUnlink.UnlinkExact | src/kernel/fs/fat/fat.c:1055-1086 | the directory is still sound after its entry is removed if and only if the entry's chain shares no cluster with the directory |
| FatUnlink.UnlinkDot | src/kernel/fs/fat/fat.c:1055-1086 | unlinking "." in an empty sub-directory succeeds, given memory, and leaves it no directory |
| FatShelf.SaneUnlinkable | src/kernel/fs/fat/fat.c:1055-1086 | in a directory that obeys the invariant every name but "." and ".." can be unlinked, and its chain is apart from the directory |
| FatShelf.BlankIsSane | src/kernel/fs/fat/fat.c:357-413 | a directory of unused slots obeys the invariant and holds nothing |
| FatShelf.NewDirIsSane | src/kernel/fs/fat/fat.c:978-1005 | so does the directory just made: two names, itself and its parent, and no items |
| FatOwn.OwnedStep | src/kernel/fs/fat/fat.c:729-1184 | a change of one file leaves the chains and contents of all other entries of the directory |
| FatDirRun.StepRefines | src/kernel/fs/fat/fat.c:875-1184 | every create, lookup, readdir, unlink, and every read, write and truncate by name, is the call on a finite map from upper-cased names to entries and contents; readdir gives the index-th entry or says that there are no more |
| FatDirRun.RunRefines | src/kernel/fs/fat/fat.c:357-1184 | the same at every point of every run: the directory stays sound, its chains stay apart, its listing has every key exactly once, and every error answered has its reason |
| FatDirRun.StepAnswered | src/kernel/fs/fat/fat.c:357-1184 | the errors of every call by name, both ways: NotFound exactly for names that are not there, AlreadyExists for those that are, DirectoryNotEmpty, NoSpaceLeft only without room, OutOfMemory only without memory |
| FatDirRun.MadeIsFound | src/kernel/fs/fat/fat.c:495-513 | a name that was made and not removed since is found, whatever else was made and removed meanwhile |
| FatDirRun.Untouched | src/kernel/fs/fat/fat.c:875-1184 | a run that does not name an entry changes neither the entry nor what is in it |
| FatDirRun.WrittenIsRead | src/kernel/fs/fat/fat.c:875-930 | what was written under a name is read back under it, whatever was done to other names meanwhile |
| Heap.PagesExact | src/kernel/mm/heap.c:78-84 | the pages requested hold header and payload if and only if the rounded size does not wrap 32 bits, and never a whole page too many |
| Heap.KernelHeap.constructor | src/kernel/mm/heap.c:56-63 | an empty, well-formed heap |
| Heap.KernelHeap.FindFreeChunk | src/kernel/mm/heap.c:66-76 | the first chunk that is free and long enough, or none exists |
| Heap.KernelHeap.Expand | src/kernel/mm/heap.c:26-54 | new zeroed pages behind the heap, and live blocks keep their bytes; where frames are granted it fails exactly when the heap would pass its top |
| Heap.KernelHeap.RequestSpace | src/kernel/mm/heap.c:78-110 | a new last chunk, linked both ways, or nothing changes; it succeeds only below the heap's top, and there always if frames are granted |
| Heap.KernelHeap.Malloc | src/kernel/mm/heap.c:112-129 | first fit, else new pages: a new block that overlaps no live one, all others keep their bytes. It fails only if no free chunk fits and either no page is left below the top or a frame is refused |
| Heap.KernelHeap.Free | src/kernel/mm/heap.c:131-154 | the block is no longer live, every other keeps its bytes, no two neighbouring chunks stay free, and there is a free chunk at least as long as the block was |
| Heap.KernelHeap.UsableSize | src/kernel/mm/heap.c:167-174 | the length of the block behind a live pointer |
| Heap.KernelHeap.Calloc | src/kernel/mm/heap.c:177-192 | a zeroed block, refused when the product does not fit 32 bits; otherwise it fails exactly where malloc does |
| Heap.KernelHeap.Realloc | src/kernel/mm/heap.c:195-219 | the old bytes carry over to the new block; a failed growth leaves the old one, and growth fails exactly where malloc does; size 0 frees |
| Heap.KernelHeap.MallocAlign | src/kernel/mm/heap.c:221-236 | an aligned block inside a larger one, with the larger one's address in the word in front; fails exactly where malloc of the larger one does, or when the alignment is no power of two |
| Heap.KernelHeap.FreeAlign | src/kernel/mm/heap.c:156-164 | frees the block whose address stands in front of the pointer |
| Heap.AlignRoundTrip | src/kernel/mm/heap.c:221-236 | the word free_align reads is the address malloc_align stored |
| Heap.LiveDisjoint | src/kernel/mm/heap.c:66-154 | live blocks and their headers never overlap |
| HeapStep.FlagStep | src/kernel/mm/heap.c:112-154 | setting one chunk's flag keeps the list address-ordered and doubly linked |
| HeapStep.AbsorbAgree | src/kernel/mm/heap.c:139-152 | joining two free neighbours leaves every live payload alone |
| HeapRun.BlockKept | src/kernel/mm/heap.c:112-219 | in every run of malloc, calloc, realloc and free a block keeps its place and bytes until a call names it |
| HeapRun.BlocksApart | src/kernel/mm/heap.c:112-219 | at every point of every run live blocks are apart |
| HeapRun.ReallocCarries | src/kernel/mm/heap.c:195-219 | what realloc returned still starts with the old contents after any further calls on other blocks |
| HeapRun.Perform | src/kernel/mm/heap.c:112-219 | the methods do what a step of a run says |
| HeapRun.FreeThenMalloc | src/kernel/mm/heap.c:112-154 | in every run a malloc right after a free finds room for as much as the freed block held, even when no frame is left |
| HeapRun.GrantedExact | src/kernel/mm/heap.c:112-129 | in a heap that is refused no frame, malloc fails if and only if no free chunk fits and no page is left below the top |
| Pmm.FrameAllocator.constructor | src/kernel/mm/pmm.c:61-94 | after init exactly the frames below the end of kernel and bitmap are used |
| Pmm.FrameAllocator.FirstFree | src/kernel/mm/pmm.c:34-58 | the lowest free frame, or all frames are used |
| Pmm.FrameAllocator.Alloc | src/kernel/mm/pmm.c:96-109 | the lowest free frame becomes used, or 0 and nothing changes; the count equals the number of set bits |
| Pmm.FrameAllocator.Free | src/kernel/mm/pmm.c:111-126 | exactly that frame becomes free; unaligned and free addresses are refused |
| Pmm.FrameAllocator.Reserve | src/kernel/mm/pmm.c:128-146 | the frames the region touches become used, unless rounding its end up wraps: then none does |
| Pmm.FrameAllocator.Unreserve | src/kernel/mm/pmm.c:148-168 | the mirror image of reserve, with the same exception |
| Pmm.UpExact | src/kernel/mm/pmm.c:128-146 | rounding up reaches the address if and only if the sum does not wrap; otherwise it gives 0 |
| PageTable.MapTranslates | src/kernel/mm/paging.c:140-177 | afterwards the page translates to the frame, with the rights asked for as far as the directory entry grants writing |
| PageTable.MapOthersExact | src/kernel/mm/paging.c:140-177 | another page keeps its translation and rights if and only if it is not a user entry behind a directory entry that only now becomes a user entry |
| PageTable.MapOthersKept | src/kernel/mm/paging.c:140-177 | in spaces whose user pages lie behind user directory entries mapping one page changes no other |
| PageTable.MapKeepsClosed | src/kernel/mm/paging.c:140-177 | mapping keeps that condition |
| PageTable.MapElsewhere | src/kernel/mm/paging.c:140-177 | the pages of another address space are untouched |
| Paging.Memory.MapPage | src/kernel/mm/paging.c:140-177 | on success memory is the mapped one and at most one fresh frame was taken as a table; on failure nothing changed. Aligned addresses are refused if and only if a table is missing and no frame is free |
| Paging.Memory.UserRangeValid | src/kernel/mm/paging.c:179-208 | true if and only if every byte of the range is mapped with the user rights asked for, up to the last byte of the address space; always halts |
| Paging.RangeIsPages | src/kernel/mm/paging.c:179-208 | checking page by page is checking byte by byte |
| Paging.Memory.CreateAddressSpace | src/kernel/mm/paging.c:78-98 | a fresh directory with copies of the kernel's present entries, making a clean space; fails if and only if no frame is free, and then nothing changes |
| Paging.Memory.DestroyAddressSpace | src/kernel/mm/paging.c:100-123 | frees exactly the directory, the private tables and their user frames; in a clean space each once, all in use, none of the kernel's directory and tables, and the count goes down by their number |
| Spaces.FreeListIsOwned | src/kernel/mm/paging.c:100-123 | a frame is freed if and only if the space owns it |
| Spaces.FreeListOnce | src/kernel/mm/paging.c:100-123 | no frame is freed twice |
| Spaces.DestroySafe | src/kernel/mm/paging.c:100-123 | a clean space's frames are all in use and none is the kernel's |
| Spaces.CreateClean | src/kernel/mm/paging.c:78-98 | a new space is clean and translates like the kernel |
| Spaces.MapClean | src/kernel/mm/paging.c:140-177 | mapping fresh user pages outside the kernel's own slots keeps a space clean |
| Spaces.SharedSlotBreaks | src/kernel/mm/paging.c:140-177 | for every user page mapped into a slot that still holds the kernel's own entry, destroy would free the kernel's table |
| Spaces.MapExact | src/kernel/mm/paging.c:140-177 | a space stays clean after mapping a fresh user page if and only if the slot does not hold the kernel's present entry without the user bit |
| Spaces.MapOwned | src/kernel/mm/paging.c:140-177 | the only frames such a mapping adds to a space are the page's and a new table's |
| Budgets.CostSplits | src/kernel/binfmt/elf.c:128-160 | pages mapped one by one cost as many frames as all at once: one each, and one for every slot without a table |
| CleanSpace.AddCleanStep | src/kernel/binfmt/elf.c:128-160 | a page added by the loaders keeps a clean space clean outside the kernel's own slots, and the space gains no frame that was in use |
| CleanSpace.WriteStep | src/kernel/binfmt/elf.c:183-214 | so does a write into a frame that was free when the step began |
| Elf.PageEndExact | src/kernel/binfmt/elf.c:116-135 | the pages walked cover the segment if and only if its end does not wrap |
| Elf.SpanWrapped | src/kernel/binfmt/elf.c:119-135 | with a wrapping end at most one page is walked |
| Elf.TopPageWraps | src/kernel/binfmt/elf.c:119-135 | for the highest page taken whole no page is walked and the table has one entry |
| Elf.RangeExact | src/kernel/binfmt/elf.c:293-303 | a range the image reader lets through lies inside the image if and only if its end does not wrap |
| Elf.RangeWraps | src/kernel/binfmt/elf.c:293-303 | a range outside every image that images of 16 bytes and more let through |
| Elf.ReadFrom | src/kernel/binfmt/elf.c:34-75 | a file range is read only when it is there, and then always if the file opens; an image range exactly when the 32-bit sum passes the test; and then these are its bytes unless the sum wraps |
| Elf.AddFreshPage | src/kernel/binfmt/elf.c:129-160 | one page: fresh frame, mapped, cleared, paid for with one frame or two; a failure changes at most that page and happens only without these frames or when a temporary mapping is refused; a clean space stays clean |
| Elf.AllocatePages | src/kernel/binfmt/elf.c:128-160 | the loop over the pages: all of them fresh, zeroed, each with a frame of its own; it succeeds only if the frames suffice for pages and missing tables, and then always if nothing else is refused |
| Elf.LoadSegment | src/kernel/binfmt/elf.c:103-224 | for every header: a successful call puts the whole segment on fresh pages if and only if its end does not wrap; then address p_vaddr+i reads as file byte p_offset+i below p_filesz and as zero up to p_memsz; other pages and frames in use keep their bytes, but a wrapping segment without a page is copied to frame 0; a clean space stays clean outside the kernel's own slots. It succeeds only if the sizes are in order, the frames suffice and the bytes are there, and then always if nothing but frames can be refused |
| Elf.WrappedNotFresh | src/kernel/binfmt/elf.c:119-135 | a wrapping segment is never wholly on fresh pages |
| Elf.FilledIsLoaded | src/kernel/binfmt/elf.c:305-417 | filled pages are a loaded segment, byte for byte, across page boundaries |
| ElfImage.LoadImage | src/kernel/binfmt/elf.c:226-291 | for every image: on success the entry point is the header's, and every loadable segment is loaded unless an end wraps or a later segment took a page; a clean space stays clean when no segment touches a slot of the kernel's. It succeeds only on an image whose headers are right and whose segments can be loaded one after the other with the frames there are, and on every such one if nothing else is refused |
| ElfImage.LoadedKept | src/kernel/binfmt/elf.c:226-291 | a step on other pages and free frames leaves a loaded segment as it is |
| ElfImage.SameMemory | src/kernel/binfmt/elf.c:419-488 | the file-backed and the memory-backed loader give a program the same bytes at every address of every segment that is alone on its pages |
| ExecStack.CopyToUser | src/kernel/sched/exec.c:49-78 | a copy to any stack address, across pages, is one splice of the stack's bytes |
| ExecStack.PushStrings | src/kernel/sched/exec.c:80-98 | the strings lie one behind the other at the top of the stack, with their terminators |
| ExecStack.BuildStack | src/kernel/sched/exec.c:80-111 | whatever is accepted can be read back through the page tables: every string at its pointer, a null-terminated vector, nothing overlapping, all inside the stack; a clean space stays clean. It accepts at most 32 strings, each within four pages, that fit the stack with their vector, and all of these if nothing is refused |
| ExecStack.FlatIsBuilt | src/kernel/sched/exec.c:80-111 | strings, pointers and alignment of the finished stack as the program sees them |
| Exec.Populate | src/kernel/sched/exec.c:113-209 | image, stack and trampoline in a new space: the program finds all three, and the space is clean where the kernel leaves room; fails only if one of the three cannot be had or something is refused |
| Exec.ExecImage | src/kernel/sched/exec.c:267-293 | on success the program finds image, arguments and trampoline, and its space shares no frame with anything in use before; on failure nothing in use before was given back; both for images that keep off the kernel's slots. It succeeds only if the image can be loaded, the arguments fit and the free frames pay for directory, image, stack and trampoline, and then always if nothing but frames can be refused |
| Exec.Discard | src/kernel/sched/exec.c:283-289 | a failed exec gives back exactly the frames the new space owns |
| Exec.OwnedUsed | src/kernel/mm/paging.c:100-123 | whatever destroy frees of a loaded space is in use |
| Links.InitIsRing | include/kernel/list.h:47-51 | an initialised head is an empty ring |
| Links.BeforeAppends | include/kernel/list.h:75-83 | linking before the head appends, and no cell outside the ring changes |
| Links.AfterPrepends | include/kernel/list.h:59-67 | linking after the head pushes to the front, and no cell outside the ring changes |
| Links.RemoveTakes | include/kernel/list.h:92-100 | removing takes out exactly that cell, wherever it stands, and the ring stays well linked both ways |
| SchedSpec.YieldInv | src/kernel/sched/sched.c:129-146 | yield keeps every thread in at most one place and always has a thread to run |
| SchedSpec.TickWakes | src/kernel/sched/sched.c:166-188 | a tick moves the clock by one, modulo 2^32, moves exactly the expired sleepers behind the queue, in list order, and loses no thread |
| SchedSpec.Split | src/kernel/sched/sched.c:166-182 | expired and waiting sleepers together are the sleep list, each once |
| SchedSpec.ExitInv | src/kernel/sched/sched.c:129-146 | a thread that exits is a zombie and in no list |
| Scheduler.Kernel.constructor | src/kernel/sched/sched.c:85-107 | an empty queue, nobody asleep, and the idle thread |
| Scheduler.Kernel.RunqueueAdd | src/kernel/sched/sched.c:34-46 | appends the thread to the linked queue unless it is queued already |
| Scheduler.Kernel.RunqueueRemove | src/kernel/sched/sched.c:48-54 | takes the thread out of the linked queue if it is there |
| Scheduler.Kernel.RunqueueNext | src/kernel/sched/sched.c:56-67 | takes the head of the queue, or gives the idle thread |
| Scheduler.Kernel.DoYield | src/kernel/sched/sched.c:129-146 | the linked lists after yield represent the abstract yield |
| Scheduler.Kernel.YieldNow | src/kernel/sched/sched.c:148-151 | from a state that keeps the invariant, yield is the abstract yield |
| Scheduler.Kernel.SleepFor | src/kernel/sched/sched.c:153-164 | the caller goes to the front of the sleep list with its wake-up time, in 64-bit arithmetic, and the next thread runs |
| Scheduler.Kernel.WakeSleepers | src/kernel/sched/sched.c:166-182 | the walk through links unlinks exactly the expired sleepers and queues them |
| Scheduler.Kernel.TimerTick | src/kernel/sched/sched.c:184-188 | one tick is the abstract tick: the clock moves by one and exactly the sleepers whose tick has come are queued |
| SchedRun.RunSafe | src/kernel/sched/sched.c:34-83 | in every run each thread is in at most one of current, run queue and sleep list, and a zombie is in none |
| SchedRun.DeadStaysDead | src/kernel/sched/sched.c:69-83 | a dead thread is never dispatched again |
| SchedRun.QueueStep | src/kernel/sched/sched.c:56-67 | a dispatch moves everyone in the queue up by one; any other step leaves them where they stand |
| SchedRun.BoundedWait | src/kernel/sched/sched.c:129-182 | the thread at position k runs at the (k+1)-th dispatch, whatever is added or woken meanwhile |
| SchedRun.SleepExact | src/kernel/sched/sched.c:153-188 | in every run a thread that sleeps n ticks, with the end below 2^32, is asleep while fewer than max(n, 1) ticks have passed, and exactly that tick queues it |
| SchedRun.SleepsForever | src/kernel/sched/sched.c:153-188 | a thread whose sleep would end at 2^32 or later never wakes, however long the run: the 32-bit counter wraps before |
| SchedRun.StepInv | src/kernel/sched/proc.c:58-141 | every call on scheduler and process table keeps the joint invariant |
| SchedRun.RunInv | src/kernel/sched/proc.c:58-141 | the invariant holds in every reachable state |
| SchedRun.RunReapSafe | src/kernel/sched/proc.c:95-119 | in every run a successful reap frees a zombie that is not current, not queued and not asleep |
| SchedRun.ExitCodeKept | src/kernel/sched/proc.c:95-141 | in every run the code a process exits with stays in its record, and the process can be reaped, until it is |
| SchedRun.ParentKept | src/kernel/sched/proc.c:58-93 | in every run a process keeps the pid and the parent it was made with until it is reaped |
| Procs.ReapSafe | src/kernel/sched/proc.c:95-119 | the same from the invariant alone |
| Procs.ReapIs | src/kernel/sched/proc.c:95-119 | a reap succeeds exactly on a dead process of the table, is Busy exactly on a live one, frees exactly that slot and its thread, and afterwards the pid is unknown |
| Procs.ExitProcInv | src/kernel/sched/proc.c:130-141 | marking the exit and yielding keeps table and lists consistent |
| ProcTable.Table.CreateProcess | src/kernel/sched/proc.c:58-81 | the lowest free slot becomes a live process with the caller as parent, or 0 when all are taken |
| ProcTable.Table.FindChild | src/kernel/sched/proc.c:83-93 | finds the child if and only if that pid is a process of that parent |
| ProcTable.Table.ExitCall | src/kernel/sched/proc.c:130-141 | the table and the lists after the exit call are those of the abstract exit |
| ProcTable.Table.ReapProcess | src/kernel/sched/proc.c:95-119 | the result and the state are those of the abstract reap, errors included |
| SigSet.AddIs | include/kernel/signal/signal.h:107-127 | adding a signal number to the two bit words adds it to the set; numbers out of range change nothing |
| SigSet.DelIs | include/kernel/signal/signal.h:130-150 | removing takes exactly that number out |
| SigSet.FullIs | include/kernel/signal/signal.h:93-104 | the full set holds exactly the signal numbers |
| Rtq.EnqueueStep | src/kernel/syscall/signal/queue.c:79-117 | an entry moves from the front of the free list to the end of the used list, and the two still partition the pool |
| Rtq.DequeueStep | src/kernel/syscall/signal/queue.c:130-160 | an entry moves from the front of the used list to the free list, and the two still partition the pool |
| Rtq.Queue.constructor | src/kernel/syscall/signal/queue.c:28-49 | all 64 entries free |
| Rtq.Queue.Enqueue | src/kernel/syscall/signal/queue.c:79-117 | the signal goes behind all others; full and invalid are refused without a change |
| Rtq.Queue.Dequeue | src/kernel/syscall/signal/queue.c:130-160 | the oldest signal, with its information |
| Rtq.Queue.Peek | src/kernel/syscall/signal/queue.c:165-177 | the oldest signal, left in place |
| Rtq.FifoOrder | src/kernel/syscall/signal/queue.c:79-160 | in every run the signals delivered, then those waiting, are exactly those queued, in order |
| Signals.NextIs | src/kernel/syscall/signal/signal.c:91-161 | the head of the queue is delivered if and only if it is not masked, else the least pending unmasked number; nothing is delivered only when every pending signal and the head of the queue are masked |
| Signals.SigState.Add | src/kernel/syscall/signal/signal.c:56-78 | real-time signals are queued, ordinary ones become pending |
| Signals.SigState.Block | src/kernel/syscall/signal/signal.c:170-180 | the mask becomes its union with the set |
| Signals.SigState.Unblock | src/kernel/syscall/signal/signal.c:189-200 | the mask loses exactly the set |
| Signals.SigState.HasPendingUnmasked | src/kernel/syscall/signal/signal.c:210-239 | 1 exactly when a fetch would deliver a signal |
| Signals.SigState.Fetch | src/kernel/syscall/signal/signal.c:91-161 | delivers that signal and takes out exactly it |
| Path.ResolvePath | src/kernel/core/syscall.c:53-118 | the text the walk over the components builds, or the error: empty, no room, working directory unusable, too long. From an absolute canonical directory it succeeds if and only if the rendered path fits at every component, and gives the rendering of the folded components |
| Path.NormalizePath | src/user/bin/copy.c:9-76 | succeeds exactly when the rendered path fits at every component, with the rendering of the fold |
| Path.SameAnswer | src/user/bin/copy.c:9-76 | kernel and copy command give the same answer, and fail for the same inputs, on every non-empty path |
| Path.WalkIsFold | src/kernel/core/syscall.c:53-118 | the text is the rendering of a fold of the components over a stack of names |
| Path.WalkExact | src/kernel/core/syscall.c:53-118 | the walk over the components succeeds if and only if every name that is appended fits the buffer together with the path so far |
| Path.ResolveExact | src/kernel/core/syscall.c:53-118 | so for a whole path, from the root or from a canonical working directory |
| Path.RenderRoundTrip | src/kernel/core/syscall.c:53-118 | reading a rendered stack gives the stack back |
| Path.ResolveCanonical | src/kernel/core/syscall.c:53-118 | every result is absolute without empty, "." or ".." components |
| Path.ResolveAgain | src/kernel/core/syscall.c:53-118 | resolving a result again gives the same path |
| Path.WorkingDirectory.Chdir | src/kernel/core/syscall.c:726-753 | the answer and the new directory for every input: the rendered fold where it fits and is a directory, and a failed call leaves the old one |
| Path.CwdStaysCanonical | src/kernel/core/syscall.c:726-753 | over every run of chdir calls the working directory stays canonical |
| Refs.UnrefVnodeInv | src/kernel/fs/vfs/vnode.c:29-46 | dropping a reference restores exact counts; vnode and node go exactly when no file and no directory holds them |
| Refs.UnrefFileInv | src/kernel/fs/vfs/ref.c:10-19 | dropping a file reference restores exact counts; the file goes exactly when nobody holds it |
| RamTree.FindIsHas | src/kernel/fs/ramfs/dir.c:5-14 | the first child of a name is the only one: the list is a map from names |
| RamTree.LinkHas | src/kernel/fs/ramfs/dir.c:68-84 | linking a new node adds one name to one directory and changes no other |
| RamTree.DetachHas | src/kernel/fs/ramfs/dir.c:100-117 | taking a child out removes one name from one directory and changes no other |
| Ramfs.LookupIs | src/kernel/fs/ramfs/dir.c:16-47 | finds exactly what the tree says, "." and ".." included, or runs out of memory; NotDirectory and NotFound are told apart; fills caches and changes nothing else |
| Ramfs.WalkIs | src/kernel/fs/vfs/lookup.c:57-95 | a walk ends where the path leads in the tree, or fails because it leads nowhere, or because a name is too long or memory is out |
| RamfsDir.CreateIs | src/kernel/fs/ramfs/dir.c:49-85 | succeeds exactly in a directory lacking the name, for a proper name, given memory; then one name is added, otherwise nothing changes; each error exactly where it belongs |
| RamfsDir.UnlinkIs | src/kernel/fs/ramfs/dir.c:87-120 | succeeds exactly on a child without children; the name goes, and the node stays if and only if a file has it open; each error exactly where it belongs |
| VfsCalls.FdAllocIs | src/kernel/fs/vfs/fd.c:14-39 | the lowest descriptor from 3 on of the process's table, or fails exactly when all are used |
| VfsCalls.FdCloseIs | src/kernel/fs/vfs/fd.c:83-93 | empties one descriptor; its file goes exactly when nobody else holds it |
| VfsCalls.DupIs | src/kernel/fs/vfs/fd.c:95-103 | the lowest unused descriptor from 3 on holds the same file; fails exactly without a file or with a full table, and then nothing changes |
| VfsCalls.Dup2Is | src/kernel/fs/vfs/fd.c:41-115 | the new descriptor holds the old one's file, only that descriptor of that table changes, and bad arguments change nothing |
| VfsCalls.CloseHandleIs | src/kernel/fs/vfs/file.c:15-30 | a file given back by kernel code goes exactly when nobody else holds it |
| VfsCalls.CloseFromIs | src/kernel/core/syscall.c:273-284 | reaping a process empties its table and no other, and lets go of every file in it |
| VfsOpen.OpenFileIs | src/kernel/fs/vfs/vfs.c:60-110 | a new file at offset 0 on the node the path leads to, created if asked for, with one reference in the caller's hand |
| VfsOpen.OpenFileExact | src/kernel/fs/vfs/vfs.c:60-110 | an open succeeds only if the path leads somewhere or its last name may and can be made, and then always if memory is granted and the names fit |
| VfsOpen.OpenIs | src/kernel/core/syscall.c:293-339 | the lowest free descriptor on a new file at offset 0 of the node the path leads to, or nothing stays held |
| VfsOpen.OpenExact | src/kernel/core/syscall.c:293-339 | the system call succeeds exactly where an open does and a descriptor is left; with a full table it says so |
| VfsOpen.MakePathIs | src/kernel/fs/vfs/vfs.c:143-172 | succeeds exactly where the parent is a directory that lacks the name, for a proper name, given memory; then the path leads to a node that did not exist before |
| VfsRun.UnlinkPathIs | src/kernel/fs/vfs/vfs.c:174-211 | succeeds exactly on a name for a file or an empty directory, given memory; takes that name out and no other; the node stays if and only if it is open |
| VfsRun.WriteRead | src/kernel/fs/ramfs/file.c:75-124 | the bytes written at an offset are read back from it, and the offset moves past them; the file is as long as the longer of what it was and the end of the write, keeps every other byte, has zeros in a gap, and no other node or file changes |
| VfsRun.WriteExact | src/kernel/fs/ramfs/file.c:7-124 | the answer of every write: it fails exactly without a file, on a directory, past 2^32, or when the buffer must grow and memory is refused, and then changes nothing; inside the file it never fails for memory |
| VfsRun.ReadIs | src/kernel/fs/ramfs/file.c:32-73 | the answer of every read: the bytes from the offset on, as many as there are up to the length, and the offset moves past exactly these |
| VfsRun.StepGood | src/kernel/fs/vfs/fd.c:26-115 | every open, close, dup, dup2, reap, mkdir, unlink, read and write, by any process, keeps counts, tree, the account of freed objects and the data of every node it does not write |
| VfsRun.RunBooks | src/kernel/fs/vfs/vnode.c:21-46 | in every run from a fresh mount a file's count is the number of descriptors and handles holding it, a vnode's is its open files plus one while linked, and every node is linked or open |
| VfsRun.FreedOnce | src/kernel/fs/vfs/vnode.c:29-46 | over every run the log of freed objects only grows; every file, vnode and node ever made is live and not in it, or is in it exactly once and gone |
| VfsRun.OpenKeepsData | src/kernel/fs/ramfs/ramfs.c:91-138 | as long as a file is held it keeps its node and data through any run, linked or not, unless written |
| VfsOffsets.OffsetKept | src/kernel/fs/vfs/file.c:32-74 | over every run a file that stays open keeps its offset unless a read or write goes through it |
| VfsOffsets.WrittenIsRead | src/kernel/fs/vfs/file.c:32-74 | what was written through a descriptor is read through any file on the same node at that offset, after any run of calls by any process that does not write the node, linked or not |
| VfsRun.OneRoot | src/kernel/fs/ramfs/ramfs.c:140-174 | in every run the mount's root stays the only root, so unmounting releases the whole tree |
| RamRelease.OnlyOpenLeft | src/kernel/fs/ramfs/ramfs.c:108-123 | after the tree is released exactly the nodes that files have open are left |
| Vfs.Files.FileUnref | src/kernel/fs/vfs/ref.c:10-19 | on a live, referenced file the state is the specified one: count down, or the file is freed and its vnode loses a reference |
| Vfs.Files.VnodeUnref | src/kernel/fs/vfs/vnode.c:29-46 | on a live, referenced vnode: count down, or vnode and node are freed together |
| Vfs.Files.FdFindFree | src/kernel/fs/vfs/fd.c:14-24 | the first unused descriptor from 3 on |
| Vfs.Files.FdAllocAt | src/kernel/fs/vfs/fd.c:41-60 | the occupant is closed first, unless it is the same file |
| Vfs.Files.FdDup2 | src/kernel/fs/vfs/fd.c:105-115 | the specified duplicate, with its errors |
| Vfs.Files.FdDup | src/kernel/fs/vfs/fd.c:95-103 | the lowest free descriptor holds the same file |
| Vfs.Files.CloseAll | src/kernel/core/syscall.c:273-284 | the loop over the reaped process's descriptors closes them all |
| Vfs.Files.EnsureCapacity | src/kernel/fs/ramfs/file.c:7-30 | the buffer doubles until the size fits, or takes the size itself where doubling would not fit 32 bits; it fails exactly when it must grow and memory is refused |
| Vfs.Files.WriteFile | src/kernel/fs/vfs/file.c:54-74 | the bytes go into the node at the file's offset, which moves past them; the errors in their order |
| Vfs.Files.ReadFile | src/kernel/fs/vfs/file.c:32-52 | the bytes from the offset on, as many as there are, and the offset moves past them |
| Vfs.Files.UnlinkName | src/kernel/fs/ramfs/dir.c:87-120 | the specified unlink on the child list |
| Vfs.Files.WalkPath | src/kernel/fs/vfs/lookup.c:57-95 | the loop computes the specified walk |
| Vfs.Files.Open | src/kernel/core/syscall.c:293-339 | the system call is open, descriptor, and the caller's reference given back |
| Vfs.Files.TreeRelease | src/kernel/fs/ramfs/ramfs.c:108-123 | afterwards the root is out of the tree and no other root has appeared, counts are exact, nodes made before it keep their place, and open files keep node and data |
| Vfs.Files.Unmount | src/kernel/fs/ramfs/ramfs.c:161-174 | the nodes left are exactly those open files stand for |
| Spinlock.StepInv | src/kernel/arch/i386-x86/spinlock.c:4-42 | every access by any CPU keeps: at most one holder, LOCKED exactly when there is one, unlock's store only by the holder |
| Spinlock.StepRefines | src/kernel/arch/i386-x86/spinlock.c:4-42 | every access is a step of a plain mutex: nothing, an acquire of a free lock, a release by the owner, or a destroy of a free lock |
| Spinlock.MutualExclusion | src/kernel/arch/i386-x86/spinlock.c:17-42 | for any number of CPUs and any interleaving the number of holders is 1 if the word is LOCKED and 0 otherwise |
| Spinlock.DestroyedForGood | src/kernel/arch/i386-x86/spinlock.c:22-26 | a destroyed lock stays destroyed, nobody holds it, and a CPU inside lock never returns |
| Spinlock.SwapIs | src/kernel/arch/i386-x86/spinlock.c:17-35 | lock and trylock succeed exactly on an unlocked word and then hold the lock; a failed attempt changes nothing |
| Spinlock.StrangerUnlocks | src/kernel/arch/i386-x86/spinlock.c:5-5 | without the rule that the holder unlocks, two CPUs can hold the lock |
| Atomic.StepInv | src/kernel/arch/x86/atomic.c:10-39 | every load and compare-and-swap keeps: the word is the initial value plus the finished calls, and each call returned the value the calls before it had made |
| Atomic.Linearizes | src/kernel/arch/x86/atomic.c:19-39 | so in every interleaving the calls act as if one after the other |
| Atomic.EndsAtSum | src/kernel/arch/x86/atomic.c:19-39 | once all CPUs are out, the word is the initial value plus all additions less all subtractions, modulo 2^32 |
| Atomic.FailureMeansProgress | src/kernel/arch/x86/atomic.c:26-26 | a swap fails only if another call finished since the load |

## Left out

- Device errors in the middle of an update: every sector access of the FAT model succeeds.
- Hardware, interrupts, console, window manager, network and shell: no state worth a theorem, or foreign instructions.
- ext2, devfs, block cache and partitions.
- `signal_clear_all`, which leaves real-time entries behind.
- `spinlock_force_lock`, `spinlock_force_unlock`, `spinlock_wait` and memory ordering: accesses to the word are sequentially consistent.
- Accessed and dirty bits, TLB flushes and the temporary mapping slot: a mapped frame is written directly, and the mapping may fail.
- Devices and executables as ramfs nodes, mounts below the root, and path strings with a trailing slash: paths are lists of names.
- File names longer than the caller's buffer, copying from user memory and the register file of the system calls.
- Reference counts as 32-bit words: they are unbounded numbers; a count is the number of its holders.
- FatRun.RunRefines: shrinking calls whose size computation wraps are excluded, as FatWrite.TruncateExact shows they must be.
- FatDirRun.RunRefines: runs create names that do not end in a dot, do not unlink "." or "..", and do not shrink to a size whose rounding wraps; FatName.NameRoundTrip, FatUnlink.UnlinkExact and FatWrite.TruncateExact show that each must be excluded.
- FatLayout.MountSound: devices of more than 2^28 sectors are excluded, which the 28-bit block driver cannot address.
- Heap.KernelHeap.Malloc: sizes whose rounded total wraps are excluded; Heap.PagesExact shows that the pages are then too few.
- Heap.KernelHeap.Calloc: as for malloc, once the product fits.
- Heap.KernelHeap.Realloc: as for malloc.
- Heap.KernelHeap.MallocAlign: as for malloc, for the sum of size and alignment.
- Heap.KernelHeap.Expand: whether a frame is refused is a choice; that the heap's region is disjoint from allocated frames is not stated.
- Pmm.FrameAllocator.constructor: the error for a memory size of 0 is not modelled, and the bitmap lies inside the memory it describes.
- Pmm.FrameAllocator.Free: the address lies inside the bitmap, as the code assumes of its callers.
- Paging.Memory.DestroyAddressSpace: the kernel's identity map reaches every frame, so "none of the kernel's" is said of its directory and tables.
- ElfImage.LoadImage: for a table of headers whose end wraps only the entry point is said, and not when the load succeeds; the headers are then read from outside the image.
- Elf.ReadFrom: the bytes of a wrapping image range are arbitrary; what lies behind the image is not modelled.
- ElfImage.SameMemory: segments that share a page are excluded; a later load replaces the page.
- Exec.ExecImage: thread and process creation are a choice to fail; that space destruction is safe is said for images that keep off the kernel's slots, and Spaces.MapExact shows that it fails otherwise.
- Exec.Populate: the trampoline's page is cleared when it is mapped and not only when its code is written; no one can read it in between.
- ExecStack.BuildStack: the arguments are a sequence, so a negative count and a missing vector do not arise; a copy may fail when its page cannot be mapped.
- Scheduler.Kernel.DoYield: the context switch is the change of the current thread; the idle thread exists and never exits.
- Path.WorkingDirectory.Chdir: what the file system says about the resolved path is a parameter.
