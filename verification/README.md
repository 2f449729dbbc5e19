# A model of the OS/161 kernel core

OS/161 is a small teaching kernel for MIPS. This project models, in Dafny 4.11, the parts of it
whose correctness is a property of whole runs, and proves those properties:

* **SFS**, the on-disk file system: block mapping, unaligned I/O, truncation, a flat directory, link
  counts, an inode cache, a free-block bitmap, `mksfs`, sync and mount. The disk is a sequence of
  blocks; the invariant ties the bitmap, every pointer of every inode, the directory and the inodes in
  memory together. On top of it, from the image `mksfs` writes and over every sequence of operations,
  a directory is a map, a file is a byte sequence and free space is a set, and each operation fails exactly
  when the room, the slots or the names it needs are not there.
* **malloc/free** of the C library: a boundary-tag heap in memory, first fit, two-sided coalescing.
* **Kernel memory**: size-class pages with free lists threaded through them, large blocks, the coremap,
  two-level page tables and the software-filled TLB, side by side in the same physical memory.
* **Threads and synchronisation**: the thread lists, the run queue, and semaphores, locks and condition
  variables as a transition system whose steps are the sections with interrupts off.
* **The intersection**: any number of cars, four region semaphores in a ring and a gate for three, with a
  proof that no run deadlocks.
* **Printing, parsing and random numbers**.

Code that updates state is modelled by classes and methods whose contracts give the whole new state as a
function of the old one; what the system promises is proved about those functions, and then over runs.

## Where to look

| file | source |
|---|---|
| SfsLayout, SfsVolume, SfsSpace | on-disk formats; who owns which block; room |
| Uio, Bitmap | `uio.c`, `bitmap.c` |
| SfsFile, SfsTruncate, SfsContents | block mapping, `sfs_io`, `sfs_truncate`; files as byte sequences |
| SfsDir, SfsOps, SfsNames | the directory, inodes in memory, names and links |
| SfsMount, Mksfs, SfsSession, SfsHistory | sync and mount, `mksfs`, runs of operations |
| UserHeap, Malloc, MallocRuns | `malloc.c` |
| RingQueue, PtrArray, Threads, Synch, SynchRuns | `queue.c`, `array.c`, `thread.c`, `scheduler.c`, `synch.c` |
| Coremap, PageTable, VmFault, Tlb | `vm.c`, `mem.c`, `addrspace.c` |
| KHeapSpec, KernelHeap, KmallocSpec, Kmalloc, KernelRuns | `kheap.c` on top of the coremap |
| Intersection | `stoplight.c` |
| Numerals, Atoi, Printf, PrintForms, PrintParse, Generators, RandomStates | `__printf.c`, `snprintf.c`, `atoi.c`, `random.c`, `pseudorand.c` |

## Where the code and its comments part

The model follows the code. Each of these is stated, with the exact condition, by the first member named,
and shown on an example by the second.

* Truncation to a length other than 0 does not clear the tail of the last block, and its comparison for
  the indirect block keeps one block more than needed (`SfsContents.TruncateClean`, `SfsContents.TailStays`).
* A write that fails, or writes nothing, at an offset past the end still raises the file size to that
  offset (`SfsFile.Sfs.Write`, `SfsContents.EmptyWriteGrows`).
* `mksfs` marks a bit twice on a device of two blocks, and would on one of one block (`Mksfs.MarkedOnce`, `Mksfs.MakeFs`).
* The recovery code of `sfs_rename`, and the panics of `sfs_lookonce`, `sfs_readdir` and `sfs_balloc`, can
  not be reached.
* `malloc` of a size within 15 bytes of 2^32 wraps around (`Malloc.RoundHolds`, `MallocRuns.HugeRequest`), and
  `free` refuses the topmost block if it holds no bytes (`Malloc.TopmostEmpty`, `MallocRuns.FreeOfNothing`).
* `kmalloc` of a size within a page of 2^32 returns an address and allocates nothing
  (`Kmalloc.Kernel.Kmalloc`, `KernelRuns.HugeRequest`).
* The run queue holds one thread less than it has slots, so a thread that yields can need memory, against
  the comments in `thread.c` (`Threads.YieldFits`, `Threads.FullRing`); so can a wakeup from an idle processor
  (`Threads.WakeFits`).
* `getppages` looks at the first free run only (`Coremap.Frames.GetPpages`, `Coremap.LongerRunMissed`).
* `incStack` and `incHeap` lose a frame when there is no memory for a page table (`PageTable.GrowLoses`,
  `PageTable.FrameLost`).
* `as_destroy` frees no second-level table (`PageTable.TablesLeak`).
* A page entry keeps the address of a frame only below one megabyte (`PageTable.AddressKept`,
  `PageTable.HighFrame`).
* `-` together with `0` in a format puts zeros to the right of the digits (`PrintParse.FormatThenParse`,
  `PrintParse.OneAsTenThousand`).
* `setstate` on the state in use goes back to its last save, though its comment calls this safe
  (`Generators.SetSame`, `Generators.SetSameOnce`).

## Model

| member | source | states |
|---|---|---|
| SfsLayout.InodeRoundTrip | os161/kern/include/kern/sfs.h:45-52 | an on-disk inode read back is the inode written, field by field, in the big-endian layout with its 16-bit type and link count |
| SfsLayout.EntryRoundTrip | os161/kern/include/kern/sfs.h:57-60 | a directory entry read back is the entry written; names are read up to their NUL |
| SfsLayout.InodeBytes | os161/kern/include/kern/sfs.h:45-52 | which byte of the block holds which part of which field of an inode; the rest are zeros |
| SfsLayout.EntryBytes | os161/kern/include/kern/sfs.h:57-60 | the same for a directory entry |
| SfsLayout.PutWordGet | os161/kern/fs/sfs/sfs_vnode.c:234-252 | storing a pointer in an indirect block is read back and disturbs no other pointer of the block |
| SfsVolume.AddDirectOk | os161/kern/fs/sfs/sfs_vnode.c:137-169 | claiming a free block for a null direct pointer keeps ownership exact and changes no byte of any file |
| SfsVolume.AddIndirectOk | os161/kern/fs/sfs/sfs_vnode.c:203-223 | claiming an indirect block moves no pointer, keeps ownership exact and changes no byte of any file |
| SfsVolume.AddViaIndirectOk | os161/kern/fs/sfs/sfs_vnode.c:234-260 | claiming a free block for a null entry of the indirect block keeps ownership exact and changes no byte of any file |
| SfsVolume.PutBlockOk | os161/kern/fs/sfs/sfs_vnode.c:318-346 | writing a data block of one file changes that block of that file and no other byte of any file |
| SfsVolume.DropDirectOk | os161/kern/fs/sfs/sfs_vnode.c:1089-1100 | releasing a direct block: it was marked and is not reserved, so neither check of the bitmap can fire; its part of the file reads as zeros and all else stays |
| SfsVolume.DropViaIndirectOk | os161/kern/fs/sfs/sfs_vnode.c:1122-1133 | releasing a block behind the indirect block: it was marked and is not reserved; its part of the file reads as zeros and all else stays |
| SfsVolume.DropIndirectOk | os161/kern/fs/sfs/sfs_vnode.c:1135-1140 | an indirect block that holds no pointer can be released without any file noticing |
| SfsVolume.AddInodeOk | os161/kern/fs/sfs/sfs_vnode.c:759-783 | a new inode owns its own block and nothing else, reads as empty, and no other file changes |
| SfsVolume.DropInodeOk | os161/kern/fs/sfs/sfs_vnode.c:882-899 | an inode without blocks can be discarded: its block was marked, is not reserved, becomes free, and no other file changes |
| SfsVolume.MarkedIffOwned | os161/kern/fs/sfs/sfs_vnode.c:60-103 | a block of the disk is marked in the free map if and only if it is reserved, an inode, or a block of some inode |
| SfsVolume.OneOwner | os161/kern/fs/sfs/sfs_vnode.c:115-261 | no block belongs to two files or twice to one, and none is an inode or reserved as well |
| SfsSpace.NeedSplit | os161/kern/fs/sfs/sfs_vnode.c:115-261 | the blocks it takes to map a range of a file are those its first part takes and then those the rest takes, the indirect block counted once |
| SfsSpace.NeedOne | os161/kern/fs/sfs/sfs_vnode.c:115-261 | one block takes none if it is mapped, else one, or two behind a wanting indirect block |
| UioModel.Uio.constructor | os161/kern/userprog/uio.c:114-124 | a descriptor of a whole kernel buffer |
| UioModel.Uio.Move | os161/kern/userprog/uio.c:11-83 | exactly min(n, resid) bytes go between the buffer and the described memory, in the direction asked for; nothing else changes and base, residue and offset advance by that much |
| UioModel.Uio.MoveZeros | os161/kern/userprog/uio.c:85-109 | the next min(n, resid) bytes of the described memory become zeros, 16 at a time |
| Bitmap.BitArray.constructor | os161/kern/lib/bitmap.c:30-64 | all bits clear, and the bits that pad the last byte permanently set |
| Bitmap.BitArray.Alloc | os161/kern/lib/bitmap.c:72-94 | takes the lowest clear bit and fails exactly when every bit is set; the fall-through of the inner scan cannot happen |
| Bitmap.BitArray.Mark | os161/kern/lib/bitmap.c:107-118 | sets one clear bit and no other |
| Bitmap.BitArray.Unmark | os161/kern/lib/bitmap.c:120-131 | clears one set bit and no other, undoing a mark |
| Bitmap.BitArray.IsSet | os161/kern/lib/bitmap.c:134-142 | reads one bit through the byte and mask arithmetic |
| SfsFile.Sfs.BAlloc | os161/kern/fs/sfs/sfs_vnode.c:60-78 | the lowest free block, cleared and marked; ENOSPC exactly with a full map; the range panic is unreachable |
| SfsFile.Sfs.BMapDirect | os161/kern/fs/sfs/sfs_vnode.c:137-169 | a direct block found or allocated; without allocation or on ENOSPC nothing changes |
| SfsFile.Sfs.GetIndirect | os161/kern/fs/sfs/sfs_vnode.c:191-232 | an indirect block found or allocated; no file block moves |
| SfsFile.Sfs.BMapIndirect | os161/kern/fs/sfs/sfs_vnode.c:171-261 | a block behind the indirect block found or allocated; ENOSPC only with a full map and for an unmapped block |
| SfsFile.Sfs.BMap | os161/kern/fs/sfs/sfs_vnode.c:115-261 | the disk block of a file block; EINVAL exactly past the 143rd block, ENOSPC exactly with fewer blocks free than mapping it takes; allocation changes no byte of any file, touches one inode, takes just those blocks and keeps every invariant; the final sanity panic is unreachable |
| SfsFile.Sfs.PartialIo | os161/kern/fs/sfs/sfs_vnode.c:277-347 | a transfer within a block moves exactly the bytes asked for or none at all, with the exact error conditions |
| SfsFile.Sfs.BlockIo | os161/kern/fs/sfs/sfs_vnode.c:352-412 | a whole block goes straight between disk and memory, or nothing on an error |
| SfsFile.Sfs.IoHead | os161/kern/fs/sfs/sfs_vnode.c:447-468 | the unaligned start of a request goes through whole or, on an error, not at all, and leaves the rest block-aligned |
| SfsFile.Sfs.IoBlocks | os161/kern/fs/sfs/sfs_vnode.c:475-485 | the whole blocks of an aligned request go through up to the first that cannot be had, with less than a block left on success |
| SfsFile.Sfs.IoTail | os161/kern/fs/sfs/sfs_vnode.c:475-497 | an aligned request goes through whole, or up to the first block that cannot be had |
| SfsFile.Sfs.Read | os161/kern/fs/sfs/sfs_vnode.c:417-513 | memory receives exactly the file bytes at the offset, stopping at the file size; the file system does not change; EINVAL only past the mappable range, with exactly the bytes before it transferred |
| SfsFile.Sfs.Write | os161/kern/fs/sfs/sfs_vnode.c:417-513 | exactly the bytes counted by the drop of the residue are stored, whether or not the request fails; all other bytes of all files stay; ENOSPC if and only if the blocks it touches take more than are free, else EINVAL if and only if it goes past the mappable range, and then it has stopped at the first block that can not be had |
| SfsTruncate.BFree | os161/kern/fs/sfs/sfs_vnode.c:83-89 | one marked block is unmarked and loses its owner |
| SfsTruncate.TruncateDirect | os161/kern/fs/sfs/sfs_vnode.c:1089-1100 | exactly the direct blocks from the new length on are released |
| SfsTruncate.ScanIndirect | os161/kern/fs/sfs/sfs_vnode.c:1114-1133 | the scan releases what the strict comparison lets go, buffers the changes, and finds whether anything is left |
| SfsTruncate.TruncateIndirect | os161/kern/fs/sfs/sfs_vnode.c:1102-1148 | the indirect block goes exactly when nothing is left behind it |
| SfsTruncate.Truncate | os161/kern/fs/sfs/sfs_vnode.c:1063-1157 | for every length: the size is set, the blocks beyond the comparisons are gone and read as zeros, everything else stays |
| SfsContents.ReadContent | os161/kern/fs/sfs/sfs_vnode.c:417-513 | what a read hands back is a slice of the byte sequence that is the file |
| SfsContents.WriteContent | os161/kern/fs/sfs/sfs_vnode.c:417-513 | what a write does, complete or cut short, is to splice its bytes into that sequence, with zeros in any gap |
| SfsContents.EmptyContent | os161/kern/fs/sfs/sfs_vnode.c:1063-1157 | truncation to 0 leaves the empty sequence |
| SfsContents.OtherContent | os161/kern/fs/sfs/sfs_vnode.c:417-513 | operations on one file leave the sequence of every other file alone |
| SfsContents.TruncateKeeps | os161/kern/fs/sfs/sfs_vnode.c:1063-1157 | truncation to any length keeps the bytes before it |
| SfsContents.TruncateClean | os161/kern/fs/sfs/sfs_vnode.c:1089-1151 | after truncation to any length the file grows with zeros again if and only if no byte other than zero was stored past the new end in a block that the comparisons keep |
| SfsContents.TailStays | os161/kern/fs/sfs/sfs_vnode.c:1089-1151 | a volume on which it fails: two bytes cut to one leave the second in the block, past the end |
| SfsContents.EmptyWriteGrows | os161/kern/fs/sfs/sfs_vnode.c:499-513 | a write of nothing past the end of a file of two bytes makes it five bytes long |
| SfsContents.TruncateWholeBlocks | os161/kern/fs/sfs/sfs_vnode.c:1089-1100 | lengths of whole blocks below the indirect block always qualify |
| SfsContents.StepRefines | os161/kern/fs/sfs/sfs_vnode.c:417-513 | each write and each emptying of a file is the corresponding step on a map from inodes to byte sequences |
| SfsContents.RunRefines | os161/kern/fs/sfs/sfs_vnode.c:417-513 | so is every run of them |
| SfsDir.SpliceSlot | os161/kern/fs/sfs/sfs_vnode.c:556-584 | writing an encoded entry at its slot is replacing or appending that entry of the table |
| SfsDir.ReadDir | os161/kern/fs/sfs/sfs_vnode.c:523-550 | the entry of a slot; the short-entry panic is unreachable |
| SfsDir.FindName | os161/kern/fs/sfs/sfs_vnode.c:614-658 | found if and only if an occupied slot has the name; and the last empty slot |
| SfsDir.WriteDir | os161/kern/fs/sfs/sfs_vnode.c:556-584 | the entry is written whole or not at all, and fails exactly if its block can not be had, which never happens to an occupied slot |
| SfsDir.OccupiedIsMapped | os161/kern/fs/sfs/sfs_vnode.c:556-584 | the block of an occupied slot is always mapped, so an unlink cannot run out of space |
| SfsOps.InoOfPut | os161/kern/fs/sfs/sfs_vnode.c:664-720 | writing one slot changes where at most two names lead |
| SfsOps.LinkBound | os161/kern/fs/sfs/sfs_vnode.c:1183-1297 | no link count comes near the width of its 16-bit field |
| SfsOps.LoadVnode | os161/kern/fs/sfs/sfs_vnode.c:1545-1651 | an inode found in memory or read back from its block, the same inode either way, with one reference more |
| SfsOps.MakeObj | os161/kern/fs/sfs/sfs_vnode.c:759-783 | a block for a new, unlinked, empty file with one reference; ENOSPC, and no change, if and only if no block is free |
| SfsOps.SyncInode | os161/kern/fs/sfs/sfs_vnode.c:38-51 | the inode is on disk and clean; no other block, file or name changes |
| SfsOps.Reclaim | os161/kern/fs/sfs/sfs_vnode.c:856-924 | an inode leaves memory written back; one without links loses its storage, all other files stay |
| SfsOps.DecRef | os161/kern/fs/vfs/vnode.c:73-98 | an inode and its storage go if and only if the last reference is dropped and the link count is 0 |
| SfsOps.RootIsLinked | os161/kern/fs/sfs/sfs_vnode.c:882-899 | the root directory is never reclaimed as unlinked |
| SfsNames.DirLink | os161/kern/fs/sfs/sfs_vnode.c:664-703 | EEXIST if and only if the name is taken, else ENAMETOOLONG if and only if it does not fit, else EINVAL if and only if all 1144 slots are taken, else ENOSPC if and only if the block of the slot takes more blocks than are free; else the entry goes to the last empty slot or the end; a failure leaves the table as it was |
| SfsNames.EntryNeedIs | os161/kern/fs/sfs/sfs_vnode.c:664-703 | a new entry takes no block if its slot is mapped, else one, or two with the indirect block |
| SfsNames.DirUnlink | os161/kern/fs/sfs/sfs_vnode.c:708-720 | the slot becomes empty, and this cannot fail |
| SfsNames.LookOnce | os161/kern/fs/sfs/sfs_vnode.c:726-752 | ENOENT if and only if the name is absent; else its inode, with one reference more and a link count above 0, so the panic is unreachable |
| SfsNames.Link | os161/kern/fs/sfs/sfs_vnode.c:1243-1264 | one name more leads to the inode and its link count is one higher, or nothing changes; fails exactly as entering the name does |
| SfsNames.Remove | os161/kern/fs/sfs/sfs_vnode.c:1269-1297 | the name is gone and one link less; the inode and all its blocks go if and only if that was the last link and nobody holds a reference |
| SfsNames.Rename | os161/kern/fs/sfs/sfs_vnode.c:1305-1379 | a successful rename only moves the name, a failed one changes no name; link counts, files and references are the same in either case; the recovery code and its panic are unreachable; it fails exactly if the old name is absent or entering the new one does; the assertion on the kind of the file fails if and only if the name leads to the root directory |
| SfsNames.Creat | os161/kern/fs/sfs/sfs_vnode.c:1183-1236 | opens the existing file or makes a new empty one with one link, which fails exactly if no block is free for its inode or the entry fails with one block less; a creation that fails half way leaves no trace |
| SfsNames.FileWritten | os161/kern/fs/sfs/sfs_vnode.c:417-513 | writing to a file keeps names, link counts and every other file |
| SfsNames.RenameBack | os161/kern/fs/sfs/sfs_vnode.c:1305-1379 | renaming back restores every name |
| SfsNames.LinkThenRemove | os161/kern/fs/sfs/sfs_vnode.c:1243-1297 | a link added and removed leaves names, inodes and link counts as they were |
| SfsNames.CreateThenRemove | os161/kern/fs/sfs/sfs_vnode.c:1183-1297 | a file created, written, closed and removed leaves nothing behind |
| SfsMount.WriteMap | os161/kern/fs/sfs/sfs_fs.c:39-73 | the map on disk is the map in memory; no block outside the map area changes |
| SfsMount.ReadMap | os161/kern/fs/sfs/sfs_fs.c:39-73 | the map read is the map on disk, bit for bit |
| SfsMount.Sync | os161/kern/fs/sfs/sfs_fs.c:80-145 | every loaded inode and the map are on disk; files, names and references stay |
| SfsMount.Mount | os161/kern/fs/sfs/sfs_fs.c:208-311 | a disk is mounted, with the map it holds and nothing in memory, if and only if its magic number is right and the map it announces lies on the device |
| SfsMount.MapDetermined | os161/kern/fs/sfs/sfs_fs.c:39-73 | the disk determines the map |
| SfsMount.Remount | os161/kern/fs/sfs/sfs_fs.c:80-311 | syncing, unmounting and mounting again gives the same map, inodes, bytes and names |
| Mksfs.MarkedOnce | os161/sbin/mksfs/mksfs.c:75-108 | the assertion that a bit is marked once holds if and only if the device has no block or at least three |
| Mksfs.DoAllocBit | os161/sbin/mksfs/mksfs.c:75-84 | one bit of the buffer is set; the assertion holds if and only if it was clear |
| Mksfs.FillBits | os161/sbin/mksfs/mksfs.c:86-108 | the buffer marks exactly the superblock, the root inode, the map and what lies past the end of the device; an assertion fails exactly on a device of one or two blocks |
| Mksfs.WriteBitmap | os161/sbin/mksfs/mksfs.c:86-114 | the map on the disk says the same; exactly which devices are too large or too small |
| Mksfs.SuperReadBack | os161/sbin/mksfs/mksfs.c:39-56 | the superblock gives back the magic number, the size and the NUL-terminated volume name |
| Mksfs.SuperBytes | os161/sbin/mksfs/mksfs.c:39-56 | the superblock byte by byte |
| Mksfs.MakeFs | os161/sbin/mksfs/mksfs.c:116-165 | its outcome for every device and name; the image, when one is made, is a consistent file system with an empty directory, whatever the device held before |
| Mksfs.MakeAndMount | os161/kern/fs/sfs/sfs_fs.c:208-311 | what mksfs makes, a mount accepts, and every invariant holds of it |
| Mksfs.FreshRoom | os161/sbin/mksfs/mksfs.c:86-114 | on a new volume all blocks are free but the superblock, the root inode and the map |
| Mksfs.FreshCreate | os161/kern/fs/sfs/sfs_vnode.c:1183-1236 | on a volume without files a creation succeeds if and only if the name has at most 59 bytes and two blocks are free |
| SfsSession.Step | os161/kern/fs/sfs/sfs_vnode.c:726-1379 | what each system-level operation does to names, links, references, files and storage, and exactly when it fails and how |
| SfsSession.Session | os161/kern/fs/sfs/sfs_vnode.c:726-1379 | every sequence of operations is a run of such steps |
| SfsHistory.DirectoryIsMap | os161/kern/fs/sfs/sfs_vnode.c:614-720 | after every run each name leads where the successful creations, links, removals and renames say, whatever else was done |
| SfsHistory.FileIsBytes | os161/kern/fs/sfs/sfs_vnode.c:417-513 | after every run a file still in existence holds what its writes and truncations, in order and as far as they got, make of its bytes, whatever became of its names and handles |
| SfsHistory.OpenOrNamedIsThere | os161/kern/fs/sfs/sfs_vnode.c:856-924 | a file that is open or named has not been reclaimed |
| SfsHistory.ReadsLastWritten | os161/kern/fs/sfs/sfs_vnode.c:417-513 | a read after any run returns the bytes last written, up to the size |
| SfsHistory.Life | os161/sbin/mksfs/mksfs.c:86-114 | from a fresh image on, after every sequence of operations: the directory is the map described, all invariants hold, and a block is marked if and only if it is reserved, an inode or a block of an inode |
| UserHeap.TakeCoalesced | os161/lib/libc/malloc.c:332-377 | allocating from a free block leaves no two free neighbours |
| UserHeap.ReleaseCoalesced | os161/lib/libc/malloc.c:492-508 | freeing merges with both neighbours, so that no two free blocks touch |
| UserHeap.AllFreeIsOne | os161/lib/libc/malloc.c:425-514 | a heap in which nothing is in use is one free block |
| UserHeap.SplitLaid | os161/lib/libc/malloc.c:265-302 | a split keeps every header exact, free memory wiped and user data untouched |
| UserHeap.MergeLaid | os161/lib/libc/malloc.c:425-451 | a merge does the same |
| UserHeap.ExtendLaid | os161/lib/libc/malloc.c:382-402 | so does a new block at the top |
| UserHeap.LiveTake | os161/lib/libc/malloc.c:332-377 | allocation from the heap adds exactly one live block that was not live, as large as asked for or one cell larger |
| UserHeap.LiveExtend | os161/lib/libc/malloc.c:382-402 | so does extending the heap |
| UserHeap.LiveRelease | os161/lib/libc/malloc.c:456-514 | freeing takes exactly that block out of the live ones |
| UserHeap.LiveApart | os161/lib/libc/malloc.c:307-403 | live blocks never overlap |
| Malloc.RoundHolds | os161/lib/libc/malloc.c:329-386 | rounding a request up and adding a header stays at or above the request and within 32 bits if and only if the request is at most 2^32 - 16 |
| Malloc.Heap.constructor | os161/lib/libc/malloc.c:121-178 | an empty heap from the aligned break on |
| Malloc.Heap.Cut | os161/lib/libc/malloc.c:265-302 | a block is split exactly when the rest can hold a header and data |
| Malloc.Heap.Malloc | os161/lib/libc/malloc.c:307-403 | for every 32-bit size: takes the lowest block that fits and moves the break only when none does; NULL exactly when none fits and the break does not move; the checks for corruption never fire; no other live byte changes |
| Malloc.Heap.Wipe | os161/lib/libc/malloc.c:411-420 | exactly the given cells are overwritten |
| Malloc.Heap.Join | os161/lib/libc/malloc.c:425-451 | two adjacent free blocks become one; the header checks never fire |
| Malloc.Heap.Store | os161/lib/libc/malloc.c:307-403 | a program that stays within its block can neither damage a header nor another block |
| Malloc.Heap.Free | os161/lib/libc/malloc.c:456-514 | which of its verdicts free reaches for every pointer; on success exactly that block is freed, merged and wiped |
| Malloc.FreedIsFree | os161/lib/libc/malloc.c:492-508 | what was a block header lies, once freed, in a free block |
| Malloc.FreeIsGuarded | os161/lib/libc/malloc.c:474-490 | no pointer into free memory passes the checks of free |
| Malloc.FreeTwice | os161/lib/libc/malloc.c:456-514 | freeing a pointer twice is caught, whatever merging the first free did |
| Malloc.TopmostEmpty | os161/lib/libc/malloc.c:474-475 | the range check of free refuses a live block if and only if it is the topmost and holds no bytes |
| Malloc.DoSound | os161/lib/libc/malloc.c:307-514 | each malloc and each free that free accepts keeps the blocks tiling the heap without free neighbours, and adds the block at the first fit or removes the one freed |
| Malloc.RunSound | os161/lib/libc/malloc.c:307-514 | so does every sequence, and a block not freed stays live |
| Malloc.RunAllFreed | os161/lib/libc/malloc.c:307-514 | when everything has been freed the heap is a single free block again |
| Malloc.BytesKept | os161/lib/libc/malloc.c:307-514 | through every sequence of allocations, frees and stores a block not freed keeps what the program last stored in each cell |
| MallocRuns.Step | os161/lib/libc/malloc.c:307-514 | one call by a program that frees and writes only what it holds; it ends the program if and only if it frees a block of no bytes at the very top |
| MallocRuns.Run | os161/lib/libc/malloc.c:307-514 | any sequence of calls on the heap in memory is such a run, every pointer handed out leads to a live block until it is freed, and all that is proved of runs holds of it |
| MallocRuns.HugeRequest | os161/lib/libc/malloc.c:329-386 | malloc of 2^32 - 1 bytes hands out a block with no data |
| MallocRuns.FreeOfNothing | os161/lib/libc/malloc.c:474-475 | a block of no bytes just allocated can not be freed |
| RingQueue.FullIsOneLess | os161/kern/lib/queue.c:90-108 | a ring is full if and only if it holds one item less than it has slots |
| RingQueue.DoubleUp | os161/kern/lib/queue.c:17-30 | doubling reaches the target |
| RingQueue.Queue.constructor | os161/kern/lib/queue.c:53-68 | an empty queue |
| RingQueue.Queue.Grow | os161/kern/lib/queue.c:17-51 | the larger ring holds the same items in the same order; the call back into q_addtail never grows again, so the mutual recursion ends |
| RingQueue.Queue.Preallocate | os161/kern/lib/queue.c:70-81 | room for n - 1 items, and when that takes memory |
| RingQueue.Queue.AddTail | os161/kern/lib/queue.c:90-108 | appends, and needs memory exactly when the ring is full |
| RingQueue.Queue.RemHead | os161/kern/lib/queue.c:110-121 | the oldest item |
| PtrArrays.PtrArray.constructor | os161/kern/lib/array.c:15-26 | an empty array without storage |
| PtrArrays.PtrArray.Preallocate | os161/kern/lib/array.c:42-65 | the same contents in storage that doubles to the size asked for |
| PtrArrays.PtrArray.SetSize | os161/kern/lib/array.c:67-89 | keeps the common part; emptying drops a storage of more than 16 slots |
| PtrArrays.PtrArray.Add | os161/kern/lib/array.c:99-114 | appends, and needs memory exactly when every slot is taken |
| PtrArrays.PtrArray.Remove | os161/kern/lib/array.c:116-127 | takes one item out and keeps the order of the others |
| Threads.WhoWakes | os161/kern/thread/thread.c:612-640 | a thread wakes if and only if it sleeps on the address |
| Threads.WakeAllConserves | os161/kern/thread/thread.c:612-640 | waking everyone on an address neither loses nor duplicates a thread |
| Threads.WakeOneConserves | os161/kern/thread/thread.c:644-673 | waking one thread conserves threads |
| Threads.StashConserves | os161/kern/thread/thread.c:388-410 | a thread that leaves the processor is in exactly one list |
| Threads.DispatchConserves | os161/kern/thread/thread.c:412-440 | a thread that is dispatched is in no list |
| Threads.ThreadSystem.constructor | os161/kern/thread/thread.c:180-228 | one running thread and empty lists |
| Threads.ThreadSystem.Wakeup | os161/kern/thread/thread.c:612-640 | the loop that removes while it scans moves exactly the sleepers on the address to the run queue, in the order they fell asleep; its assertion fails if and only if there is no memory and the ring can not take them |
| Threads.ThreadSystem.WakeupSingle | os161/kern/thread/thread.c:644-673 | exactly the first sleeper on the address moves; its assertion fails if and only if there is one, no memory and no room |
| Threads.ThreadSystem.Leave | os161/kern/thread/thread.c:380-410 | where the current thread goes, and exactly when that needs memory |
| Threads.ThreadSystem.Pick | os161/kern/thread/thread.c:412-440 | the head of the run queue runs, and reaps the dead unless it is new |
| Threads.ThreadSystem.Reserve | os161/kern/thread/thread.c:291-308 | room for one thread more in all three lists, which keep what they hold, if and only if the memory that takes is there |
| Threads.ThreadSystem.Fork | os161/kern/thread/thread.c:289-325 | the new thread is last in the run queue and counted, or nothing changed; the exact condition of success; the lists then have room for every thread there is, and the sleepers list grows as it does in Synch |
| Threads.ThreadSystem.HasSleepers | os161/kern/thread/thread.c:680-695 | true if and only if somebody sleeps on the address |
| Threads.WakeFits | os161/kern/thread/thread.c:612-640 | with as many slots as threads, which a fork makes, a wakeup needs memory if and only if the processor is idle, no slot is to spare and all threads sleep on the address |
| Threads.YieldFits | os161/kern/thread/thread.c:392-398 | and a yield if and only if no slot is to spare and nobody sleeps |
| Threads.FullRing | os161/kern/thread/thread.c:392-398 | a run to that point: after 31 forks a yield needs memory |
| Synch.TryPKeeps | os161/kern/thread/synch.c:63-84 | the loop of P keeps the invariant |
| Synch.VKeeps | os161/kern/thread/synch.c:86-96 | V keeps it |
| Synch.AcquireKeeps | os161/kern/thread/synch.c:132-146 | the loop of lock_acquire keeps it |
| Synch.ReleaseKeeps | os161/kern/thread/synch.c:148-164 | lock_release by the holder keeps it and leaves the lock empty |
| Synch.WaitKeeps | os161/kern/thread/synch.c:216-232 | releasing the lock and falling asleep in one step keeps it |
| Synch.WakeOneKeeps | os161/kern/thread/synch.c:234-248 | cv_signal keeps it |
| Synch.WakeAllKeeps | os161/kern/thread/synch.c:250-263 | waking everyone on an address keeps it, and restores it for that address |
| Synch.ForkKeeps | os161/kern/thread/thread.c:289-325 | a fork keeps it |
| Synch.StepKeeps | os161/kern/thread/synch.c:63-263 | every step of every thread and every interrupt keeps the whole invariant |
| SynchRuns.Reachable | os161/kern/thread/synch.c:63-263 | the invariant holds in every reachable state |
| SynchRuns.SemaphoreCounts | os161/kern/thread/synch.c:63-96 | in every reachable state a count is its initial value plus the Vs minus the Ps that got through |
| SynchRuns.PWaits | os161/kern/thread/synch.c:63-84 | a P comes back at once if and only if the count is above zero, and lowers it; else its thread sleeps on the semaphore |
| SynchRuns.PGoesOn | os161/kern/thread/synch.c:63-84 | whatever step is taken, a P goes on, or its own thread comes back and has lowered a count above zero |
| SynchRuns.PReturnsLowered | os161/kern/thread/synch.c:63-84 | over every run: a P that is over ended at a step of its own thread that lowered the count |
| SynchRuns.LowersIsReturn | os161/kern/thread/synch.c:63-84 | the Ps that are counted are exactly those that come back |
| SynchRuns.VWakes | os161/kern/thread/synch.c:86-96 | a V raises the count by one, and exactly the threads asleep on the semaphore are ready to run |
| SynchRuns.NoLostWakeup | os161/kern/thread/synch.c:63-164 | in every reachable state nobody sleeps on a semaphore above zero or on a free lock |
| SynchRuns.MutualExclusion | os161/kern/thread/synch.c:132-164 | in every reachable state at most one thread is between acquiring and releasing a lock, and the lock names it |
| SynchRuns.AcquireWaits | os161/kern/thread/synch.c:132-146 | lock_acquire comes back at once, with the lock, if and only if it is free; else its thread sleeps on it |
| SynchRuns.AcquireGoesOn | os161/kern/thread/synch.c:132-146 | whatever step is taken, an acquire goes on, or its own thread comes back with the lock to itself |
| SynchRuns.AcquireReturnsHolding | os161/kern/thread/synch.c:132-146 | over every run: an acquire that is over ended at a step of its own thread, which then had the lock to itself |
| SynchRuns.AloneUntilRelease | os161/kern/thread/synch.c:132-164 | over every run: until a thread lets go of a lock it came back with, no other comes back with it |
| SynchRuns.ReleaseFrees | os161/kern/thread/synch.c:148-164 | a release leaves the lock free, nobody inside, and everyone asleep on it ready to run |
| SynchRuns.WaitGoesOn | os161/kern/thread/synch.c:216-232 | whatever step is taken, a thread in cv_wait stays in it, asleep, ready or asleep on the lock, or returns by its own step with the lock |
| SynchRuns.WaiterReturnsHolding | os161/kern/thread/synch.c:216-232 | over every run: a wait that is over ended at some step of its own thread, after which that thread alone held the lock |
| SynchRuns.WaitSleeps | os161/kern/thread/synch.c:216-232 | after cv_wait has released the lock its caller is already asleep on the condition variable |
| SynchRuns.WaiterStays | os161/kern/thread/synch.c:216-263 | it stays asleep through any run without a signal or broadcast of that variable |
| SynchRuns.SignalWakesLongest | os161/kern/thread/synch.c:234-248 | a signal wakes exactly the waiter asleep longest, who joins the end of the run queue |
| SynchRuns.SignalWithoutWaiter | os161/kern/thread/synch.c:234-248 | a signal nobody waits for changes nothing |
| SynchRuns.BroadcastWakesAll | os161/kern/thread/synch.c:250-263 | a broadcast wakes every waiter |
| SynchRuns.ThreadsConserved | os161/kern/thread/thread.c:356-440 | in every reachable state each thread is in exactly one place and the count is that of the threads not dead |
| SynchRuns.SleepNeedsNoMemory | os161/kern/thread/thread.c:289-325 | in every reachable state after the first fork the current thread can fall asleep without memory |
| SynchRuns.YieldGoesLast | os161/kern/thread/thread.c:392-398 | a thread that yields is last in the run queue, and nothing else changes |
| SynchRuns.ForkAddsOne | os161/kern/thread/thread.c:310-322 | a new thread is last in the run queue and counted |
| SynchRuns.ExitIsFinal | os161/kern/thread/thread.c:392-410 | a thread that exits is dead, in no other list, and no longer counted |
| SynchRuns.ServedInOrder | os161/kern/thread/scheduler.c:87-118 | through every run the thread at position k of the run queue moves up one place with each dispatch |
| SynchRuns.RunsAtItsTurn | os161/kern/thread/scheduler.c:87-118 | it runs at dispatch number k + 1 |
| Coremap.TakeThenGiveBack | os161/kern/vm/vm.c:65-159 | free_kpages undoes getppages exactly |
| Coremap.Frames.GetPpages | os161/kern/vm/vm.c:65-120 | takes the first free run if it is long enough, and otherwise, even if a longer run follows, fails and changes nothing |
| Coremap.LongerRunMissed | os161/kern/vm/vm.c:65-120 | frames 0, 2 and 3 of four are free, and a request for two is refused |
| Coremap.Frames.FreeKpages | os161/kern/vm/vm.c:134-159 | exactly the frames of the run are free again |
| Coremap.Frames.AllocatePage | os161/kern/userprog/mem.c:14-24 | the first free frame, or failure when there is none |
| PageTable.LookupSet | os161/kern/userprog/mem.c:27-77 | setting an entry of the two-level table changes the translation of that page only |
| PageTable.FramesNotShared | os161/kern/userprog/mem.c:27-126 | no frame is mapped twice, in one address space or in two |
| PageTable.UserOrKernel | os161/kern/vm/vm.c:65-159 | no mapped frame is part of a run in kernel hands |
| PageTable.KAllocSound | os161/kern/vm/vm.c:65-132 | alloc_kpages keeps frames, runs and page tables in agreement |
| PageTable.KFreeSound | os161/kern/vm/vm.c:134-159 | so does free_kpages |
| PageTable.MapAtSound | os161/kern/userprog/mem.c:27-126 | so does mapping a page |
| PageTable.LostSound | os161/kern/userprog/mem.c:27-126 | so does failing for want of a page table, though the frame is lost |
| PageTable.GrowSound | os161/kern/userprog/mem.c:27-126 | so does growing by a page, which maps that page to the first free frame, or nothing; no other translation changes |
| PageTable.GrowLoses | os161/kern/userprog/mem.c:27-126 | the frame taken for the page is lost if and only if the page has no second-level table and there are no two free frames in a row for one |
| PageTable.FrameLost | os161/kern/userprog/mem.c:27-126 | on a machine of two frames the first page of the first process is lost |
| PageTable.TablesAreNoPages | os161/kern/userprog/mem.c:27-126 | no page is mapped to a frame of an address space or of a second-level table |
| PageTable.CreatedSound | os161/kern/vm/addrspace.c:14-34 | so does making an address space in a frame of its own |
| PageTable.DestroyedSound | os161/kern/vm/addrspace.c:164-202 | so does destroying an address space |
| PageTable.FreedIffMapped | os161/kern/vm/addrspace.c:164-202 | a frame is freed with an address space if and only if one of its pages had it |
| PageTable.TablesLeak | os161/kern/vm/addrspace.c:164-202 | the second-level tables of a destroyed address space stay allocated, in no hands |
| PageTable.AddressKept | os161/kern/include/addrspace.h:11-15 | the 20-bit field keeps the address of a frame if and only if the frame lies in the first megabyte |
| PageTable.HighFrame | os161/kern/include/addrspace.h:11-15 | with memory from one megabyte on, the first page mapped is entered at an address below it |
| PageTable.RunSound | os161/kern/vm/vm.c:65-159 | over every run of kernel allocation, new address spaces, growth and exits, every frame has one use, every table is where its address space says, and every page entry is exact |
| VmFault.Vm.AllocKpages | os161/kern/vm/vm.c:122-132 | a run of frames in kernel hands, or 0 and no change |
| VmFault.Vm.FreeKpages | os161/kern/vm/vm.c:134-159 | the run is free again |
| VmFault.Vm.Create | os161/kern/vm/addrspace.c:14-34 | an address space with no pages in a frame of its own, or none if there is no frame |
| VmFault.Vm.IncPage | os161/kern/userprog/mem.c:27-126 | incStack and incHeap: a frame, two more for a table if there is none, and the entry; success if and only if those frames can be had, and the frame they lose otherwise |
| VmFault.Vm.Destroy | os161/kern/vm/addrspace.c:164-202 | the nested loops free exactly the frames the address space had mapped, and its own |
| Tlb.LoIsValid | os161/kern/arch/mips/include/tlb.h:50-59 | a page address and the two flags do not disturb one another |
| Tlb.FlushedOk | os161/kern/vm/addrspace.c:40-54 | a flushed TLB has 64 distinct tags and no translation |
| Tlb.RefilledOk | os161/kern/vm/vm.c:272-306 | a refill after a miss keeps all tags distinct and all translations those of the page table |
| Tlb.RunOk | os161/kern/vm/vm.c:163-306 | over every run of activations, growth and misses the 64 tags stay distinct and every valid entry is the page table translation |
| Tlb.Processor.Flush | os161/kern/vm/addrspace.c:40-54 | the loop of as_activate leaves every slot unused with its own tag |
| Tlb.Processor.Refill | os161/kern/vm/vm.c:272-306 | the last return of vm_fault, for want of a slot, is unreachable; one slot changes |
| Tlb.Processor.Fault | os161/kern/vm/vm.c:198-306 | a fault succeeds if and only if the page is mapped afterwards; the TLB then has its translation, else it is unchanged; the page tables grow exactly as far as memory allows |
| KHeapSpec.LiveApart | os161/kern/lib/kheap.c:350-460 | live small blocks never overlap |
| KHeapSpec.MallocLive | os161/kern/lib/kheap.c:350-460 | allocation makes exactly one block live that was not, of the size class asked for, and moves no other |
| KHeapSpec.FreeLive | os161/kern/lib/kheap.c:462-543 | freeing makes exactly that block not live and moves no other |
| KHeapSpec.PageReturned | os161/kern/lib/kheap.c:531-537 | a page goes back if and only if its last live block is freed |
| KHeapSpec.RunKeeps | os161/kern/lib/kheap.c:350-543 | through every sequence the lists, free lists and counts stay exact, and a block not freed stays where it is |
| KernelHeap.PopRep | os161/kern/lib/kheap.c:380-400 | taking the head of the free list in memory; the assertions on offset and count hold |
| KernelHeap.PushRep | os161/kern/lib/kheap.c:507-526 | putting a block at the head of the free list in memory disturbs no other link |
| KernelHeap.InitRep | os161/kern/lib/kheap.c:428-447 | the links of a new page are a free list of all its blocks |
| KernelHeap.Allocator.AllocPageref | os161/kern/lib/kheap.c:110-133 | the lowest page reference not in use, or none |
| KernelHeap.Allocator.FindRoom | os161/kern/lib/kheap.c:372-378 | the first page of the size list with a free block |
| KernelHeap.Allocator.TakeFirst | os161/kern/lib/kheap.c:378-406 | the first free block of the page, whose free list and count stay exact |
| KernelHeap.Allocator.LinkPage | os161/kern/lib/kheap.c:440-447 | each block of a new page linked to the one below it |
| KernelHeap.Allocator.MakePage | os161/kern/lib/kheap.c:431-456 | a new page at the front of both lists with all its blocks free |
| KernelHeap.Allocator.FindPage | os161/kern/lib/kheap.c:481-498 | the page a pointer lies on, or none |
| KernelHeap.Allocator.Store | os161/kern/lib/kheap.c:350-460 | whoever holds a block can write all of it without touching a link or another block |
| KernelHeap.Allocator.PutBack | os161/kern/lib/kheap.c:507-526 | the block is wiped and linked in; every other word of every page stays |
| KernelHeap.Allocator.RemoveLists | os161/kern/lib/kheap.c:307-330 | the page is on neither list, and the order of the others stays |
| KmallocSpec.BlocksApart | os161/kern/lib/kheap.c:548-566 | no two blocks in use overlap, be they small, large or one of each |
| KmallocSpec.BlockAndPage | os161/kern/vm/vm.c:65-132 | no block in use overlaps a user page |
| KmallocSpec.GrowEffect | os161/kern/userprog/mem.c:27-126 | a user page comes without touching a kernel block, but for the one its table is |
| KmallocSpec.CreateEffect | os161/kern/vm/addrspace.c:14-34 | an address space is one block more and touches no other |
| KmallocSpec.DestroyEffect | os161/kern/vm/addrspace.c:164-202 | its end gives back that block and touches no other |
| KmallocSpec.BlockStays | os161/kern/lib/kheap.c:548-580 | through every run a block stays where it is, as long as it is, with the words its holder last wrote, until it is given back |
| KmallocSpec.RunApart | os161/kern/lib/kheap.c:548-580 | in every state of every run no two blocks in use overlap |
| Kmalloc.Kernel.SubpageKmalloc | os161/kern/lib/kheap.c:350-460 | the allocator in memory does what its specification says, asking for a page only if no page has room and a page reference is left |
| Kmalloc.Kernel.SubpageKfree | os161/kern/lib/kheap.c:462-543 | found if and only if the pointer is on a page; the block is freed, wiped, and its page returned exactly when it is wholly free |
| Kmalloc.Kernel.Kmalloc | os161/kern/lib/kheap.c:548-566 | a new block of at least the size and less than twice or a page more, every other block, small or large, and its contents kept; when it fails, exactly; sizes within a page of 2^32 wrap to no pages and allocate nothing |
| Kmalloc.Kernel.Kfree | os161/kern/lib/kheap.c:568-580 | exactly the block at the pointer is given back, every other block, small or large, and its contents kept; the alignment assertion holds |
| Kmalloc.Kernel.Write | os161/kern/lib/kheap.c:548-566 | whoever holds a block can write any word of it, and no word outside it changes |
| Kmalloc.Kernel.Create | os161/kern/vm/addrspace.c:14-34 | an address space made: every block and its contents kept |
| Kmalloc.Kernel.Touch | os161/kern/userprog/mem.c:27-126 | a page grown and cleared: every block and its contents kept |
| Kmalloc.Kernel.Destroy | os161/kern/vm/addrspace.c:164-202 | an address space gone: every other block and its contents kept |
| Kmalloc.TablesAreLarge | os161/kern/include/addrspace.h:8-40 | address spaces and second-level tables are large blocks, of one frame and of two |
| KernelRuns.Step | os161/kern/lib/kheap.c:548-580 | what each call does to the blocks, for code that frees and writes only blocks it holds |
| KernelRuns.Run | os161/kern/lib/kheap.c:548-580 | every sequence of kmalloc, kfree, writes, and address spaces that come, grow and go is a run, on the kernel in memory |
| KernelRuns.Life | os161/kern/lib/kheap.c:548-580 | so it is from the first allocation after boot on |
| KernelRuns.HugeRequest | os161/kern/lib/kheap.c:548-566 | kmalloc of 2^32 - 1 bytes returns an address where there is nothing |
| Intersection.ScriptOp | os161/kern/asst1/stoplight.c:89-296 | every operation of every turn is the one its route calls for |
| Intersection.ScriptIsPlan | os161/kern/asst1/stoplight.c:89-296 | all twelve crossings print the same messages in the same order, with their own destination, and take and give back the regions of their route |
| Intersection.HeldFollowsRoute | os161/kern/asst1/stoplight.c:89-296 | the regions a car holds at each point of its turn, taken and given back by its semaphore operations, are those its route through the ring calls for |
| Intersection.FireKeepsInv | os161/kern/asst1/stoplight.c:350-444 | every step of every car keeps semaphores, the gate and the car count in agreement with the cars |
| Intersection.RunKeepsInv | os161/kern/asst1/stoplight.c:350-444 | so does every run |
| Intersection.RegionsAreExclusive | os161/kern/asst1/stoplight.c:89-296 | for any number of cars, on every run: no region holds two cars, and at most three are admitted |
| Intersection.AnnouncedRegionIsHeld | os161/kern/asst1/stoplight.c:89-296 | a car announces a region only while it holds it |
| Intersection.FireWork | os161/kern/asst1/stoplight.c:350-444 | every step but knocking at the gate lowers the remaining work |
| Intersection.RunLength | os161/kern/asst1/stoplight.c:350-444 | a run can be long only by knocking at the gate |
| Intersection.RingOfFour | os161/kern/asst1/stoplight.c:89-231 | if every crossing car is blocked, the waits close a ring of four admitted cars |
| Intersection.Progress | os161/kern/asst1/stoplight.c:350-444 | with at most three admitted, some continuation lowers the work unless all cars have left |
| Intersection.EveryoneCanFinish | os161/kern/asst1/stoplight.c:350-444 | from every state that keeps the invariant some continuation takes every car home |
| Intersection.NoRunDeadlocks | os161/kern/asst1/stoplight.c:350-444 | no run of any number of cars can wedge the intersection: it can always be continued until all have left and every semaphore is back at 1 |
| Intersection.FourDeadlock | os161/kern/asst1/stoplight.c:350-362 | with a gate of four, a run of four cars reaches a state in which no car can ever move |
| Numerals.DigitsValue | os161/lib/libc/__printf.c:397-432 | the digits printed say the number, in every base |
| Numerals.WordDigits | os161/lib/libc/__printf.c:54-54 | a 32-bit number has at most 11 digits in bases 8, 10 and 16, and in base 8 some have exactly that many |
| Atoi.ParseInt | os161/lib/libc/atoi.c:20-72 | blanks, a sign and digits are read with 32-bit wrap-around, and the rest is ignored |
| PrintParse.AtoiReads | os161/lib/libc/atoi.c:20-72 | spaces and tabs, a sign, digits and a rest are read as the number of the digits with that sign, modulo 2^32, and exactly if it fits a signed 32-bit number |
| Printf.Snp.Send | os161/lib/libc/snprintf.c:44-64 | the buffer holds the longest prefix of all that was sent that fits, and is untouched beyond |
| PrintParse.ModifiersMean | os161/lib/libc/__printf.c:149-206 | for every mixture of modifiers: the digits among them read together are the width, a zero first among the digits asks for zeros to fill, and each other modifier counts once, wherever it stands |
| Printf.Pf.GetNum | os161/lib/libc/__printf.c:213-276 | a signed argument is kept as sign and magnitude, the least number included |
| Printf.Pf.Convert | os161/lib/libc/__printf.c:391-432 | the digit loop stays inside its 12-byte buffer and leaves the digits of the number |
| Printf.Pf.PrintStuff | os161/lib/libc/__printf.c:330-369 | where the padding goes |
| Printf.Pf.PrintNum | os161/lib/libc/__printf.c:378-456 | prefixes, sign and digits in their field |
| Printf.Pf.Send | os161/lib/libc/__printf.c:461-528 | what each character of a format does, in every state |
| Printf.Pf.Format | os161/lib/libc/__printf.c:535-553 | the text a format and its arguments stand for |
| Printf.Vsnprintf | os161/lib/libc/snprintf.c:69-112 | for every format, argument list and length: the buffer holds the longest prefix of the full output that fits and a NUL, nothing beyond is written, and the result is the full length, as section 7.19.6.5 of ISO/IEC 9899:1999 asks |
| PrintForms.PlainText | os161/lib/libc/__printf.c:461-485 | text without a percent sign stands for itself |
| PrintForms.UnsignedForm | os161/lib/libc/__printf.c:288-309 | %u, %o, %x and %p print the word in base 10, 8, 16 and 16, with the prefix their modifiers ask for, in a field of their width |
| PrintForms.SignedForm | os161/lib/libc/__printf.c:213-276 | %d prints the sign and the magnitude in base 10, in a field of its width |
| PrintForms.StringForm | os161/lib/libc/__printf.c:500-510 | %s prints the string, or (null) |
| PrintForms.CharForm | os161/lib/libc/__printf.c:511-528 | %c prints its character |
| PrintForms.OtherForm | os161/lib/libc/__printf.c:511-528 | %% and unknown conversions print themselves and take no argument |
| PrintForms.TwoFiftyFive | os161/lib/libc/__printf.c:288-309 | 255 prints as ff, 377, 255 and 0xff |
| PrintParse.PrintThenParse | os161/lib/libc/__printf.c:330-456 | atoi of the %d output is the number, for every 32-bit number, width and padding but zeros on the right |
| PrintParse.ZerosOnTheRight | os161/lib/libc/__printf.c:330-369 | with zeros on the right it is the number if and only if that is 0 or needs no padding |
| PrintParse.ShiftedDiffers | os161/lib/libc/atoi.c:20-72 | no 32-bit number but 0 equals itself times a power of ten modulo 2^32 |
| PrintParse.FormatThenParse | os161/lib/libc/__printf.c:149-553 | for every format made of %, modifiers and d, and every number: it is read back if and only if the modifiers lack a minus or a leading zero, the number is 0, or it is as wide as the width |
| PrintParse.OneAsTenThousand | os161/lib/libc/__printf.c:330-369 | the 1 that %-05d prints reads as 10000 |
| Generators.NextIsInjective | os161/kern/dev/generic/pseudorand.c:20-39 | different seeds have different successors |
| Generators.Undo | os161/kern/dev/generic/pseudorand.c:20-39 | the step has an inverse, and keeps the seed in 1..2^31-2 |
| Generators.Parts | os161/kern/dev/generic/pseudorand.c:20-39 | both products of the split multiplication stay below the modulus, and their difference is the full product modulo it |
| Generators.Pseudorand.Random | os161/kern/dev/generic/pseudorand.c:20-39 | computes 16807 times the seed modulo 2^31 - 1 without leaving 32 bits |
| Generators.PointersMove | os161/lib/libc/random.c:413-442 | front and rear never wrap on the same call, never meet, and the front stays ahead by the separation |
| Generators.RearAfter | os161/lib/libc/random.c:413-442 | where the rear pointer is after any number of calls |
| Generators.Recurrence | os161/lib/libc/random.c:413-442 | each word drawn by types 1 to 4 is the sum modulo 2^32 of those drawn 7 and 3, 15 and 1, 31 and 3, or 63 and 1 draws before, and the number is that word without its lowest bit |
| Generators.LinearRecurrence | os161/lib/libc/random.c:413-424 | type 0 is x to 1103515245 x + 12345 modulo 2^31 |
| Generators.TypeFits | os161/lib/libc/random.c:299-323 | the type chosen for a state is the largest that fits it |
| Generators.Random.Next | os161/lib/libc/random.c:413-442 | the number drawn and the new table, pointers wrapping one at a time |
| Generators.Random.SRandom | os161/lib/libc/random.c:230-247 | the table is the recurrence from the seed, drawn from ten times its degree, after which the rear pointer is at 0 |
| Generators.Random.InitState | os161/lib/libc/random.c:281-332 | a state of the largest type that fits is seeded, the old one saved; too small a state is refused |
| Generators.Random.SetState | os161/lib/libc/random.c:353-394 | the old generator is saved and the new one taken up where its header says; an unknown type is refused |
| Generators.SaveRestore | os161/lib/libc/random.c:353-394 | a generator saved and restored is the same generator |
| Generators.Random.constructor | os161/lib/libc/random.c:165-216 | the generator every program starts with |
| Generators.SetSame | os161/lib/libc/random.c:344-394 | after n numbers from a state, switching to that same state resumes its stream if and only if it is of type 0 or n is a multiple of the degree |
| Generators.SetSameOnce | os161/lib/libc/random.c:344-394 | one number and then setstate of the state in use does not leave the generator where it was |
| RandomStates.DoSwitch | os161/lib/libc/random.c:344-394 | a switch between states in arrays of their own leaves every generator as it is, but for the rear pointer when it is to the state in use |
| RandomStates.Play | os161/lib/libc/random.c:353-442 | any draws and switches among any number of states are such steps |
| RandomStates.Independent | os161/lib/libc/random.c:353-442 | through all of them the numbers drawn from each state are those its generator gives alone |

## Left out

- Device errors: disk I/O in SFS always succeeds, so its error returns for that are not modelled.
- Memory for SFS: `kmalloc` always succeeds in the file system, and its table of vnodes is a map.
- `sfs_open`, `sfs_stat`, `sfs_tryseek`, `sfs_ioctl`, `sfs_namefile` and `sfs_lookparent`: they add only easy members.
- The dirty flags of the superblock and the free map: sync always writes the map, and nothing writes the superblock.
- SfsMount.Mount: does not model the check of the sector size, nor the wrap-around of the size of the map for a superblock that announces more than 2^32 - 4096 blocks.
- EBUSY of `sfs_unmount`, and the checks of `mksfs` for colons and slashes in the volume name.
- User-space transfers: `copyin`, `copyout` and iovecs of more than one buffer.
- Concurrency in the file system, which its comments leave open: operations run one at a time.
- SfsFile.Sfs.Write: takes offsets and lengths whose sum fits the 31-bit offset type, and does not model its overflow.
- UioModel.Uio.Move: asks for a residue that is all the one iovec can take, or a count within it, as every caller in SFS has it; otherwise the source moves more than the residue, which wraps around.
- UioModel.Uio.MoveZeros: asks the same.
- Malloc.Heap.Malloc: the break moves only within 4 GB; with a size from 2^32 - 15 to 2^32 - 8, where the size with its header wraps to 0, the source moves it by nothing and writes a header past the top, which is not modelled.
- Malloc.Heap.Free: takes pointers to cell boundaries other than the bottom of the heap that do not point into live data made to look like a header; the source trusts such headers.
- `__malloc_dump` and the environment variable checks of malloc.
- KernelHeap.Allocator.AllocPageref: the words of in-use bits are an array of flags, not packed by 32.
- Kmalloc.Kernel.Kfree: takes only pointers that start a block its caller holds; the source does not check for a block freed twice, and the kernel frees no table of an address space.
- `vm_bootstrap` and `ram_stealmem`: the model starts with a cleared coremap, which the source assumes.
- Tlb.Processor.Fault: whether an address may grow the stack or the heap is a parameter, and memory is at most a megabyte, the range in which page entries are exact.
- `as_copy`, the ELF loader, process system calls and `dumbvm.c`.
- VmFault.Vm.Create: the first-level table of a new address space is empty, though `as_create` does not clear it.
- `lock_create` leaves its fields unset: the model starts with free locks, and its threads release only locks they hold, which `lock_release` does not check.
- Synch.StepKeeps: its steps take for granted that a wakeup finds room; Threads.WakeFits says when it does.
- `thread_killall`, `thread_panic`, shutdown, stacks and machine-dependent switching.
- Liveness beyond deadlock freedom: that the scheduler is fair to a car that knocks at the gate, or that every sleeper is woken some day.
- Printf: widths beyond the range of `int`, and long long numbers, which the source compiles out.
- Generators.Random.SetState: an array whose header names a type it is too short for, or a rear pointer past its end, is not modelled; the source does not check either.
- Generators: the state array is words, not bytes; `random`'s optional locking is empty in this library.
- Device drivers, the VFS layer, the menu, user programs, build files, `catlock.c` and `catsem.c`.
