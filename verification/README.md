# filsys: a model of the engine, and what holds of it

filsys reads and writes Research Unix filesystem images without a journal. Its contract is
"never class D": at no moment does the image on disk claim a block twice. This project models
the engine behind that contract and states what it keeps, for every input, every run and every
pattern of failed block reads and writes.

## The model

- **Blocks** are sequences of cells. A data block's cells are its bytes; a block address takes
  one cell, so an indirect block's first `nindir` cells are its entries and a chain block holds
  its count in cell 0. `Image` is blocks, inode table and the free list of the superblock.
- **Faults and crashes** (`Device`). `Engine.Edition` is the mounted volume. Which of its block,
  inode and superblock reads and writes fail is an input, `fails`; `Faults()` counts those that
  did. Every write is atomic and appends the image to `log`, so a statement about `log` is one
  about every crash prefix.
- **Free list** (`FreeChain`, `AllocSteps`): segments, bottom first; the last is the in-core
  cache, each other one lies in the chain block its upper neighbour holds at index 0.
- **Ownership** (`Ownership`, `Consistency`): the table of instrument.c as ghost state. An owned
  block records inode, height and first logical block, so that aliasing is excluded by a local
  invariant. `Sound` is what holds in core at all times, `Guarded` what must hold on disk, and
  `breach` records whether a pointer was ever stored past the flush barrier.
- **Block map** (`Mapping`, `Descent`, `BlockMap`, `Promotion`), **truncation** (`Truncation`,
  `SlotTruncation`), **accounts** (`Accounting`, `Conservation`), **files** (`FileBytes`,
  `FileOps`), **mounting** (`Mount`), **runs** (`Runs`, `AllocRuns`).
- **Checker and salvage** (`CheckSpec`, `Walks`, `FreeWalk`, `Check`, `Salvage`, `Fsck`, `Dups`)
  take any image. What the walks meet is a function of the image; which reads fail is an input.
- **Namespace** (`NameTree`, `NameSteps`, `Namespace`, `OpenHandles`): a tree of names, changed by
  writes that `Namespace.Volume` records. Link counts are stored in bytes or 16-bit words, as the
  edition has it (`LinkWidth`). **Fixed-size directories** (`DirSlots`) and `NameRuns`
  make each of these writes one operation on the mounted volume.
- **2.11BSD directories** (`Bsd211`), the **PDP-7 list** (`Pdp7List`), the **editions**
  (`Editions`).
- `Witness` and `LinkLoss` hold volumes on which a promise fails.

## Main results

1. `Runs.Run`: over every run with any faults, all images ever written are free of aliasing if
   and only if no pointer was stored past the barrier; `Engine.Edition.Store` says exactly when
   one is, `Conservation.HiddenWhen` and `HiddenSmall` when a caller can rule it out.
2. `Runs.Run`: whatever fails, each operation answers EIO or what it would without a fault, and OK
   means that it did what it does to plain byte sequences; if all succeeded without a fault,
   nothing leaked. Other files are unchanged in any case.
3. `Engine.Edition.Bmap`, `ItruncFrom`: which mappings change, and that the claims of an inode
   are conserved, at any level of indirection and through 32-bit wrap-around.
4. `Conservation.Partition`: free list, trees and leaks partition the data area.
5. `Check.CheckImage`: on any image the checker reports what is there, and a report without
   complaint, of a list not cut short by a 0 above its bottom, is one of an image that is never
   class D, whatever reads failed; and the other way around if none did. `Fsck.SalvageImage`:
   which images a salvage repairs. `Mount.Mounted`, `Runs.Session`: an image with such a report is
   one that every run can start from.
6. `Dups.ResolveDups`: when duplicate repair succeeds, by counting, that it then leaves no block
   claimed twice, and that it keeps every file in any case.
7. `Namespace.Volume.Rename`, `Mkdir`, `LinkIn`: what they answer and write, and that link counts,
   one parent per directory and acyclicity survive if and only if the counts they raise have room.
   `NameRuns.PerformAll`: any sequence of namespace operations on the mounted volume, call by call
   and write by write, is a run, so results 1 and 4 hold of it; the volume shows the names, and
   without a fault only want of room or a name that does not fit stops it.
8. `OpenHandles.Play`: at no step is an inode freed that a caller holds.

## Where the code and its promises part

- A pointer stored into an indirect block that is already on disk does not pass the flush barrier
  (blocktree.c:298-304): `Witness.BreachExample`; the exact condition is in
  `Engine.Edition.Store`.
- The tail that a shrink zeroes ends at a 32-bit product (filsys.c:1166-1168). For new sizes in
  the last block below 4 GiB it wraps, nothing is zeroed, and growing the file again shows the old
  bytes: `Witness.WrapExample`, on Xenix; `FileOps.TruncateIno` states the exact condition,
  `EndFits`.
- truncate ignores a failed block-map read before zeroing the tail (filsys.c:1175) and still
  reports success; `FileOps.ZeroTail` has this as `unread`.
- The rollback of a failed write says that it resets the inode (filsys.c:558-562); the size it
  writes back is the grown one if and only if the data was stored and the inode write failed:
  `late` in `FileOps.WriteIno`, `Witness.LateExample`.
- A write of no bytes past the end extends the file (v7fs.c:474-475), as `Runs.Overlay` has it.
- No operation tests for the largest link count (filsys.c:770, 957, 1106). It is a signed 16-bit
  word in core (filsys_engine.h:55) and a byte on disk in V6 (v7fs.c:1259, 1291) and V1
  (v1fs.c:169, 202). A V6 file with 255 names, linked once more and unlinked, is freed with 255
  names: `LinkLoss.ByteLoss`; in words the same happens past 32767. `Namespace.Volume.LinkIn`,
  `Mkdir` and `Rename` have the exact condition.
- `ialloc` keeps 16 bits of an inode number in its cache (alloc_freelist.c:130): with free inodes
  above 65535 alone it goes round for ever, as `FileOps.Ialloc` says.
- The walk of the free list takes any 0 for its end (alloc_freelist.c:236), the allocator only
  answers "no space" once and goes on below it: `Witness.SentinelExample` has an aliased image of
  which nothing is reported. `Walks.EndsAtBottom` is the exact condition on the image.
- The resumable 2.11BSD walk skips a rest of a chunk too short for a header (dir_bsd211.c:112),
  where the whole-buffer walk stops: `Bsd211.GapExample`; `Bsd211.WalksAgree` says when they agree.
- A name appended to a 2.11BSD directory with a damaged tail goes in the place of the damage
  (dir_bsd211.c:187-191), and records behind it are listed again: `Bsd211.TornExample`.
- The PDP-7 free makes a block the new head of the list even if writing it as a node failed
  (pdp7fs.c:381-384 and 399-401): `torn` in `Pdp7List.Volume.Bfree`.
- The comment on comparing names says that a stored name must be zero beyond its end
  (dir_fixed.c:15-18); the code looks at the next byte alone, as `DirSlots.SameName` does.
- `filsys_link_in` returns without withdrawing a name whose addition failed after it had landed
  (filsys.c:955-956), and rename passes over failed inode reads (filsys.c:1097-1126), so the
  namespace results are for operations whose reads and writes succeed.
- `unlink` does not refuse a directory (filsys.c:855-873): the tree stays whole if and only if it
  was not one, as `Namespace.Volume.UnlinkIn` says.

## Model

| member | source | states |
|---|---|---|
| `Geometry.SlotRange` | blocktree.c:357-391 | The slot search with 32-bit spans finds the slot whose exact, unwrapped range holds the logical block. |
| `Geometry.DigitSplit` | blocktree.c:276-331 | The per-level indices of a walk are the digits of the block's index in base nindir, and recombine to it. |
| `Geometry.BaseMonotone` | v7fs.h:402-419 | The ranges of logical blocks that two slots cover are disjoint and in slot order. |
| `Engine.Edition.Balloc` | alloc_freelist.c:15-60 | Pops the top of the stack of free blocks, which is the top of the cache, across a reload; ENOSPC exactly when the stack is empty; the block is zeroed and goes from free to allocated; total kept; every image written stays covered by the crash contract; EIO only after a failed read or write. |
| `Engine.Edition.Bfree` | alloc_freelist.c:62-90 | Pushes an allocated block, across a spill; a block outside the data area changes nothing; a failed dump leaks the block and nothing else. |
| `Engine.Edition.Reload` | alloc_freelist.c:29-44 | Refilling the cache from a chain block commits the superblock before that block can be reused, so the list on disk never names it. |
| `Engine.Edition.SpillInto` | alloc_freelist.c:69-87 | Dumping a full cache writes the chain block before the cache is reset; the stack only grows by the freed block. |
| `AllocRuns.Churn` | alloc_freelist.c:15-90 | Any sequence of allocations and frees equals a plain stack, with tfree its height. |
| `AllocSteps.Flush` | v7fs.c:268-329 | Writing the superblock makes the list on disk the in-core list, and re-establishes the crash contract from any sound state. |
| `AllocSteps.PopNode` | alloc_freelist.c:29-37 | Popping the bottom of the cache and loading the segment below keeps the list, the table and the crash contract. |
| `AllocSteps.Spill` | alloc_freelist.c:69-87 | A dumped cache and its new head are again a list of which the table knows every place. |
| `Barrier.ListUnique` | alloc_freelist.c:15-44 | An image determines its free list: two chains read from the same cache are equal. |
| `Consistency.GuardedNeverD` | check.h:26-37 | The crash contract implies that the image on disk claims no block twice: not by two references, and not by a reference and the free list, which is intact. |
| `Ownership.AllDistinct` | instrument.h:29-38 | If every reference is found at the position its table entry names, no block of the volume is claimed twice. |
| `TreeSteps.Assign` | instrument.c:107-116 | An allocated block becomes owned at one position of one file; nothing on disk changes. |
| `TreeSteps.Release` | instrument.c:118-124 | Ownership may be dropped exactly of blocks that no reference on disk names: the volume stays sound and covered. |
| `TreeSteps.PersistInode` | v7fs.c:374-412 | Writing an inode after the allocator state keeps the crash contract, whatever new blocks it names. |
| `TreeSteps.WriteIndirect` | blocktree.c:224-258 | Zeroing entries of an indirect block, or storing a block that the list on disk does not offer, keeps the crash contract. |
| `Engine.Edition.WriteInode` | v7fs.c:374-412 | Flushes the allocator before the inode; every image written on the way is covered; on failure the inode table is as before. |
| `Engine.Edition.Store` | blocktree.c:298-320 | The one write past the barrier: the images written stop being free of aliasing if and only if the indirect block is referenced on disk and the list on disk still offers the stored block. |
| `Barrier.BreachIsD` | blocktree.c:298-304 | Such a store makes the image just written claim a block twice. |
| `Witness.BreachExample` | blocktree.c:298-304 | A concrete volume, sound, flushed and free of aliasing; popping and zeroing its free block and storing it in an indirect block that is on disk lead to an aliased image. |
| `Conservation.HiddenWhen` | v7fs.c:374-385 | Growth into a direct slot, or into a slot that is empty on disk, cannot store past the barrier. |
| `Conservation.HiddenSmall` | blocktree.c:333-356 | Nor can growth of a small file of an edition with the large flag, promotion included. |
| `Engine.Edition.Bmap` | blocktree.c:333-392 | A lookup returns the mapped block and changes nothing. A creating call returns an existing block unchanged or a fresh zero block owned by nobody before, and no other logical block of any file is mapped differently, whether it succeeds or fails; EIO exactly after a failed read or write, ENOSPC only for a hole and only when the free list ran empty; EFBIG only where no slot covers the block; it takes no more blocks than its slot has levels, one for the data and one for a promotion; no leak on success. |
| `Engine.Edition.BmapIndFollow` | blocktree.c:276-331 | The walk down one slot, with missing levels allocated on the way, arrives where the index digits lead; a failed walk maps nothing. |
| `Engine.Edition.Promote` | blocktree.c:338-356 | Moving the direct addresses of a small file into an indirect block keeps the whole block map, even where a write fails. |
| `Promotion.PromotedMap` | blocktree.c:338-356 | Both layouts map every logical block to the same block. |
| `Engine.Edition.FindSlot` | blocktree.c:357-373 | The wrapping 32-bit search computes the slot of the specification and its exact base. |
| `Mapping.LinkGrows` | blocktree.c:298-320 | Storing a fresh block in a hole changes the mapping of at most one logical block of one file, and no tree loses a block. |
| `Engine.Edition.CollectSubtree` | blocktree.c:200-222 | The collected list is exactly what the mark walk claims of the subtree, each block once. |
| `Engine.Edition.CollectSubtreeFrom` | blocktree.c:224-258 | Cutting a subtree at any level: the claims before are the claims after plus the collected blocks, nothing from the cut on is mapped, only entries past the cut were zeroed, and that was on disk before return. |
| `Engine.Edition.ItruncFrom` | blocktree.c:420-451 | Keeps the mapping of every logical block below the cut, leaves only holes from it on, and collects exactly the difference of the claims, each block once; other files' blocks are untouched even if it fails. |
| `SlotTruncation.ShornMap` | blocktree.c:420-451 | The block map after the truncation, logical block by logical block. |
| `Engine.Edition.Itrunc` | blocktree.c:396-415 | Collects exactly the claims of the inode and empties it; a device inode is left alone. |
| `Accounting.Severed` | blocktree.c:174-186 | Once the shorter inode is on disk, the collected blocks are distinct, the file's own, and no reference on disk names them. |
| `FileOps.Drain` | blocktree.c:165-173 | Freeing the list pushes each collected block once, in order; owned blocks are untouched. |
| `FileOps.ReleaseDrain` | filsys.c:1185-1195 | Release and free after the inode is on disk keep the volume sound and covered, leave every byte of the file, and leak nothing unless a write failed. |
| `Conservation.Partition` | instrument.c:83-124 | Between operations every data block is listed free, claimed by an inode, or leaked: exactly one of the three; nothing is listed or claimed twice. |
| `Accounting.Forget` | filsys.c:176-193 | Whatever a failed operation still holds can be written off as leaked without disturbing the rest. |
| `Accounting.Finish` | filsys.c:714-740 | An operation on one inode that ends, however it ended, leaves the accounts clean and every other file alone. |
| `FileOps.FileRead` | v7fs.c:416-445 | Returns the slice of the file's bytes, holes as zeros; writes nothing; EINVAL exactly for a negative offset. |
| `FileOps.FileWrite` | v7fs.c:447-480 | On success the bytes at the offset are the data and no other byte of any file changed; on failure only bytes of the range may differ; the inode is written last, and the in-core size grows exactly if the data was stored; ENOSPC only when the list ran empty, EFBIG only for a byte without a slot. |
| `FileOps.WriteIno` | filsys.c:544-577 | Write with rollback: on success the overlay of the data, nothing leaked and no fault; on a failure that could be rolled back no later block remains and only bytes of the range differ; the size is the old one unless only the inode write failed, and always without a fault; whatever fails, the answer is EIO or the one without a fault: EINVAL for a negative offset, EFBIG out of range, ENOSPC only if the list holds no more blocks than the touched blocks may need; other files never change. |
| `FileOps.TruncateIno` | filsys.c:1154-1208 | Sets the size, keeps the bytes below it; without a fault it succeeds exactly for sizes in range, and zeroes the tail exactly if the end of the last block fits 32 bits; it never stores past the barrier. |
| `FileOps.ShrinkBytes` | filsys.c:1162-1195 | Byte by byte what a shrink leaves: with the tail zeroed nothing past the new end shows again; without, exactly the rest of the last block is still there. |
| `FileOps.TailRange` | filsys.c:1165-1170 | Which bytes the tail covers in 32-bit arithmetic: all of the last block past the end if that end fits, none if it wraps. |
| `Witness.WrapExample` | filsys.c:1157-1170 | Xenix accepts the size 4294967290; the end of its last block wraps, and after growing again every byte past that size shows what was there before. |
| `Witness.LateExample` | filsys.c:556-575 | A concrete file that a failed write, rolled back, leaves four bytes longer, reading as zeros: every rollback after a failed inode write does. |
| `FileOps.PatchIno` | v7fs.c:447-480 | A write into a directory, with the link count stored in its width by the same inode write: on success the overlay and the count; on failure the inode table is as before and what was allocated leaks. |
| `FileOps.SetLinks` | filsys.c:866-873 | Writing a link count stores it in the edition's width, a byte or a 16-bit word, changes nothing else, and keeps the crash contract. |
| `FileOps.InodeDestroy` | filsys.c:176-193 | Collects, clears on disk, then frees: the inode is free and owns nothing; on failure it is as before; every image written is covered. |
| `FileOps.Ialloc` | alloc_freelist.c:101-135 | Takes the last cache entry that names a free inode, with those above it, and after a scan the same of the first free inodes the scan entered; returns none exactly if none is free. Cache entries have 16 bits: for any number of inodes, the search ends with a number if and only if a free inode lies below 65536, and goes round for ever if and only if there are free inodes, but none below. |
| `FileOps.InodeCreate` | filsys.c:645-670 | A fresh inode owns nothing, and a device's has its number; the rest of the volume is untouched. |
| `Runs.Run` | README.md:797-818 | Every run of writes, truncates, creates, destroys, directory writes and link-count writes, where which reads and writes fail is an input: each step keeps the volume sound and accounted for, answers EIO or what it would without a fault, and has its effect if it answers OK; all images ever written are free of aliasing if and only if no store passed the barrier, which none does without a write; without a fault, as on every device on which nothing fails, each operation answers as it should, success means its effect on plain byte sequences, device numbers and link counts, and the free total stays the length of the list; if all are done the volume equals the same operations on byte sequences, with no leak. |
| `Mount.Mounted` | v7fs.c:37-193 | Any image free of aliasing mounts into the invariant: every listed block is free, every referenced one owned at its place, the rest leaked, and the accounts are clean. |
| `Engine.Edition.constructor` | v7fs.c:37-193 | The mounted volume starts from the superblock's cache, with the image as the first of the log. |
| `Runs.Session` | README.md:797-818 | An image whose report has no complaint and whose list was walked to the bottom, mounted and worked on with any faults: as far as the operations keep to what the barrier covers, every image on the way is free of aliasing again, and without faults the volume equals the byte sequences. |
| `Runs.Do` | filsys.c:544-577 | One operation of a run. Whatever fails, it answers EIO, and that only after a fault, or as without one: only a write can fail then, out of range or if the list holds no more than it may need, and a truncation with EFBIG exactly out of range; success means the effect on the byte sequences. |
| `Runs.ShrinkAndGrow` | filsys.c:1152-1200 | A file shrunk and grown again on the volume holds its first bytes and zeros, never the old bytes. |
| `Runs.DeviceKept` | filsys.c:639-657 | Through any operations a device keeps its number until its inode is destroyed or made anew. |
| `Runs.OthersView` | filsys.c:544-577 | Files other than the one worked on are byte for byte as before, whatever failed. |
| `Editions.BelowMax` | filsys_format.c:337-355 | For every descriptor row, every offset below the maximum file size falls in a slot whose exact range holds it, so bmap never answers EFBIG there. |
| `Editions.AllReachable` | filsys_format.c:337-355 | Below the maximum of any edition no write is refused for want of a slot. |
| `Editions.MaxTight` | filsys_format.c:337-355 | The maximum file size of every edition is the largest there can be: the next byte has no slot, or the size no room in its field. |
| `Editions.RowNarrow` | filsys_format.c:150-235 | In every edition only the last slot of an inode may span more than 32 bits count. |
| `Editions.V9Wraps` | filsys_format.c:238-246 | The V9 triple-indirect span is 0 in 32 bits. |
| `Check.Checker.MarkBlock` | blocktree.c:45-75 | A reference is the first to a block exactly if the block is a data block not marked before, and then marks it; the counters always agree with the references met. |
| `Check.Checker.MarkTree` | blocktree.c:81-102 | On any image the references met below a block are those of the specification, which does not chase blocks outside the data area or marked before. Under any faults each failed read is exactly one error, and every entry of a block that was read is met. |
| `Check.Checker.MarkInodes` | check.c:103-127 | The same for the references of all live inodes together: each failed read is exactly one error, and whatever fails every address of an inode that was read is met. |
| `Check.Checker.WalkFree` | alloc_freelist.c:220-282 | On any image the walk ends and meets each block once, and only blocks of the image's trail, in its order; a failed read is an error and ends it; without one it meets the whole trail, and complains exactly if that ends so. |
| `Check.CheckImage` | check.c:44-161 | A check that completes satisfies used + free + missing = data blocks. Whatever reads fail: a report with nothing bad, duplicate or wrong, of a list not cut short by a 0, is one of an image free of aliasing. If no error is reported or all reads succeed, it completes exactly if at most ten references are bad; its counts are those of the references and the list of the image; dup = 0 exactly if the claims within the data area and the walked list repeat nothing; and the report is clean, with the list walked to its bottom, if and only if the image is free of aliasing. |
| `Check.CleanReport` | check.h:26-37 | A report without complaint, of a list walked to its bottom, is one of an image free of aliasing, and the other way around. |
| `Walks.MetInodesAlike` | blocktree.c:45-119 | The references that the mark walk meets are new data blocks exactly if the claims of the inodes are, and then they are the same. |
| `Walks.PrunedInodesAlike` | blocktree.c:77-102 | The data blocks met repeat nothing exactly if the claims do, without the subtrees under blocks outside the data area. |
| `FreeWalk.TrailIntact` | alloc_freelist.c:234-280 | The walk of a list ends at its bottom if and only if the list is intact, and has then met exactly the blocks listed, each once. |
| `Check.CountIndirect` | blocktree.c:465-490 | The count walk finds as many blocks as the mark walk claims; if no read fails it succeeds exactly if every indirect block of the tree lies on the volume. |
| `Check.AllocatedBlocks` | blocktree.c:492-515 | The same for an inode, over all its slots; a device inode counts none. |
| `Witness.SentinelExample` | alloc_freelist.c:234-237 | A concrete aliased image of which the checker reports nothing at all, because a 0 above the bottom of the list ends the walk; the allocator takes the block above the 0, then the 0, then a block that a file claims. |
| `Salvage.Makefree` | alloc_freelist.c:155-212 | For any map of used blocks: without faults every unused block is listed once and no used one, in the order of the sweep, interleaved by the superblock's factors where the edition has them and they are valid; the list on disk is intact, the total is the size of the data area less the used blocks; used blocks are never written. |
| `Salvage.TabRound` | alloc_freelist.c:174-177 | The interleave table is a permutation with an explicit inverse whenever m divides n. |
| `Salvage.PhysRound` | alloc_freelist.c:183-203 | The interleaved sweep visits every data block exactly once. |
| `Salvage.Salvaged` | check.c:140-147 | A list rebuilt from exactly the claims, if these are distinct data blocks, makes the image free of aliasing with no block missing. |
| `Fsck.RebuildAndWalk` | alloc_freelist.c:155-282 | For any map of used blocks, without faults: the list as a walk reads it ends at its bottom and holds exactly the data blocks not on the map; the walk reports no error and no duplicate on that map, counts as many free blocks as were listed, and leaves none missing. |
| `Fsck.SalvageImage` | check.c:103-147 | The salvage of fsck: without faults the references met are as before, the list is exactly the data blocks not met, with the total returned, and the image is free of aliasing if and only if the references of all inodes were distinct data blocks; if the marking reports nothing, whatever reads failed, they were. |
| `Fsck.SalvageVerdict` | check.c:140-147 | The same, for any image before and after. |
| `Dups.ScanSlots` | check.c:564-606 | The scan of one inode records exactly direct slots whose block was marked before; the other references are marked as in a check; nothing counts as wrong or astray exactly if the trees reference nothing again and direct addresses lie in the data area. |
| `Dups.ScanAll` | check.c:556-606 | After the scan the references not recorded are distinct and exactly the marked blocks, if and only if all duplicates are in direct slots; as many are recorded as there are references more. |
| `Dups.RepairOne` | check.c:617-640 | A recorded slot gets a block from the list with the same contents; the references not recorded any more stay distinct, every file reads as before; it fails only on an empty list or a fault, and then changes no file. |
| `Dups.ResolveDups` | check.c:534-644 | With all duplicates in direct slots and no fault: one duplicate per reference beyond the first of a block; every file reads as before, success or not; success exactly if there are no more references than data blocks; then the image is free of aliasing, and the list is exactly the unreferenced blocks. |
| `Salvage.FreeCount` | alloc_freelist.c:198-206 | An intact list of exactly the unused blocks is as long as the data area less the used blocks. |
| `Pdp7List.Volume.Balloc` | pdp7fs.c:343-374 | Pops the top of the stack: the last used slot of the head, or the exhausted head's own block; ENOSPC exactly on the empty stack; the block is zeroed; whatever read or write fails, the list stays intact and loses at most the popped block. |
| `Pdp7List.Volume.Bfree` | pdp7fs.c:376-402 | Pushes the block: into the first empty slot, or as a new head when the head is full; used slots stay a prefix; after a failed read or write the list is as before, unless it was the write of a new head, which the code makes the head all the same. |
| `Pdp7List.Volume.Makefree` | pdp7fs.c:602-618 | Without faults the rebuilt list is exactly the unused blocks, highest at the bottom; used blocks are untouched in any case. |
| `Namespace.Volume.Create` | filsys.c:713-741 | Answers ENOTDIR, EEXIST or ENOSPC exactly for their reasons, and else succeeds: the inode is made first, then its name entered; adds exactly one entry naming an inode that was free, keeps link counts and tree. |
| `Namespace.Volume.Mkdir` | filsys.c:743-796 | Answers as create; writes the inode, its dots, its name and the parent's count, in that order. Link counts, and with them the invariant, are kept if and only if it failed or the parent's count was below the largest that its width stores. |
| `Namespace.Volume.LinkIn` | filsys.c:942-970 | A further name: the entry first, then the count raised as its width stores it; refused with EINVAL exactly for a directory below itself. Link counts are right afterwards if and only if the count was below the largest, and so is the whole invariant for a file. |
| `Namespace.Volume.UnlinkIn` | filsys.c:855-873 | Whatever the counts, the entry goes first, then the inode is freed if its lowered count is 0 or less and the free is not deferred, else the count is written; ENOENT exactly if there is no such name. Where the counts were right, it is freed with its last name, they stay right, and the tree stays whole if and only if it was not a directory. |
| `Namespace.Volume.Rmdir` | filsys.c:875-912 | Answers ENOENT, ENOTDIR or ENOTEMPTY exactly for their reasons, and else removes the directory: its name with the parent's count, then its inode with the dots. |
| `Namespace.Volume.DirAncestor` | filsys.c:922-940 | Ends, and answers whether the inode lies on the way up; -ELOOP only past 65535 steps. |
| `Namespace.Volume.Rename` | filsys.c:978-1150 | The invariant is kept if and only if nothing is moved or the counts raised on the way have room: the moved inode's where counts are bytes, and the new parent's if it is a directory that changes its parent. Then it answers exactly by `RenameAnswer`: ENOENT without a source, EINVAL for a directory below itself, EEXIST, ENOTDIR, EISDIR or ENOTEMPTY by the target; its writes are those of the source, in their order; the new name names what the old one did, the old one is gone, all other plain entries are as before; a replaced target is freed exactly if it was a directory or lost its last name and is not deferred. |
| `Namespace.MayIsOk` | filsys.c:978-1030 | A rename is possible exactly if no reason speaks against it. |
| `Namespace.RenameDirGood` | filsys.c:1086-1126 | The steps of a directory rename, '..' included, keep the invariant, as long as the counts on the way are stored as they are; `Namespace.RenameAsSteps` says when. |
| `Namespace.RenameAsSteps` | filsys.c:1086-1126 | With room for the raised counts, what rename writes in the width of the counts is what it means in unbounded ones. |
| `Namespace.RenameWraps` | filsys.c:1095-1110 | Without room in the new parent's count, a directory rename always ends with a count of 0 or less on a directory that has names. |
| `NameSteps.MoveDirGood` | filsys.c:1000-1004 | A directory moved below a directory it is not above keeps one parent per directory, correct counts and acyclicity, counts taken as unbounded. |
| `NameSteps.RemoveDirGood` | filsys.c:889-912 | Removing an empty directory keeps the invariant. |
| `NameSteps.MakeDirGood` | filsys.c:755-772 | Making a directory keeps the invariant, counts taken as unbounded. |
| `NameSteps.LinkFile` | filsys.c:955-959 | A further name with its count keeps the invariant, counts taken as unbounded. |
| `Namespace.ClimbBound` | filsys.c:922-940 | No directory of the tree is deeper than there are inodes, so the walk's bound is never the reason to stop. |
| `LinkLoss.ByteLoss` | filsys.c:942-970 | For every good tree whose counts are bytes and every file with 255 names: link it once more and its count reads 0; remove that name and the file is freed with its 255 names still there. |
| `LinkLoss.WordLoss` | filsys.c:942-970 | The same at 32767 names where counts are words: two links, one removed, and the file is freed with 32768 names. |
| `LinkLoss.CloseLoss` | fuse_core.c:51-72 | A file with 255 names in bytes, linked once more, opened and closed: the close frees it with 256 names. |
| `LinkLoss.FullStar` | filsys_engine.h:55 | Such trees exist for both widths: a directory in which one file has as many names as its count can say. |
| `DirSlots.FixedNameEq` | dir_fixed.c:19-27 | Accepts a stored name exactly if it starts with the name and ends there; a name longer than the field exactly if the field is its beginning. |
| `DirSlots.NameRound` | dir_fixed.c:126-130 | The stored form of a name is recognised for that name and no other. |
| `DirSlots.DirEnter` | dir_fixed.c:131-148 | Writing an entry into a free or new slot adds that name to the directory, and changes no other. |
| `DirSlots.DirLeave` | dir_fixed.c:150-173 | Clearing an entry removes that name, and changes no other. |
| `DirSlots.StepShows` | filsys.c:687-711 | Every write of a namespace operation is one operation on the volume: a volume that shows a namespace then shows the namespace after that write. |
| `NameRuns.FindEntry` | dir_fixed.c:132-144 | The chunk-wise scan finds the first free entry, or the name's own, exactly if there is one; it writes nothing. |
| `NameRuns.StepOnDisk` | dir_fixed.c:116-173 | One write of the namespace on the volume, under any faults: sound and accounted for. The operation made is the one of that write: a name goes into the first free entry, or a new one if there is none, and leaves its own; EIO only after a fault; else it succeeds, unless the name does not fit an entry (ENAMETOOLONG or EINVAL by the reason), the directory cannot grow in 32 bits, the list holds no more blocks than it may need or a byte has no slot; if it succeeds the volume shows the namespace after it. |
| `NameRuns.StepsOnDisk` | filsys.c:713-912 | The writes of a namespace operation are a run of operations on the volume however they end: operation i is that of write i, on the volume as the ones before left it, and had its effect; all are made if the result is OK, and it is unless there was a fault or one of the reasons of a single write; if all succeed the volume shows the resulting namespace. |
| `NameRuns.Perform` | filsys.c:713-1150 | A create, mkdir, link, unlink, rmdir or rename on the volume: the exact answer, the exact writes in their order and their effect on the names; the operations made are those of the writes; a create or link into a directory with a free entry leaves its length as it is, and else adds one entry; every image written is free of aliasing if and only if no store passed the barrier, every block accounted for, and the volume shows the names. |
| `NameRuns.PerformAll` | filsys.c:713-1150 | The same for any sequence of calls: each is answered and written on the names as the ones before left them, the last names are those of the volume, and the operations made are those of all their writes together, as one run; it ends early only if a write fails, for want of room, at a name that does not fit, or before a call that would raise a link count past the largest; as long as all went well the volume shows the names, whose link counts and tree are right. |
| `OpenHandles.Mount.Track` | fuse_core.c:30-42 | One handle more on that inode, none on others. |
| `OpenHandles.Mount.Release` | fuse_core.c:51-72 | Also where counts went wrong: one handle less; an inode is freed only with its last handle and a count of 0 or less, and then is freed unless a read or the free failed. It answers an error exactly if the read succeeded and the free did not; its entry then stays. Where the counts are right, only an inode without names is freed. |
| `OpenHandles.Mount.Create` | fuse_core.c:207-217 | Answers as create; the number handed out had no handle open on it; no other entry or inode changes. |
| `OpenHandles.Mount.Unlink` | fuse_core.c:239-247 | Never frees an inode with an open handle; no other entry or inode changes. |
| `OpenHandles.Mount.Rename` | fuse_core.c:259-267 | The mount stays valid if and only if the rename has room for the counts it raises; then it does what a rename does, and never frees a replaced target with an open handle. |
| `OpenHandles.Play` | fuse_core.c:18-72 | Over every sequence of open, create, unlink, rename and release, up to a rename that would raise a count past the largest, step by step: each gives its exact answer and changes nothing else; what callers hold by their own count stays live unless the step releases the last handle on it; a create hands out a number nobody holds; an inode that no entry names goes with its last handle unless a read or the free failed, and no other inode does; a release fails only by a fault, and only on an inode without names and handles, which then stays. |
| `Bsd211.Directory.Lookup` | dir_bsd211.c:134-154 | On any contents, finds an entry of that name exactly if the walk lists one, and then the first. |
| `Bsd211.Directory.Add` | dir_bsd211.c:156-226 | Answers ENAMETOOLONG or EINVAL exactly by the name, on any contents, and else fills the first free record that is large enough, in its place of the listing; if there is none, a record follows the last one, past the boundary if it would cross it. On a tiled directory the records stay aligned and tile it, and nothing else changes. |
| `Bsd211.Directory.Remove` | dir_bsd211.c:228-250 | On any contents the listing loses exactly the first entry of that name, the others in order; framing is kept; ENOENT exactly if there is none. |
| `Bsd211.IterNext` | dir_bsd211.c:91-132 | Resumed at an aligned offset, the chunk-wise walk returns the next entry of what the specification of the resumable walk lists. |
| `Bsd211.ListAll` | dir_bsd211.c:91-132 | On any contents, stepping the resumable walk to its end lists what the whole-buffer walk lists if and only if that does not stop at a rest of a chunk too short for a header with entries past it; on a tiled directory it always does. |
| `Bsd211.GapExample` | dir_bsd211.c:112-128 | A concrete directory of two chunks on which the two walks differ. |
| `Bsd211.RewriteAt` | dir_bsd211.c:170-185 | On any contents, rewriting one record with its length kept replaces what it lists in its place, and keeps the tiling. |
| `Bsd211.AppendAt` | dir_bsd211.c:187-226 | A record written after the last one of the walk, which may be lengthened, is listed after all others, followed by what the bytes behind it list; at the end of the directory it keeps the tiling. |
| `Bsd211.TornExample` | dir_bsd211.c:187-226 | A concrete directory with a damaged record: adding a name in its place makes an entry behind the damage listed again. |

## Left out

- Cells instead of bytes: the 16/24/32-bit address codecs, the superblock and inode layouts and
  byte orders are not modelled; an inode write is one atomic step on the inode alone.
- The V8 and V1 bitmap allocators, which would only add easy members, and the V10 bitmap outside
  the superblock, which the flush barrier does not cover.
- preen and lost+found; the checker's passes over directories and link
  counts, the bad-block inode and inodes of unknown type.
- `v6_makefree`, `v7_count_free`, and the free-inode totals.
- Dups.ScanAll: the code takes an inode for live if its mode is not 0 (check.c:556), so that it
  also scans a freed V6 inode whose mode bits are stale; the model scans the inodes that are in use.
- Dups.RepairOne: the code ignores a failed inode write, so the result is for writes that succeed.
- FileOps.TruncateIno: the inode carries data blocks; a device inode handed to write or truncate
  is not modelled.
- Engine.Edition.CollectSubtree, Engine.Edition.ItruncFrom: which blocks are collected is stated as
  a multiset, and not in which order they come to the free list.
- Out-of-memory paths and the growth of the block list.
- FileOps.Ialloc: the clearing write that follows the choice is the first step of `InodeCreate`;
  the in-core inode cache is a parameter.
- Namespace.Volume.LinkIn: the new name must be free, since the code does not look, and a map of
  names cannot hold it twice; hard links to directories keep the counts only.
- NameRuns.StepOnDisk: a directory of 4 GiB is refused, where the size would wrap.
- Namespace.Volume.Create, Namespace.Volume.Mkdir: any free inode is taken; `FileOps.Ialloc` has
  the search in the 16-bit cache.
- NameRuns.PerformAll: the compensations after a failed write are not spelled out; they are writes
  of the same kinds, so `Runs.Run` covers them. Entries are those of fixed-size directories.
- Namespace.Volume.Rename: directories are not hard-linked, names are not dots, and there are at
  most 65536 inodes, as 16-bit inode numbers have it.
- Bsd211.Directory.Add: the append and the padding write are taken as done; their order under
  faults is the file layer's. On a directory whose tail is damaged, what is listed after the new
  entry is what the bytes there happen to say.
- FileOps.WriteIno: at the level of a write, storing past the barrier is excluded by a condition;
  that it then happens is stated for the single store, `Engine.Edition.Store`.
- Path resolution, modes, ownership and times, symbolic links, FUSE adapters, tools, detection and
  locking.
