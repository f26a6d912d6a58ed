# Model of the ext2 file system driver for OS/2

This project models the parts of the driver that keep state, and proves what each of them keeps.

- **Blocks** (`Bitops`, `Geometry`, `BlockSearch`, `Placement`, `Slots`, `BlockMap`, `Accounting`,
  `TreeSteps`, `Goals`, `Volume`): bitmaps with goal search and preallocation, the 12 + 1 + 2 + 3 level block
  tree of an inode, truncation in coalesced runs, dropping an inode. `Volume` is a class whose
  methods change bitmaps, counters, block contents and inodes as the C code does. Its invariant
  says that the used blocks are the disjoint union of the system zones, all trees and all
  preallocation windows, and that every counter is exact. Addresses per block, group size and
  number of groups are symbolic.
- **Directories** (`DirTree`, `TreeOps`, `TreeDirs`, `Namei`, `WalkEnds`, `StaleWalk`): names bound to
  inodes and link counts. The invariant says that directories form a tree. `Namei.Namespace` runs the
  operations in the order of checks of the C code, errors included, beside the name cache that
  answers its lookups. `WalkEnds` says when the walk up before a rename ends. `StaleWalk` has a run that
  loses the tree, and one after which a rename hangs.
- **Directory records** (`Records`, `Directory`, `Readdir`): variable-length records that tile
  blocks, the search, the insertion and the deletion as a map from names, and the scan that
  resumes while names come and go.
- **Name cache** (`Dcache`, `CachedDirs`): two levels of slots and hash chains, which behave as two
  queues; beside the records of directories, in step with them by version stamps.
- **Buffer cache** (`Lists`, `BufferCache`): hash chains, lists by state, free lists, recycling.
  A ghost array of blocks is what users see.
- **File input and output** (`FileIO`): the ring of 32 buffers as a plain slice of bytes.
- **Small algorithms** (`GroupChoice`, `BitmapCache`, `Fnmatch`, `Numbers`, `Dates`).

Where the code asks whether a buffer is busy, locked or up to date, whether memory or disk space
is left, the model lets the answer be arbitrary, so the results hold for every answer.

Assumptions, as preconditions or part of an invariant: group sizes are multiples of 32; padding and
system-zone bits are set and the first block of each group is a system block; the number of
addresses in a block is a power of two; the logical block asked of getblk is not exactly the limit;
one block size for each device; device numbers are neither 0 nor 0xffff; directory blocks are at
least 264 bytes. Strings and words stand for C strings and 32-bit words, with wrap-around written
out in `Numbers`.

`dafny verify dfyconfig.toml` checks the whole project.

The code and its comments or callers disagree in a few places. The model follows the code:

- A rename whose directory has a ".." that does not name the old directory fails with "no space",
  because reading the block has overwritten the error set before (src/ext2/namei.c:1095-1099).
- ext2_getblk admits one logical block too many (`BlockMap.LimitIsOutOfRange`).
- Truncation does not visit an all-zero indirect block that ends before the cut below the double or
  triple level (`TreeSteps.EmptyBlocksLeft` says exactly which are left, every run of
  `Volume.EmptyBlockStays` leaves one).
- ext2_truncate refuses an inode that is append-only or immutable or no file, directory or link, and
  ext2_put_inode drops it all the same. Neither ext2_rmdir nor a rename over a name looks at the flags
  of what goes, so its blocks stay in use for ever (`Volume.BlocksLost`).
- ext2_create does not search before it adds (`Directory.AddAloneMayRepeat`).
- Renaming a directory can leave a stale ".." in the name cache (`Dcache.Lookups.Reparent` gives the
  exact condition, `Dcache.StaleParent` a run that ends with a wrong answer).
- The walk that is to keep a directory from moving below itself reads ".." through that cache
  (src/ext2/namei.c:975). It can miss the directory, and then a rename leaves a cycle apart from the
  root (`StaleWalk.LostTree`); it can also go round for ever (`StaleWalk.EndlessWalk`,
  `WalkEnds.EndsExactly`). So runs keep the tree exactly up to the first rename that moves a directory
  below itself (`Namei.Namespace.Run`), and there is none as long as no directory with copies of ".."
  on both levels gets another parent.
- The probes for the inode of a file can miss a group (`GroupChoice.ProbesAll` gives the exact
  condition).

## Model

| member | source | states |
|---|---|---|
| Bitops.FindFirstZeroBit | include/asm/bitops.h:123-131 | the result is the first clear bit of the whole words of the bitmap, every bit before it is set; bits of a last partial word are never looked at |
| Bitops.FindNextZeroBit | include/asm/bitops.h:133-156 | the result is the first clear bit at or after the offset, across the first word, the rest of the words and the end, or the size when there is none |
| Bitops.MemscanFree | include/asm/bitops.h:104-112 | the first byte with all eight bits clear in the range, none of the bytes before it is free |
| Bitops.CountFreeUpdate | src/ext2/balloc.c:282-295 | setting or clearing one bit moves the number of clear bits by one exactly when the bit changes |
| BlockSearch.SearchWindow | src/ext2/balloc.c:390-409 | a hit is the nearest bit after the goal that the window shows as free, at most 32 after it; a miss means it shows none. It shows every clear bit, except that for a goal at the last bit of a word, when the shift by 32 leaves the word as it is, the bit 32 places before must be clear too |
| BlockSearch.SearchBack | src/ext2/balloc.c:494-504 | walking back from a free byte passes only clear bits, stops after at most seven, and stops early only at a set bit |
| BlockSearch.SearchFar | src/ext2/balloc.c:443-456 | the choice behind an occupied goal is clear and after it: in front of the first wholly free byte, else the next clear bit; a miss means everything up to the end is set |
| BlockSearch.SearchGroup | src/ext2/balloc.c:367-456 | the choice in the goal group is the goal itself if clear, else the nearest bit the window shows, else the free byte walked back, else the next clear bit; a miss means no bit from the goal on is clear |
| BlockSearch.SearchWhole | src/ext2/balloc.c:478-493 | another group yields a clear bit exactly when it has one |
| Placement.VisitsAll | src/ext2/balloc.c:465-477 | the walk over the following groups comes past every group, so one with a free block is found |
| Volume.Volume.NextGroup | src/ext2/balloc.c:465-477 | the group taken is the first one after the goal group, cyclically, whose bitmap has a clear bit |
| Volume.Volume.FindBit | src/ext2/balloc.c:359-510 | whatever the goal, the search ends at an in-range clear bit placed by the search rule, so the panic for a bit already set is unreachable |
| Volume.Volume.NewBlock | src/ext2/balloc.c:319-590 | fails exactly when only reserved blocks are free and then changes nothing; else the block is the one the search rule gives for the goal, it and the preallocated run after it were free and are now used and nothing else is, the run is as long as it can be up to seven, the block is zeroed, all counters stay exact |
| Goals.SameBitmaps | src/ext2/balloc.c:359-510 | the used blocks determine the bitmaps and all counters, so where a block goes depends on the used blocks and the goal alone |
| Goals.ChosenIsFree | src/ext2/balloc.c:359-510 | the search answers no block exactly when only reserved blocks are free, and else a block of the volume that is free |
| Goals.ChosenNear | src/ext2/balloc.c:363-376 | a free goal is taken itself; with a free block behind it in its group the choice stays in that group and is not before the goal; a goal outside the volume counts as the first block |
| Volume.Volume.SetWindow | src/ext2/balloc.c:533-551 | the preallocated bits directly follow the block, were clear, and end at a used block, the group end, the volume end or seven |
| Volume.Volume.FreeBlocks | src/ext2/balloc.c:229-317 | a run inside the data zone is taken out of the used blocks and the group and volume counts follow, even when some of its blocks were free already; any other run changes nothing |
| Geometry.ClearedBit | src/ext2/balloc.c:282-295 | clearing one bit and counting it only if it was set keeps every group count and the volume count equal to the number of clear bits |
| Geometry.SettingBit | src/ext2/balloc.c:519-527 | a clear bit of a group is a data block of the volume that was not used, and setting it with the counters keeps them exact |
| Geometry.RunInGroup | src/ext2/balloc.c:258-265 | a run of data blocks never crosses a group boundary, because the first block of every group is a system block |
| Geometry.BlockNoInverse | src/ext2/balloc.c:363-368 | block numbers and pairs of group and bit correspond one to one |
| Geometry.MaskIsMod | src/ext2/inode.c:549-562 | masking with the number of addresses less one is the remainder |
| BlockMap.OffsetsOfLogical | src/ext2/inode.c:494-562 | every place for a data block address in the four-level tree has its own logical number below the limit, and the index arithmetic of getblk leads back to that place |
| BlockMap.OffsetsIsLeaf | src/ext2/inode.c:494-562 | every logical block below the limit leads to a valid place for a data block, and distinct ones to distinct places |
| BlockMap.LimitIsOutOfRange | src/ext2/inode.c:515-520 | the one block more that the range test of getblk admits would index past the end of the triple indirect block |
| BlockMap.BmapIsPtr | src/ext2/inode.c:283-336 | the nested lookups of bmap read the address at the place that the index arithmetic of getblk gives |
| BlockMap.BmapOnlyAt | src/ext2/inode.c:283-336 | a change at one place of the tree changes the mapping of at most the logical block of that place |
| Slots.Hooked | src/ext2/inode.c:395-404 | putting the address of a zeroed block into an empty place of the tree adds exactly that block to the tree and keeps all blocks of the tree distinct |
| Slots.Unhooked | src/ext2/truncate.c:132-134 | clearing an address with nothing below it removes exactly that block from the tree |
| Slots.WriteOnlyAt | src/ext2/inode.c:408-492 | a write to one place of a tree without shared blocks is seen at that place only |
| Slots.LeafWrite | src/ext2/file.c:420-431 | new contents of a data block change no address of any tree |
| Accounting.PartitionExchanged | src/ext2/inode.c:225-280 | moving blocks from one owner to another keeps the shares disjoint and their union equal to the used blocks |
| Accounting.HookedIn | src/ext2/inode.c:395-404 | a held block that is hooked into one tree leaves the caller and joins that tree; no other inode sees a change and i_blocks grows by one block |
| Accounting.UnhookedOut | src/ext2/truncate.c:132-134 | a block taken out of one tree is held by the caller; no other inode sees a change and i_blocks shrinks by one block |
| Volume.Volume.DiscardPrealloc | src/ext2/inode.c:94-107 | exactly the blocks of the preallocation window are freed and the window is empty |
| Volume.Volume.AllocBlock | src/ext2/inode.c:225-280 | a goal at the window takes its first block and moves the window on; otherwise the window is given back and the block is the one the search rule gives for that goal among the blocks then free, with a new window after it for a regular file; used blocks, contents and inodes afterwards are exactly that; the block is zeroed and owned by the caller alone |
| Volume.Volume.LastBefore | src/ext2/inode.c:370-381 | the last address before the place, 0 only if all before are empty |
| Volume.Volume.InodeGetblk | src/ext2/inode.c:340-406 | returns the address of an inode slot, made on demand; without create or with an address already there nothing changes; the goal is the hint if it is for the block asked for and not 0, else the last address before the slot, else the first block of the group, and the state afterwards is that of an allocation for this goal hooked into the slot, with block and address as the next hint; a failure means the file size limit or only reserved blocks left |
| Volume.Volume.BlockGetblk | src/ext2/inode.c:408-492 | the same for an entry of an indirect block, where the goal is the hint, else the last address before the entry, else the indirect block itself; nothing at all happens below a missing indirect block |
| Volume.Volume.Getblk | src/ext2/inode.c:494-562 | with create the result is what bmap gives afterwards, or a size limit or full volume explains its absence, and the error says which; bmap of every other logical block and the contents of every block are as before; a mapped block keeps its address; every block made on the way is put where the goal of its level says, one level after the other, and the next block in sequence first moves the hint along |
| TreeSteps.GrewBmap | src/ext2/inode.c:283-336 | addresses added on the way to one logical block change no other mapping of the file |
| TreeSteps.WindowStep | src/ext2/inode.c:238-261 | taking the first block of the window moves it from the window to the caller and keeps every block owned once |
| TreeSteps.SearchedStep | src/ext2/inode.c:262-275 | a searched block goes to the caller and the blocks after it to the window, every block owned once |
| TreeSteps.HookStep | src/ext2/inode.c:395-404 | hooking in a held block keeps the books and changes the tree at that place only |
| Volume.Volume.FlushRun | src/ext2/truncate.c:152-153 | the blocks of the pending run, and only they, are freed at the end of a level, each once |
| Volume.Volume.AddToRun | src/ext2/truncate.c:140-149 | a cleared block either extends the pending run by one or the run is freed and a new one begun; no block is lost or freed twice |
| Volume.Volume.TrimLeaf | src/ext2/truncate.c:112-149 | a mapped block past the cut is unmapped unless its buffer is busy; the address seen after waiting is the one cleared |
| Volume.Volume.TruncDirect | src/ext2/truncate.c:98-154 | whichever buffers are busy, nothing before the cut changes; without a retry every direct address past the cut is gone |
| Volume.Volume.TruncIndirect | src/ext2/truncate.c:156-250 | the same for one indirect block, which is freed itself when it has no address left |
| Volume.Volume.FreeIfEmpty | src/ext2/truncate.c:230-243 | an indirect block is freed exactly when it has no address and its buffer is not busy |
| Volume.Volume.TruncDindirect | src/ext2/truncate.c:252-310 | the same for a double indirect block, starting at the entry the cut falls in |
| Volume.Volume.TruncTindirect | src/ext2/truncate.c:312-369 | the same for the triple indirect block |
| Volume.Volume.TruncatePass | src/ext2/truncate.c:388-397 | one pass over the four levels: mappings and contents before the cut are kept whatever is busy; a pass that asks for no retry leaves nothing past the cut |
| Volume.BeforeEnd | src/ext2/truncate.c:107-108 | the end block splits the file by bytes: exactly the blocks that start before the end of the file come before it |
| Volume.Volume.Truncate | src/ext2/truncate.c:371-413 | every logical block that starts before the end of the file in bytes keeps its mapping and contents, every later one is unmapped, the window is empty, exactly the blocks no longer held are freed, and the all-zero indirect blocks left are exactly those that were all-zero before and lie wholly before the cut below the double or triple level |
| TreeSteps.EmptyBlocksLeft | src/ext2/truncate.c:252-369 | an all-zero indirect block survives a finished pass if and only if it was all-zero before, is not hooked directly into the inode, and ends before the cut |
| Volume.EmptyBlockStays | src/ext2/truncate.c:252-369 | with two blocks for data, every run of a getblk for a block below the double indirect block, which fails after two indirect blocks, and a truncation after the file has grown past it leaves the second indirect block, all zero |
| Volume.EmptyBlockRun | src/ext2/truncate.c:252-369 | such a run on a fresh volume, from its first state to the last |
| Volume.BlocksLost | src/ext2/inode.c:57-72 | every run that makes a directory that cannot be truncated, gives it a block and removes it ends with no inode but a block for data still in use |
| Volume.LostRun | src/ext2/inode.c:57-72 | such a run on a fresh volume, from its first state to the last |
| TreeSteps.TrimmedBmap | src/ext2/truncate.c:371-413 | after a finished pass the mapping of a logical block is the old one before the cut and none after it |
| TreeSteps.ClearStep | src/ext2/truncate.c:132-134 | one cleared address keeps every block owned once and the sector count of the inode exact |
| Volume.Volume.PutInode | src/ext2/inode.c:57-72 | the window is given back in any case; an inode without links that can be truncated gives back every block it holds and leaves, no other file changes; one that cannot be truncated loses exactly its tree |
| Volume.Volume.WriteBlock | src/ext2/file.c:401-431 | exactly the written logical block of the file reads differently afterwards, other files are the same; a failure means the size limit or only reserved blocks left |
| Volume.Volume.constructor | src/ext2/balloc.c:646-716 | a formatted volume: the used blocks are the system zones, the books are in order |
| Volume.Volume.Step | src/ext2/inode.c:57-105 | any one operation on any inode, with any busy buffers, keeps the books and does what it should: what it maps, reads, frees and leaves to other inodes is stated for each; a dropped inode that cannot be truncated leaves its tree in the books under a number that is no inode number |
| Volume.Volume.Execute | src/ext2/inode.c:57-105 | over any run, with what each operation does and answers, the used blocks are in every state exactly the disjoint union of the system zones, every tree, every window, and the trees left behind by dropped inodes that could not be truncated; trees have no shared or repeated block, and all free counts equal the number of clear bits |
| Volume.Volume.SoundMeans | src/ext2/balloc.c:646-716 | what the invariant means: nothing is leaked or owned twice, and the checks of ext2_check_blocks_bitmap on the counters would pass |
| Namei.Namespace.Subdir | src/ext2/namei.c:960-984 | the walk up reads ".." through lookups, so from the cache if a copy is there; its outcome and what it enters are those of Walk. While the copies of ".." are right it meets the directory exactly when the first lies at or below it, and ends |
| Namei.Namespace.Lookup | src/ext2/namei.c:228-270 | answers from the cache, else from the records, and enters what the records say; copies of ".." that are right stay right |
| Namei.WalkRight | src/ext2/namei.c:960-984 | with right copies of ".." the walk never misses and never meets wrongly, ends within the distance to the root, and leaves the copies right |
| WalkEnds.ComesBackForEver | src/ext2/namei.c:967-981 | a walk that comes back to a directory within as many steps as a level of the cache has slots never ends: what it read of ".." on the way it reads again, although every reading changes the cache |
| WalkEnds.EndsExactly | src/ext2/namei.c:967-981 | for any number of directories the walk never ends if and only if it is twice at the same directory with the same cache, and if and only if it is still going on after as many steps as there can be pairs of directory and cache contents |
| WalkEnds.EndsIff | src/ext2/namei.c:967-981 | in a tree with at most as many directories as a level has slots the walk ends if and only if it comes back to no directory, and if and only if it has ended after as many steps as there are directories |
| WalkEnds.RoundForEver | src/ext2/namei.c:967-981 | along a ring of at most as many directories as a level has slots, each with an answer the cache or the records will give again, the walk is still going on after any number of steps |
| Namei.Namespace.Create | src/ext2/namei.c:430-469 | a new file is bound once, or on lack of an inode or of room nothing changes; the tree is kept, and right copies of ".." stay right |
| Namei.Namespace.Link | src/ext2/namei.c:908-958 | goes through exactly for a file that is not frozen, below the link limit, under a free name with room; link counts stay the number of names |
| Namei.Namespace.Unlink | src/ext2/namei.c:761-826 | goes through exactly for a bound file that is not frozen; one binding goes, and the file with its last one |
| Namei.Namespace.Mkdir | src/ext2/namei.c:539-618 | goes through exactly for a free name, a parent below the link limit and enough space; the tree and all link counts are kept, a failure changes no directory; both directories get new stamps and the new name is cached under the one of the parent |
| Namei.Namespace.Rmdir | src/ext2/namei.c:674-759 | goes through exactly for a bound, empty directory other than the one it is named in, hence never for "." or ".."; each error names its cause |
| Namei.Namespace.MayMove | src/ext2/namei.c:1063-1103 | the checks let a rename through exactly when the kinds agree, the walks up end without meeting the directory, its ".." is the old directory, the replaced one is empty and not busy, and a new parent has a link to spare; with right copies of ".." the walks decide whether the directory would move at or below itself |
| Namei.Namespace.Rename | src/vfs/namei.c:438-512 | goes through exactly when neither name is empty or a dot name and both bind the same inode or the rename is movable and the walk passes; the result is the removal of the replaced name followed by a move to a free name. Afterwards there is a tree if and only if no directory moved below itself; with right copies of ".." there always is, and they stay right unless a directory with copies on both levels got another parent |
| Namei.Namespace.InStepGoesThrough | src/ext2/namei.c:1003-1171 | while the copies of ".." are right and the walk may go as far as the root, a rename goes through exactly when the records allow it |
| Namei.Namespace.Finish | src/ext2/namei.c:1134-1150 | the links, the records of ".." and its cached copy after the entries have changed hands; the copies stay right if and only if the parent is the same or not both levels had one |
| Namei.ParentCorrected | src/ext2/namei.c:1138-1139 | correcting one cached ".." leaves all copies right if and only if the parent is the same or not both levels had one |
| Namei.Namespace.Serve | src/ext2/namei.c:430-1171 | a request is granted under its exact condition and leads from one state of tree, stamps and cache to exactly one other, failures included; it leaves a tree unless it is a granted rename that moves a directory below itself; with right copies of ".." there is none, and a guarded request keeps them right |
| Namei.Namespace.Run | src/ext2/namei.c:430-1171 | over any run of requests, with the states it goes through: each request leads to the next state as it should, and up to the first rename that moves a directory below itself, after which there is no tree, every ".." is the parent, every chain of parents ends at the root, a directory is bound once and has 2 plus its subdirectories as link count, a file the number of its names. From right copies of ".." on, as long as no request so far gave another parent to a directory with copies of ".." on both levels, there is a tree and the copies are right |
| Namei.DotsNeverMove | src/ext2/namei.c:1092-1099 | for "." and ".." as old name either the walk up along the records meets the inode or its ".." is not the old directory |
| Namei.DotsNotEmpty | src/ext2/namei.c:623-672 | "." and ".." never lead to an empty directory other than where the search starts |
| Namei.CheckedIsAllowed | src/ext2/namei.c:1063-1103 | the order of checks in the code amounts to the rule for moves and the outcome of the walk |
| Namei.RenameResult | src/ext2/namei.c:1122-1150 | rebinding the entry in place, deleting the old one and adjusting the link counts in one go equals removing the replaced inode and then moving |
| Namei.RenamedTree | src/ext2/namei.c:1003-1171 | a rename leaves a tree if and only if it does not move a directory below itself, also when it replaces an empty directory |
| Namei.RenamedNames | src/ext2/namei.c:1122-1150 | afterwards the new name has the inode, the old one is free, ".." of a moved directory is its new parent, and every other binding is as before |
| TreeOps.FileAddedTree | src/ext2/namei.c:430-469 | one more name for a file, new or old, keeps the tree and the counts |
| TreeOps.FileRemovedTree | src/ext2/namei.c:761-826 | one name less for a file keeps the tree; the inode goes with its last name |
| TreeOps.FileMovedTree | src/ext2/namei.c:1122-1150 | moving a name of a file keeps the tree |
| TreeDirs.DirAddedTree | src/ext2/namei.c:539-618 | mkdir keeps the tree |
| TreeDirs.DirRemovedTree | src/ext2/namei.c:674-759 | removing an empty directory keeps the tree |
| TreeDirs.DirMovedTree | src/ext2/namei.c:1122-1150 | moving a directory to a place not below itself keeps the tree |
| TreeDirs.DirMovedCycle | src/ext2/namei.c:1122-1150 | moving a directory to a place below itself always leaves no tree |
| TreeDirs.RootedMoves | src/ext2/namei.c:960-984 | a directory that is not moved below itself still leads up to the root, and so does everything below it |
| DirTree.NoTwoCycle | src/ext2/namei.c:960-984 | only the root is its own grandparent |
| StaleWalk.LostTree | src/ext2/namei.c:960-984 | a run of requests from the fresh root, with its states, after which there is no tree: x moves from a to b while both levels hold its "..", other lookups drive out the corrected copy, and the walk before moving b into x goes from x to a and misses b |
| StaleWalk.EndlessWalk | src/ext2/namei.c:967-981 | a run of requests from the fresh root, with its states, that leaves a tree in which c may move into x as far as the records go, but the walk before that never ends, and neither does one that looks for any other directory outside the ring x, a, y: after x, with y in it, has moved from a to b, a moves into y, and other lookups drive out the corrected ".." of x |
| StaleWalk.BuriedIs | src/vfs/dcache.c:198-252 | as long as level 1 still has its old copy and most of the names listed before it, lookups of those and of 17 fresh names leave the old copy to be found |
| StaleWalk.PastB | src/ext2/namei.c:967-981 | the walk from x, when its old ".." is found, passes a and the root and ends without meeting b, in which x is |
| StaleWalk.RoundXAY | src/ext2/namei.c:967-981 | with a in y the same walk goes from x to a, to y and back, and never ends |
| Records.SplitLive | src/ext2/namei.c:360-373 | splitting a record keeps the size of the block and every live entry at its offset |
| Records.SplitTiles | src/ext2/namei.c:360-373 | splitting keeps records that pass the check and fill the block |
| Records.MergeLive | src/ext2/namei.c:404-428 | merging a record into the one before removes exactly its live entry |
| Records.MergeTiles | src/ext2/namei.c:404-428 | merging keeps records that pass the check and fill the block |
| Records.BindLive | src/ext2/namei.c:457-458 | giving a free record an inode adds exactly one live entry at its offset |
| Directory.Match | src/ext2/namei.c:94-117 | a live record matches when its name is equal, or when the mode retains case only has the same letters in either case, and the empty name matches "." |
| Directory.SameIsAlike | src/ext2/namei.c:94-117 | comparing the folded names that index the bindings is the same as comparing names letter by letter in either mode |
| Directory.Directory.FindEntry | src/ext2/namei.c:126-226 | finds the first live record with the name, in block and record order, and finds none exactly when no live entry has the name: equal, or in the case retentive mode of the same letters |
| Directory.Directory.AddEntry | src/ext2/namei.c:282-398 | terminates, because a fresh block always fits; succeeds exactly for a name that is not empty, in a directory that has blocks, that the scan does not meet before a record it fits in, and for which some record has room or a block can be added; never changes the live entries |
| Directory.Directory.Bind | src/ext2/namei.c:457-458 | adds exactly one live entry |
| Directory.Directory.DeleteEntry | src/ext2/namei.c:404-428 | removes exactly one live entry, at the same offset, and keeps the records tiling the block |
| Directory.Directory.Insert | src/ext2/namei.c:908-958 | search, then add: with room a free name gets exactly one new live entry, a bound name is refused; unique names stay unique, the names bound gain exactly that one, and a search for it then answers the new inode |
| Directory.Directory.Replace | src/ext2/namei.c:1110-1123 | fails exactly when the name is not found; else one record with the name gets the new inode number in place, and searches for the name, and for the spelling the record has, answer it |
| Directory.SpelledFirst | src/ext2/namei.c:1122-1123 | what a search finds first under one spelling it also finds first under the spelling of the record |
| Directory.Directory.Remove | src/ext2/namei.c:761-826 | exactly the entry a search answers goes; where names are unique the name is not bound afterwards and every other one is |
| Directory.Directory.Create | src/ext2/namei.c:430-469 | add without a search: exactly one new live entry, which a search then finds; refused exactly when the scan meets the name before a record it fits in, or the name is empty, or the directory is, or there is no room |
| Directory.Directory.Renumber | src/ext2/namei.c:1122-1123 | a live record gets another inode number in place: the entry at its offset changes and no other |
| Directory.Directory.EmptyDir | src/ext2/namei.c:620-672 | a directory that starts with its own "." and a ".." is empty exactly when every other record is free; any other counts as empty |
| Directory.EmptyBindsDots | src/ext2/namei.c:620-672 | where names are unique the scan finds nothing exactly when the directory binds nothing but "." and ".." |
| Directory.AnswerIs | src/ext2/namei.c:126-226 | where names are unique the first match of a search is the one live entry of the name |
| Namei.SearchIsBinding | src/ext2/namei.c:126-226 | a search of the records answers what the directory binds, when its names are those of its records |
| Namei.EmptyIsEmpty | src/ext2/namei.c:620-672 | in either case mode the scan for an empty directory says whether the directory binds more than its dots |
| Directory.CheckPasses | src/ext2/dir.c:153-177 | the records of a directory always pass the check, so its error exits are not taken |
| Directory.FreeBlockFits | src/ext2/namei.c:329-341 | a fresh block has room for any name |
| Directory.AddKeepsUnique | src/ext2/namei.c:430-469 | a new entry keeps names unique if and only if its name was not bound |
| Directory.AddAloneMayRepeat | src/ext2/namei.c:430-469 | without the search first, as in create, a bound name may be added again: a free record before it is such a case |
| Readdir.Scan.Revalidate | src/ext2/dir.c:229-243 | the scan goes on at the first record boundary at or after the old offset |
| Readdir.Scan.Resume | src/ext2/dir.c:229-247 | nothing live is passed over by going on there; at the end of an odd block the position falls back to the start of the block |
| Readdir.Scan.ReadBlock | src/ext2/dir.c:249-309 | what is listed is live, starts on a record boundary, and nothing between the old and new position is left out |
| Readdir.Scan.ReadDir | src/ext2/dir.c:179-317 | lists only live entries, no more than there is room for, and leaves none out between the old and the new position; it gets on unless the next name is too long for the room, and room for one entry lists exactly one unless the directory ends |
| Readdir.Scan.Session | src/ext2/dir.c:179-317 | over any session of reads with names added after a search or without one, deleted, replaced in place and ".." corrected in between, with what each act lists and leaves: every read and every change is as it should be, and an entry that is live in all states is in some list once the scan is at the end |
| Readdir.Scan.Serve | src/ext2/dir.c:179-317 | one act: only a read lists anything or moves the scan, only the other acts change the records, each under its exact condition |
| Readdir.NothingMissed | src/ext2/dir.c:179-317 | in any such session an entry that is live in every state and that the scan has gone past has been listed |
| Readdir.OrOffset | src/ext2/dir.c:244-245 | combining block position and offset by or is addition, except that a full block size is lost for odd blocks |
| Dcache.NameCache.FindEntry | src/vfs/dcache.c:174-192 | finds a copy exactly when one is cached: the level 2 copy, else the level 1 copy |
| Dcache.NameCache.Lookup | src/vfs/dcache.c:213-227 | the slots, chains and orders behave as two queues: a hit exactly for a short name that is cached, with the level 2 copy first; what is found becomes the last of level 2, in place of the oldest there if it came from level 1 |
| Dcache.NameCache.MoveToLevel2 | src/vfs/dcache.c:198-211 | a level 1 copy goes over the slot of level 2 used longest ago; a level 2 copy only moves in the order of use |
| Dcache.NameCache.Add | src/vfs/dcache.c:229-252 | as two queues: the copy a search would find gets the new number and becomes the last of its level, else the oldest slot of level 1 is reused |
| Dcache.EnteredAlone | src/vfs/dcache.c:229-252 | afterwards every copy of the key has the new number, except exactly that with copies on both levels the one on level 1 is left as it was |
| Dcache.UnhashSound | src/vfs/dcache.c:154-161 | taking a slot off its chain keeps each key once a level and level 2 copies first |
| Dcache.HashSound | src/vfs/dcache.c:163-169 | a slot put at the head of the chain of its new key keeps each key once a level and level 2 copies first |
| Dcache.Lookups.Lookup | src/ext2/namei.c:228-270 | in either case mode, hit or miss, positive or negative: as long as the cache is in step a lookup returns what a search of the records answers, and the cache stays in step |
| Dcache.Lookups.Bind | src/ext2/namei.c:457-459 | in either case mode, binding a name under a fresh stamp keeps the cache in step if and only if a search of the new records for that spelling finds that binding |
| Dcache.Lookups.Unbind | src/ext2/namei.c:806-809 | changing the records under a fresh stamp keeps the cache in step |
| Dcache.Lookups.List | src/ext2/dir.c:296-297 | caching a record readdir lists keeps the cache in step if and only if a search for its name finds that record |
| Dcache.Lookups.Reparent | src/ext2/namei.c:1138-1139 | rebinding ".." under the same stamp keeps the cache in step if and only if the parent is the same or not both levels had a copy |
| CachedDirs.Core.Run | src/ext2/namei.c:228-1141 | over any run of lookups, listings and changes of records, in either case mode: the cache agrees with the records exactly up to the first act that misleads, which is a new parent for a directory with copies of ".." on both levels or the listing of a record behind another of the same name; until then every lookup answers what a search of the records answers |
| CachedDirs.Core.Serve | src/ext2/namei.c:228-1141 | each act goes through under its exact condition, changes the records, the stamps and the cache as it should, and sets the cache at odds with the records if and only if it misleads |
| CachedDirs.Core.AddName | src/ext2/namei.c:430-469 | a name is added, with or without a search, under its exact condition, and that never misleads, not even for a repeated name: the new record is the one a search finds |
| CachedDirs.UniqueListing | src/ext2/dir.c:296-297 | while no two live records of a directory have the same name, listing one does not mislead |
| Dcache.StaleParent | src/ext2/namei.c:1138-1139 | a run of lookups, a listing and a move after which a lookup of ".." returns the former parent |
| Dcache.Buried | src/vfs/dcache.c:198-252 | enough lookups of other names drive out the level 2 copy of a key while its level 1 copy stays and is then what a search finds |
| FileIO.File.Plan | src/ext2/file.c:210-225 | the blocks asked for cover the bytes wanted, none starts past the end of the file, and with reading ahead there are as many as asked for or up to the end |
| FileIO.File.Fill | src/ext2/file.c:244-275 | takes handles in order into the free places of the ring of 32 and at least one if any is wanted, and holds each buffer once |
| FileIO.File.Drain | src/ext2/file.c:283-327 | copies in order, holes as zeros, gives each buffer back once, and never takes from an empty ring |
| FileIO.File.ReleaseRest | src/ext2/file.c:333-337 | buffers only read ahead are given back |
| FileIO.File.Read | src/ext2/file.c:172-345 | returns exactly the bytes of the file from the position on, never more than asked for nor past the end, and fewer than asked for only at the end; gives back every buffer it took exactly once |
| FileIO.File.Write | src/ext2/file.c:348-469 | exactly the written bytes change, also those past the old end read as before elsewhere; exactly the blocks that the written bytes meet are there now besides the old ones; the file ends no earlier than the end of the write; a short write means a hole that could not be filled at the new position, or the 2 GB limit |
| FileIO.WrittenIsRead | src/ext2/file.c:348-469 | a read of a range just written returns what was written, and of a range apart from it what it returned before |
| FileIO.SamePlace | src/ext2/file.c:263-274 | two positions in the ring coincide only when it is empty or full |
| FileIO.OneBlockWritten | src/ext2/file.c:420-431 | copying into part of a block changes exactly those bytes of the file |
| BufferCache.DetachedLinked | src/vfs/buffer.c:501-512 | a buffer taken off its queues is on none, all others are on exactly theirs, and every counter is exact |
| BufferCache.AttachedLinked | src/vfs/buffer.c:572-600 | a buffer put into queues is on exactly its own, and every counter is exact |
| BufferCache.Cache.PutLastLru | src/vfs/buffer.c:514-541 | the buffer becomes the last of its list, nothing else moves |
| BufferCache.Cache.RefileBuffer | src/vfs/buffer.c:961-996 | the buffer goes to the end of the list its state calls for, or stays where it is when it is on it already; its time is set when it is clean or newly dirty or unshared and kept otherwise; contents and all other lists are untouched |
| BufferCache.Cache.FindBuffer | src/vfs/buffer.c:602-615 | finds the buffer of a block exactly when one is hashed |
| BufferCache.Cache.GetHashTable | src/vfs/buffer.c:625-639 | a buffer found is held once more, at rest, and shows the block if up to date |
| BufferCache.Cache.Scan | src/vfs/buffer.c:753-784 | the candidate is the first of the rest of the list that is unreferenced, clean, unlocked and of the right size, unless a locked one of that size comes before it on a list of locked buffers; there is none exactly if none of the rest is; only dirty buffers are moved |
| BufferCache.Cache.Candidates | src/vfs/buffer.c:744-786 | each list but those of dirty and shared buffers has its first usable buffer as candidate, or has none |
| BufferCache.Cache.Winner | src/vfs/buffer.c:793-800 | the candidate used longest ago wins; none wins only if the time of every candidate is at the maximum |
| BufferCache.Cache.TakeWinners | src/vfs/buffer.c:788-867 | the buffers recycled are unreferenced, clean and unlocked, so the panics on candidates are unreachable; they go to the end of the free list in turn, each the first usable one left on its list and used no later than the first one left on any list, until the memory wanted is found or none is left that can win; no buffer in use is touched |
| BufferCache.WinnerElected | src/vfs/buffer.c:793-820 | the candidate with the least time is the first usable one left on its list as it was at first, and used no later than the first one left on any other list |
| BufferCache.GoneSpares | src/vfs/buffer.c:731-736 | a buffer of another size that goes takes nothing of a size out of reach: its free list is the same, and what a list offered it still offers |
| BufferCache.Cache.Shrink | src/vfs/buffer.c:1576-1612 | frees the page of a buffer of another size than the one asked for, if anything is freed; free and usable buffers of that size are all still there |
| BufferCache.Cache.RefillFreelist | src/vfs/buffer.c:692-888 | terminates; whatever is grown, shrunk or recycled, no buffer in use loses anything and no block becomes hashed; afterwards a buffer of the size is free if one was, or if any list but those of dirty and shared ones had one that was usable and not behind a locked one |
| BufferCache.Cache.Elect | src/vfs/buffer.c:744-867 | one election over all lists: what is recycled comes to the end of the free list in the order of the elections on the lists as they were, and if anything could be taken something is |
| BufferCache.Cache.Getblk | src/vfs/buffer.c:900-940 | returns the one buffer of the block, held and at rest, showing the flat array if up to date; other buffers in use are untouched; one found in the cache goes to the end of its list exactly if it is up to date and clean. It gives up only if the block is not in the cache, no buffer of its size is free after the last refill, and, with at least one refill, none was free and no list had one that could be taken |
| BufferCache.Cache.Bread | src/vfs/buffer.c:1045-1062 | the buffer returned is up to date and shows the flat array; it fails only where getblk gives up |
| BufferCache.Cache.Brelse | src/vfs/buffer.c:998-1014 | one reference less, never below zero, contents kept; the buffer is on the list of its state, and a clean one is stamped with the time |
| BufferCache.Cache.Bforget | src/vfs/buffer.c:1020-1039 | only a buffer held once is thrown away, and the block is then what the disk has; otherwise nothing changes, not even how often it is held |
| BufferCache.Cache.GrowBuffers | src/vfs/buffer.c:1437-1503 | one page of buffers of the size is added in front of the free list, whose former first one is now the last, unless that would go over the limit of the cache or memory is short; existing buffers and all lists are untouched |
| BufferCache.Cache.TryToFree | src/vfs/buffer.c:1514-1562 | a page is freed exactly when none of its buffers is referenced, dirty or locked, and only its buffers go; free and usable buffers of other sizes are all still there |
| BufferCache.Cache.Recycle | src/vfs/buffer.c:817-819 | the buffer goes from its list to the end of the free list, the flat array is unchanged |
| BufferCache.Cache.StartIo | src/vfs/ll_rw_block.c:83-86 | handing a buffer to the device changes no contents seen; one that was dirty goes to a list of locked ones |
| BufferCache.Cache.EndIo | src/vfs/ll_rw_block.c:201-205 | after a transfer the buffer shows the flat array |
| BufferCache.Cache.Store | src/ext2/file.c:420-431 | storing into a held buffer changes the flat array at its block only |
| BufferCache.Cache.Serve | src/vfs/buffer.c:692-1062 | under any steps of users, device, flushing and reclaim a read returns what was last written to the block, only writes change the flat array, and buffers held by others stay theirs; a flush puts a dirty buffer into transfer, the end of a transfer puts its contents on the disk, a reclaim frees pages or changes nothing |
| BufferCache.Cache.Use | src/vfs/buffer.c:900-1062 | buffers kept over any number of steps of others: a look at one shows the block it was taken for as last written through any handle, giving one back never frees a buffer held once more, and only a buffer with one handle can be thrown away |
| BufferCache.Cache.UseAll | src/vfs/buffer.c:900-1062 | over any run of such steps, with what each reports and what there is between them: every look shows its block as last written, changes, writes and buffers thrown away change exactly their block, every handle keeps its buffer until it is given back, and a block of a known device is refused only when it is not in the cache, no buffer of its size is free and, if refills are tried at all, none could be taken |
| BufferCache.WrittenCoherent | src/vfs/ll_rw_block.c:201-205 | a finished write makes the disk show the flat array at the block |
| BufferCache.ReadCoherent | src/vfs/ll_rw_block.c:201-205 | a finished read gets the flat array, because nothing newer was pending |
| BufferCache.FreedCoherent | src/vfs/buffer.c:1514-1562 | a buffer with nothing pending may be dropped or reused without any block changing |
| GroupChoice.GroupForDirectory | src/ext2/ialloc.c:382-411 | a group is found exactly when any inode is free, it has at least the rounded-down average of free inodes, and the most free blocks of those, the first of equals |
| GroupChoice.SomeQualifies | src/ext2/ialloc.c:383-408 | if any inode is free some group reaches the rounded-down average |
| GroupChoice.GroupForFile | src/ext2/ialloc.c:414-454 | a group is found exactly when one of the probed groups has a free inode, and it is the first of them in the order of the probes: the parent group, then the doubling steps, then one after another |
| GroupChoice.ProbesAll | src/ext2/ialloc.c:414-454 | parent, doubling and linear probes visit every group if and only if the parent is not in the last group or the number of groups is a power of two |
| GroupChoice.MissedGroup | src/ext2/ialloc.c:414-454 | with any other number of groups there is a table in which the search from the last group misses the only free inode |
| BitmapCache.Bitmaps.Load | src/ext2/balloc.c:151-227 | with many groups the slots are the eight groups last used in order of use, the first slot holds the one asked for, and exactly the bitmap used longest ago is released when all slots were taken; with few groups each has its own slot |
| BitmapCache.TopTouch | src/ext2/ialloc.c:141-199 | keeping the eight most recent at every use is the same as keeping the eight most recent of the whole history |
| BitmapCache.MovedFront | src/ext2/balloc.c:181-192 | a loaded bitmap comes to the front and the others keep their order |
| BitmapCache.NewFront | src/ext2/balloc.c:193-205 | a new bitmap comes to the front and only the last one goes |
| Fnmatch.MatchComp | src/util/fnmatch.c:92-192 | terminates, reads neither string past its component, and accepts exactly when the rest of the name can be cut into parts the mask characters stand for and the ends agree |
| Fnmatch.MatchStar | src/util/fnmatch.c:142-161 | tries every stretch a star may skip, in DOS style none with a dot |
| Fnmatch.StepsIffMatches | src/util/fnmatch.c:92-192 | matching one mask character after another accepts exactly the names that can be cut into parts, one for each mask character |
| Fnmatch.TwoStars | src/util/fnmatch.c:147-150 | a run of stars means the same as one star |
| Fnmatch.MatchComponent | src/util/fnmatch.c:202-223 | the implied dot is there exactly for a component without dots |
| Fnmatch.MatchPath | src/util/fnmatch.c:545-573 | a path matches exactly when each pair of components does, where a prefix match ignores what follows the mask |
| Fnmatch.SkipComp | src/util/fnmatch.c:67-80 | leads to the start of the next component, or stays at the end of the string |
| Numbers.Number | src/util/vsprintf.c:140-213 | prints the layout of the magnitude for any width, precision and flags; nothing for a base out of range; the buffer of 66 digits never overflows |
| Numbers.LayoutMeans | src/util/vsprintf.c:188-213 | the text is as wide as asked for, or as the number needs; sign and prefix come together before the digits, with zeros up to the precision; what is missing in width are blanks behind, zeros before the digits or blanks in front, as the flags say |
| Numbers.DigitsValue | src/util/vsprintf.c:174-187 | the digits printed have the value of the number |
| Numbers.Strtol | src/util/strtol.c:46-117 | the value of the longest digit string after blanks, sign and 0x, held at the limits exactly when it is out of range |
| Numbers.Strtoul | src/util/STRTOUL.C:46-117 | the same for unsigned values, a minus sign taken modulo 2 to the 32 |
| Numbers.Accumulate | src/util/strtol.c:76-101 | the accumulator overflows exactly when the value of the digits exceeds the limit, and otherwise is that value |
| Numbers.OverflowTest | src/util/strtol.c:93-94 | the test before each step is true exactly when the step would exceed the limit |
| Numbers.SignedRoundTrip | src/util/vsprintf.c:140-213 | every 32-bit value printed with sign, in any base, width, precision and style, is read back by strtol |
| Numbers.UnsignedRoundTrip | src/util/vsprintf.c:140-213 | every 32-bit value printed without sign is read back by strtoul |
| Numbers.ReadsDigits | src/util/strtol.c:46-117 | a sign and digits are read in the radix asked for, or without one in the radix they show: 16 after 0x, 8 after a leading zero, else 10; a value out of range is held at the limit on its side |
| Dates.Dos2UnixIs | src/util/datetime.c:43-56 | the expression counts the days of the calendar, including 29 February |
| Dates.Unix2Dos | src/util/datetime.c:61-90 | the words are those of a valid date and time, of that day and of that second rounded down to even |
| Dates.DateOf | src/util/datetime.c:76-89 | the year guess with its correction and the month loop find the one date of a day |
| Dates.OneDate | src/util/datetime.c:61-90 | no two valid dates are the same day |
| Dates.DosRoundTrip | src/util/datetime.c:43-90 | every valid MS-DOS date and time in the range of a long survives the trip to seconds and back, in any time zone |
| Dates.UnixRoundTrip | src/util/datetime.c:43-90 | from 1980 on, the way to MS-DOS words and back loses at most one second |

## Left out

- Volume.Volume.Getblk: excludes the logical block equal to the limit, for which the code reads past the end of an indirect block; `BlockMap.LimitIsOutOfRange` shows it.
- Volume.Volume.FreeBlocks: requires that the run holds no system block and does not cross a group, as every caller here guarantees; the code checks the first only in strict mode and panics on the second.
- Volume.Volume.Truncate: buffers are busy for any finite number of passes, not forever, since the code then never returns.
- Volume.Volume.Execute: the tree of a dropped inode that cannot be truncated stays in the map of inodes, under a number no operation of the run uses, only to name the lost blocks.
- Volume.Volume.NewBlock: the strict-mode checks and the accounting of the file system's reserved user are not modelled.
- BlockSearch.SearchWindow: for a goal at the last bit of a word the shift by 32 may give 0 or leave the word as it is; both outcomes are described.
- Volume.Volume.WriteBlock: excludes the logical block equal to the limit, like getblk.
- Bitops.MemscanFree: tests the bound before the byte; the code reads one byte more.
- Namei.Namespace.Rmdir: a removed directory that someone still holds open is gone at once; the code keeps the inode with size 0 until the last reference.
- Namei.Namespace.Unlink: an inode that someone still holds open is gone with its last name; the code keeps it until the last reference.
- Namei.Namespace.Subdir: the code has no bound on the walk; the model watches it for any given number of steps and reports one that is still going on.
- Namei.Namespace.Rename: the checks for an append-only old directory, a read-only volume and different devices are left to the caller; the retries for names that changed while the code slept, and the lock against other renames, cannot occur in a sequential model; whether the replaced directory is busy is arbitrary.
- Namei.Namespace.Create: asks that the caller has looked the name up in vain, as the open call does; what happens otherwise is in `Directory.AddAloneMayRepeat`.
- Directory.Directory.FindEntry: the read-ahead of eight blocks is not modelled; names hold no zero character, at which the comparison without case stops.
- Readdir.Scan.Session: an entry may be listed more than once, because a scan can fall back to the start of an odd block.
- Dcache.Lookups.Lookup: the case mode does not change during a run.
- Dcache.NameCache.Lookup: the doubly linked lists are sequences; the missing initialisation of one list head in name_cache_init is not modelled, the first insertion repairs it.
- FileIO.File.Write: positions are unbounded; in the code they have 32 bits, so the test for 2 GB never fires and a write across it would wrap. The collection of buffers for synchronous files is not modelled.
- FileIO.File.Read: contents do not change during one read, and reads from the device succeed.
- BufferCache.Cache.Getblk: gives up after a bounded number of refills without a free buffer; the code waits for memory forever.
- BufferCache.Cache.RefillFreelist: load averages, the wake-up of the flush daemon and the 32-bit clock are not modelled; which pages of buffers of other sizes are tried for shrinking is arbitrary; a buffer whose time is the largest 32-bit number wins no election, as in the code.
- BufferCache.Cache.EndIo: transfers succeed; a driver opened read-only, which drops writes, is not modelled.
- BufferCache.Cache.Bforget: takes back the not yet written contents on purpose, so the flat array then has the disk's.
- BitmapCache.Bitmaps.Load: reading a bitmap from disk succeeds.
- GroupChoice.GroupForFile: setting the bit and the fields of the new inode, and freeing an inode, are not modelled.
- Fnmatch.MatchPath: the drive letter, the leading double separator and the Unix style are not modelled.
- Numbers.Number: the format string and its arguments are not modelled.
- Dates.Unix2Dos: times before 1980 and beyond a 32-bit long are not modelled.
- Concurrency, sleeping and interrupts: the model is sequential; inodes in core are values in a map, so two pointers to one inode are one entry.
- Input and output errors, overwriting on deletion, synchronous writes, mount options, the super block, the whole-device inode, and the OS/2 kernel, device and tracing layers.
- Sorting of requests in ll_rw_block, the file, super block and request pools, symbolic links and extended attributes.
