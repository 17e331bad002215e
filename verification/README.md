# fsx600 verification

A Dafny model of the fsx600 file system: the on-disk format, the file and
directory operations of `main.c`, the formatter `mkfs-x6.c`, the consistency
checker `read-img.c` and the copy loops of `misc.c`, with proofs of what they
keep, what they promise and exactly where the code departs from its promises.
`dafny verify dfyconfig.toml` checks the whole project.

## How it is organised

- **Format and state.** `Layout` decodes and encodes pointers and directory
  entries in raw 1024-byte blocks, and `Bytes` says which byte is which. `State` has the store (both bitmaps, the
  inode table, the blocks), the pointer tree of an inode (six direct slots,
  single- and double-indirect blocks), the ownership of blocks and the contents
  of a file. `Device` has the disk image, the device's write calls and what
  `fs_init` builds from an image.
- **Specification functions.** `Ops` and `FileWrite` say what every call does to
  a store, branch by branch; `WriteLoops` gives fs_write once more with the
  buffers its double-indirect loops keep, which matter when blocks are shared.
  `Tree` gives the invariant of a store and the
  abstract tree it stands for: a map from paths to directories and byte strings.
  `Spec` says what each call promises of that tree.
- **Methods.** Class `FileSystem.FileSystem` has the fields `main.c` keeps in
  globals, the loops of `main.c` as loops, a log of device writes, and a
  `Valid()` saying that memory equals disk and that the invariant holds. Each
  method is proved equal to its specification function. `Mkfs.Format`,
  `Checker.Check` and the loops of `Misc` are the other programs.
- **Proofs.** `AttachProofs`, `WriteProofs`, `WriteTheorems`, `WriteSteps`,
  `WriteCost`, `Overwrites` (writing), `StaleIndex`, `StaleFill`, `StaleAppends`,
  `StaleNeeds`, `StaleWrites`, `StaleStops`, `StaleTrees` (writing with index
  blocks that hold old words), `FileRead`, `ReadTheorems`, `ReadPast` (reading), `TruncProofs`,
  `Leaks`, `Accounts` (releasing and counting), `TreeProofs`, `OpProofs`,
  `TreeTheorems`, `OpTheorems`, `RenameTheorems`, `FrameTheorems`, `Capacity`
  (directories and the tree), `EntryBytes` (what they write on the disk), `SuperBlock`, `Runs`, `CarefulRuns`, `FittingRuns`, `Sessions`
  (whole runs), `CheckerTheorems`, `Crash`, `CrashTheorems`, `CrashRemovals`,
  `WriteLog`, `StepLog`, `CrashSteps`, `CrashWrites` (stopping after any device write), `CopyProofs`, `CopyBeyond`, and `Witnesses`,
  `StaleRun`, `FreedBlocks`, `StaleWitness` (concrete failing runs).

The invariant `Tree.Inv` says: the metadata blocks are marked allocated; every
non-null pointer of a used inode names an allocated block of the data region
which no other pointer names; files have all blocks below their size and no
pointer beyond the next byte; the used directory entries form a tree rooted at
inode 1 with unique names and one entry per inode; and in a directory no unused
slot before a used one holds the same inode number.

Clocks, owners, permission bits and the FUSE context do not appear. A path is a
sequence of names. Pointers are 32-bit numbers; block and inode counts, sizes
and offsets are unbounded, bounded where needed by the maximal file size
(67377152 bytes) and an image of fewer than 0x200000 blocks, the most whose size
in bytes `mkfs-x6.c` can hold in an `int`.

## Where the code departs from its comments

The model follows the code. For each departure there is a lemma saying exactly
when the promise is kept, and where a short run shows it, a concrete witness.

- `fs_truncate` zeroes a direct pointer before handing it to `free_a_block`
  (main.c:572-573), so direct blocks are never freed, and it never frees or
  clears `indir_1` and `indir_2`. The tree is right, the invariant is kept
  exactly for files without single-indirect block (`TruncateKeepsIff`,
  `TruncateCheckedIff`, `TruncateDangles`), and the leaked blocks are exactly
  those the inode itself points to (`StrandedAre`, `StrandedCount`, `UnlinkReturns`,
  `UnlinkLosesBlock`).
- `fs_write` adds to the size also when it overwrites (main.c:1149, 1222, 1317).
  It overlays the data as a write should exactly when it is an append or empty
  (`WriteMeetsPromiseIff`, `OverwriteTooLong`, `OverwriteGrows`). Within one block,
  or from a block boundary on, the file then starts with the right bytes and has
  some too many (`OverwriteContents`, `AlignedOverwrite`); from inside a block the
  offset is used again in every further block of the tier that is there
  (`WriteBytes`, `StridedByte`, `NextTierByte`).
- At the maximal size none of the three gotos of `fs_write` is taken and the data
  goes to logical block 6 (main.c:1104-1110, `FullFileWriteIff`, `FullFileWraps`).
- A new second-level index block is zeroed in memory and then read back from the
  disk (main.c:1276-1282), so old contents are taken for pointers. Taking it leaves
  the file well formed exactly when the block held null words, but perhaps for a
  first entry that names a leaked block, which the file then adopts
  (`NewIndexBlockIff`). An append of any length, taking any number of such blocks,
  is what it should be exactly when their old words are null or, where the file
  reaches, name leaked blocks, each one once (`StaleAppendIff`, `AppendIff`). If an
  entry it comes to is off the disk the device stops the program, and only then
  (`StaleStopIff`, `StaleStopRun`); if it is the number of a bitmap or inode block
  that is overwritten on the disk, and otherwise the block it names is
  (`StaleWriteIs`). It needs a file of 262 blocks and a freed block: making a
  directory and a file in it, or a file of seven blocks, and removing them is enough
  (`DirectoryCycle`, `StaleIndexRun`, `FileCycle`); runs that free nothing or keep
  files within 262 blocks never see it (`CarefulRunAllowed`).
- `fs_read` fetches the next tier's index block before it knows that bytes remain
  (main.c:974-985, 1008-1024). A null index pointer leads through the super block
  to a block number out of range, and the device stops on its assertion
  (image.c:40). This happens exactly when a read runs to the end of the file and
  the index block there is missing (`EndFetch`), which can only be at 6 or
  262 + 256k blocks (`AbortsAtIndexBoundary`, `ReadOfSixBlocksAborts`) and always is
  for a file without spare blocks (`TightBoundary`). Beyond the end other words of
  the super block are met: only words 0 and 4, the magic number and the number of
  blocks, are not the number of a block (`PastSingle`, `FormattedPast`).
- `fs_rename` compares the new name with unused slots too (main.c:807-815), so the
  name of an unlinked file cannot be given to a neighbour (`ClashMeetsPromiseIff`,
  `UnlinkedNameClashes`), and it copies the new name over the old one without
  clearing it (main.c:821): the entry gets the new name exactly when that is not
  shorter (`RenameMeetsPromiseIff`, `RenameKeepsIff`, `ShortRename`).
- `do_put` reports success when a write comes back short at the maximal size
  (misc.c:259-264): the file is what fits of the content (`DoPut`). If the chunk
  size divides the maximal size the copy goes on at logical block 6, and reports
  success over a file longer than any can be (`DoPutBeyond`).
- Stopped between device writes, a create or rename leaves the old or the new tree
  (`CreateCrash`, `CreatesCrash`, `RenameCrash`). `fs_rmdir` frees the directory's
  block before it removes the entry, and `fs_unlink` passes through a tree with the
  file emptied and, if the file reached its seventh block, through disks where
  blocks still in use are marked free (`RmdirCrash`, `UnlinkCrash`, `TruncateCrash`).
  `fs_write` writes the inode table before the data (main.c:1152-1153, 1225-1227,
  1320-1321): a stopped append leaves every other file as it was, and its own file
  with the old bytes, a prefix of the data, and up to one block of bytes that were
  counted but not written (`AppendCrash`, `CountedEarly`).

## Model

| member | source | states |
|---|---|---|
| `Layout.PtrSetPtr` | main.c:1182-1197 | Storing a pointer in an index block and reading it back gives the pointer; every other entry of the block is unchanged. |
| `Bytes.PtrBytes` | main.c:974-985 | Word k of a block is its bytes 4k to 4k + 3, the least significant first. |
| `Bytes.SetPtrBytes` | main.c:1182-1197 | Storing a pointer writes those four bytes, the least significant first, and no other. |
| `Bytes.EntBytes` | fsx600.c:11-16 | Bit 0 of a slot's first byte is `valid`, bit 1 `isDir`, the other 30 bits of the first four bytes the inode number, and the name is bytes 4 on up to the first NUL. |
| `Bytes.PutEntBytes` | main.c:435-439 | Writing an entry sets the 32 bytes of the slot, the number's low bits first and the name padded with NULs, and no other byte. |
| `Bytes.InvalidateBytes` | main.c:677 | Clearing `valid` changes one bit of the whole block. |
| `EntryBytes.MknodBytes` | main.c:421-489 | A successful create takes the first free inode number i, the first slot without valid bit and, for a directory, the first free block, and changes nothing else: the slot's first byte becomes 1 + 4i, or 3 + 4i, then three zeros, the name, and zeros; a directory's block is zeroed; all other bytes of all blocks stay. |
| `EntryBytes.RmdirBytes` | main.c:734-757 | A successful rmdir clears the inode, its bit and the bit of its block, sets each of the 32 bytes of the entry to 0, and leaves every other byte of every block as it was. |
| `EntryBytes.UnlinkBytes` | main.c:655-690 | A successful unlink clears the inode's bit, size and direct pointers; of all the blocks' bytes only the first of the entry changes, and of that only the valid bit. |
| `EntryBytes.RenameBytes` | main.c:817-830 | A successful rename overwrites as many bytes of the entry's name field as the new name has, writes no NUL, and changes nothing else in the store. |
| `Layout.EntPutEnt` | main.c:432-439 | A written directory slot decodes to the entry that was written, with a NUL-padded name; the other 31 slots are unchanged (`PutEntBytes` has the bytes). |
| `Layout.EntInvalidate` | main.c:677 | Clearing `valid` keeps the slot's inode number and name and every other slot. |
| `Layout.EntClearEnt` | main.c:748 | A cleared slot decodes as unused with inode number 0 and an empty name, and other slots decode as before (`RmdirBytes` has the bytes). |
| `Layout.EntRenameEnt` | main.c:821 | Copying a name over a slot's old name leaves the old tail when the old name was longer; kind, inode number and other slots are unchanged. |
| `State.CellOnto` | main.c:1182-1266 | Every entry of every index block is the cell of exactly one logical block or second-level block, and the entries of one block serve consecutive blocks from the tier's first: 6, 262, or 262 + 256k. |
| `State.CellInjective` | main.c:1182-1266 | No two logical blocks or index blocks share a cell: the division by 256 and its remainder separate them. |
| `AttachProofs.AttachTarget` | main.c:1116-1126 | Storing a free block at a null pointer changes that pointer and no other pointer of any file, through all three tiers. |
| `AttachProofs.AttachOwned` | main.c:1116-1178 | ... and keeps exact ownership, with the block now held by that pointer. |
| `FileWrite.FirstFree` | main.c:358-380 | The first clear bit of the range, with every bit before it set. |
| `WriteProofs.GrowOk` | main.c:1165-1178 | On-demand allocation of a data or index block, a second-level one being free of old non-null words, keeps ownership, makes the pointer non-null and leaves all other pointers and contents alone; a full disk changes nothing. (`NewIndexBlockIff` has the case of old words.) |
| `WriteProofs.StepOwned` | main.c:1116-1157 | One iteration of any write loop, with no stale index block, keeps exact ownership, every other file, and the set of leaked blocks. |
| `WriteProofs.StepAppend` | main.c:1116-1157 | One iteration at the end of the file adds exactly its bytes, keeps the file well formed, and leaves the next block's pointer null. |
| `WriteProofs.OthersContents` | main.c:1073-1352 | A file whose pointers and blocks are untouched keeps its bytes. |
| `WriteTheorems.WriteKeepsOwnership` | main.c:1073-1352 | Every write that meets no stale index block, append or overwrite, complete or out of space, keeps exact ownership and every other file, and leaks nothing. |
| `WriteTheorems.AppendFrom` | main.c:1112-1330 | From any tier on, the three chained loops append a prefix of the data: all of it on success, stopping early only for space or the maximal size. |
| `WriteTheorems.AppendFile` | main.c:1073-1352 | fs_write at the end of a file, meeting no stale index block, leaves the old bytes followed by a prefix of the data and a well-formed file, for every starting tier and length. |
| `WriteTheorems.WriteGrows` | main.c:1149 | The size grows by exactly the number of bytes the call reports, new bytes or not. |
| `WriteTheorems.WriteMeetsPromiseIff` | main.c:1065-1352 | A complete write that meets no stale index block leaves the contents overlaid with the data if and only if the data is empty or the offset is the end of the file. |
| `WriteLoops.OverwriteTooLong` | main.c:1149-1317 | A complete write of some bytes before the end of the file never does, whatever blocks it meets: the file is too long. |
| `WriteLoops.LoopsGrow` | main.c:1149-1317 | Every write lengthens the file by exactly the bytes it reports, stale index blocks or not. |
| `Overwrites.OverwriteBytes` | main.c:1129-1153 | A write within one existing block: every byte under the data is replaced, every other byte of the file's blocks is as it was, and the size grows by the whole length. |
| `Overwrites.OverwriteContents` | main.c:1129-1153 | So the file starts with the old contents overlaid with the data, and is longer by exactly the number of bytes written over old ones. |
| `Overwrites.WriteBytes` | main.c:1112-1330 | Every byte of the file's blocks after any complete write that meets no stale index block: each block that is there takes its share of the data at the offset's place in a block, each new one at its start, and all other bytes are as before. |
| `Overwrites.AlignedOverwrite` | main.c:1112-1330 | From a block boundary, to any length: the file starts with the old contents overlaid with the data, and is longer by the number of bytes written over old ones. |
| `Overwrites.StridedByte` | main.c:1127-1144 | From offset t inside a block, within one tier of blocks that are there: block j takes the j-th run of 1024 - t bytes, from t on. |
| `Overwrites.NextTierByte` | main.c:1158-1233 | What a write from inside a block has left at the next tier goes there in one piece from the start of its first block on: the offset inside a block is dropped at logical blocks 6 and 262. |
| `WriteTheorems.FullFileWriteIff` | main.c:1104-1164 | A write at the maximal offset keeps the file well formed if and only if it is empty. |
| `StaleIndex.NewIndexBlockIff` | main.c:1268-1283 | Taking a new second-level index block keeps the file well formed and exclusively owned if and only if entries 1 to 255 of its old contents are null and entry 0 is null or names a leaked block. |
| `StaleIndex.StaleTarget` | main.c:1276-1282 | Every pointer of every file after that: the entries of the new index block are the old words of the block, all else is as it was. |
| `StaleIndex.AdoptGood` | main.c:1276-1282 | Taking it when its old words are null or name leaked blocks, each one once, keeps every block exclusively owned, the leaked ones now by the file. |
| `WriteLoops.FillOneStep` | main.c:1284-1324 | While every block has one owner an iteration of the inner double-indirect loop, data block and then index block from its buffer, is a step of the block-by-block form. |
| `WriteLoops.LoopsAgree` | main.c:1112-1330 | fs_write with its buffers is the block-by-block form whenever it meets no stale index block. |
| `StaleFill.EntriesFill` | main.c:1284-1326 | The inner loop at the end of a file, through entries that are null or adopted, appends exactly the bytes it takes and keeps ownership, the leaked blocks and all other files. |
| `StaleAppends.OuterFills` | main.c:1268-1330 | The outer loop from the end of a second-level block on: if all the old words met can be adopted, the data is appended as far as there is room, to any length. |
| `StaleNeeds.OuterLater` | main.c:1268-1330 | Seen from a final store in which blocks have one owner and the blocks taken are in place, everything the loops changed is held by pointers they made. |
| `StaleNeeds.StaleAppendIff` | main.c:1268-1330 | From the end of a second-level block on, for any length and any number of blocks taken, complete or out of space: the file is well formed and exclusively owned with exactly the bytes written at its end and the blocks taken in place, if and only if the old words of those blocks are null or, where the file reaches, name leaked blocks, each one once. |
| `StaleWrites.AppendIff` | main.c:1073-1352 | The same for the whole fs_write at the end of a file, for every size below logical block 262 or at a block's end. |
| `StaleWrites.AppendNeedsAndFills` | main.c:1073-1352 | For every size the condition is necessary, and it is sufficient where the offset is a block's end or the words are null; then every other file is as it was and the call reports the bytes written. |
| `StaleTrees.AdoptiveAppend` | main.c:1073-1352 | On the tree: such an append keeps the invariant and its promise, is not stopped and overwrites no metadata. |
| `StaleStops.StaleStopIff` | main.c:1268-1324 | A write of up to one second-level block is stopped by the device if and only if an entry it comes to, with bytes left and a free block for every null entry before, is off the disk. |
| `StaleStops.StaleWriteIs` | main.c:1268-1330 | A write of up to one block: stopped exactly when entry 0 is off the disk; the data goes to a fresh block if entry 0 is null, over the block it names if that is in the data region (the index block being written last), and over a bitmap or inode block on the disk otherwise, with memory and data blocks as stated. |
| `StaleStops.StaleBreaks` | main.c:1268-1330 | An old word beyond the blocks the file reaches breaks it, unless an entry the write came to named its double-indirect block. |
| `StaleRun.DirectoryCycle` | main.c:392-765 | mkdir, mknod in it, unlink and rmdir leave the block bitmap as it was, every other file untouched, and non-null words in the first free block. |
| `FreedBlocks.FileCycle` | main.c:392-1352 | mknod, two writes of six blocks and one, and unlink leave every other file untouched and, as the first free block, the last one written with its bytes: any bytes can be where a second-level block is taken. |
| `StaleWitness.StaleIndexRun` | main.c:1268-1330 | On a formatted image of 20000 blocks: write 518 blocks, make and remove a directory that held a file, append one byte: every call succeeds, a bitmap or inode block on the disk is overwritten, and the file is broken. |
| `StaleWitness.StaleStopRun` | main.c:1299 | Write 518 blocks, make and remove a file of seven blocks of which the last begins with a number off the disk, append one byte: the device stops the program. |
| `WriteTheorems.FreeCleanIsEnough` | main.c:1268-1283 | If no free block holds a non-null word, no write picks up a stale index block, and this stays so after any write. |
| `WriteTheorems.SmallAppendIsClean` | main.c:1103-1110 | An append that stays below logical block 262 never meets a stale index block. |
| `WriteSteps.DirectStepIs` | main.c:1116-1153 | What one iteration over a direct slot does to bitmap, inode table and blocks. |
| `WriteSteps.IndexedStepIs` | main.c:1187-1227 | The same for an entry of an index block: index block, data block and size, with the two blocks distinct. |
| `WriteSteps.IndexContinues` | main.c:1165-1178 | Taking the missing index block before the loop is the first part of the next iteration; a full disk there is ENOSPC. |
| `WriteCost.AppendCost` | main.c:1116-1330 | A non-empty append to a file without spare blocks succeeds exactly when the free blocks cover the difference in total blocks (data, plus one above 6, plus 1 + ceil((d-262)/256) above 262), takes just that, and leaves no spare block. |
| `WriteCost.AppendStops` | main.c:1118-1122 | An append that runs out of space has added exactly as many bytes as the free blocks pay for: one more would cost more than there is. |
| `WriteCost.StepCount` | main.c:1187-1199 | One iteration succeeds exactly when the free blocks cover the index and data blocks it lacks, and takes exactly those. |
| `FileRead.PresentFetch` | main.c:974-1024 | For a block that exists the chain of fetches stays on the disk and ends at that block. |
| `FileRead.EndFetch` | main.c:974-1024 | At the end of a file the chain of fetches stays on the disk if and only if the index block there exists. |
| `FileRead.AbortsAtIndexBoundary` | main.c:948-1044 | A read is stopped by the device only if it runs to the end of the file and the size is 6 blocks or 262 + 256k blocks. |
| `FileRead.StopMeets` | main.c:958-966 | The copy that stops inside a block has delivered the promised slice. |
| `FileRead.FullBlock` | main.c:953-970 | A block copied in full extends the delivered slice by exactly its bytes. |
| `ReadPast.PastPresent` | main.c:948-1044 | A read beyond the end of a file returns no bytes if the index block there exists or none is needed. |
| `ReadPast.PastSingle` | main.c:974-985 | Without single-indirect block, a read beyond the end at logical block l, 6 <= l < 262, returns no bytes if word l - 6 of the super block is below the number of blocks, and is stopped by the device otherwise. |
| `ReadPast.PastOuter` | main.c:1021-1026 | The same for a missing second-level block, with the word at the block's place in it. |
| `ReadPast.PastDouble` | main.c:1008-1026 | Without double-indirect block a word of the super block stands for the second-level block: out of range the read is stopped; 0 or a data block, it is stopped by that block's word alike. |
| `ReadPast.FormattedPast` | main.c:906-1062 | After any allowed run from a formatted image a read beyond the end is stopped at blocks 6 and 10 of a file without single-indirect block, and at no other below 262; without double-indirect block in the second-level blocks number 0 and 4 and, from number 6 on, precisely at their entries 0 and 4; in a missing second-level block precisely at entries 0 and 4; and nowhere if the index block is there. |
| `ReadTheorems.ReadMeetsSpec` | main.c:906-1062 | fs_read returns exactly the slice from the offset to min(offset+len, size) of the byte string at the path, the walk's error, EISDIR, or is stopped at a boundary size. |
| `FrameTheorems.WriteTouchesOneFile` | main.c:1073-1352 | Every write that meets no stale index block, whatever its offset and result, leaves the tree the same at every other path, and reports the walk's error, EISDIR or EINVAL without effect. |
| `FrameTheorems.TruncateMeetsTree` | main.c:536-630 | Every truncation does to the tree what is promised: the file is empty, all else the same, or an error and no change. |
| `Tree.WalkLive` | main.c:107-158 | A path that resolves leads to a used inode whose depth is the path's length; otherwise the result is ENOENT or ENOTDIR. |
| `Tree.WalkInjective` | main.c:107-158 | No two paths lead to the same inode. |
| `Tree.ResolveIsWalk` | main.c:107-158 | Path walking is the recursive resolver, and equals looking the last component up in the directory get_parent_inum gives, with the same error when a prefix fails. |
| `TreeProofs.CreatedTree` | main.c:432-439 | Adding an entry in the first unused slot keeps the tree invariant, with the hidden first-fit order. |
| `TreeProofs.CreatedWalk` | main.c:432-439 | After it the new path resolves to the new inode, nothing below does, and every other path resolves as before. |
| `TreeProofs.RemovedTree` | main.c:672-681 | Removing an entry keeps the tree invariant. |
| `TreeProofs.RemovedWalk` | main.c:672-681 | After it nothing at or below the path resolves and every other path resolves as before. |
| `TreeProofs.RenamedTree` | main.c:819-826 | Changing the name of a used slot to a free name keeps the tree invariant. |
| `TreeProofs.RenamedWalk` | main.c:819-826 | The whole subtree is then found under the new name, nothing under the old, everything else as before. |
| `OpProofs.SetDirBlockOk` | main.c:488 | Rewriting a directory's block keeps ownership, all pointers and every other inode's blocks. |
| `OpProofs.CreateInv` | main.c:432-489 | A create in a free slot with a free inode (and block) keeps the whole invariant and leaks nothing. |
| `TruncProofs.FreeRunIs` | main.c:577-589 | The loop over an index block clears exactly the bits of the entries up to the first null one. |
| `TruncProofs.FreeOuterIs` | main.c:591-614 | The nested loops clear exactly the bits of the second-level blocks and their entries up to the first null or metadata entry. |
| `TruncProofs.TruncBitsAt` | main.c:577-614 | Truncation clears exactly the bits of blocks the file reaches through an index block: the data from block 6 on and the second-level blocks. |
| `TruncProofs.TruncateKeepsIff` | main.c:536-630 | Truncation empties the file, and leaves it well formed with exact ownership if and only if it had no single-indirect block. |
| `TreeTheorems.CreatedTreeOf` | main.c:392-515 | A create adds exactly the new path to the tree of names and byte strings. |
| `TreeTheorems.RemovedTreeOf` | main.c:639-765 | A removal takes exactly that path away. |
| `TreeTheorems.RenamedTreeOf` | main.c:780-839 | A rename moves exactly that subtree. |
| `OpTheorems.MknodMeetsSpec` | main.c:392-530 | fs_mknod and fs_mkdir: parent errors, EEXIST, ENOSPC without effect, or exactly the new path; invariant kept, nothing leaked. |
| `OpTheorems.MknodFullIff` | main.c:421-507 | ENOSPC exactly when 64 inodes are taken, the parent's 32 slots are used, or a directory is wanted and no block is free. |
| `OpTheorems.TruncateMeetsSpec` | main.c:536-630 | For a file without single-indirect block, and for all errors, truncation keeps its promise and the invariant; the bitmap does not change. |
| `OpTheorems.UnlinkMeetsSpec` | main.c:639-697 | fs_unlink removes exactly the named file whatever its size, keeps the invariant, and gives back exactly the blocks reached through index blocks. |
| `OpTheorems.RmdirMeetsSpec` | main.c:702-765 | fs_rmdir: ENOENT, ENOTDIR, ENOTEMPTY exactly when the directory has a child, or exactly that path removed; invariant kept and its block given back. |
| `OpTheorems.RenameMeetsSpec` | main.c:780-839 | fs_rename to a name not shorter than the old one: errors without effect or exactly the subtree moved; invariant kept. |
| `OpTheorems.AppendMeetsSpec` | main.c:1073-1352 | fs_write at the end of a file: errors without effect, or the old bytes followed by all of the data, or by a prefix on ENOSPC or at the maximal size; invariant kept, nothing leaked. |
| `OpTheorems.InodeScanHitsEntry` | main.c:746-754 | The scans that match an inode number without testing `valid` stop at the used entry the path lookup found. |
| `OpTheorems.EntryOf` | main.c:658-682 | The entry of a path: used, named as the last component, found alike by name and by inode number, in a directory other than the inode itself. |
| `OpTheorems.AbsWalkIs` | main.c:107-158 | The error of a walk is determined by the tree alone: that of the first prefix that is missing or not a directory. |
| `RenameTheorems.ClashMeetsPromiseIff` | main.c:805-816 | EEXIST is reported for exactly the existing destinations if and only if no unused slot of the directory holds the new name. |
| `RenameTheorems.RenameMeetsPromiseIff` | main.c:818-832 | A rename past its checks moves the subtree to the destination if and only if the new name is not shorter than the old one. |
| `RenameTheorems.RenameKeepsIff` | main.c:818-832 | It keeps the invariant if and only if the slot's resulting name is the old one or free, and then the subtree is found under that resulting name. |
| `RenameTheorems.ShortNameMissing` | main.c:821 | After a rename to a shorter name the destination does not exist. |
| `RenameTheorems.UnlinkedNameClashes` | main.c:677-815 | After unlinking a file, renaming any neighbour to its name is refused with EEXIST although nothing has that name. |
| `Leaks.OwnersUnique` | main.c:358-367 | Which pointer holds which block is determined by the store. |
| `Leaks.StrandedAre` | main.c:567-614 | The blocks unlink and truncate do not give back are exactly those the inode itself points to: direct, indir_1, indir_2. |
| `Leaks.UnlinkLeaks` | main.c:639-697 | Unlink leaks exactly these blocks. |
| `Leaks.UnlinkLeaksNothingIff` | main.c:567-574 | Unlink leaks nothing if and only if the file has no block. |
| `Leaks.TruncateLeaks` | main.c:567-574 | Truncating a file of at most six blocks leaks exactly all of them. |
| `Leaks.StrandedIs` | main.c:567-614 | The stranded blocks can be read off the inode, without the owners. |
| `Accounts.Conservation` | main.c:358-367 | Free, held and leaked blocks add up to the data region. |
| `Accounts.HeldCount` | main.c:1116-1330 | A file of d data blocks without spare ones holds exactly d blocks, plus one above 6, plus 1 + ceil((d-262)/256) above 262. |
| `Accounts.StrandedCount` | main.c:567-614 | Of these unlink strands exactly min(d, 6), plus one above 6, plus one above 262. |
| `Accounts.UnlinkReturns` | main.c:639-697 | Unlinking such a file raises the number of free blocks by exactly the difference. |
| `Runs.StepOk` | main.c:392-1352 | Any allowed call, reads included, keeps the invariant, does to the tree and answers what is promised, and leaks exactly the blocks the inode of an unlinked or truncated file points to. |
| `Runs.RunKeeps` | main.c:392-1352 | Over any allowed run the invariant is kept, and the leaked blocks are exactly those leaked before and those the run lost. |
| `Runs.RunRefines` | main.c:392-1352 | Over any allowed run of mknod, mkdir, truncate, unlink, rmdir, rename, appends and reads, the return codes and the data read match the abstract tree. |
| `Runs.FormattedRunRefines` | mkfs-x6.c:59-99 | The same from a formatted image, where the abstract run starts at the empty tree and the leaked blocks are exactly what the run lost. |
| `Runs.ReachableOwnership` | main.c:351-367 | In every store an allowed run reaches from a formatted image a block-map bit is set exactly when the block is metadata, was lost by an unlink or truncation of the run, or is held by a pointer of a used inode; only one of the three, and by one pointer only. |
| `CarefulRuns.CarefulAllowed` | main.c:536-1352 | A call that is careful in the tree (truncations below six blocks, new names not shorter, writes at the end, and either nothing freed or files within 262 blocks) meets none of the departures. |
| `CarefulRuns.StepStaysClean` | main.c:392-1352 | mknod, mkdir, rename, appends, reads, and truncations and unlinks below six blocks leave only null words in free blocks if it was so before. |
| `CarefulRuns.CarefulRunAllowed` | main.c:392-1352 | A careful run, judged call by call on the tree alone, is allowed throughout: no hypothesis about the blocks on the disk is needed. |
| `CarefulRuns.FormattedCarefulRun` | mkfs-x6.c:59-99 | From a formatted image every careful run keeps the invariant, matches the abstract tree in return codes and data read, and leaks exactly what it loses. |
| `Capacity.InodesFullIff` | main.c:370-380 | The 64 inodes the scan looks at are all in use if and only if the tree has 62 nodes below the root. |
| `Capacity.DirFullIff` | main.c:431-433 | The 32 slots of a directory are all used if and only if it has 32 entries in the tree. |
| `FittingRuns.StepExact` | main.c:392-1352 | With the free blocks counted: a create reports ENOSPC exactly when the tree has 62 nodes, its directory 32 entries, or a directory is wanted and no block is free; an append exactly when its price exceeds the free blocks, and then as many bytes stay as these pay for; and every call changes the count by exactly its price or what it gives back. |
| `FittingRuns.RunCounted` | main.c:392-1352 | Over any allowed run from a store without spare blocks, up to the first append that runs out of space or adds nothing, the answers match the abstract tree with its free blocks counted. |
| `FittingRuns.FormattedRunCounted` | mkfs-x6.c:59-99 | The same for every careful run from a formatted image, whose count starts at all data blocks but the root's. |
| `Sessions.Perform` | main.c:392-1352 | One call of the file system object answers and changes the store as the store functions say. |
| `Sessions.PerformAll` | main.c:392-1352 | So does a whole run, and its replies match the abstract tree. |
| `Sessions.FormatRunCheck` | read-img.c:59-158 | Format, mount, any careful run, then the checker over the disk: the replies match the abstract tree, and the checker finds no loop, no error and no unreachable inode. |
| `Mkfs.LayoutOkIff` | mkfs-x6.c:59-81 | The regions are disjoint, in range and large enough for all blocks and inodes if and only if the image has at least five blocks. |
| `Mkfs.InodesCoverScanIff` | mkfs-x6.c:61-63 | The inode region covers the 64 numbers get_free_inode can return if and only if the image has at least 196 blocks. |
| `Mkfs.LayoutLeast` | mkfs-x6.c:59-64 | No region is a block longer than it must be, and there is one inode for every four blocks, rounded down, for every size. |
| `Mkfs.Format` | mkfs-x6.c:59-99 | The formatter's loop and assignments write the formatted disk, whose contents `SuperWords` and `FormattedRest` give. |
| `Mkfs.SuperWords` | mkfs-x6.c:83-87 | The words of block 0 are, in the order of `struct fs_super`, the magic number, the sizes of the inode map, inode region and block map, the number of blocks and 1; the others are 0. |
| `Mkfs.FormattedReadable` | mkfs-x6.c:83-87 | Decoding the bytes of block 0 gives the formatter's sizes, and from them its root directory block as start_block; the image begins with the bytes 30 30 36 37. |
| `Mkfs.FormattedRest` | mkfs-x6.c:89-99 | Inodes 0 and 1 and the blocks up to the root directory's are marked and no others; inode 1 is a directory of size 1024 with that one block; every other inode and every byte after block 0 is zero. |
| `SuperBlock.RunKeepsLow` | main.c:392-1352 | No allowed run of calls changes a block before start_block. |
| `SuperBlock.SuperStays` | main.c:61-79 | So after every allowed run from a formatted image the bytes of block 0 still decode to the formatter's sizes and to the start_block in use. |
| `Mkfs.MountAgrees` | main.c:61-79 | fs_init recomputes the formatter's bases: start_block is the root directory block. |
| `Mkfs.FormattedInv` | mkfs-x6.c:83-99 | Formatting establishes the invariant. |
| `Mkfs.FormattedIsEmpty` | mkfs-x6.c:83-99 | ... for the tree that has only the root, with no non-null word in any free block. |
| `FileSystem.FileSystem.constructor` | main.c:54-82 | Mounting any image gives its state, with memory equal to disk, and the invariant if the image satisfies it. |
| `FileSystem.FileSystem.Remount` | main.c:54-82 | After any call, mounting the disk of a running file system again rebuilds exactly the same bitmaps and inode table. |
| `FileSystem.FileSystem.FreeABlock` | main.c:351-356 | Clears the bit of a data block and no other; metadata bits stay. |
| `FileSystem.FileSystem.GetFreeBlock` | main.c:358-367 | Takes the first free data block, or reports ENOSPC and changes nothing. |
| `FileSystem.FileSystem.GetFreeInode` | main.c:370-380 | The same for the first 64 inodes. |
| `FileSystem.FileSystem.TranslatePathToInum` | main.c:107-158 | The loop computes the resolver's result, a used inode or an error. |
| `FileSystem.FileSystem.GetParentInum` | main.c:283-343 | The loop computes the parent directory or an error. |
| `FileSystem.FileSystem.Mknod` | main.c:392-530 | Equals its specification function, keeps memory equal to disk and the invariant on every return, meets the tree's promise, and on success makes exactly the listed device writes. |
| `FileSystem.FileSystem.Truncate` | main.c:536-630 | Equals its specification function, keeps memory equal to disk, meets the tree's promise for every argument, and the invariant for files without single-indirect block. |
| `FileSystem.FileSystem.Unlink` | main.c:639-697 | Equals its specification function, keeps memory equal to disk and the invariant, removes exactly the named file or fails without effect, and on success makes exactly the listed device writes. |
| `FileSystem.FileSystem.Rmdir` | main.c:702-765 | The same for directories. |
| `FileSystem.FileSystem.Rename` | main.c:780-839 | Equals its specification function and keeps memory equal to disk for every pair of paths; keeps the invariant and the promise for names not shorter. |
| `FileSystem.FileSystem.Write` | main.c:1073-1352 | For every valid store and all arguments the three chained loops, with their buffers, do what `WriteLoops.Write` says: return code, device stop, and memory equal to disk unless a bitmap or inode block was overwritten; without stale index blocks that is the block-by-block form and leaves every other path the same; for appends that meet none, or can adopt what they name, also the invariant and the promise. Its device writes are exactly those listed, unless a bitmap or inode block is written over. |
| `FileSystem.FileSystem.OuterLoop` | main.c:1255-1330 | The outer double-indirect loop, for any store: the buffer of the double-indirect block is read once and written when a block is taken. |
| `FileSystem.FileSystem.StoreEntry` | main.c:1285-1324 | One iteration of the inner loop, for any store: full disk, an entry off the disk, or data block and index block written. |
| `FileSystem.FileSystem.Read` | main.c:906-1062 | The three chained loops deliver exactly the slice, the error, or the device's assertion where it is due; past the end nothing or the assertion, the latter exactly when a block number on the way is off the disk, where the walk does not lead through bitmap or inode blocks (`FormattedPast` says where that is). |
| `FileSystem.FileSystem.DirectTier` | main.c:1112-1159 | The loop over direct slots computes the specification's iterations and hands over at block 6. |
| `FileSystem.FileSystem.IndirectTier` | main.c:1161-1234 | The same for the single-indirect block, handing over at block 262. |
| `FileSystem.FileSystem.SecondLevel` | main.c:1284-1326 | The inner double-indirect loop computes its specification, for any store. |
| `FileSystem.FileSystem.FreeEntries` | main.c:580-587 | The loop over an index block computes its specification. |
| `FileSystem.FileSystem.FreeSecondLevel` | main.c:594-613 | The nested loops compute theirs. |
| `Checker.QueueBound` | read-img.c:59-66 | Distinct inode numbers below n are at most n: the queue never overflows its array. |
| `Checker.FileFineIff` | read-img.c:75-108 | Going through the direct blocks and both kinds of index blocks finds no block marked free if and only if none of the 65798 pointers of the file's pointer tree leads to one. |
| `Checker.CheckFile` | read-img.c:68-110 | A file prints no error line exactly when none of the pointers of its pointer tree leads to a block marked free. |
| `Checker.ReachedMarkedIff` | read-img.c:68-141 | Nothing reached has an error line if and only if no reached file's pointer tree leads to a block marked free, every reached directory is one and has its block marked, and every used entry in one names an existing inode that is marked. |
| `Checker.CheckDir` | read-img.c:111-141 | One directory: queues each new entry once, stops exactly at an inode already marked, and reports errors exactly. |
| `Checker.Check` | read-img.c:59-158 | The walk ends; it stops at "loop found" exactly when some inode is reached twice, and names the directory of a second entry for one; otherwise it marks exactly the reachable inodes and lists exactly the used inodes it did not reach, in ascending order, each once; it ends without an error line exactly when there is no loop and nothing reachable has a block or inode marked free, an inode number out of range or the wrong kind. |
| `Checker.LoopIsReal` | read-img.c:131-134 | When an entry names a marked inode, another reached entry leads to that inode, or it is the root. |
| `Checker.WalkDone` | read-img.c:65-142 | When the queue is empty, no inode is reached twice and the marks are exactly the reachable inodes. |
| `CheckerTheorems.CheckerAccepts` | read-img.c:59-158 | Under the invariant of main.c the checker finds no loop, prints no error line and lists no unreachable inode. |
| `CheckerTheorems.TruncateCheckedIff` | main.c:536-630 | After a truncation the checker accepts the file if and only if it had no seventh block. |
| `CrashTheorems.FreeTree` | main.c:460-489 | Touching only free inodes, free blocks and clear bits changes neither the tree nor what it rests on. |
| `CrashTheorems.PrefixStores` | main.c:460-489 | What the disk holds after each prefix of a create's device writes. |
| `CrashTheorems.CreateCrash` | main.c:460-489 | Cut after any device write and mounted again, a create shows the old tree, or the new one once all writes are made; every inode and block a path leads to is marked allocated and held once. |
| `CrashTheorems.InvMarked` | main.c:346-390 | The invariant implies that everything a path leads to is marked allocated and held once. |
| `CrashRemovals.CreatesCrash` | main.c:460-489 | Cutting any number of creates short after any k device writes leaves the tree after exactly those creates whose writes are all among the k, with everything a path leads to marked allocated and held once. |
| `CrashRemovals.RenameCrash` | main.c:819-830 | A rename is atomic: before its last write the store is the old one, after it the new one. |
| `CrashRemovals.RmdirCrash` | main.c:736-758 | A stopped rmdir leaves the old tree for two writes and the new one from the third on; after the first two, and only then, a path leads to a block marked free. |
| `CrashRemovals.UnlinkCrash` | main.c:624-692 | A stopped unlink leaves the old tree, after two writes the tree with the file emptied, then the new one; after the first two writes paths lead to blocks marked free if and only if the file had a seventh block. |
| `CrashRemovals.TruncateCrash` | main.c:567-627 | A stopped truncation leaves the old tree until its second write, then the file empty; from the first on paths lead to blocks marked free if and only if the file had a seventh block. |
| `WriteLog.NeedWritesAre` | main.c:1165-1178 | A new `indir_1` or `indir_2` is written in this order: the block bitmap, the inode table with the new pointer, and then the zeroed block. |
| `WriteLog.DirectWritesAre` | main.c:1116-1153 | A direct block: the bitmap if it is new, the inode table with the grown size, and then the data. |
| `WriteLog.IndexedWritesAre` | main.c:1188-1227 | A block behind the single-indirect block: the bitmap if it is new, the inode table, the index block, and then the data. |
| `CrashSteps.EntryIsStep` | main.c:1284-1322 | A block behind a second-level block: the bitmap if it is new, the inode table, the data, and then the index block. |
| `StepLog.NeedIs` | main.c:1268-1280 | A new second-level block: the bitmap and then the double-indirect block; the block itself is not written. |
| `StepLog.LoopsLog` | main.c:1112-1330 | With no stale index block the device writes of the three chained loops, with their buffers, are those of the block-by-block form, one logical block after the other. |
| `CrashSteps.MountReplay` | main.c:61-79 | Mounting the disk after any sequence of device writes shows them one by one. |
| `CrashSteps.NeedCuts` | main.c:1165-1178 | Between the three writes for a new index block every other file is as it was and the file has its old bytes, even while the pointer leads to a block that is not yet zeroed. |
| `CrashWrites.StepCuts` | main.c:1116-1322 | Between any two device writes for one logical block of an append, through all three tiers, every other file is as it was, and the file has its old bytes and is as long as before or already as long as after. |
| `CrashWrites.AllShown` | main.c:1112-1330 | All device writes together, mounted, give the store of the specification. |
| `CrashWrites.AppendCrash` | main.c:1073-1352 | Cut after any k of its device writes and mounted again, an append shows the old tree but for the file written to, which has its old bytes, a prefix of the data, and at most one block of bytes counted before they were written; if free blocks held no old words, every inode and block a path leads to is marked allocated and held once. |
| `CrashWrites.CountedEarly` | main.c:1152-1153 | Those bytes are real: after two of the four writes of an append to an empty file it is as long as the data and has the old bytes of the block taken. |
| `CopyProofs.ChunkStep` | misc.c:257-262 | One chunk is appended in full exactly when the free blocks cover its price; otherwise ENOSPC and as many bytes as they pay for. |
| `CopyProofs.MknodHolds` | misc.c:254-255 | A file just created is empty, holds no block and takes none. |
| `CopyProofs.TightBoundary` | main.c:974-1024 | For a file without spare blocks the index block of the end is missing exactly at the boundary sizes. |
| `CopyProofs.WriteOnlyFits` | main.c:1268-1330 | An append beyond the maximal size does the same as one of just the bytes that fit. |
| `Misc.DoPut` | misc.c:243-265 | The copy reports success exactly when the create does and the free blocks cover what fits of the content; then the tree has exactly the new file with that, at exactly its price in blocks; otherwise it returns the create's error without effect, or ENOSPC with as many bytes of the content as the free blocks pay for. |
| `Misc.PutChunks` | misc.c:257-262 | The chunk loop, for any positive chunk size that does not lead to a chunk at the maximal size. |
| `CopyBeyond.PutBeyond` | misc.c:257-264 | For the others, and a content beyond the maximal size: the loop returns 0 exactly when the blocks suffice for what fits, and then the file is broken. |
| `CopyBeyond.DoPutBeyond` | misc.c:243-265 | So does the whole copy. |
| `Misc.DoGet` | misc.c:273-294 | The chunk loop ends and returns the whole file, the walk's error or EISDIR, or is stopped exactly when the index block of the end is missing. |
| `Misc.PutThenGet` | misc.c:243-294 | Put then get returns what fits of the content, for every pair of chunk sizes, except that at the boundary sizes the get is stopped by the device. |
| `Witnesses.OverwriteGrows` | main.c:1149 | Writing one byte at the start of a three-byte file makes it four bytes long. |
| `Witnesses.TruncateDangles` | main.c:577-627 | Truncating a file of 6145 bytes succeeds and breaks the file. |
| `Witnesses.UnlinkLosesBlock` | main.c:567-574 | Writing a one-byte file on a formatted image of 196 blocks and unlinking it leaves the empty tree with 187 free blocks instead of 188. |
| `Witnesses.ReadOfSixBlocksAborts` | main.c:974-1024 | Every read up to the end of a file of 6144 bytes is stopped by the device. |
| `Witnesses.FullFileExists` | main.c:1073-1352 | A file of the maximal size can be written on a formatted image of 131072 blocks. |
| `Witnesses.FullFileWraps` | main.c:1104-1164 | Writing one byte at its end succeeds and breaks the file. |
| `Witnesses.ShortRename` | main.c:821 | Renaming the only file to a shorter name succeeds and does not give it that name. |

## Left out

- FileSystem.Write: once a bitmap or inode block was overwritten on the disk it says what memory and the data blocks hold, not what the overwritten region decodes to.
- FileSystem.Truncate: promises the invariant only for files without single-indirect block, because it is false otherwise (`TruncateKeepsIff`).
- FileSystem.Rename: promises the invariant only for names not shorter than the old one; `RenameKeepsIff` has the exact condition.
- FileSystem.Read: past the end of the file, when the walk leads through a bitmap or inode block, it leaves open whether the device stops; the store does not hold those blocks' bytes.
- ReadPast.FormattedPast: for the same reason nothing but `Bytes([])` or `Aborted` in the second-level blocks number 1, 2, 3 and 5 of a file without double-indirect block, where words 1, 2, 3 and 5 of the super block lead to a bitmap or inode block.
- OpTheorems.TruncateMeetsSpec: covers files without single-indirect block; `TruncateMeetsTree` and `TruncateKeepsIff` have the rest.
- OpTheorems.RenameMeetsSpec: covers new names not shorter than the old one and allows EEXIST for a missing destination; `RenameMeetsPromiseIff` and `ClashMeetsPromiseIff` have the exact conditions.
- OpTheorems.AppendMeetsSpec: covers appends below the maximal size that meet no stale index block; `WriteMeetsPromiseIff`, `FullFileWriteIff`, `AdoptiveAppend` and `AppendIff` have the rest.
- WriteTheorems.WriteKeepsOwnership: covers writes that meet no stale index block; `AppendNeedsAndFills` has appends that do, and `CarefulRunAllowed` says which runs never do.
- WriteTheorems.WriteMeetsPromiseIff: the same; `OverwriteTooLong` has overwrites that do.
- WriteProofs.GrowOk: the same; `NewIndexBlockIff` has the rest.
- WriteTheorems.AppendFile: the same.
- FrameTheorems.WriteTouchesOneFile: the same; with a stale index block the data may go over a block of another file (`StaleWriteIs`).
- StaleWrites.AppendNeedsAndFills: for an append that starts inside a block of the double-indirect tier, where the offset is kept and used again in adopted blocks (main.c:1300), the condition is necessary; it is sufficient if the words are null, and whether the bytes come out right otherwise depends on what the adopted blocks held.
- StaleStops.StaleStopIff: up to one second-level block of data; an entry off the disk in a later one stops the program alike, and by `AppendIff` the call is then no append.
- StaleStops.StaleWriteIs: up to one block of data.
- StaleStops.StaleBreaks: up to one second-level block of data.
- Runs.StepOk: covers truncations, renames and writes under the conditions above; unlink, rmdir, create and read have none.
- Runs.RunRefines: the same; `RunCounted` says when creates and appends run out of space, and a rename within a directory may report EEXIST for the name of an unused slot (`ClashMeetsPromiseIff`), which the tree does not show.
- FittingRuns.RunCounted: after an append that ran out of space, or added nothing, a file may have spare blocks, and from there on the blocks are not counted.
- Runs.FormattedRunRefines: images of at least 196 blocks.
- Mkfs.FormattedInv: images of at least 196 blocks; below that get_free_inode can return an inode beyond the table (`InodesCoverScanIff`).
- Mkfs.FormattedIsEmpty: the same.
- Overwrites.OverwriteBytes: a write within one block; `WriteBytes` has the others.
- Overwrites.WriteBytes: writes that are complete and meet no stale index block.
- Misc.DoPut: a content beyond the maximal size when the chunk size divides that size is left to `DoPutBeyond`, on stores rather than on the object, because the file is broken then; files beyond 262 blocks need free blocks without stale words.
- Misc.PutChunks: the same.
- Misc.PutThenGet: the same.
- Misc.DoGet: the host file receiving the bytes is the returned sequence; `do_show` is the same loop and has no method of its own.
- CrashTheorems.CreateCrash: creates; `RenameCrash`, `RmdirCrash`, `UnlinkCrash`, `TruncateCrash` and `AppendCrash` have the other calls.
- CrashWrites.AppendCrash: appends below the maximal size that meet no stale index block; the prefixes of an overwrite are not studied, nor what is marked while a new `indir_1` or `indir_2` leads to a block that still holds old non-null words.
- The comment of `fs_mknod` promises EINVAL for other than regular files (main.c:262); the code does not test the mode, of which the model keeps only the directory bit.
- Last components are shorter than the 26-byte name buffers of main.c and are neither empty nor contain NUL or a slash; longer names overflow those buffers in the code.
- Calls that need a parent directory get a non-root path; components, `strtok` and the 64-entry token arrays do not appear.
- Images have at least 196 blocks where the scan of 64 inodes matters (`InodesCoverScanIff`); get_free_inode scans exactly 64 numbers.
- Sizes do not wrap at 32 bits, which only repeated overwrites could reach.
- Reads that a `memset` overwrites at once (main.c:1124, 1195, 1247, 1294) are omitted.
- In `fs_unlink` the continued scan after an entry whose inode is free is not modelled; under the invariant there is none.
- In the checker a pointer outside the image reads as zero and as not allocated; the C program reads outside its buffer.
- The block list at read-img.c:150-155 and all printed text.
- fs_chmod, fs_utime, fs_getattr, fs_readdir, fs_statfs, open and release: copies of fields with no hard property.
- The command loop and path clean-up of misc.c, argument parsing of mkfs-x6.c, mktest.c, and device failures in image.c other than its range assertion.
- Timestamps, uid, gid and the permission bits of mode; only the directory bit is kept.
