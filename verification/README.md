# Verification of the xv6 kernel, user allocator, tools and chunk protocol

Dafny models of the parts of this repository whose correctness is least obvious, with proofs.
`dafny verify dfyconfig.toml` checks all of them.  Paths in this file are relative to the
root of the repository.

| modules | what they model |
|---|---|
| `LogSpec`, `LogCrash`, `LogBudget`, `Log` | the redo log (kernel/log.c): what a disk means at every instant, crash atomicity over whole runs, and the accounting of log space by concurrent operations |
| `BufCache`, `Buffers` | the buffer list of kernel/bio.c, and the buffers with their contents, the disk behind them and the blocks that the log pins in them; `Log` works on these buffers |
| `Words`, `FsSpec`, `FsLemmas`, `FsFiles`, `FsTrunc`, `FsSpace`, `Fs`, `File` | inodes over blocks (kernel/fs.c) and the chunked write of kernel/file.c: who owns each block, files as byte sequences, allocation, truncation, reading and writing, and exactly how far a write gets for want of space |
| `FileCrash` | the chunked write over the log: the files as they are read back from the disk after a crash in the middle of it |
| `Memory`, `Kalloc`, `VmSpec`, `VmLemmas`, `VmUser`, `VmFree`, `VmSpace`, `Vm`, `VmCopy`, `VmRun` | pages of bytes, the free list through them (kernel/kalloc.c), three-level page tables (kernel/vm.c) as a map from virtual pages, with rollback, conservation, user copies, and exactly which mappings there are pages for |
| `HeapSpec`, `Umalloc` | the address-ordered ring of free blocks in user/umalloc.c |
| `SleepLock` | sleep, wakeup (kernel/proc.c) and sleep locks (kernel/sleeplock.c) as interleaved steps |
| `Regex`, `Grep` | the matcher and the line buffer of user/grep.c |
| `ShellSpec`, `Shell`, `ShellGrammar`, `ShellPrint` | the parser of user/sh.c, from characters to trees, with NUL termination in place, and the grammar of command lines that says exactly which texts it accepts and as what |
| `Virtio`, `VirtioDisk` | descriptors and rings of kernel/virtio_disk.c, with the device as the other party |
| `Chunks` | send_chunks and receive_chunks over an unreliable channel |
| `Pipe`, `Mlfq`, `Rand` | kernel/pipe.c, the multi-level feedback queue, and do_rand of user/grind.c |
| `Params`, `Basics` | shared constants and small notions |

Where a C function updates state in place, a class has methods with the same loops and
branches, tied by their contracts to functions and relations on values; the lemmas about those
say what holds of whole runs.  A C function that is long or gives up a lock in the middle is
split into several methods (`balloc` is `Balloc` and `ClearBitIn`; `malloc` is `Malloc`, `Search`,
`First` and `TakeFrom`; `itrunc` is `Itrunc`, `TruncDirect`, `TruncWords` and
`TruncIndirect`; `bmap` is `Bmap`, `DirectAddr`, `IndirectAddr` and `BmapIndirect`; `writei` is
`Writei`, `WriteRange`, `WriteBlocks`, `WritePass` and `Finish`; one pass of `write_log` is
`LogPass` and one of `install_trans` is `InstallPass`; `end_op` is `EndOp`
and `FinishOp`; `virtio_disk_rw` is `Submit` and `Finish`; `send_chunks` is `SendChunks` and `SendRound`; `pipewrite` and `piperead` are one
stretch between two sleeps).  A panic of the source is a precondition, or is proved
unreachable.

Some of what the proofs found:

- `log_write`'s panic "too big a transaction" can be reached when operations use the full
  MAXOPBLOCKS blocks that `begin_op` reserves for them, because the header takes one block of a
  log of LOGSIZE blocks; with one block fewer it cannot (`LogBudget.PanicUnreachableIff`).
- A commit needs one buffer beside the pinned ones, and NBUF is LOGSIZE: with a log of 30 blocks
  and nobody else holding buffers one is always left (`Buffers.SpareLeft`).
- `filewrite` succeeds if and only if the range is within the file's reach and there are as many
  free blocks as it has slots without one (`File.OpenFile.FileWrite`, with `FsSpace.Fits`).
  Otherwise it returns -1 after the longest prefix that fits was written and the offset moved;
  `File.PartialWrite` is such a call.
- `mappages` succeeds if and only if there are as many free pages as tables missing for its range
  (`Vm.MapPages`).  Otherwise the pages that it mapped before stay mapped; `Vm.MapPartly` is such
  a call.  Its callers in this file map one page at a time.
- `uvmdealloc` is documented to accept an old size beyond the process, but it panics if and only
  if a page between the two sizes is not mapped (`Vm.UvmDealloc`); `Vm.DeallocBeyond` is such a
  call.
- `malloc` of 2^31 - 31 bytes or more that finds no fit passes a truncated size to `sbrk` and
  goes on as if it had the memory (`Umalloc.SbrkExact`, and the outcome `Wild` of
  `Umalloc.Allocator.Malloc`).
- `receive_chunks` writes its final NUL one past the buffer if and only if the message has more
  than 72 characters, that is 73 to 79 with what `fgets` reads (`Chunks.TerminatorFits`,
  `Chunks.ReceiveChunks`); `Chunks.OverrunInput` is such a session.
- `grep` prints every matching line if and only if none of them has 1023 characters or more,
  contains a NUL or comes after such a line (`Grep.OutputComplete`); `Grep.LongLine` is an input
  with a matching line that is not printed.

## Model

| member | source | states |
|---|---|---|
| LogCrash.CrashAtomicity | initial-xv6/src/kernel/log.c:68-203 | Cut the writes of any sequence of commits anywhere, then any number of recoveries anywhere, and recover once: the home blocks are those after the first m transactions, and the non-empty ones among these are exactly those whose header write reached the disk |
| LogCrash.RunCut | initial-xv6/src/kernel/log.c:193-203 | Every prefix of the writes of a run means the transactions committed by then, none of them in part |
| LogCrash.RunHeaderWrites | initial-xv6/src/kernel/log.c:99-114 | The number of non-empty headers among the first k writes of a run is the number of non-empty transactions that count |
| LogCrash.CommitCut | initial-xv6/src/kernel/log.c:193-203 | A crash inside one commit leaves the disk meaning the old contents before the header write and the new ones after it |
| LogCrash.RecoverCut | initial-xv6/src/kernel/log.c:116-123 | A crash inside a recovery changes nothing of what the disk means: recovery can start again |
| LogCrash.FullRecovery | initial-xv6/src/kernel/log.c:116-123 | A complete recovery puts exactly the meaning of the disk into the home blocks and empties the log |
| LogCrash.FullRunCommitsAll | initial-xv6/src/kernel/log.c:193-203 | A run that is not cut commits all its transactions |
| LogBudget.Budget | initial-xv6/src/kernel/log.c:126-175 | In every interleaving of begin_op, log_write and end_op, logged blocks plus what the outstanding operations may still append stay within LOGSIZE - 2 * (MAXOPBLOCKS - cap) when an operation appends at most cap blocks |
| LogBudget.HasRoomIff | initial-xv6/src/kernel/log.c:133-134 | begin_op finds room exactly when whatever the outstanding operations and the new one append, MAXOPBLOCKS blocks each at most, fits into the log |
| LogBudget.PanicUnreachableIff | initial-xv6/src/kernel/log.c:219-221 | With log.size = LOGSIZE the size panic of log_write is unreachable if and only if operations append fewer than MAXOPBLOCKS blocks |
| LogBudget.Overfull | initial-xv6/src/kernel/log.c:126-142 | A concrete interleaving of operations of MAXOPBLOCKS appends that fills the log to LOGSIZE - 1 blocks with one more append still allowed |
| Log.RedoLog.constructor | initial-xv6/src/kernel/log.c:54-65 | initlog: issues exactly the writes of recovery and leaves an empty log in memory over a disk with nothing half committed |
| Log.RedoLog.ReadHead | initial-xv6/src/kernel/log.c:85-97 | The header in memory is the one on disk |
| Log.RedoLog.WriteHead | initial-xv6/src/kernel/log.c:99-114 | One write: the header block with the count and home numbers of memory, the rest of the block as it was |
| Log.RedoLog.LogPass | initial-xv6/src/kernel/log.c:182-190 | One pass of write_log: the contents of the pinned buffer reach the log block; every reference to a buffer is given back, and nothing else changes |
| Log.RedoLog.InstallPass | initial-xv6/src/kernel/log.c:72-82 | One pass of install_trans: the log block reaches its home block, whose buffer is unpinned unless recovering; every reference is given back |
| Log.RedoLog.WriteLog | initial-xv6/src/kernel/log.c:177-191 | Writes the contents of the pinned buffers of the logged blocks to the log area in order, and nothing else |
| Log.RedoLog.InstallTrans | initial-xv6/src/kernel/log.c:67-83 | Writes each logged copy to its home block in order; unpins them unless recovering |
| Log.RedoLog.Commit | initial-xv6/src/kernel/log.c:193-203 | Issues exactly the writes of the commit protocol: none for an empty transaction, else copies, header, installs, empty header |
| Log.RedoLog.RecoverFromLog | initial-xv6/src/kernel/log.c:116-123 | Issues exactly the writes of recovery from the disk it finds |
| Log.RedoLog.BeginOp | initial-xv6/src/kernel/log.c:125-142 | One pass of the wait loop: admits the operation exactly when no commit runs and its reservation fits |
| Log.RedoLog.LogWrite | initial-xv6/src/kernel/log.c:205-235 | The contents of the buffer enter the log: a block already there is absorbed, a new one appended and its buffer pinned; the panic for too big a transaction happens exactly when the header or the log is full, and never with a log of LOGSIZE blocks when operations append fewer than MAXOPBLOCKS |
| Log.RedoLog.Change | initial-xv6/src/kernel/log.c:205-213 | The typical use: after bread, a change, log_write and brelse whoever reads the block finds the new contents, all other blocks and all references are as before |
| Log.RedoLog.EndOp | initial-xv6/src/kernel/log.c:146-164 | The last operation to end starts the commit |
| Log.RedoLog.FinishOp | initial-xv6/src/kernel/log.c:166-174 | The commit runs on the pending transaction and leaves the log empty |
| Log.CommitInstallsCache | initial-xv6/src/kernel/log.c:193-203 | After a commit each home block holds what the cache held for it, or else what it held before |
| Buffers.LoggedUntilInstalled | initial-xv6/src/kernel/log.c:225-233 | In every run of bread, brelse, changes, bwrite, log_write and bunpin, a logged block keeps its one buffer, pinned exactly once and with the contents to install, from log_write to its own bunpin |
| Buffers.StepKeeps | initial-xv6/src/kernel/bio.c:59-151 | Each step keeps: one buffer a block, reference counts equal to the users plus one for a logged block, and valid buffers equal to what the log or else the disk has |
| Buffers.PinStays | initial-xv6/src/kernel/bio.c:139-151 | A block leaves the log only by the bunpin of its buffer, and keeps that buffer until then |
| Buffers.GetKeeps | initial-xv6/src/kernel/bio.c:59-105 | bread never takes a buffer that is held or pinned, and what it reads is what the log or else the disk has |
| Buffers.SpareLeft | initial-xv6/src/kernel/bio.c:75-88 | The panic for want of a buffer cannot happen while held and logged blocks together are fewer than NBUF |
| Buffers.LogCopied | initial-xv6/src/kernel/log.c:182-190 | The steps of one pass of write_log leave all references as they were and the pinned contents in the log block |
| Buffers.Installed | initial-xv6/src/kernel/log.c:72-82 | The steps of one pass of install_trans leave all references as they were, the home block installed and unpinned |
| Buffers.BufferedDisk.Bread | initial-xv6/src/kernel/bio.c:91-105 | bget and, unless the contents are valid, a read: the step Get of the pool |
| Buffers.BufferedDisk.Brelse | initial-xv6/src/kernel/bio.c:114-137 | The step Release of the pool |
| Buffers.BufferedDisk.Bwrite | initial-xv6/src/kernel/bio.c:107-112 | The contents reach the disk as one write |
| Words.BitOfSet | initial-xv6/src/kernel/fs.c:75-77 | Setting one bit of a block sets that bit and no other |
| Words.BitOfClear | initial-xv6/src/kernel/fs.c:98-102 | Clearing one bit of a block clears that bit and no other |
| Words.WordOfSet | initial-xv6/src/kernel/fs.c:407-413 | A 32-bit word of a block reads back as written, the other words as before |
| Fs.EmptyConsistent | initial-xv6/src/mkfs/mkfs.c:234-248 | The invariant has a start: a free map with exactly the metadata blocks marked, and no file holding a block, satisfy it |
| Fs.FileSystem.Balloc | initial-xv6/src/kernel/fs.c:63-88 | The lowest free block, marked used and zeroed, or 0 exactly when every block is used |
| Fs.FileSystem.Bfree | initial-xv6/src/kernel/fs.c:90-105 | Clears the bit of a used block; the panic is unreachable from itrunc |
| FsLemmas.AllocateKeeps | initial-xv6/src/kernel/fs.c:63-88 | A newly allocated block has no owner, and every file and owner is as before |
| FsFiles.TakeDirect | initial-xv6/src/kernel/fs.c:388-406 | Hanging a new block in a direct slot gives it one owner and changes no other slot |
| FsFiles.TakeEntry | initial-xv6/src/kernel/fs.c:407-417 | The same for a word of the indirect block |
| Fs.FileSystem.DirectAddr | initial-xv6/src/kernel/fs.c:388-406 | The block in a slot of the inode, allocated if there was none; 0 only when the disk is full |
| Fs.FileSystem.IndirectAddr | initial-xv6/src/kernel/fs.c:407-417 | The block in a word of the indirect block, allocated if there was none |
| Fs.FileSystem.BmapIndirect | initial-xv6/src/kernel/fs.c:397-418 | The branch of bmap beyond the direct blocks |
| Fs.FileSystem.Bmap | initial-xv6/src/kernel/fs.c:379-421 | The block of a file: found without any change, or allocated with everything that was there kept, or 0 with the disk full; every block it changed is logged, and it allocates only for slots on the way to that block |
| Fs.FileSystem.TruncDirect | initial-xv6/src/kernel/fs.c:432-437 | Frees the direct blocks |
| Fs.FileSystem.TruncWords | initial-xv6/src/kernel/fs.c:440-446 | Frees the blocks that the indirect block lists |
| Fs.FileSystem.TruncIndirect | initial-xv6/src/kernel/fs.c:439-449 | Frees those and the indirect block itself |
| Fs.FileSystem.Itrunc | initial-xv6/src/kernel/fs.c:423-453 | Frees exactly the blocks of the inode and makes it empty; other files keep their contents, the free map, the owners and the metadata agree again, and every block and inode that changed is logged |
| FsTrunc.EmptyingDone | initial-xv6/src/kernel/fs.c:423-453 | When the loops end, the blocks given up are exactly those the inode owned |
| Fs.FileSystem.Readi | initial-xv6/src/kernel/fs.c:467-496 | Delivers exactly the clipped slice of the contents, or -1 exactly if the destination takes fewer bytes, and changes nothing: there are no holes below the size, so bmap never allocates |
| FsFiles.SizeHasBlock | initial-xv6/src/kernel/fs.c:382-421 | Below its size a file has every block |
| Fs.FileSystem.WritePass | initial-xv6/src/kernel/fs.c:516-528 | One pass of the loop of writei: the next piece of the source is in place, or the disk is full and the next byte has no block |
| Fs.FileSystem.WriteBlocks | initial-xv6/src/kernel/fs.c:516-528 | The loop of writei stops short only when the disk is full |
| FsFiles.PatchedBytes | initial-xv6/src/kernel/fs.c:520-526 | Copying into one block of one file changes those bytes of that file and no byte of any other |
| FsFiles.WrittenDone | initial-xv6/src/kernel/fs.c:530-536 | When writei ends, the file is its old contents with the written bytes spliced in, without holes, and other files are unchanged |
| Fs.FileSystem.Finish | initial-xv6/src/kernel/fs.c:530-536 | The size grows to the end of the write if need be and the inode is written back |
| Fs.FileSystem.WriteRange | initial-xv6/src/kernel/fs.c:516-538 | writei for a range that is not refused |
| Fs.FileSystem.Writei | initial-xv6/src/kernel/fs.c:498-539 | Refuses exactly offsets beyond the end, wrapping ranges and ranges beyond MAXFILE blocks, with no change; otherwise splices the first r bytes of the source at the offset, where r is the largest number of bytes for which there are free blocks; other files keep their contents and inodes, and every block and inode that changed is logged |
| FsSpace.StoppedExact | initial-xv6/src/kernel/fs.c:516-538 | The bytes that writei writes are exactly as many as there was room for before the call: free blocks against empty slots of the range, with the indirect block counted |
| FsSpace.SpentDirect | initial-xv6/src/kernel/fs.c:388-396 | Allocating for a slot of the range leaves the balance of free blocks and empty slots as it was |
| FsSpace.SpentEntry | initial-xv6/src/kernel/fs.c:397-417 | The same for a word of the indirect block |
| FsSpace.FitsLess | initial-xv6/src/kernel/fs.c:516-528 | What has room has room for less, so the longest prefix is unique |
| FsFiles.ChunkBudget | initial-xv6/src/kernel/file.c:148-155 | A write of at most 3072 bytes logs at most 6 blocks beside those of the free map |
| File.OpenFile.WriteChunk | initial-xv6/src/kernel/file.c:162-166 | One transaction of filewrite: the offset moves by the bytes written, and what it logged covers every block and inode it changed and is within the bound for one transaction |
| File.OpenFile.FileWrite | initial-xv6/src/kernel/file.c:131-178 | Writes all of the source if and only if there is room for it, in terms of the state before the call, and returns n then and -1 otherwise; the offset moves by the w bytes written, the longest prefix that fits; one transaction a chunk, each logging all that it changed and leaving the file with the bytes up to the end of its chunk |
| File.PartialWrite | initial-xv6/src/kernel/file.c:156-174 | A write of two blocks to a disk with one free block writes one, moves the offset and returns -1 |
| FileCrash.CrashInFileWrite | initial-xv6/src/kernel/file.c:156-174 | Cut the disk writes of the transactions of filewrite anywhere, then any number of recoveries, and recover: the file, read back from the disk alone, is the old file with the first m chunks of the source spliced in, every other file is as it was, and free map and inodes agree; without a cut it is all that was written |
| FileCrash.GetOfPut | initial-xv6/src/kernel/fs.c:225-242 | The size and addresses that iupdate puts into an inode block are what ilock gets from it; the other inodes of the block and the type and link words are as before |
| FileCrash.FileHeld | initial-xv6/src/kernel/fs.c:303-315 | On a disk that holds a state, the inode in its block, the indirect block and the data blocks give the contents of the file |
| FileCrash.EffectInode | initial-xv6/src/kernel/log.c:67-83 | Installing one transaction of filewrite leaves in every inode block the inodes after it |
| FileCrash.EffectsHold | initial-xv6/src/kernel/log.c:67-83 | Installing the logged blocks of the first m transactions gives a disk that holds the file-system state after them |
| File.FileWriteFitsLog | initial-xv6/src/kernel/file.c:148-155 | With one block of free map a transaction of filewrite logs at most 7 blocks, and such operations never reach the panic of log_write |
| FsFiles.SpliceAgain | initial-xv6/src/kernel/file.c:157-173 | Two writes in a row are one write of both sources |
| FsFiles.ReadAfterWrite | initial-xv6/src/kernel/fs.c:467-539 | What writei wrote is what readi delivers there; what lies before or after it is read as before |
| Memory.WordOfSet | initial-xv6/src/kernel/vm.c:99-99 | A 64-bit entry stored in the bytes of a page reads back, and the others are as before |
| Kalloc.Kmem.constructor | initial-xv6/src/kernel/kalloc.c:26-31 | kinit: all whole pages between the end of the kernel and the end of memory are free, each once |
| Kalloc.Kmem.FreeRange | initial-xv6/src/kernel/kalloc.c:33-40 | Exactly the whole pages between the two addresses are added to the free list, each once |
| Kalloc.Kmem.Kfree | initial-xv6/src/kernel/kalloc.c:42-63 | The page is filled with 1s and becomes the head of the list threaded through the first words |
| Kalloc.Kmem.AllocPage | initial-xv6/src/kernel/kalloc.c:65-82 | The head of the list, off the list and filled with 5s, or 0 exactly when the list is empty |
| Kalloc.FreedOk | initial-xv6/src/kernel/kalloc.c:42-63 | The list in memory and the free pages still agree after kfree |
| Kalloc.PoppedOk | initial-xv6/src/kernel/kalloc.c:65-82 | They still agree after kalloc, and the page is off the list |
| VmLemmas.Growing | initial-xv6/src/kernel/vm.c:96-99 | A new empty table changes no translation, no private page, and nothing outside |
| VmLemmas.SetLeaf | initial-xv6/src/kernel/vm.c:158-158 | Writing one leaf entry changes the translation of that page only |
| Vm.UvmCreate | initial-xv6/src/kernel/vm.c:194-205 | An address space that maps nothing and satisfies the invariant of all the operations, made of one free page; 0 exactly when memory is out |
| Vm.NewSpaceGood | initial-xv6/src/kernel/vm.c:194-205 | A cleared page off the free list is such an address space |
| Vm.NewTable | initial-xv6/src/kernel/vm.c:96-99 | Takes and clears a page for a table and links it, or reports that memory is out |
| Vm.Walk | initial-xv6/src/kernel/vm.c:73-103 | The entry for an address; without alloc nothing changes, with alloc exactly the missing tables on the way are created, the map of pages is unchanged, and it fails only when memory is out |
| Vm.MapPages | initial-xv6/src/kernel/vm.c:138-165 | Succeeds if and only if there are as many free pages as missing tables; maps exactly the pages of the range to consecutive frames, and on -1 only the first n, as many as there were tables for |
| Vm.MapPartly | initial-xv6/src/kernel/vm.c:138-165 | With pages for the tables of one page but not of two, mappages returns -1 and the first page stays mapped |
| Vm.ClearEntry | initial-xv6/src/kernel/vm.c:182-190 | One step of uvmunmap |
| Vm.UvmUnmap | initial-xv6/src/kernel/vm.c:167-192 | Panics exactly if one of the pages is not mapped; otherwise removes exactly npages mappings and, if asked, frees exactly their frames |
| Vm.AddPage | initial-xv6/src/kernel/vm.c:236-247 | One page added by uvmalloc or uvmcopy, exactly if there are free pages for its frame and tables: private, with the given contents and flags; or else only tables were added |
| Vm.UvmDealloc | initial-xv6/src/kernel/vm.c:251-267 | Panics exactly if a page between the two sizes is not mapped; otherwise frees exactly these pages and returns the new size |
| Vm.DeallocBeyond | initial-xv6/src/kernel/vm.c:251-267 | uvmdealloc of an empty process with an old size of one page panics |
| Vm.UvmAlloc | initial-xv6/src/kernel/vm.c:223-249 | Succeeds if and only if there are as many free pages as new pages and missing tables; adds exactly the pages between the sizes, private, accessible to the user, with the flags asked for, and read by copyin as zeros; on failure the translation and all data pages are as before, only tables stay behind, and no more pages are left than were asked for |
| Vm.Rollback | initial-xv6/src/kernel/vm.c:237-245 | The failure path of uvmalloc leaves nothing but tables |
| VmUser.RolledBack | initial-xv6/src/kernel/vm.c:237-245 | Taking back the pages just added restores the translation and returns every data page |
| VmUser.Pigeonhole | initial-xv6/src/kernel/vm.c:223-249 | A process cannot have as many private pages as there are pages of memory, so uvmalloc runs out before it reaches TRAPFRAME |
| Vm.UvmCopy | initial-xv6/src/kernel/vm.c:299-333 | Succeeds if and only if there are as many free pages as pages to copy and missing tables; the child gets private copies with the same flags and reads at every address below the size what the parent reads there, while pages and translation of the parent are untouched; on failure its translation is as before and only tables stay behind |
| VmUser.AllocUsable | initial-xv6/src/kernel/vm.c:236-246 | Pages mapped with PTE_V, PTE_R, PTE_U and further permissions are what walkaddr accepts, readable, and writable or executable exactly if asked for |
| VmUser.CopySees | initial-xv6/src/kernel/vm.c:312-324 | Copies of pages with the same flags give the same bytes at the same user addresses, and are accessible at the same addresses |
| VmSpace.MissingNext | initial-xv6/src/kernel/vm.c:85-103 | The tables missing for one more page are those missing once the earlier pages are mapped |
| VmSpace.ShortSize | initial-xv6/src/kernel/vm.c:96-97 | If a table could not be created, fewer pages were free than tables missing |
| Vm.CopyUndo | initial-xv6/src/kernel/vm.c:330-332 | The error exit of uvmcopy |
| VmUser.OtherKept | initial-xv6/src/kernel/vm.c:305-333 | What is done to one address space leaves the pages and translation of another alone |
| Vm.FreeWalk | initial-xv6/src/kernel/vm.c:269-287 | Frees the table and exactly the tables below it, terminating by level; the leaf panic is unreachable when no leaf is left |
| VmFree.WalkingChild | initial-xv6/src/kernel/vm.c:275-281 | After a child is freed and its entry cleared, the tree is sound again without it |
| VmFree.WalkedRoot | initial-xv6/src/kernel/vm.c:289-297 | Freeing the root after the leaves returns every page of the address space |
| Vm.UvmFree | initial-xv6/src/kernel/vm.c:289-297 | Afterwards exactly the pages that were free or belonged to the address space are free, each once |
| VmCopy.WalkAddr | initial-xv6/src/kernel/vm.c:105-126 | The frame that the user may access at the address, or 0 |
| VmCopy.CopyOut | initial-xv6/src/kernel/vm.c:348-371 | The first n bytes arrive at user memory and nothing else changes; 0 if that is all of them, else -1 and the next byte is not accessible |
| VmCopy.CopyIn | initial-xv6/src/kernel/vm.c:373-396 | The first n bytes of user memory arrive in the buffer; 0 if that is all of them, else -1 and the next byte is not accessible |
| VmCopy.CopyString | initial-xv6/src/kernel/vm.c:417-430 | The inner loop of copyinstr |
| VmCopy.CopyInStr | initial-xv6/src/kernel/vm.c:398-439 | Copies up to and including the first NUL; -1 exactly when max or the accessible memory ends before one |
| VmCopy.CopyRoundTrip | initial-xv6/src/kernel/vm.c:348-396 | copyin after copyout returns the bytes that were copied out |
| VmCopy.CopyElsewhere | initial-xv6/src/kernel/vm.c:348-371 | copyout does not change user memory at other addresses |
| VmRun.RunConserves | initial-xv6/src/kernel/vm.c:225-333 | Every run of the operations keeps the tree of distinct tables and the privacy of user pages, and the free pages together with the pages in use stay the same set |
| VmRun.CountConserved | initial-xv6/src/kernel/vm.c:225-333 | So their number stays the same too |
| VmRun.ExtendedUser | initial-xv6/src/kernel/vm.c:225-249 | User-accessible pages stay private when pages are added |
| VmRun.UnmappedUser | initial-xv6/src/kernel/vm.c:167-192 | and when pages are removed |
| HeapSpec.Disjoint | initial-xv6/src/user/umalloc.c:24-90 | Different blocks share no unit |
| HeapSpec.HookNearly | initial-xv6/src/user/umalloc.c:33-43 | Putting a block into the ring at its place keeps the ring in address order; only the neighbours can now be adjacent |
| HeapSpec.JoinNearly | initial-xv6/src/user/umalloc.c:33-42 | Merging two adjacent free blocks keeps the heap sound and loses no unit |
| HeapSpec.ReleaseOk | initial-xv6/src/user/umalloc.c:24-44 | free keeps the ring in address order with one wrap, no two adjacent free blocks, and all units |
| HeapSpec.ReleaseLive | initial-xv6/src/user/umalloc.c:24-44 | The other live blocks and their contents are as before |
| HeapSpec.TakeOk | initial-xv6/src/user/umalloc.c:75-84 | Handing out a block, whole or cut from the end, keeps the heap sound |
| HeapSpec.TakeLive | initial-xv6/src/user/umalloc.c:75-84 | The block handed out has the size asked for, was not live before, and the others are as before |
| HeapSpec.GrantedOk | initial-xv6/src/user/umalloc.c:52-59 | New memory from sbrk is one more block beyond all others |
| HeapSpec.UserWrite | initial-xv6/src/user/umalloc.c:84-84 | What a program writes inside its own blocks does not disturb the heap |
| Umalloc.Allocator.constructor | initial-xv6/src/user/umalloc.c:21-22 | An empty heap |
| Umalloc.Allocator.FindPlace | initial-xv6/src/user/umalloc.c:29-32 | The search of free ends at the ring member after which the block belongs |
| Umalloc.Allocator.Free | initial-xv6/src/user/umalloc.c:24-44 | The units stay granted, the block is free and merged with its neighbours, other live blocks are as before |
| Umalloc.Allocator.MoreCore | initial-xv6/src/user/umalloc.c:46-61 | The break moves by nu units or 4096, whichever is more; they are on the ring and a block of nu units fits; or sbrk refused and nothing changed, or the request did not fit an int |
| Umalloc.Allocator.Malloc | initial-xv6/src/user/umalloc.c:63-90 | A block of the right size that was not live, with the other live blocks unchanged; sbrk is called only if nothing fits, and then once, for at least 4096 units; both searches end |
| Umalloc.SbrkExact | initial-xv6/src/user/umalloc.c:54-54 | The argument of sbrk is the size wanted if and only if nu is below 2^27; malloc(0xFFFFFFF0) asks for 0 bytes |
| Umalloc.PassedNext | initial-xv6/src/user/umalloc.c:74-74 | The search of malloc moves on to a member that is closer to the start, and what it passed does not fit |
| Umalloc.PassedAll | initial-xv6/src/user/umalloc.c:86-86 | Back at the start, no free block fits |
| SleepLock.NoLostWakeup | initial-xv6/src/kernel/proc.c:777-828 | In every interleaving, when the inner spinlock is free and the lock is not held, no process sleeps on it or is between releasing the spinlock and the switch |
| SleepLock.MutualExclusion | initial-xv6/src/kernel/sleeplock.c:21-41 | At most one process holds a sleep lock, and pid names it |
| SleepLock.Always | initial-xv6/src/kernel/sleeplock.c:21-41 | The invariant of locks, places and wakeups holds after every step of every run, with kill, dispatch, and timer preemption wherever no spinlock is held |
| SleepLock.GoInv | initial-xv6/src/kernel/proc.c:777-828 | Every step of acquiresleep, releasesleep, sleep and wakeup keeps it |
| SleepLock.RunChanges | initial-xv6/src/kernel/proc.c:777-859 | A process falls asleep only by itself on its channel; only a wakeup after a release, or kill, makes it runnable; only the scheduler runs it, and only when runnable |
| SleepLock.NotStuck | initial-xv6/src/kernel/proc.c:777-828 | While some process is inside these functions and not asleep, some such process can take its next step, at once or when the scheduler runs it |
| Regex.Match | initial-xv6/src/user/grep.c:71-81 | 1 exactly when the text matches the pattern, at its beginning after ^ and anywhere otherwise |
| Regex.MatchHere | initial-xv6/src/user/grep.c:83-95 | 1 exactly when the text can be cut into words for the items of the pattern |
| Regex.MatchStar | initial-xv6/src/user/grep.c:97-105 | 1 exactly when it can with a starred item first |
| Regex.HereFirst | initial-xv6/src/user/grep.c:83-105 | A word for the first item and a match of the rest give a match |
| Regex.HereSplit | initial-xv6/src/user/grep.c:83-105 | Every match splits that way |
| Grep.Searcher.Read | initial-xv6/src/user/grep.c:17-17 | Any number of bytes up to the space left, none only at the end of the input or with a full buffer |
| Grep.Searcher.StrChr | initial-xv6/src/user/grep.c:21-21 | The first newline before a NUL |
| Grep.Searcher.PrintLine | initial-xv6/src/user/grep.c:22-26 | A line that matches is printed with its newline |
| Grep.Searcher.TakeLines | initial-xv6/src/user/grep.c:20-28 | Handles the complete lines of the buffer |
| Grep.Searcher.Shift | initial-xv6/src/user/grep.c:29-32 | Moves the incomplete line to the front |
| Grep.Searcher.Grep | initial-xv6/src/user/grep.c:10-34 | Whatever sizes read returns, prints exactly the matching complete lines in order, up to the first line that contains a NUL or has 1023 characters or more |
| Grep.OutputComplete | initial-xv6/src/user/grep.c:10-34 | All matching complete lines of the input are printed if and only if each of them comes before the first line that is too long or contains a NUL |
| Grep.LongLine | initial-xv6/src/user/grep.c:17-17 | A line of 1023 characters that matches and is not printed |
| Shell.GetToken | initial-xv6/src/user/sh.c:266-309 | The next token of the text, its span, and where the rest begins |
| Shell.TokenAt | initial-xv6/src/user/sh.c:277-301 | The switch of gettoken |
| Shell.Peek | initial-xv6/src/user/sh.c:311-321 | Skips white space only; tells whether the next token begins with one of the characters |
| Shell.ParseRedirs | initial-xv6/src/user/sh.c:375-398 | Agrees with the grammar on the tokens, including the panic for a missing file |
| Shell.ParseExec | initial-xv6/src/user/sh.c:416-447 | Agrees with the grammar, including the panics for a stray token and for too many arguments |
| Shell.ParseBlock | initial-xv6/src/user/sh.c:400-414 | Agrees with the grammar, including the panic for a missing parenthesis |
| Shell.ParsePipe | initial-xv6/src/user/sh.c:362-373 | Agrees with the grammar |
| Shell.ParseLine | initial-xv6/src/user/sh.c:345-360 | Agrees with the grammar; terminates on every input |
| Shell.ParseCmd | initial-xv6/src/user/sh.c:328-343 | The tree or panic that the grammar gives; in the tree every argument and file name is a C string equal to its token |
| Shell.NulTerminate | initial-xv6/src/user/sh.c:449-494 | Writes NULs exactly at the ends of the words of the tree |
| Shell.EndsOutside | initial-xv6/src/user/sh.c:449-494 | No word contains a place where a NUL is written |
| Shell.LineSpans | initial-xv6/src/user/sh.c:345-360 | Every word of the tree is a longest run of word characters of the text |
| ShellGrammar.Grammar | initial-xv6/src/user/sh.c:328-447 | For every token list, the parser builds a tree if and only if the list is a command line that stands for it: the arguments of each simple command are its words in order, whatever redirections are written between them, and these wrap it with the first one innermost |
| ShellGrammar.Accept | initial-xv6/src/user/sh.c:345-447 | Every phrase with at most 9 arguments a command is accepted where it may stand, and read as the tree it stands for |
| ShellGrammar.LineSound | initial-xv6/src/user/sh.c:345-360 | What parseline has read is a phrase, and the tree is what it stands for |
| ShellGrammar.WordsKept | initial-xv6/src/user/sh.c:375-447 | The arguments and files of the tree are exactly the words of the command line, none lost and none twice |
| ShellGrammar.RoundTrip | initial-xv6/src/user/sh.c:345-447 | Every tree is printed with redirections inside simple commands and parentheses only around lists, background commands and pipelines that stand inside others, and parsed back |
| ShellPrint.TextGrammar | initial-xv6/src/user/sh.c:263-343 | A text is read as a tree if and only if it spells a command line that stands for the tree, with any white space that keeps its tokens apart |
| ShellPrint.Lexes | initial-xv6/src/user/sh.c:266-309 | A text spelled from tokens lexes to them, whatever the white space; only two words, or > before another >, need any |
| ShellPrint.Spells | initial-xv6/src/user/sh.c:266-309 | Every text is spelled from the tokens it lexes to |
| ShellPrint.LineStrings | initial-xv6/src/user/sh.c:345-360 | The parser does not look at the words: parsing places or parsing strings gives the same tree |
| ShellPrint.TextRoundTrip | initial-xv6/src/user/sh.c:328-447 | Parsing the text of any tree, printed with any white space, gives the same tree |
| BufCache.BCache.constructor | initial-xv6/src/kernel/bio.c:36-53 | All buffers on one ring, unused |
| BufCache.BCache.Bget | initial-xv6/src/kernel/bio.c:55-89 | The buffer that holds the block, or else the unused one released longest ago, with its identity changed; none only if all are in use; buffers in use keep their block, and no block is in two buffers |
| BufCache.BCache.Find | initial-xv6/src/kernel/bio.c:65-73 | Visits every buffer |
| BufCache.BCache.FindUnused | initial-xv6/src/kernel/bio.c:75-87 | The unused buffer released longest ago |
| BufCache.BCache.Brelse | initial-xv6/src/kernel/bio.c:114-137 | One user fewer; after the last one the buffer is the most recently released and in front |
| BufCache.BCache.Bpin | initial-xv6/src/kernel/bio.c:139-144 | One user more |
| BufCache.BCache.Bunpin | initial-xv6/src/kernel/bio.c:146-151 | One user fewer, the list unchanged |
| BufCache.UnlinkedRing | initial-xv6/src/kernel/bio.c:128-129 | Without the buffer the list is one ring over the others in the same order |
| BufCache.PushedRing | initial-xv6/src/kernel/bio.c:130-133 | With it in front again the list is one ring over all, sorted by time of release |
| BufCache.BuiltRing | initial-xv6/src/kernel/bio.c:43-52 | The loop of binit builds one ring |
| VirtioDisk.Disk.constructor | initial-xv6/src/kernel/virtio_disk.c:141-149 | All descriptors free |
| VirtioDisk.Disk.AllocDesc | initial-xv6/src/kernel/virtio_disk.c:155-166 | The lowest free descriptor, or -1 if none is free |
| VirtioDisk.Disk.Alloc3Desc | initial-xv6/src/kernel/virtio_disk.c:199-213 | Three different descriptors, or none if fewer than three are free, with the free set as before |
| VirtioDisk.Disk.Unalloc | initial-xv6/src/kernel/virtio_disk.c:207-209 | Gives back exactly what was taken, with free_desc |
| VirtioDisk.Disk.FreeChain | initial-xv6/src/kernel/virtio_disk.c:184-197 | Stops after the three descriptors of the request and frees exactly those |
| VirtioDisk.Disk.Submit | initial-xv6/src/kernel/virtio_disk.c:215-281 | A chain of three descriptors for the request alone, on the available ring; without three descriptors nothing happens |
| VirtioDisk.Disk.Finish | initial-xv6/src/kernel/virtio_disk.c:283-292 | When the disk flag of the buffer is clear, its own head was posted on the used ring and seen; exactly its descriptors are freed |
| VirtioDisk.Disk.Intr | initial-xv6/src/kernel/virtio_disk.c:294-327 | Clears the flags of exactly the buffers whose heads are on the used ring, while the device posts no more |
| VirtioDisk.Disk.IntrStep | initial-xv6/src/kernel/virtio_disk.c:312-324 | One pass of the loop, between which the device may post: the oldest unseen head is seen and the flag of its buffer cleared; the status panic is unreachable |
| VirtioDisk.Disk.DeviceTake | initial-xv6/src/kernel/virtio_disk.c:271-281 | The device takes the heads in the order they were posted |
| VirtioDisk.Disk.DeviceComplete | initial-xv6/src/kernel/virtio_disk.c:309-314 | The device finishes a request and posts its head, in any order |
| Virtio.SubmittedInv | initial-xv6/src/kernel/virtio_disk.c:215-281 | A new request keeps the partition of the descriptors and both rings, across the wrap of the 16-bit indexes |
| Virtio.SeenInv | initial-xv6/src/kernel/virtio_disk.c:312-324 | The entry that the handler reads is the oldest one it has not seen |
| Virtio.IndexesDiffer | initial-xv6/src/kernel/virtio_disk.c:312-312 | The 16-bit indexes differ exactly while something was not seen |
| Virtio.FreedInv | initial-xv6/src/kernel/virtio_disk.c:283-289 | Only a request that was seen can leave, and exactly its descriptors become free |
| Chunks.SendChunks | networks/messaging_via_chunks/fake_client.c:72-160 | Sends every chunk once and then, round by round, exactly what is neither acknowledged nor within its timeout; stops in the first round after which every chunk is acknowledged and reports success then, or gives up after MAX_RETRIES rounds |
| Chunks.SendRound | networks/messaging_via_chunks/fake_client.c:126-150 | One pass over the chunks: exactly the unacknowledged and timed-out ones are sent, in order, and the count is full exactly when all are acknowledged |
| Chunks.SentTimes | networks/messaging_via_chunks/fake_client.c:84-150 | Each chunk is sent as often as one plus the number of rounds in which it is timed out and not acknowledged |
| Chunks.SentChunks | networks/messaging_via_chunks/fake_client.c:84-150 | Nothing but chunks of the message is sent |
| Chunks.ReceiveChunks | networks/messaging_via_chunks/fake_client.c:162-215 | The outcome is that of the arrivals taken one by one: waiting, complete with the message as a C string in the buffer, or, exactly for messages of more than 72 characters, a final NUL outside the buffer; it acknowledges exactly what it stored |
| Chunks.CopyChunk | networks/messaging_via_chunks/fake_server.c:186-186 | One chunk replaces its eight characters of the buffer |
| Chunks.Received | networks/messaging_via_chunks/fake_server.c:161-214 | When as many different chunks are stored as the message has, the buffer holds the message |
| Chunks.AcceptHolds | networks/messaging_via_chunks/fake_client.c:175-197 | Each arrival, repeated or not, keeps what is stored right |
| Chunks.TerminatorFits | networks/messaging_via_chunks/fake_client.c:213-213 | For every finished receiver the final NUL falls inside the 80 characters if and only if the message has at most 72 |
| Chunks.OverrunInput | networks/messaging_via_chunks/fake_client.c:213-213 | A message of 73 characters whose packets arrive in order: the final NUL goes to the place after the buffer |
| Chunks.InOrderCompletes | networks/messaging_via_chunks/fake_client.c:162-210 | Packets that arrive once and in order complete every message |
| Chunks.AcknowledgedIsStored | networks/messaging_via_chunks/fake_client.c:108-150 | In every session over a channel that loses, repeats and reorders, if every chunk was acknowledged to the sender, the receiver has stored the message |
| Chunks.SentIsStored | networks/messaging_via_chunks/fake_client.c:108-160 | When send_chunks ends with ack_cnt equal to total_chunks, every chunk was stored by receive_chunks, given that the acknowledgements it read are those of the session |
| Chunks.SessionReceiver | networks/messaging_via_chunks/fake_client.c:162-197 | The receiver of a session is the one that receive_chunks computes from what arrives |
| Chunks.StoredIsAcknowledged | networks/messaging_via_chunks/fake_client.c:180-196 | What a session has acknowledged is exactly what is stored |
| Pipe.PipeBuffer.constructor | initial-xv6/src/kernel/pipe.c:31-37 | An empty pipe with both ends open |
| Pipe.PipeBuffer.Close | initial-xv6/src/kernel/pipe.c:58-74 | Closes one end; the pipe is freed when both are |
| Pipe.PipeBuffer.Write | initial-xv6/src/kernel/pipe.c:76-103 | The next bytes of the source go in, as many as there is room for; it sleeps only when the pipe is full and fails only without readers or when killed |
| Pipe.PipeBuffer.Put | initial-xv6/src/kernel/pipe.c:95-95 | One byte goes to its slot and overwrites none that is still to be read |
| Pipe.PipeBuffer.Read | initial-xv6/src/kernel/pipe.c:105-130 | The bytes come out in the order they went in, so that what was delivered is always a prefix of what was written; none of them only when the pipe is empty and the write end closed |
| Pipe.CounterDiff | initial-xv6/src/kernel/pipe.c:88-88 | The comparisons of the 32-bit counters tell empty and full across their wrap |
| Pipe.CounterSlot | initial-xv6/src/kernel/pipe.c:95-95 | The slot of a byte does not change when the counter wraps |
| Mlfq.Demotion | initial-xv6/src/kernel/trap.c:124-148 | A fresh process is in queue 0, 1, 2, 3 with thresholds at 1, 5 and 13 unboosted ticks, and never over its slice |
| Mlfq.Machine.Boost | initial-xv6/src/kernel/trap.c:96-112 | Exactly the processes that could run go to queue 0 with no ticks, each arriving at the time plus the number of such processes before it in the table |
| Mlfq.BoostOrder | initial-xv6/src/kernel/trap.c:98-110 | The arrivals that a boost gives are new and in table order |
| Mlfq.Machine.Trap | initial-xv6/src/kernel/trap.c:95-161 | At every 48th tick all processes that can run are in queue 0 with no ticks and new arrivals in table order, and no other process changes; at other times only the running process changes: a timer tick counts or demotes it, a device puts it at the end of its queue with a new arrival; queue numbers stay at most 3 and ticks below the slice |
| Mlfq.Machine.Pick | initial-xv6/src/kernel/proc.c:583-635 | The first process in table order with the least queue and arrival among the runnable ones that arrived before 1000000, none exactly when there is none |
| Mlfq.Machine.PickFrom | initial-xv6/src/kernel/proc.c:608-626 | The same within one queue |
| Rand.DoRand | initial-xv6/src/user/grind.c:17-40 | 16807 times (ctx mod 0x7ffffffe + 1) modulo 2^31 - 1, less one, inside [0, 0x7ffffffd], with every intermediate value inside (-2^31, 2^31) |
| Rand.Schrage | initial-xv6/src/user/grind.c:31-35 | The quotient and remainder form gives the product modulo 2^31 - 1 |
| Rand.Injective | initial-xv6/src/user/grind.c:17-40 | Different seeds in the range give different numbers |

## Left out

- Log.RedoLog.BeginOp: one pass of the loop; waiting is a caller that tries again, so nothing is said about how long an operation waits.
- Log.RedoLog.LogWrite: no operation appends more than `cap` blocks, at most MAXOPBLOCKS, which is what the operations promise to `begin_op`.
- Log.RedoLog.constructor: there is one device, and recovery runs with all buffers free, as at boot.
- LogBudget.Budget: spinlocks around the counters are not modelled, each operation on them is one step.
- Fs.FileSystem.Writei: copies from user memory are taken to succeed; a copy that fails may leave part of a block changed but not logged.
- Fs.FileSystem.Balloc: blocks are read and written in place; that the log and the buffers make this so is `Log` and `Buffers`, and `FileCrash` puts the two together for `filewrite`.
- Inodes are records and the inode blocks a table of them (`iupdate` copies an entry), except in `FileCrash`, where inode blocks are words with the size and addresses of each inode in its slot; link counts, types, `ialloc` and the in-memory inode table with its locks are not modelled.
- Fs.EmptyConsistent: the image that mkfs writes also has a root directory and files; those blocks are not in the lemma.
- Fs.FileSystem.WritePass: as for Writei, copies from user memory succeed.
- Fs.FileSystem.WriteBlocks: as for Writei, copies from user memory succeed.
- Fs.FileSystem.WriteRange: as for Writei, copies from user memory succeed.
- FileCrash.CrashInFileWrite: each transaction of `filewrite` commits by itself, not together with those of other processes; data blocks are lists of bytes and inode blocks lists of words.
- File.OpenFile.FileWrite: only inode files, with n not negative; pipes and devices go elsewhere.
- Directories and path names (`dirlookup`, `dirlink`, `namex`): they use `readi` and `writei` as modelled here.
- Vm.Walk: a page address is a page number, with 0 for the null pointer, and an entry is frame * 1024 + flags; TLB and satp are not modelled.
- Vm.UvmAlloc: sizes are those of a process whose pages below the old size are mapped and private, as the kernel keeps them; user memory ends below TRAPFRAME.
- Vm.UvmDealloc: the page count fits an int, that is, sizes below 2^43.
- Vm.MapPages: the range lies below MAXVA, beyond which `walk` panics.
- VmCopy.CopyOut: pages that the user may access are private frames, which the operations here keep; entries are not checked for PTE_W, as in the source.
- `kvminit`, `uvmfirst`, `uvmclear`, `proc_pagetable`, and page accounting of `allocproc` and `freeproc`.
- Umalloc.Allocator.Malloc: memory is a map from units to headers; other programs' calls of `sbrk` in the same process are not modelled, so grants are contiguous and the break is unit aligned; sizes do not reach 2^32 units.
- SleepLock.Always: one sleep lock; kill and each dispatch or preemption are single steps, and the number of CPUs is not bounded.  No liveness: a woken process may be overtaken for ever.
- Grep.Searcher.Grep: the files named on the command line are separate runs.
- Grep.Searcher.Read: a read error, which ends the loop like the end of the input, is not modelled.
- Shell.ParseCmd: `malloc` is taken to succeed; a panic ends the parse with its reason; running the tree (`runcmd`) is not modelled.
- Buffers.BufferedDisk.Bread: the wait for a buffer's sleep lock is left to the caller; reads and writes of the disk succeed.
- VirtioDisk.Disk.Submit: addresses, lengths and write flags of descriptors and the request header are not modelled; the device reports success and posts every head it takes once.
- BufCache.BCache.Bget: buffer contents are in `Buffers`, the sleep lock of a buffer is not modelled.
- Chunks.SendChunks: timeouts are an input; `receive_ack` has a path without a return value, which counts as nothing received; sockets that fail to send are not modelled.
- Chunks.ReceiveChunks: one message; packets of earlier messages that arrive late are not modelled, and no liveness is claimed, since repeated packets are not acknowledged again.
- Pipe.PipeBuffer.Read: copies to user memory are taken to succeed; a failed one would lose a byte.
- Pipe.PipeBuffer.Write: wakeups are not modelled, so nothing is said about who is woken.
- Mlfq.Machine.Trap: after the boost loop the source's `p` no longer denotes the current process; the later uses are taken to mean the current process, as without a boost.  Alarm handling is left out.
- Mlfq.Machine.Pick: one scheduler scans the table with nothing changing meanwhile; the truncation of `sys_time` to an int is not modelled.
- The lottery-like LBS scheduler, round robin, `fork`, `wait`, `exec`, system call wrappers, the console, drivers for UART and PLIC, traps in assembly, `mkfs`, the other user programs, and the tic-tac-toe network programs.
