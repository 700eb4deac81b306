# Verified models of an xv6-riscv kernel, its shell tools and its pipes

This project models the parts of the system whose correctness is hardest to see
from the code, and proves what they promise.

- **Write-ahead log over the buffer cache** (`LogAdmission`, `LogDisk`,
  `LogMachine`, `LogCode`, `LruPolicy`, `BufferCache`, `LogCache`).  The
  log, the cache with its pins and locks, the disk and crashes are one step
  machine; the main result is crash atomicity after any number of crashes at any
  block write, commits and recoveries included.  The code of log.c and bio.c is
  modelled beside it, with the history of every disk image a commit produces,
  and with the doubly linked LRU ring.  What is logged is durable from the commit on, however often the
  machine crashes, and it is proved exactly which operations can meet
  log_write's size panic.
- **Inode and block layer** (`FsLayout`, `FsOwnership`, `FsContents`, `FsCode`).
  Bitmap allocator, direct and indirect block map, truncation, readi and writei
  refine one flat byte sequence per file, with exclusive ownership of every
  block, inodes in the bytes of their blocks, and a bounded log footprint.
- **Sv39 page tables and the page allocator** (`Sv39`, `VmCode`).  The
  three-level tree in page memory refines a finite map from page number to
  entry, for all addresses below MAXVA (section 4.4 of the RISC-V Privileged
  Architecture); pages are conserved on success and failure paths, and growing
  and copying succeed exactly when the pages they need are free.
- **Blocking protocols** (`SleepLock`, `ExitWait`, `Monitor`, `Sleepers`).
  Interleaved steps of acquiresleep/releasesleep and of fork/exit/wait with
  sleep, wakeup and kill; no wakeup is lost and every child is reaped at most
  once, and neither protocol deadlocks.  `Monitor` proves the absence of lost
  wakeups for any shared state under a lock; `Sleepers` applies it to begin_op
  and to virtio_disk_rw.
- **The virtio disk queue** (`VirtioQueue`, `VirtioCode`).  Driver, device and
  interrupt handler share descriptors and two rings with wrapping 16-bit
  indices (sections 2.6 and 5.2 of the OASIS VIRTIO 1.1 specification); every
  virtio_disk_rw performs its transfer between call and return.
- **The user-level allocator** (`HeapModel`, `HeapCode`), **the shell's parser**
  (`ShellParser`, `ShellCode`, `ShellTokens`, `ShellPrint`), **grep's matcher**
  (`Grep`), **pipes** (`Pipe`) and **the priority pipe** (`PriorityPipe`).

Files named `...Code` (and the classes in `BufferCache`, `Pipe` and
`PriorityPipe`) follow the shape of the C code: mutable fields, arrays, linked
nodes and the code's own loops, proved against functions and predicates on
values.  The other files hold those values, the step machines and the theorems
over whole runs.  A panic is a result value, or a precondition where callers are
proved never to reach it.  A method that may sleep models the stretch up to the
first sleep; the processes that run meanwhile are other calls or other steps.

Some predicates and functions are recursive in a depth that proofs leave open,
although only depth zero says anything (`Folded`, `Counted`, `NeedIn`, `Growing`
and `Copying` in `VmCode`, `Amid` in `FsCode`, `Sound` in `HeapCode`, `Outcome`
in `ShellParser`, `Deep` in `ShellTokens`).  The recursion keeps the verifier
from unfolding a large definition everywhere; a lemma beside each opens it where
its parts are needed.

Places where the code does less than one would expect are stated exactly:

- log_write tests the header's size before it looks for the block, so a full
  header refuses even a block that is in it
  (`LogAdmission.PanicIffHeaderFull`).  An operation that keeps within its budget
  of ten blocks is safe in every interleaving exactly when all its calls but the
  last touch at most nine distinct blocks if log.size exceeds LOGSIZE, and at
  most eight with the log that mkfs makes, where the two are equal
  (`LogAdmission.OperationSafeIff`, failing run `LogAdmission.FullHeaderPanics`).
  One writei of up to three blocks' length logs its inode's block last and stays
  within that bound (`FsCode.WriteMeetsNoSizePanic`).
- bunpin to zero does not move the buffer and breaks the LRU order exactly when
  a buffer in front of it is free (`LruPolicy.StepInv`,
  `LruPolicy.UnpinToZeroBreaksLru`).  In this kernel it never happens:
  install_trans holds the buffer it unpins (`LogCache.UnpinNeverFrees`).
- A writer killed in the middle of a pipewrite returns without waking readers,
  exactly when a reader waits and the kill comes after the first byte and before
  the pipe is full or the write is over (`PipeCode.PipeFile.Write`,
  `PipeCode.StrandedReader`).
- sleep returns at once for a caller that holds its own p->lock; such a caller of
  acquiresleep spins for ever on a taken lock (`SleepLock.EarlyReturnIff`,
  `SleepLock.EarlyReturnSpinsForEver`).
- The priority pipe does not serve equal priorities in order of arrival
  (`PriorityModel.InsertStableIff`), although pqueue_push does.
- A read from a pipe loses one byte exactly when user memory ends before the
  bytes asked for and the bytes there are (`PipeCode.PipeFile.Drain`); a failed
  copy from the priority pipe loses the task already taken.
- The sector of a block number is taken in 32 bits, so blocks 2^31 apart share
  one (`VirtioQueue.SectorsApart`); morecore asks sbrk for less than it records
  exactly from 2^27 units on (`HeapCode.SbrkGetsTheSize`); pids are ints and come
  round again after 2^32 forks (`ExitWait.ReapedOnce`, `ExitWait.PidsComeRound`).
- The shell's limit of ten arguments allows nine (`ShellPrint.NineWordsAtMost`).

The repository's README describes a rate-monotonic scheduler (README:40-45) and
an append mode that always writes at the end (README:70); the live code does
neither, and neither is modelled.

## Model

| member | source | states |
|---|---|---|
| LogAdmission.AdmissionInvariant | kernel/log.c:126-235 | in every interleaving of begin_op, log_write and end_op, whether or not operations keep within their budgets: committing implies nothing outstanding, header entries are distinct, and the header fits LOGSIZE and the log |
| LogAdmission.RoomForCredits | kernel/log.c:126-175 | while every operation appends at most MAXOPBLOCKS blocks, header length plus the unspent credits of all admitted operations is at most LOGSIZE |
| LogAdmission.OperationNeverMeetsCommit | kernel/log.c:146-175 | in every run an operation in progress never meets a commit, so end_op's and log_write's "committing"/"outside of trans" panics are unreachable from inside one |
| LogAdmission.PanicIffHeaderFull | kernel/log.c:214-221 | in every run the size panic strikes exactly when the distinct blocks logged since the last commit fill the log's capacity (LOGSIZE or log.size - 1), also for a block that is in the header already |
| LogAdmission.CallsPassIff | kernel/log.c:214-235 | a list of log_write calls made without interruption passes if and only if header and all calls but the last together leave room for one more block |
| LogAdmission.FullHeaderPanics | kernel/log.c:214-221 | for every log.size above LOGSIZE, a run within all budgets in which an operation that has logged exactly ten blocks meets the panic on a block it has logged before |
| LogAdmission.CreditProtectsIff | kernel/log.c:214-221 | c unspent credits protect an operation from the size panic in every run within the budgets if and only if c exceeds LOGSIZE minus the capacity: one is needed with log.size above LOGSIZE, two with the log mkfs makes |
| LogAdmission.OperationSafeIff | kernel/log.c:126-235 | an operation that makes a given list of log_write calls never meets the size panic, in any interleaving with operations within their budgets, if and only if all its calls but the last touch fewer distinct blocks than the capacity leaves beside two full budgets; the failing direction is a run built from the list |
| LogDisk.HeaderRoundTrip | kernel/log.c:86-114 | read_head after write_head gives back the list of blocks, for every list that fits |
| LogDisk.InstallSpec | kernel/log.c:68-83 | install_trans copies exactly the logged blocks home: every other block keeps its contents |
| LogDisk.RecoverSpec | kernel/log.c:116-123 | uninterrupted recovery turns an image into exactly the home contents the image stands for, and empties the header |
| LogDisk.InstallOneKeeps | kernel/log.c:68-83 | installing any one logged block does not change what the image stands for, so recovery may be cut short anywhere and repeated |
| LogDisk.LogBlockWriteKeeps | kernel/log.c:178-191 | writing a log data block while the header is empty does not change what the image stands for |
| LogDisk.CommitPoint | kernel/log.c:193-203 | with the log blocks in place, the one header write moves the image from the old home contents to the new ones all at once |
| LogDisk.ClearHeader | kernel/log.c:193-203 | erasing the header of a fully installed image keeps what it stands for |
| LogMachine.StepInv | kernel/log.c:126-235 | each of the buffer, operation, commit, crash and recovery steps keeps the joint invariant of log, cache and disk |
| LogMachine.RunInv | kernel/log.c:126-235 | the joint invariant holds in every state of every run, with any number of crashes |
| LogMachine.CrashAtomicity | kernel/log.c:68-123 | stop any run at any block write, in a commit or in a recovery: recovery then restores every home block to the last committed contents |
| LogMachine.ContentsAreReplay | kernel/log.c:193-235 | in every run the logged contents are exactly the effect of the log_write calls, in order, on what was committed at the last crash, and the committed contents exactly what was logged at the last header write |
| LogMachine.CommitIsTheHeaderWrite | kernel/log.c:193-203 | the commit's header write, and no other step, changes the committed contents, to everything logged so far, with no operation in progress: no operation is committed in part |
| LogMachine.LogicalChangesOnlyByLogWrite | kernel/log.c:214-235 | log_write of a held buffer inside an operation makes the buffer's data the logged contents of its block, leaves the buffer's data alone and puts the block in the header; a crash takes the logged contents back to the committed ones; no other step changes them |
| LogMachine.WriteIsDurable | kernel/log.c:68-235 | end to end: data put into a held buffer and passed to log_write by one operation, with a header write before the next crash and the next log_write of that block, is what recovery finds in the block after any number of later crashes, until the block is logged again |
| LogMachine.LastEndCommits | kernel/log.c:146-175 | the last end_op, and no other step, starts a commit, of everything logged |
| LogMachine.HolderIsLastLocker | kernel/bio.c:58-137 | in every run the holder of a buffer is the last process that locked it and has not released it since |
| LogMachine.BreadIsTransparent | kernel/bio.c:92-103 | in every run the buffer bread hands out, cached or read from disk, holds the last logged contents of its block |
| LogMachine.PinnedBlocksStayCached | kernel/bio.c:139-151 | in every run no block has two buffers, and a logged block keeps a valid referenced buffer until install_trans has written it home |
| LogMachine.CommitInstalls | kernel/log.c:193-203 | when a commit has erased the header, every home block on disk is as committed |
| LogMachine.RecoveryRestores | kernel/log.c:116-123 | when recovery ends every home block on disk is as committed and the header is empty |
| LogCode.Log.constructor | kernel/log.c:54-65 | initlog: from any disk that stands for h, the log is idle, nothing is cached, h is home, and every image written on the way stands for h |
| LogCode.Log.WriteHead | kernel/log.c:102-114 | the header loop writes exactly the in-memory list into the header block and leaves the other words |
| LogCode.Log.ReadHead | kernel/log.c:86-97 | the loop reads back the list the disk's header holds |
| LogCode.Log.InstallOne | kernel/log.c:68-83 | one round: block installed and unpinned, the image after it still stands for the same contents |
| LogCode.Log.InstallTrans | kernel/log.c:68-83 | every disk image on the way stands for the same contents and at the end they are home |
| LogCode.Log.WriteLog | kernel/log.c:178-191 | every image on the way stands for the old contents; the log blocks end up equal to the cached blocks |
| LogCode.Log.WriteTransaction | kernel/log.c:193-203 | all images up to the header write stand for the old contents, the last one for the new |
| LogCode.Log.InstallAndErase | kernel/log.c:193-203 | all later images stand for the new contents; the log is empty again |
| LogCode.Log.Commit | kernel/log.c:193-203 | crash atomicity of the code of commit: its write history splits into images of the old contents and then images of the new contents, with nothing between |
| LogCode.Log.RecoverFromLog | kernel/log.c:116-123 | from any image standing for h, every image written stands for h and h is home at the end |
| LogCode.Log.TryBeginOp | kernel/log.c:126-142 | admits exactly when not committing and the reserved blocks of all operations fit LOGSIZE |
| LogCode.Log.Find | kernel/log.c:214-235 | the search loop returns the absorbing entry or the end, and then the block is not in the list |
| LogCode.Log.LogWrite | kernel/log.c:214-235 | for any block and any operation in progress, within its budget or not: panics exactly on the size test (made before absorption), never "outside of trans", else records the block once and pins its contents |
| LogCode.Log.RecordBlock | kernel/log.c:214-235 | absorbing or appending in the array is adding to a set-like list; the transaction stays consistent |
| LogCode.Log.EndOp | kernel/log.c:146-175 | only the last operation commits; then the images written stand for the old contents up to the header write and for the new ones from it on, and the cache is empty; otherwise disk and cache are as before |
| LruPolicy.StepBase | kernel/bio.c:58-151 | each cache operation keeps the list a permutation of the same buffers and one buffer per block of a device other than 0 |
| LruPolicy.StepInv | kernel/bio.c:58-151 | each cache operation keeps the order by time of becoming free, except a bunpin to zero behind a free buffer, and that one breaks it |
| LruPolicy.RunBase | kernel/bio.c:58-151 | permutation and uniqueness over every run |
| LruPolicy.RunInv | kernel/bio.c:58-151 | the order over every run in which no bunpin frees a buffer behind a free one |
| LruPolicy.VictimIsLeastRecent | kernel/bio.c:58-89 | in an ordered list the buffer bget recycles is the least recently released one among the free ones |
| LruPolicy.UnpinToZeroBreaksLru | kernel/bio.c:146-151 | for any number of buffers, a run from binit after which bget recycles the buffer freed last instead of first |
| LogCache.UnpinNeverFrees | kernel/bio.c:146-151 | in every run of log, cache and crashes the bunpin of install_trans leaves the buffer referenced |
| LogCache.OpAllowed | kernel/bio.c:58-151 | every step of the log machine finds its operation on the LRU list possible, and none of them breaks the order |
| LogCache.StepInv | kernel/log.c:68-235 | the machine with its LRU list: after each step the list still shows every buffer's block, valid flag and count, and is ordered, with no side condition |
| LogCache.RunInv | kernel/log.c:68-235 | the same over every run from boot, with any number of crashes |
| LogCache.RecyclesLeastRecent | kernel/bio.c:58-89 | in every such run the buffer that a miss recycles is free, and no free buffer's last use lies further back |
| BufferCache.Bcache.constructor | kernel/bio.c:36-53 | the ring built by pushing every buffer to the front is well linked and stands for the initial list of the policy |
| BufferCache.Bcache.PushFront | kernel/bio.c:36-53 | linking in after the sentinel prepends to the list the ring stands for |
| BufferCache.Bcache.Unlink | kernel/bio.c:116-137 | taking a buffer out of the doubly linked ring removes exactly it |
| BufferCache.Bcache.Bget | kernel/bio.c:58-89 | returns the policy's choice, and none exactly when no buffer is for the block and all are referenced (the "no buffers" panic); in the buffers themselves: a hit keeps its valid flag and gains a reference, a miss re-labels a free buffer as invalid with one reference, every other buffer is untouched |
| BufferCache.Bcache.Bread | kernel/bio.c:92-103 | hands out a valid referenced buffer for the block; the disk is read exactly when no valid buffer held it |
| BufferCache.Bcache.FindCached | kernel/bio.c:58-89 | the forward scan finds the first buffer for the block or none exists |
| BufferCache.Bcache.FindFree | kernel/bio.c:58-89 | the backward scan finds the last free buffer or none exists |
| BufferCache.Bcache.Reuse | kernel/bio.c:58-89 | re-labels one buffer as invalid with one reference and touches no other |
| BufferCache.Bcache.Brelse | kernel/bio.c:116-137 | panics exactly when the caller does not hold the buffer; else one reference less, and the code on the linked structure computes the policy's release: the same buffers, the freed one moved to the front |
| BufferCache.Bcache.Retire | kernel/bio.c:116-137 | the move to the front of a buffer with no references left, seen through the ring |
| BufferCache.Bcache.ToFront | kernel/bio.c:116-137 | unlink and relink keep a well-linked permutation with b first and the others in order |
| BufferCache.Bcache.Bpin | kernel/bio.c:139-144 | one more reference, no reordering |
| BufferCache.Bcache.Bunpin | kernel/bio.c:146-151 | one reference less, no reordering even at zero |
| BlockBytes.SetBitAtSpec | kernel/fs.c:65-88 | OR-ing the mask into the bitmap byte sets that block's bit and no other bit of the block |
| BlockBytes.ClearBitAtSpec | kernel/fs.c:91-105 | AND-ing the complement clears that bit and no other |
| BlockBytes.SetWordAtSpec | kernel/fs.c:382-421 | storing an address in an indirect block changes that entry and no other, through little-endian bytes |
| BlockBytes.StoreInode | kernel/fs.c:225-241 | the field-by-field stores of iupdate: reading inode k of the block back gives exactly the inode stored, and no byte outside its 64 changes |
| BlockBytes.OtherInodes | kernel/fs.c:225-241 | so the other fifteen inodes of the block keep every field |
| BlockBytes.DinodeLayout | kernel/fs.h:32-39 | the fields of an inode at their byte offsets in struct dinode |
| FsOwnership.OwnIsInjective | kernel/fs.c:382-453 | under the ownership invariant no block is referred to twice across all inodes and indirect blocks, and every referred block is a marked data block |
| FsOwnership.MarkedIsUsed | kernel/fs.c:65-105 | the blocks marked in the bitmap are exactly the metadata and the blocks some inode or indirect block refers to |
| FsOwnership.AllocMarks | kernel/fs.c:65-88 | balloc's change sets the bit of that block and no other |
| FsOwnership.AllocZeroes | kernel/fs.c:50-59 | it zeroes the block and leaves every block but it and its bitmap block as it was |
| FsOwnership.FreeMarks | kernel/fs.c:91-105 | bfree's change clears the bit of that block and no other |
| FsOwnership.LinkAddr | kernel/fs.c:382-421 | bmap storing a fresh block in an empty address keeps the ownership invariant |
| FsOwnership.LinkEntry | kernel/fs.c:382-421 | bmap storing a fresh block in an empty entry of the indirect block keeps it |
| FsOwnership.FreeDirect | kernel/fs.c:425-453 | itrunc freeing and clearing a direct address keeps it |
| FsOwnership.FreeEntry | kernel/fs.c:425-453 | itrunc freeing an entry of the indirect block keeps it |
| FsOwnership.FreeIndirect | kernel/fs.c:425-453 | itrunc freeing the indirect block itself keeps it |
| FsOwnership.InodeWriteKeepsOwn | kernel/fs.c:225-241 | writing an inode block changes no bitmap bit, no reference and no owner |
| FsContents.WriteByte | kernel/fs.c:505-539 | copying bytes into a mapped block changes those bytes of that file and no byte of any file besides |
| FsContents.WritingStep | kernel/fs.c:505-539 | one round of writei extends the written prefix of the splice by the bytes of that block |
| FsContents.WritingEnds | kernel/fs.c:505-539 | setting the size makes the file exactly the spliced sequence and keeps it hole-free |
| FsContents.SpliceBytes | kernel/fs.c:505-539 | the splice that writei refines, byte by byte: the new bytes where they go, the old ones everywhere else, no hole, and its length |
| FsCode.FootprintBound | kernel/fs.c:505-539 | before it comes to its inode's block, a write of at most 3*BSIZE bytes logs at most nine distinct blocks: four data, the indirect block, and up to four bitmap blocks but no more than the disk has |
| FsCode.WriteMeetsNoSizePanic | kernel/fs.c:505-539 | such a write, as one operation, never meets log_write's size panic in any interleaving within the budgets: for log.size above LOGSIZE always, and with the log mkfs makes on every disk of at most three bitmap blocks |
| FsCode.FileSystem.Balloc | kernel/fs.c:65-88 | on any bitmap: the lowest unmarked block, marked and zeroed, and which blocks are logged; 0 and no change exactly when every block is marked (0 too when block 0 itself was unmarked) |
| FsCode.FileSystem.Bfree | kernel/fs.c:91-105 | panics exactly on an unmarked block, else clears that bit only |
| FsCode.FileSystem.Iupdate | kernel/fs.c:225-241 | afterwards the inode read from its block is the one in memory, every other inode on disk and every other block before the bitmap is as before, and ownership and the contents of all files are kept |
| FsCode.FileSystem.MapAddr | kernel/fs.c:382-421 | fills one address if empty; ownership, the contents of all files, the inodes on disk and every other address are kept; no change when the disk is full |
| FsCode.FileSystem.MapEntry | kernel/fs.c:382-421 | the same for one entry of the indirect block |
| FsCode.FileSystem.Bmap | kernel/fs.c:382-421 | the block holding block bn of the file, allocating at most what is missing; on mapped blocks nothing changes and nothing is logged; says exactly which blocks are logged and in which order; no inode but this one changes, and it only in size and addresses; every block changed is logged |
| FsCode.FileSystem.Itrunc | kernel/fs.c:425-453 | never panics; the file is empty in memory and on disk, exactly its blocks are given up, all other files keep their bytes and their inodes in memory and on disk; the inode keeps its type, numbers and links; every block changed is logged, and before the bitmap only the inode's own block changes |
| FsCode.FileSystem.FreeDirects | kernel/fs.c:425-453 | the loop over direct addresses empties them without touching other files |
| FsCode.FileSystem.FreeAddr | kernel/fs.c:425-453 | bfree of an owned direct block succeeds and only that address is cleared |
| FsCode.FileSystem.FreeEntries | kernel/fs.c:425-453 | all entries and then the indirect block are freed, other files untouched |
| FsCode.FileSystem.Readi | kernel/fs.c:471-496 | equals the slice of the flat byte sequence, cut at the end of file, with uint wrap-around of off + n; allocates and logs nothing on a hole-free file |
| FsCode.FileSystem.ReadBlock | kernel/fs.c:471-496 | one round yields the next slice within one block |
| FsCode.FileSystem.Writei | kernel/fs.c:505-539 | refines splice on the flat byte sequence across direct and indirect blocks, short only when the disk is full; -1 exactly on a bad range; the size becomes max(size, off + r) and the inode keeps its type, numbers and links; other files and inodes unchanged in memory and on disk, files stay hole-free, the inode on disk is the new one; every block changed is logged, before the bitmap only the inode's own; log calls within the footprint for up to 3*BSIZE bytes |
| FsCode.FileSystem.WriteRounds | kernel/fs.c:517-531 | the loop: more and more of the splice is done and the calls to log_write are accounted for; ends early only when the disk is full |
| FsCode.FileSystem.WriteRound | kernel/fs.c:505-539 | one round: more of the splice is done and the log footprint accounting still holds; stops only when the disk is full |
| FsCode.FileSystem.WriteBlock | kernel/fs.c:505-539 | bmap, copy and log_write of the bytes that fall into one block |
| FsCode.FileSystem.FinishWrite | kernel/fs.c:533-539 | the size update and iupdate complete the splice, change nothing else of the inode, and bring the inode on disk up to date |
| FsCode.FileSystem.WriteThenRead | kernel/fs.c:471-539 | reading back after a write gives exactly the bytes written, also when the write was short |
| Sv39.PteBits | kernel/riscv.h:366-371 | on 64-bit words: PTE2PA and PTE_FLAGS give back address and flags of an entry made with PA2PTE for a page-aligned address |
| Sv39.PteWord | kernel/riscv.h:366-371 | taken apart into page number and flags, such a 64-bit entry is the entry the page-table model makes |
| Sv39.PteTests | kernel/riscv.h:360-371 | on every 64-bit word the tests for PTE_V, for a leaf and for a pointer to a table are the model's tests |
| Sv39.PxInjective | kernel/riscv.h:374-382 | the three 9-bit indices determine the page number, for all va below MAXVA |
| Sv39.TranslateIsLeaf | kernel/vm.c:85-103 | the three-level walk of a well-formed tree finds exactly the last-level entry at that position |
| Sv39.SetLeaf | kernel/vm.c:143-172 | writing one last-level entry changes the translation of that page and of no other page of any table |
| Sv39.AddTable | kernel/vm.c:85-103 | hanging a zeroed page under an empty entry keeps the tree well formed and changes no translation |
| Sv39.RemoveTable | kernel/vm.c:278-294 | removing a table page without subtrees leaves one dangling entry and an otherwise well-formed tree |
| Sv39.ClearEntry | kernel/vm.c:278-294 | clearing that entry makes the tree well formed again |
| Sv39.AddRoot | kernel/vm.c:203-212 | a zeroed page becomes the root of a new table without disturbing the others |
| VmCode.Vm.ViewIsTranslation | kernel/vm.c:85-103 | what the hardware finds by walking is what the finite map holds, in both directions |
| VmCode.Vm.constructor | kernel/kalloc.c:26-40 | every page from the end of the kernel up is on the free list, once |
| VmCode.Vm.Kalloc | kernel/kalloc.c:68-82 | pops the head of the free list filled with junk; 0 exactly when it is empty; no data page changes |
| VmCode.Vm.Kfree | kernel/kalloc.c:46-63 | refuses a page outside the managed range; else the page, filled with junk, heads the free list and nothing owned changes |
| VmCode.Vm.Walk | kernel/vm.c:85-103 | returns the table page for the entry; fails without alloc exactly when a table is missing, with alloc exactly when fewer pages are free than tables are missing, of which it takes no more; mappings never change |
| VmCode.Vm.WalkDown | kernel/vm.c:85-103 | one level of the descent |
| VmCode.Vm.NewTable | kernel/vm.c:85-103 | a new zeroed table is hung in or memory is out; pages are conserved |
| VmCode.Vm.MapOne | kernel/vm.c:143-172 | adds one entry to the finite map, or reports a remap exactly when the page was mapped |
| VmCode.Vm.Mappages | kernel/vm.c:143-172 | updates exactly the named range of the finite map, or a prefix of it when it fails; each failure has its exact cause; on success exactly the missing tables leave the free list, and it runs out of memory only when fewer pages were free than tables were missing |
| VmCode.Vm.MapLoop | kernel/vm.c:143-172 | the loop in pages, with the prefix it has mapped |
| VmCode.MapRangeAt | kernel/vm.c:143-172 | the map that mappages leaves, page by page: consecutive pages with the flags asked for and PTE_V in the range, everything else as before |
| VmCode.Vm.UnmapOne | kernel/vm.c:177-199 | removes one mapping and, if asked, returns the page; panics exactly on an unmapped or non-leaf entry |
| VmCode.Vm.Uvmunmap | kernel/vm.c:177-199 | removes exactly the named range; succeeds if and only if the address is aligned and every page of the range is a mapped leaf |
| VmCode.Vm.Uvmdealloc | kernel/vm.c:262-274 | removes exactly the pages above the new size and frees their pages |
| VmCode.Vm.Uvmalloc | kernel/vm.c:232-256 | grows if and only if the free list has the pages and the missing tables for them, and then maps fresh zeroed pages with PTE_R, PTE_U and xperm over exactly the growth; on failure every data page taken is returned and the map is as before |
| VmCode.Vm.GrowLoop | kernel/vm.c:240-255 | the loop in pages, with the exact number of pages it takes |
| VmCode.MissingBound | kernel/vm.c:85-103 | a range lacks at most two tables per page, so three free pages per page always suffice |
| VmCode.MissingStep | kernel/vm.c:85-103 | mapping page by page takes together exactly the tables the whole range lacked at the start |
| VmCode.Vm.GrowOne | kernel/vm.c:240-254 | one round of the loop: a fresh zeroed page is mapped at the next address, exactly when there was memory for the range so far and this page; otherwise every page added since the start is given back and the map is as at the start |
| VmCode.Vm.GrowThenShrink | kernel/vm.c:232-274 | uvmalloc followed by uvmdealloc back to the old size restores every mapping and every data page's owner, whether or not memory ran out |
| VmCode.Vm.Shrink | kernel/vm.c:232-256 | uvmalloc's error path restores map and ownership |
| VmCode.Vm.MapFresh | kernel/vm.c:232-256 | kalloc, fill and mappages of one page, exactly when a page and the missing tables are free; undone when mapping fails |
| VmCode.Vm.Uvmcreate | kernel/vm.c:203-212 | a new root with no mappings, or 0 exactly when the free list is empty |
| VmCode.Vm.Uvmcopy | kernel/vm.c:312-340 | succeeds if and only if the free list has the pages and the missing tables for them; then the child's pages are fresh copies with the same contents and flags; on failure the child's map and every page are as before |
| VmCode.Vm.CopyOne | kernel/vm.c:312-340 | one page of the copy, exactly when there was memory for all so far and it |
| VmCode.Vm.FreeTable | kernel/vm.c:278-294 | a table page without subtrees goes back to the free list |
| VmCode.Vm.Freewalk | kernel/vm.c:278-294 | frees exactly the table pages at and below p, recursively, each once |
| VmCode.Vm.ClearPointer | kernel/vm.c:278-294 | the entry of a freed subtree is cleared and the tree is well formed |
| VmCode.Vm.FreeData | kernel/vm.c:298-304 | the data pages below sz go back |
| VmCode.Vm.Uvmfree | kernel/vm.c:298-304 | with no leaves above sz: all data and table pages of that table are back on the free list, nothing of it is left, other tables are untouched |
| VmCode.Returned | kernel/vm.c:298-304 | page conservation: the pages that left tables and owners are exactly those that came back to the list |
| SleepLock.StepInv | kernel/proc.c:645-717 | every step of acquiresleep, sleep with its early return, releasesleep's wakeup scan and kill, and of processes taking and dropping their own p->lock, keeps the protocol invariant |
| SleepLock.RunInv | kernel/sleeplock.c:21-41 | the invariant holds in every state of every interleaving |
| SleepLock.MutualExclusion | kernel/sleeplock.c:21-41 | at most one process owns the sleeplock, and it is the recorded one |
| SleepLock.NobodyLeftAsleep | kernel/sleeplock.c:33-41 | no lost wakeup: unlocked and no releaser inside its scan implies nobody sleeps on the lock or is about to |
| SleepLock.HoldingIsOwning | kernel/sleeplock.c:43-52 | holdingsleep tells exactly whether the caller is between acquiring and releasing, in every run |
| SleepLock.OwnerIsLastTaker | kernel/sleeplock.c:21-41 | in every run the recorded owner is the last process that took the lock and has not released it since, and only the owner releases |
| SleepLock.NoDeadlock | kernel/proc.c:645-717 | whenever a process is on its way through acquiresleep, sleep or releasesleep and none came with its own p->lock held, some process can take its next step, or the owner is still using the lock |
| SleepLock.EarlyReturnIff | kernel/proc.c:645-661 | in every run sleep takes its early return exactly for a caller that came to acquiresleep holding its own p->lock; every other caller goes on to sleep |
| SleepLock.EarlyReturnSpinsForEver | kernel/proc.c:645-661 | such a caller that finds the lock taken spins in every continuation: the owner stays the owner, lk->lk stays taken and no releasesleep gets in |
| SleepLock.SelfLockedCaller | kernel/proc.c:645-661 | a concrete run that gets there |
| ExitWait.StepInv | kernel/proc.c:340-451 | every step of fork's parent/state changes, reparent, exit, wait, sleep, wakeup and kill keeps the protocol invariant |
| ExitWait.RunInv | kernel/proc.c:340-451 | the invariant holds in every state of every interleaving |
| ExitWait.WaiterHasNoExitedChild | kernel/proc.c:406-451 | whenever wait_lock is free, no process asleep in wait (or committed to sleeping) has a ZOMBIE child, children handed to init included |
| ExitWait.ZombieHasLivingParent | kernel/proc.c:340-401 | every ZOMBIE has a living parent that has not yet given it away, so it can still be reaped |
| ExitWait.ReapedOnce | kernel/proc.c:406-451 | no child is ever returned by two successful waits and no returned one is still in the table; as ints two pids returned are the same exactly when they were given out a multiple of 2^32 apart, so all differ while at most 2^32 are given out |
| ExitWait.PidsComeRound | kernel/proc.c:90-102 | a concrete run, of 2^32 + 1 forks, exits and waits, in which wait returns the same int twice |
| ExitWait.PidsConserved | kernel/proc.c:90-175 | in every run the pids given out are exactly those in the table, those returned by wait and those of failed forks |
| ExitWait.WaitReturnsOwnZombie | kernel/proc.c:406-451 | what wait returns is the pid of a ZOMBIE child of the caller, whose slot is then free |
| ExitWait.ParentChanges | kernel/proc.c:280-451 | a process's parent is set by the fork that makes it, becomes init only when the parent exits, and is cleared only when the parent's wait collects it |
| ExitWait.ExitedHasNoChildren | kernel/proc.c:340-401 | no process has a ZOMBIE for a parent |
| ExitWait.NoDeadlock | kernel/proc.c:280-451 | no deadlock between wait_lock and the p->locks: whenever a process is inside fork, exit or wait and not asleep there, some process can take its next step |
| ExitWait.NoKidsMeansNoChildren | kernel/proc.c:406-451 | a scan that ends without having seen a child means there is none |
| Monitor.StepInv | kernel/proc.c:645-693 | for any shared state and condition: if only steps followed by a wakeup end the blocking, every step of sleep, wakeup, kill and the state's users keeps "a sleeper is blocked or about to be woken" |
| Monitor.SleeperHasReason | kernel/proc.c:645-693 | the same over every run: no lost wakeup under that discipline |
| Sleepers.LogQuiet | kernel/log.c:126-175 | of begin_op, log_write, end_op and the end of a commit, only those followed by wakeup(&log) can make room in the log |
| Sleepers.BeginOpSleepsForRoom | kernel/log.c:126-175 | in every run a process asleep on &log could not be admitted, or is about to be woken |
| Sleepers.IdleLogHasNoSleepers | kernel/log.c:126-175 | with nothing outstanding and no commit or scan going on, nobody sleeps on &log |
| Sleepers.DescriptorSleeperHasReason | kernel/virtio_disk.c:169-234 | in every run whoever sleeps on &disk.free[0] finds no three descriptors free, or is about to be woken |
| Sleepers.BufferSleeperHasReason | kernel/virtio_disk.c:282-327 | in every run whoever sleeps on its buffer still has the request with the device, or is about to be woken |
| VirtioQueue.LowestFree | kernel/virtio_disk.c:156-166 | the lowest free descriptor, or none is free |
| VirtioQueue.NoThreeFree | kernel/virtio_disk.c:201-213 | alloc3_desc's choice exists whenever any three descriptors are free |
| VirtioQueue.QueuePush | kernel/virtio_disk.c:267-281 | writing the next ring slot never overwrites a queued head, across 16-bit index wrap |
| VirtioQueue.QueuePop | kernel/virtio_disk.c:294-327 | the slot at the consumer's index holds the oldest queued head |
| VirtioQueue.QueueEmpty | kernel/virtio_disk.c:294-327 | comparing the wrapped indices tells exactly whether the ring is empty |
| VirtioQueue.StepInv | kernel/virtio_disk.c:215-327 | each driver, device and interrupt step keeps the queue invariant |
| VirtioQueue.RunInv | kernel/virtio_disk.c:215-327 | the invariant holds in every run, with completions in any order |
| VirtioQueue.FreeOrInOneChain | kernel/virtio_disk.c:156-197 | every descriptor is free or in exactly one three-element chain, and that chain is linked in memory |
| VirtioQueue.RingsNotOverrun | kernel/virtio_disk.c:267-327 | between the indices of either ring lie exactly the queued heads, at most NUM, and the entry being prepared is outside them |
| VirtioQueue.ReapClearsOwnBuffer | kernel/virtio_disk.c:294-327 | a completion clears b->disk of exactly its own request's buffer, which was set; the status panic happens exactly when the request's sector is not on the device |
| VirtioQueue.ServedAndClearedOnce | kernel/virtio_disk.c:215-327 | each request is served at most once and cleared at most once, after being served |
| VirtioQueue.FinishAfterService | kernel/virtio_disk.c:282-292 | virtio_disk_rw goes on only after its own request was served and cleared, and the chain it frees is allocated, so free_desc's panics are unreachable |
| VirtioQueue.DeviceDoesTheRequest | kernel/virtio_disk.c:215-268 | the descriptors in memory make the device transfer exactly the buffer and direction asked for, at the sector that is twice the block number in 32 bits |
| VirtioQueue.RwEndToEnd | kernel/virtio_disk.c:215-292 | between call and return of virtio_disk_rw the device completes that request, on a sector that exists: a write puts the buffer as it was at the call into the sector, a read returns with the buffer holding the sector |
| VirtioQueue.SectorsApart | kernel/virtio_disk.c:215-218 | two blocks share a sector exactly when they differ by a multiple of 2^31, and the sector is twice the block number exactly below 2^31 |
| VirtioQueue.HeadsAreUsable | kernel/virtio_disk.c:294-327 | heads taken by the device or seen by the handler always name live, fully formatted chains |
| VirtioCode.DriverMayRun | kernel/virtio_disk.c:156-327 | reachable states meet the preconditions of the driver's functions below |
| VirtioCode.Disk.constructor | kernel/virtio_disk.c:61-153 | all descriptors free and zeroed, rings empty |
| VirtioCode.Disk.AllocDesc | kernel/virtio_disk.c:156-166 | takes the lowest free descriptor, or -1 when there is none |
| VirtioCode.Disk.FreeDesc | kernel/virtio_disk.c:169-182 | zeroes and frees an allocated descriptor, nothing else |
| VirtioCode.Disk.FreeChain | kernel/virtio_disk.c:185-197 | following next frees exactly the three descriptors of the chain and stops |
| VirtioCode.Disk.GiveBack | kernel/virtio_disk.c:201-213 | the inner loop undoes the partial allocation completely |
| VirtioCode.Disk.Alloc3Desc | kernel/virtio_disk.c:201-213 | three descriptors or none: failure leaves memory exactly as it was |
| VirtioCode.Disk.WriteChain | kernel/virtio_disk.c:236-265 | the three descriptors encode the request |
| VirtioCode.Disk.Announce | kernel/virtio_disk.c:267-281 | buffer recorded, head put in the next ring slot, 16-bit index advanced |
| VirtioCode.Disk.Submit | kernel/virtio_disk.c:215-281 | virtio_disk_rw up to its first wait is the protocol's prepare and announce steps |
| VirtioCode.Disk.Finish | kernel/virtio_disk.c:282-292 | the end of virtio_disk_rw is the protocol's finish step |
| VirtioCode.Disk.Intr | kernel/virtio_disk.c:294-327 | the handler's loop clears b->disk of exactly the buffers of the queued completions and catches up with the device's index, or panics at the first request the device could not serve, with exactly those before it dealt with |
| VirtioCode.CompletionArrives | kernel/virtio_disk.c:294-327 | a completion that arrives while the handler is at work joins what is left to do and disturbs nothing done |
| HeapModel.BlocksApart | user/umalloc.c:24-90 | no two blocks, free or live, share a unit |
| HeapModel.UnitsAreBlocks | user/umalloc.c:24-90 | every unit obtained from sbrk is in a block and every unit of a block was obtained: nothing leaks |
| HeapModel.ListApart | user/umalloc.c:24-44 | free blocks are disjoint and in address order round the list |
| HeapModel.FreedMem | user/umalloc.c:24-44 | free's two header updates are an insertion followed by joining with both neighbours where adjacent |
| HeapModel.FreedCoalesced | user/umalloc.c:24-44 | free keeps the list fully coalesced |
| HeapModel.FreedKeeps | user/umalloc.c:24-44 | free gives up exactly that block, conserves every unit and writes nothing inside another live block |
| HeapModel.FreedCovers | user/umalloc.c:24-44 | afterwards a free block at least as large as the freed one exists |
| HeapModel.TakenValid | user/umalloc.c:63-90 | handing out a whole block or its tail keeps the heap sound and coalesced |
| HeapModel.TakenKeeps | user/umalloc.c:63-90 | the block handed out was free, is disjoint from all live ones, units are conserved and no live block is written |
| HeapModel.GrowValid | user/umalloc.c:46-61 | a fresh region above everything keeps the heap sound |
| HeapModel.FreeUndoesMalloc | user/umalloc.c:24-90 | freeing the block malloc has just handed out, whole or tail, restores the free list with every header on it, the live blocks and the owner of every unit |
| HeapCode.UnitsEnough | user/umalloc.c:63-70 | the rounding gives the least number of units that holds a header and nbytes |
| HeapCode.SbrkGetsTheSize | user/umalloc.c:46-56 | the int that sbrk receives is the size morecore records exactly below 2^27 units |
| HeapCode.Allocator.FindPlace | user/umalloc.c:24-32 | the circular search terminates at the one entry after which the block belongs |
| HeapCode.Allocator.Free | user/umalloc.c:24-44 | live blocks lose exactly the freed one; list circular, address-ordered and coalesced; units conserved; other live blocks untouched; freep becomes the entry before the freed block |
| HeapCode.Allocator.Splice | user/umalloc.c:33-43 | the code on the linked structure computes the two header updates |
| HeapCode.Allocator.Morecore | user/umalloc.c:46-61 | adds nu units, or 4096 if that is more, when sbrk succeeds, and then some free block has nu units; changes nothing when it fails |
| HeapCode.Allocator.Take | user/umalloc.c:74-85 | exact fit or tail, as the model's choice; freep becomes the entry before the block |
| HeapCode.Allocator.Search | user/umalloc.c:74-89 | the block is cut from the first one, going round from freep, that is large enough, and freep becomes the entry before it; terminates after at most one morecore, which happens only when nothing fits |
| HeapCode.Allocator.Malloc | user/umalloc.c:63-90 | returns 0 exactly when nothing fits and sbrk fails, else a new live block, first fit from freep, disjoint from all others; grows the heap at most once, only when nothing fits |
| ShellParser.GetToken | user/sh.c:266-309 | the cursor only moves forward, every token but the end is non-empty, and NUL means end of line |
| ShellParser.ParseLine | user/sh.c:345-360 | the mutual recursion of the parser terminates on every line; the cursor stays inside the line |
| ShellParser.TokenIsWord | user/sh.c:266-309 | a word token is a maximal run of word characters |
| ShellParser.LineSpans | user/sh.c:345-447 | every argument and file name in a parsed command is a whole word of the line |
| ShellTokens.NothingLost | user/sh.c:328-447 | for every line that parses: read from left to right the command has exactly the line's arguments and operators, in order, and exactly its redirections and operators, in order, wherever redirections stand among the arguments |
| ShellTokens.ArgsItems | user/sh.c:430-446 | the same for parseexec's loop from any command so far: what it reads is appended, in order, and the result is still one EXEC node inside redirections |
| ShellPrint.LineTrip | user/sh.c:345-447 | a printed command parses back to itself anywhere in a line, up to the end or a closing parenthesis |
| ShellPrint.RoundTrip | user/sh.c:328-447 | for every tree with at most nine good words per EXEC node, parsing its printing with as few parentheses as possible gives the same tree: | binds tighter than &, & tighter than ;, | and ; nest to the right, redirections belong to the command they follow |
| ShellPrint.NineWordsAtMost | user/sh.c:416-447 | a simple command of good words parses if and only if it has at most nine; otherwise the "too many args" panic |
| ShellParser.WordsSurviveTermination | user/sh.c:449-494 | no NUL written by nulterminate lands inside any word; every word becomes a C string of its own |
| ShellCode.Parser.Gettoken | user/sh.c:266-309 | the loops compute the token function and advance the cursor |
| ShellCode.Parser.PeekAt | user/sh.c:311-321 | skips white space and tells whether the next character is in the set |
| ShellCode.Parser.ParseRedirs | user/sh.c:375-398 | the loop nests one REDIR per redirection, with the kind of its operator; a missing file name panics |
| ShellCode.Parser.ParseArgs | user/sh.c:430-446 | the loop collects words and redirections, with the syntax and too-many-args panics |
| ShellCode.Parser.ParseExecCmd | user/sh.c:416-447 | a block or a simple command, as the parse function says |
| ShellCode.Parser.ParseBlockCmd | user/sh.c:400-414 | a parenthesised line with its redirections, or the panic that applies |
| ShellCode.Parser.ParsePipeCmd | user/sh.c:362-373 | right-nested pipelines |
| ShellCode.Parser.ParseLineCmd | user/sh.c:345-360 | background marks and right-nested lists |
| ShellCode.Parser.ParseCommand | user/sh.c:328-343 | the whole line or the leftovers panic |
| ShellCode.Nulterminate | user/sh.c:449-494 | NUL at the end of every word of the command and nowhere else |
| ShellCode.Parsecmd | user/sh.c:328-343 | after success each word of the result is a C string in place; after a panic the buffer is unchanged |
| Grep.StarIs | user/grep.c:98-106 | matchstar succeeds exactly when some number of instances is followed by a match of the rest |
| Grep.HereIsLanguage | user/grep.c:84-96 | matchhere succeeds exactly when a prefix of the text is in the language of the compiled pattern (reaching the end under $), where a dot stands for every character and any other for itself |
| Grep.AnywhereIs | user/grep.c:77-81 | the search loop succeeds exactly when matchhere succeeds at some suffix, the empty one included |
| Grep.MatchIsLanguage | user/grep.c:72-82 | match succeeds if and only if some part of the text is in the language: at the start under ^, up to the end under $ |
| Grep.FindMatch | user/grep.c:72-82 | the do-while loop computes the search |
| Grep.TryHere | user/grep.c:84-96 | the recursive code computes matchhere and terminates |
| Grep.TryStar | user/grep.c:98-106 | the do-while loop computes matchstar and terminates |
| PipeModel.TestsAreExact | kernel/pipe.c:76-126 | the wrapped counter comparisons tell full and empty exactly, because 512 divides 2^32 |
| PipeModel.PutInv | kernel/pipe.c:92-97 | a byte stored in a pipe that is not full overwrites no unread byte |
| PipeModel.GetInv | kernel/pipe.c:120-126 | a byte taken is the next byte written |
| PipeModel.Fifo | kernel/pipe.c:58-130 | in every interleaving the bytes taken are a prefix of the bytes written, at most 512 behind, across counter wrap |
| PipeModel.Delivered | kernel/pipe.c:58-130 | in every interleaving the bytes taken are the first ones of those sent, as many as there were takes; an end is open exactly until its close, and nothing is sent after the read end is closed |
| PipeCode.PipeFile.constructor | kernel/pipe.c:33-36 | an empty open pipe |
| PipeCode.PipeFile.Write | kernel/pipe.c:76-103 | stores the bytes in order until done, killed, reader gone, copy failure or full (then sleeps); nobody waits to read beside a byte, except exactly when, before the call, a reader waits and the kill comes after the first byte, before the last, and no later than the pipe fills or user memory ends |
| PipeCode.PipeFile.Read | kernel/pipe.c:105-130 | sleeps exactly when empty with a writer left; else returns the next bytes, as many as asked for, present and copyable; one more byte is lost exactly when user memory ends first; waiting invariants kept |
| PipeCode.PipeFile.Drain | kernel/pipe.c:120-126 | the copying loop takes the next slice of the byte stream, whose length and loss are given by the inputs |
| PipeCode.PipeFile.CloseEnd | kernel/pipe.c:58-74 | closes exactly the end asked for, wakes the other side, frees exactly when both are closed |
| PipeCode.CloseThenRead | kernel/pipe.c:58-130 | once the write end is closed a reader gets what is left and then end of file |
| PipeCode.CloseThenWrite | kernel/pipe.c:58-103 | once the read end is closed every write of at least a byte fails and leaves nothing |
| PipeCode.StrandedReader | kernel/pipe.c:83-87 | a concrete schedule in which a killed writer leaves a reader asleep beside a byte |
| PriorityModel.InsertKeeps | proj2/kernel/pipe_rt.c:16-38 | both insertions keep the list sorted by non-increasing priority and add exactly the new task |
| PriorityModel.PushIsStable | proj2/kernel/pqueue.c:20-47 | pqueue_push is first come, first served within a priority |
| PriorityModel.InsertStableIff | proj2/kernel/pipe_rt.c:16-38 | pq_insert agrees with first come, first served if and only if no other task of that priority waits behind the head |
| PriorityModel.TiesAreNotFifo | proj2/kernel/pipe_rt.c:32-37 | three tasks of one priority come out first, third, second |
| PriorityModel.StepInv | proj2/kernel/pipe_rt.c:101-176 | each write, read and close keeps the list sorted and every task accounted for |
| PriorityModel.RunInv | proj2/kernel/pipe_rt.c:101-176 | in every run the list is sorted and written equals delivered plus dropped plus lost plus discarded plus queued, task by task |
| PriorityModel.ReadTakesMostUrgent | proj2/kernel/pipe_rt.c:147-176 | every read takes a task of the highest priority present |
| PriorityModel.AccountIsSteps | proj2/kernel/pipe_rt.c:101-176 | in every run: what counts as written or dropped is what the writes say, as many tasks left as there were reads, one end less per close of it; the pipe is active and nothing is discarded until a close leaves both ends closed |
| PriorityModel.QueuedUntilRead | proj2/kernel/pipe_rt.c:101-176 | so until then every task that was written and found memory is in the queue or was taken by a reader, copy by copy |
| PriorityCode.TaskList.Splice | proj2/kernel/pipe_rt.c:22-37 | linking a node in inserts its task at that place of the list |
| PriorityCode.TaskList.Insert | proj2/kernel/pipe_rt.c:16-38 | the list-walking loop computes pq_insert; without memory the argument is silently dropped |
| PriorityCode.TaskList.Push | proj2/kernel/pqueue.c:20-47 | the list-walking loop computes pqueue_push |
| PriorityCode.TaskList.Remove | proj2/kernel/pipe_rt.c:41-52 | pops the head; a zero task from an empty list |
| PriorityCode.PipeRt.constructor | proj2/kernel/pipe_rt.c:66-71 | an empty active pipe with one end of each kind |
| PriorityCode.PipeRt.WriteTask | proj2/kernel/pipe_rt.c:120-145 | succeeds exactly when active, a reader is left and the argument can be copied in; then it is the model's write |
| PriorityCode.PipeRt.Enqueue | proj2/kernel/pipe_rt.c:120-145 | the model's write, through pq_insert on the linked list, with what is written and what is dropped for want of memory accounted for |
| PriorityCode.PipeRt.ReadTask | proj2/kernel/pipe_rt.c:147-176 | sleeps, fails or takes the head exactly as the model's read; a failed copy loses what was taken |
| PriorityCode.PipeRt.CloseEnd | proj2/kernel/pipe_rt.c:101-118 | the last close discards exactly what is queued and deactivates the pipe |
| PriorityCode.PipeRt.DiscardAll | proj2/kernel/pipe_rt.c:111-116 | the loop empties the list and accounts for every task |

## Left out

- Boot, assembly, trap entry, CSRs, PLIC, UART, console and panic output: hardware and I/O plumbing.
- Spinlock internals and memory ordering: acquire and release are atomic steps.
- Schedulers: the rate-monotonic one is commented out and the live one is a plain scan.
- Append mode: the flag never reaches the test in filewrite, so it has no effect to model.
- filewrite: runs all chunks of one write in a single transaction and may not terminate when writei returns 0, so neither the bound of one writei nor its freedom from the size panic is lifted to it.
- Directories, path names, ialloc, iget/iput reference counts, file descriptors: easy members beside the block layer.
- Failed user copies inside readi and writei: copies succeed.
- Shared memory mappings and their reference counts: the counts in the code do not equal the number of mappings.
- copyin, copyout, walkaddr, uvmclear and the kernel page table: easy members beside walk and mappages.
- Physical addresses: the page-table model names pages by number and splits an entry into page number and ten flag bits; `Sv39.PteWord` and `Sv39.PteTests` connect this to the macros on 64-bit words.
- VmCode.Vm.Kfree: a page already free or still mapped is excluded, as kalloc.c:42-45 demands of callers.
- VmCode.Vm.UnmapOne: with do_free the page must be owned by that mapping; shared memory, whose pages are not, is not modelled.
- VmCode.Vm.Uvmunmap: the same demand for every page of the range.
- VmCode.Vm.Uvmcopy: the parent's pages are owned data pages; shared ones are not modelled.
- LogMachine: which free buffer bget recycles is left open there; `LogCache` follows the LRU list.
- A failed disk request other than an unknown sector, and device resets: the device serves every well-formed request.
- VirtioCode.Disk.Intr: nothing is appended to the used ring during the call; `VirtioCode.CompletionArrives` shows that its loop invariant survives such appends, and in `VirtioQueue` they are steps between its rounds.
- HeapCode.Allocator.Malloc: sizes are unbounded numbers; with all of memory below 2^32 units no block's end exceeds `top`, so the 32-bit size field does not wrap.  Requests whose size in bytes does not fit sbrk's int argument are excluded (see `HeapCode.SbrkGetsTheSize`).
- HeapCode.Allocator.Search: the same exclusion.
- HeapCode.Allocator.Morecore: the same exclusion.
- ShellCode.Parser: nodes are values, not malloc'ed records; a line is the text before its first NUL.
- runcmd, fork1 and command execution: process plumbing.
- grep's line buffering and I/O.
- PipeCode.PipeFile.Write: which processes sleep is two flags, one per channel, not a set.
- pqueue_pop, pqueue_init and the lock of pqueue: pop returns a pointer into a page it has freed, init leaves the lock null.
- The page of the pipe_rt structure itself, which is never returned: conservation is claimed for queued tasks.
- sys_getfilesize, proj1 and the user test programs: easy members, or no implementation present.
