# Models of an operating-system repository

These Dafny modules model the hard parts of two programs and prove what they promise:
the xv6 kernel in `Scheduling_&_Virtual_memory/xv6` (with its user-level allocator,
shell parser and pattern matcher) and the parallel run-length compressor
`ParallelZip/pzip.c`.

Code that changes state is a class whose methods update fields, arrays and maps in
place; each method is tied to a specification function or a predicate over its old and
new state. Protocols between several processes or threads are state machines: a step
is one critical section or one disk write, and the theorems are about every run.
The block, buffer, ring, queue, table and log sizes are parameters wherever the proofs
allow it.

| modules | what they model |
|---|---|
| CrashLog, CrashLogInvariant, CrashLogTheorems, CrashLogGeometry, CrashLogKernel | the redo log over the write-pinning buffer cache, with power failures at every disk write |
| BufferList, BufferCache, CacheRefinement | the LRU list and the contents of the buffer cache, and its operations as steps of the log machine |
| FsDisk, FsInvariant, FsOwnership, FsContent, FsWrite, FsKernel, FsFile, FsRuns | block allocator, inode files, chunked writes, and runs of file operations |
| FsImage, FsCrash, FsPerform | the words of the disk blocks, dinodes included, and power cuts during a chunked write on the log machine |
| DirTree, DirPaths, DirLinks, DirSyscalls, DirNames, DirTheorems | directories, paths and what they find, link counts, and link, unlink and create |
| PzipEncode, PzipChunks, PzipProtocol, PzipTheorems, PzipThreads | encoding, cutting, and the producer/consumer protocol of pzip |
| UmallocList, UmallocHeap, UmallocAllocator | the circular free list of malloc and free |
| VmPages, VmSpaces, VmEffects, VmBytes, VmKernel | physical pages, page tables and address spaces |
| PipeRing, PipeProtocol, PipeTheorems, PipeCalls | the pipe with its wrapping counters, locks and sleeps, and what one call of it does |
| ProcFamily, ProcTable | process slots, exit, wait and reparenting |
| Scheduler | the deterministic proportional-share scheduler |
| ShellGrammar, ShellParser, ShellStrings | the shell's parser, and the NULs it writes |
| ShellTokens, ShellForms, ShellExact, ShellRoundTrip | the shell's grammar on token lists, and the parser against it |
| Grep | the backtracking matcher |
| Wrappers | optional values, bounds and sizes of sets, shared by the others |

## Main results

- Crash atomicity: cut the power after any disk write of any run, any number of times,
  also during recovery; what recovery yields is exactly what the processes saw at the
  last header write, a moment at which no operation was in progress
  (CrashLogTheorems.CrashAtomicity, RebootShowsLastCommit). Nobody sleeps in begin_op
  while there is room for it and nobody commits (CrashLogTheorems.Admission).
- Files are byte strings: any run of writes, reads and truncations through writei, readi
  and itrunc, over direct and indirect blocks, a shared bitmap and shared blocks, answers
  and changes the files as a table of byte strings does (FsRuns.RunOps, WriteThenRead).
- Each transaction of filewrite logs at most MAXOPBLOCKS distinct blocks, every block it
  changes is among them, and a successful chunked write is one logical write
  (FsFile.File.Write).
- Cut the power while filewrite runs, and again while recovery runs: the file system that
  the next boot reads from the disk is sound, the file is the old one with a whole number
  of chunks of the buffer over it, and every other file is unchanged (FsCrash.PowerCut).
- Link counts, unique names and the tree under the root hold in every state of every run
  of link, unlink, create and last close, each taken as one step, from a formatted image
  (DirTheorems.TreeTheorem). A path stands for the names in it, cut to fourteen characters,
  and after link, create and unlink exactly the paths through that name find something
  else (DirPaths.ElementsOfPath, DirNames.LinkResolves, CreateResolves, UnlinkResolves).
- Any schedule of pzip gives the one-pass encoding, no schedule deadlocks, and schedules
  without spurious wakeups are bounded (PzipTheorems).
- The free list stays sorted, disjoint and fully coalesced, and no unit is lost
  (UmallocHeap, UmallocAllocator); every physical page has one owner and failed
  operations give everything back (VmKernel).
- Pipe bytes are a prefix of the stream, and a sleeper that could go on is awake after a
  bounded number of steps of the lock holder (PipeTheorems); in every run a read that
  returns nothing has met the end of the stream, and a write has put in all of its bytes
  in order or found the pipe full with the read end closed (PipeCalls).
- Every slice of the scheduler's trace goes to a process that is runnable at that moment,
  a turn ends early only for a process that is not, and slices are proportional to
  tickets at every moment (Scheduler.Cpu.Turns).
- The shell's parser reads a line as a tree exactly when the grammar, a relation between
  trees and lists of tokens, makes that tree of it and no command has a tenth word
  (ShellExact.ParsesExactly); the matcher is sound and complete (Grep.Match).

## Where the code does less than it says

- `log_write` compares the log with LOGSIZE and with `log.size - 1` before it looks for
  absorption. So a run in which every operation keeps to MAXOPBLOCKS can panic when it
  logs a block again; it cannot exactly when LOGSIZE lies strictly between one and two
  times MAXOPBLOCKS and the log region has more than MAXOPBLOCKS + 1 blocks, or the disk
  has too few blocks outside the region to fill it. With LOGSIZE a multiple of
  MAXOPBLOCKS, as in param.h, and a disk large enough, it always can
  (CrashLogGeometry.PanicFreeExactly, MultiplePanics). For blocks new to their operation
  the exact condition is CrashLogGeometry.NewCanPanic: they are safe when the region has
  more than LOGSIZE blocks; mkfs gives it LOGSIZE, header included
  (CrashLogGeometry.NewPanicFreeExactly).
- `ceiling` in pzip takes ints. A file of 2^31 bytes or more is cut wrongly: most such
  sizes up to 2^32 give no chunk at all. The cut is right exactly below 2^31 bytes
  (PzipChunks.CutExactly, NoChunks, ProducedExactly).
- `malloc` rounds in 32 bits: a request gets enough room exactly when `nbytes + 7` does
  not wrap (UmallocAllocator.RoomExactly). `morecore` asks for what it then uses exactly
  up to 0x7FFF_FFF0 bytes; beyond, it lists units it was not given
  (UmallocAllocator.RequestExactly).
- `uva2ka` reads an entry through a null pointer exactly where the directory has no table
  for the address, as at every user address of a space that setupkvm returned
  (VmKernel.Memory.Uva2ka, NewSpaceFaults).
- `readi` never calls iupdate, and `writei` only when the size grows. Where they fill a hole
  below the size the new address is missing from the inode block, and a write that starts
  in a hole may log one block more than filewrite reckons with. In a file without holes
  neither happens, and no write makes a hole (FsKernel.Kernel.Readi, Writei).
- `parseexec` stops with "too many args" on the tenth word, so a line of the
  grammar is refused exactly where a command has more than nine words (ShellExact.PanicsExactly).

## Model

| member | source | states |
|---|---|---|
| CrashLogTheorems.CrashAtomicity | Scheduling_&_Virtual_memory/xv6/log.c:69-202 | At every moment of every run, whatever crashes came before, recovery of the disk yields for each home block what was visible at the last header write, when no operation was outstanding; before any commit, what the first disk held |
| CrashLogTheorems.RebootShowsLastCommit | Scheduling_&_Virtual_memory/xv6/log.c:116-122 | When a recovery has run to its end, every home block reads as at the last commit before it, however often recovery was interrupted |
| CrashLogTheorems.StepDurable | Scheduling_&_Virtual_memory/xv6/log.c:69-202 | No step, crash or half-done recovery changes what recovery would yield, except the header write, which makes it what processes see |
| CrashLogTheorems.HeadingCommits | Scheduling_&_Virtual_memory/xv6/log.c:98-113 | The header write is the commit: recovery afterwards yields the visible contents of every home block, and the write changes none of them |
| CrashLogTheorems.CommitFreezes | Scheduling_&_Virtual_memory/xv6/log.c:146-174 | While a commit is under way no process can change a home block and nothing is outstanding |
| CrashLogTheorems.QuietIsDurable | Scheduling_&_Virtual_memory/xv6/log.c:146-202 | With no operation and no commit in progress the disk already holds everything that is visible |
| CrashLogTheorems.Admission | Scheduling_&_Virtual_memory/xv6/log.c:125-174 | In every state of every run: outstanding counts the operations, lh.n plus all unspent reservations is at most LOGSIZE, logged numbers are distinct, committing implies outstanding 0, and a begin_op asleep finds a committer at work or its guard false, with an operation left to wake it |
| CrashLogTheorems.EndWakes | Scheduling_&_Virtual_memory/xv6/log.c:146-160 | After an end_op that others outlive one operation less is outstanding, the others are as before, nobody is asleep in begin_op, and a process for which there is room now is admitted |
| CrashLogTheorems.IdleLogAdmits | Scheduling_&_Virtual_memory/xv6/log.c:126-141 | begin_op is admitted, and cannot go to sleep, when the log is idle and nothing is outstanding |
| CrashLogTheorems.RoomForReserved | Scheduling_&_Virtual_memory/xv6/log.c:213-221 | A block new to an operation that is within its reservation finds the log below LOGSIZE, and below log.size - 1 if the region has more than LOGSIZE blocks |
| CrashLogInvariant.StepKeeps | Scheduling_&_Virtual_memory/xv6/log.c:69-233 | Every enabled step, crashes included, keeps the invariant: cache coherence with pinning, the phase of the commit, reservations, and begin_op asleep only where it has to be |
| CrashLogInvariant.LogWriteReserved | Scheduling_&_Virtual_memory/xv6/log.c:213-233 | log_write with absorption keeps the reservation inequality, since the log grows only by a block new to the operation |
| CrashLogInvariant.LogOneKeeps | Scheduling_&_Virtual_memory/xv6/log.c:177-190 | One block of write_log keeps the invariant: one more slot holds what the cache holds |
| CrashLogInvariant.HeadingKeeps | Scheduling_&_Virtual_memory/xv6/log.c:102-113 | Writing the header after all slots are filled keeps the invariant and starts the install phase |
| CrashLogInvariant.InstallOneKeeps | Scheduling_&_Virtual_memory/xv6/log.c:70-82 | One block of install_trans keeps the invariant, in a commit and in recovery |
| CrashLogInvariant.EraseKeeps | Scheduling_&_Virtual_memory/xv6/log.c:199-200 | Clearing the header after everything is installed keeps the invariant |
| CrashLogInvariant.EndKeeps | Scheduling_&_Virtual_memory/xv6/log.c:146-163 | end_op keeps the invariant, whether it commits or wakes the sleepers |
| CrashLogInvariant.EvictKeeps | Scheduling_&_Virtual_memory/xv6/bio.c:78-91 | Recycling a clean buffer that nobody holds changes no block that can be read, and keeps the invariant |
| CrashLogInvariant.CrashKeeps | Scheduling_&_Virtual_memory/xv6/log.c:50-66 | Whatever the invariant allowed before a crash, the disk alone satisfies it at the next boot |
| CrashLog.HeadRoundTrip | Scheduling_&_Virtual_memory/xv6/log.c:86-113 | read_head gives back the block numbers write_head wrote, the count in the first word and the numbers behind it, whatever the header block held before |
| CrashLogGeometry.RelogPanics | Scheduling_&_Virtual_memory/xv6/log.c:218-226 | Where LOGSIZE holds two operations, or the log no more entries than one operation may write, and the disk has as many other blocks as the log has entries, some run of operations that each keep to MAXOPBLOCKS reaches a panic of log_write, by logging again a block that is logged already |
| CrashLogGeometry.PanicFreeExactly | Scheduling_&_Virtual_memory/xv6/log.c:217-226 | No such run reaches a panic if and only if MAXOPBLOCKS < LOGSIZE < 2 * MAXOPBLOCKS and the log region has more than MAXOPBLOCKS + 1 blocks, or the disk has too few blocks outside the region to fill the log, or none |
| CrashLogGeometry.MultiplePanics | Scheduling_&_Virtual_memory/xv6/log.c:217-226 | So with LOGSIZE a multiple of MAXOPBLOCKS, as in param.h, the panic is reached for every size of the log region, if the disk has enough other blocks to fill the log |
| CrashLogGeometry.NewPanicFreeExactly | Scheduling_&_Virtual_memory/xv6/mkfs.c:25 | For blocks new to their operation: no run reaches the panic if and only if NewCanPanic fails, a condition on LOGSIZE, MAXOPBLOCKS and the sizes of the disk and the log region, of which mkfs makes the latter LOGSIZE |
| CrashLogKernel.CommitEffect | Scheduling_&_Virtual_memory/xv6/log.c:193-202 | commit as a whole leaves on the disk, block for block, what the processes saw |
| CrashLogKernel.RecoverEffect | Scheduling_&_Virtual_memory/xv6/log.c:116-122 | recover_from_log as a whole leaves on the disk what the header and the slots promise |
| CrashLogKernel.Kernel.Bread | Scheduling_&_Virtual_memory/xv6/bio.c:97-106 | Returns the cached copy or the disk block, and leaves it cached |
| CrashLogKernel.Kernel.Bwrite | Scheduling_&_Virtual_memory/xv6/bio.c:110-116 | The block reaches the disk, and the buffer is clean afterwards |
| CrashLogKernel.Kernel.FillHead | Scheduling_&_Virtual_memory/xv6/log.c:105-110 | The loop over the header block puts in the count and the block numbers and keeps the rest of it |
| CrashLogKernel.Kernel.WriteHead | Scheduling_&_Virtual_memory/xv6/log.c:102-113 | The header block on disk becomes the encoding of lh over what it held, and nothing else changes |
| CrashLogKernel.Kernel.LogBlock | Scheduling_&_Virtual_memory/xv6/log.c:183-188 | The loop body of write_log is the machine step that copies one cached block to its slot |
| CrashLogKernel.Kernel.InstallBlock | Scheduling_&_Virtual_memory/xv6/log.c:75-80 | The loop body of install_trans is the machine step that copies one slot home |
| CrashLogKernel.Kernel.WriteLog | Scheduling_&_Virtual_memory/xv6/log.c:177-190 | The loop is the sequence of its disk-write steps, one for each logged block in order |
| CrashLogKernel.Kernel.InstallTrans | Scheduling_&_Virtual_memory/xv6/log.c:70-82 | The loop is the sequence of its disk-write steps, one for each logged block in order |
| CrashLogKernel.Kernel.InstallThenClear | Scheduling_&_Virtual_memory/xv6/log.c:119-121 | Installing and clearing the header is the sequence of machine steps that ends with an empty log |
| CrashLogKernel.Kernel.Commit | Scheduling_&_Virtual_memory/xv6/log.c:193-202 | write_log, write_head, install_trans and the second write_head in this order; nothing for an empty log |
| CrashLogKernel.Kernel.ReadHead | Scheduling_&_Virtual_memory/xv6/log.c:86-96 | The log header in memory becomes what the disk header encodes |
| CrashLogKernel.Kernel.RecoverFromLog | Scheduling_&_Virtual_memory/xv6/log.c:116-122 | Every home block on disk becomes what recovery promises of the disk at boot; the log is empty and the kernel idle |
| CrashLogKernel.Kernel.BeginOp | Scheduling_&_Virtual_memory/xv6/log.c:126-141 | One turn of the loop is exactly the admission step or the sleep step, each only where its guard holds |
| CrashLogKernel.Kernel.LogWriteBlock | Scheduling_&_Virtual_memory/xv6/log.c:214-233 | The search for absorption, the append and the pin are exactly the machine step |
| CrashLogKernel.Kernel.Finish | Scheduling_&_Virtual_memory/xv6/log.c:169-172 | committing is cleared and every sleeper in begin_op may try again |
| CrashLogKernel.Kernel.CommitLast | Scheduling_&_Virtual_memory/xv6/log.c:165-173 | All that was visible is on the disk, the log is empty, everybody asleep in begin_op is awake and nobody else has moved, the invariant holds |
| CrashLogKernel.Kernel.EndOp | Scheduling_&_Virtual_memory/xv6/log.c:146-174 | The last operation out leaves every home block on disk as it was visible before, with an empty log; any other only counts itself out; after either nobody is asleep in begin_op, and every other process is as before |
| BufferList.PushLinks | Scheduling_&_Virtual_memory/xv6/bio.c:134-137 | The four pointer updates put the buffer between head and the old first one, and the ring stays doubly linked |
| BufferList.UnlinkLinks | Scheduling_&_Virtual_memory/xv6/bio.c:132-133 | The two pointer updates take exactly this buffer out of the ring, which stays doubly linked |
| BufferList.MovedComplete | Scheduling_&_Virtual_memory/xv6/bio.c:128-138 | After a move to the front the list still holds every buffer exactly once |
| BufferCache.RecycleKeeps | Scheduling_&_Virtual_memory/xv6/bio.c:81-86 | Recycling a buffer neither held nor dirty keeps one buffer per block and loses no pending write; the disk holds the new block |
| BufferCache.UncachedOnDisk | Scheduling_&_Virtual_memory/xv6/bio.c:97-106 | Where a buffer is not yet valid the disk holds the block as last written by anyone |
| BufferCache.Cache.constructor | Scheduling_&_Virtual_memory/xv6/bio.c:39-56 | binit makes one ring of all buffers, the last one first, none of them naming a block |
| BufferCache.Cache.FindCached | Scheduling_&_Virtual_memory/xv6/bio.c:68-76 | A buffer of the block if there is one, found from the front of the list |
| BufferCache.Cache.FindUnused | Scheduling_&_Virtual_memory/xv6/bio.c:78-91 | The last buffer in list order, so the least recently used, that is neither held nor dirty, and no such buffer was given up longer ago; none exactly when all are in use |
| BufferCache.Cache.Bget | Scheduling_&_Virtual_memory/xv6/bio.c:62-93 | The buffer that caches the block with one more reference; else, of those neither held nor dirty, the one given up longest ago, now naming it; the panic exactly when the block is not cached and every buffer is in use |
| BufferCache.Cache.Bread | Scheduling_&_Virtual_memory/xv6/bio.c:97-106 | Returns the disk overlaid with pending writes; no held or dirty buffer of another block is touched |
| BufferCache.Cache.Bwrite | Scheduling_&_Virtual_memory/xv6/bio.c:110-116 | The block on disk is the current contents, and the buffer is clean |
| BufferCache.Cache.Brelse | Scheduling_&_Virtual_memory/xv6/bio.c:121-141 | One reference less; exactly when it was the last one the buffer moves to the front; list, uniqueness and coherence are kept |
| BufferCache.MovedRecent | Scheduling_&_Virtual_memory/xv6/bio.c:128-138 | The move to the front keeps the list in the order in which buffers were last given up |
| BufferCache.LruIsOldest | Scheduling_&_Virtual_memory/xv6/bio.c:78-91 | Of the buffers that may be recycled the one nearest the end of the list was given up longest ago |
| BufferCache.Cache.Pin | Scheduling_&_Virtual_memory/xv6/log.c:231 | Marking the buffer dirty keeps the cache coherent, so it will not be recycled |
| CacheRefinement.BreadRefines | Scheduling_&_Virtual_memory/xv6/bio.c:62-106 | bread on the LRU buffers is the Read step of the log machine, after its Evict step when a buffer of the device is recycled, and returns the contents the machine shows |
| CacheRefinement.BrelseIsRelease | Scheduling_&_Virtual_memory/xv6/bio.c:121-141 | brelse on the buffers is the Release step of the log machine |
| CacheRefinement.ModifyIsModify | Scheduling_&_Virtual_memory/xv6/bio.c:97-106 | Changing the data of a held buffer is the Modify step of the log machine |
| CacheRefinement.PinIsLogWrite | Scheduling_&_Virtual_memory/xv6/log.c:231 | Marking a buffer dirty is what the LogWrite step does to the cache |
| CacheRefinement.BwriteIsPut | Scheduling_&_Virtual_memory/xv6/bio.c:110-116 | bwrite is the disk write of the committer: block on disk, buffer clean |
| FsDisk.FlipToBits | Scheduling_&_Virtual_memory/xv6/fs.c:66-68 | Setting a clear bit or clearing a set bit of the bitmap byte changes that bit only |
| FsDisk.FlipBit | Scheduling_&_Virtual_memory/xv6/fs.c:88-92 | In one byte: or-ing or and-ing out the mask is adding or taking away its weight, and leaves the other seven bits |
| FsDisk.EntryAfterPut | Scheduling_&_Virtual_memory/xv6/fs.c:389-394 | Storing a block number in the indirect block changes that entry only, through its four bytes |
| FsInvariant.AllocInv | Scheduling_&_Virtual_memory/xv6/fs.c:56-78 | A block with a clear bit is no metadata, owned by nobody, and marking it keeps the ownership partition |
| FsInvariant.FreeInv | Scheduling_&_Virtual_memory/xv6/fs.c:81-95 | An owned block has its bit set, so the panic of bfree cannot fire, and clearing it keeps the partition up to the pending unlink |
| FsOwnership.LinkDirect | Scheduling_&_Virtual_memory/xv6/fs.c:378-382 | Putting a fresh block into an empty direct slot gives it exactly that owner; all other slots of all inodes stay |
| FsOwnership.LinkIndirect | Scheduling_&_Virtual_memory/xv6/fs.c:387-388 | Putting a fresh zeroed block into the indirect slot links nothing else |
| FsOwnership.LinkEntry | Scheduling_&_Virtual_memory/xv6/fs.c:389-394 | Putting a fresh block into an empty indirect entry gives it exactly that owner |
| FsOwnership.UnlinkInv | Scheduling_&_Virtual_memory/xv6/fs.c:408-435 | Forgetting exactly the blocks that were freed restores the partition |
| FsContent.AllocateInv | Scheduling_&_Virtual_memory/xv6/fs.c:56-78 | A block that balloc hands out was owned by nobody, and clearing it changes no byte of any file |
| FsContent.WriteBlockBytes | Scheduling_&_Virtual_memory/xv6/fs.c:498-504 | A memmove into the data block changes exactly the bytes off..off+n of this file and no byte of any other |
| FsWrite.WriteStep | Scheduling_&_Virtual_memory/xv6/fs.c:498-504 | One turn of the loop extends the written range by its bytes; all other bytes and other inodes are as at the start |
| FsWrite.WrittenContent | Scheduling_&_Virtual_memory/xv6/fs.c:482-511 | After the loop the file is the old string with src over position off, extended if need be, without a new hole; every other file and inode is unchanged |
| FsWrite.TransactionSize | Scheduling_&_Virtual_memory/xv6/file.c:127-133 | One writei of k blocks' worth of bytes logs at most 2k + 4 distinct blocks for any offset and bitmap spread if it starts on a block boundary or in a block that is there already, and else at most 2k + 5 |
| FsWrite.LoggedBlock | Scheduling_&_Virtual_memory/xv6/log.c:205-212 | A block that is changed and then logged keeps the set of logged blocks complete |
| FsContent.MappedSame | Scheduling_&_Virtual_memory/xv6/fs.c:373-400 | What bmap allocates changes no byte of any file, in holes neither |
| FsKernel.Kernel.LogWrite | Scheduling_&_Virtual_memory/xv6/log.c:205-212 | One block changes and is logged; a transaction whose changed blocks were all logged stays so |
| FsKernel.Kernel.ScanGroup | Scheduling_&_Virtual_memory/xv6/fs.c:65-74 | The lowest free block that one bitmap block describes, or all of them are used |
| FsKernel.Kernel.FindFree | Scheduling_&_Virtual_memory/xv6/fs.c:63-77 | The lowest free block of the disk, or every block is used |
| FsKernel.Kernel.Balloc | Scheduling_&_Virtual_memory/xv6/fs.c:56-78 | A zeroed block that no inode owned, now marked; no address and no data change; fails exactly where the disk is full |
| FsKernel.Kernel.Bfree | Scheduling_&_Virtual_memory/xv6/fs.c:81-95 | Exactly the bit of the block is cleared |
| FsKernel.Kernel.MapDirect | Scheduling_&_Virtual_memory/xv6/fs.c:378-382 | A direct block: the one there, or a fresh one; the rest of the file system keeps its bytes and owners |
| FsKernel.Kernel.MapIndirect | Scheduling_&_Virtual_memory/xv6/fs.c:387-388 | The indirect block: the one there, or a fresh empty one, which maps nothing |
| FsKernel.Kernel.MapEntry | Scheduling_&_Virtual_memory/xv6/fs.c:389-396 | An entry of the indirect block: the one there, or a fresh block |
| FsKernel.Kernel.Bmap | Scheduling_&_Virtual_memory/xv6/fs.c:373-400 | The block of file block bn; if there was one nothing changes, else a zeroed block nobody owned is mapped there and only there; at most one bitmap block is logged per block allocated |
| FsKernel.Kernel.Iupdate | Scheduling_&_Virtual_memory/xv6/fs.c:221-236 | The inode on disk becomes the one in memory, and its block is logged (FsImage.IupdateImage: in the words of the block) |
| FsKernel.Kernel.ReadPart | Scheduling_&_Virtual_memory/xv6/fs.c:469-474 | The bytes of one block, a hole read as zeroes; every file keeps its bytes |
| FsKernel.Kernel.Readi | Scheduling_&_Virtual_memory/xv6/fs.c:453-476 | Returns exactly the bytes off..min(off+n, size) of the file and changes no file; fails exactly for an offset past the end or a wrapping sum; in a file without holes it changes nothing at all, and only a hole can make it find the disk full |
| FsKernel.Kernel.WriteSpan | Scheduling_&_Virtual_memory/xv6/fs.c:499-503 | The bytes of one block are mapped and overwritten in place |
| FsKernel.Kernel.WriteRound | Scheduling_&_Virtual_memory/xv6/fs.c:498-504 | One turn of the loop makes progress and keeps the loop's promise on bytes, ownership and logged blocks |
| FsKernel.Kernel.Writei | Scheduling_&_Virtual_memory/xv6/fs.c:482-511 | Replaces exactly off..off+n, extends the size to its end, leaves every other file unchanged, makes no hole and keeps the partition; the inode block is left behind exactly if a hole was filled and the size did not grow; logs every block it changes, at most 2k + 4, or 2k + 5 if it starts inside a hole; fails without change exactly for a gap, a wrapping sum or a size past MAXFILE |
| FsKernel.Kernel.TruncSlot | Scheduling_&_Virtual_memory/xv6/fs.c:415-418 | One direct block goes back and its slot is empty; nothing else changes |
| FsKernel.Kernel.FreeEntries | Scheduling_&_Virtual_memory/xv6/fs.c:424-427 | Exactly the blocks in the indirect block's entries are freed |
| FsKernel.Kernel.TruncIndirect | Scheduling_&_Virtual_memory/xv6/fs.c:421-431 | The entries and the indirect block go back; nothing else changes |
| FsKernel.Kernel.Itrunc | Scheduling_&_Virtual_memory/xv6/fs.c:408-435 | The inode owns nothing and has size 0 in memory and on disk, exactly its blocks became free, and every other file keeps its bytes and blocks; the transaction logs bitmap blocks and the inode block only, and every block it changes |
| FsKernel.TruncationFits | Scheduling_&_Virtual_memory/xv6/fs.c:408-435 | So it logs at most one block more than the bitmap has, and fits its operation if the whole bitmap and one inode block do |
| FsKernel.ItruncFrees | Scheduling_&_Virtual_memory/xv6/fs.c:408-435 | After the truncation a block is used if and only if it was used and not the inode's |
| FsFile.ChunkEndIs | Scheduling_&_Virtual_memory/xv6/file.c:127-148 | After t whole transactions t times the largest chunk that fits its transaction is written, as far as the buffer goes |
| FsFile.File.WriteChunk | Scheduling_&_Virtual_memory/xv6/file.c:136-151 | One transaction changes only blocks it logs, at most MAXOPBLOCKS of them, or one more in a file with holes, and moves the offset by what it wrote |
| FsFile.File.Write | Scheduling_&_Virtual_memory/xv6/file.c:118-156 | Between transactions whole chunks are written; in a file without holes every transaction fits MAXOPBLOCKS, and each changes only blocks it logs; success is one logical write of the whole buffer at the old offset; a write cut short has written a prefix and was too large |
| FsRuns.Do | Scheduling_&_Virtual_memory/xv6/fs.c:408-511 | One write, read or truncation through writei, readi and itrunc answers and changes the files as the table of byte strings does, refusals included, and keeps the ownership partition; it stops only on a full disk |
| FsRuns.RunOps | Scheduling_&_Virtual_memory/xv6/fs.c:372-511 | So does every run of writes, reads and truncations of all files: all answers, and the files at the end, are those of the table; a run cut short met a full disk |
| FsRuns.WriteThenRead | Scheduling_&_Virtual_memory/xv6/fs.c:453-511 | A read of the range returns what the write stored, after any operations that do not write over it or truncate the file, and whatever was allocated and freed meanwhile |
| FsRuns.NewFileSystem | Scheduling_&_Virtual_memory/xv6/mkfs.c:238-251 | Marking the metadata blocks bit by bit gives a file system that satisfies the invariant, with all files empty |
| FsImage.BytesOfWords | Scheduling_&_Virtual_memory/xv6/log.c:102-113 | A block is what its little-endian words give back |
| FsImage.InodeRoundTrip | Scheduling_&_Virtual_memory/xv6/fs.h:29-38 | A dinode that fits its fields is read as it was stored, four shorts in two words and the addresses included |
| FsImage.DinodeBytes | Scheduling_&_Virtual_memory/xv6/fs.h:29-38 | The stored dinode byte by byte: type, major, minor and nlink in two bytes each, the size and every address in four, lowest first |
| FsImage.IupdateImage | Scheduling_&_Virtual_memory/xv6/fs.c:221-236 | iupdate stores exactly the words of this dinode in its inode block, and no other word of the disk changes |
| FsImage.UnloggedImage | Scheduling_&_Virtual_memory/xv6/log.c:205-212 | A block that a transaction did not log has the same words after it |
| FsImage.MountedBack | Scheduling_&_Virtual_memory/xv6/fs.c:288-312 | What a kernel reads from the image of a sound file system is that file system: every inode, every bit of the bitmap, every byte of every file |
| FsCrash.StepTracks | Scheduling_&_Virtual_memory/xv6/log.c:126-233 | While a writer follows its transactions every process sees the file system after the last one that ended, but for what the one in progress has changed |
| FsCrash.WholeTransactions | Scheduling_&_Virtual_memory/xv6/log.c:69-202 | Whenever the power fails, recovery yields the file system after a whole number of transactions: those that had ended at the last commit, and all that had ended if nothing was in progress |
| FsCrash.RebootKeeps | Scheduling_&_Virtual_memory/xv6/log.c:50-122 | However often the power fails again before an operation begins, recovery yields the same |
| FsCrash.RebootShows | Scheduling_&_Virtual_memory/xv6/log.c:116-122 | When recovery has run to its end bread returns just that |
| FsCrash.ChunkFits | Scheduling_&_Virtual_memory/xv6/log.c:213-221 | The blocks of a transaction within its reservation find room in the log |
| FsCrash.WriteIsScript | Scheduling_&_Virtual_memory/xv6/file.c:127-151 | The states between the transactions of filewrite, with the blocks each logged, are such a sequence of transactions |
| FsPerform.Performs | Scheduling_&_Virtual_memory/xv6/log.c:126-233 | On an idle log a process can carry out any transaction of the sequence by bread, a change, log_write and brelse for each block; it can then end, and every process sees the file system that follows |
| FsPerform.OneBlock | Scheduling_&_Virtual_memory/xv6/fs.c:498-504 | bread, the change, log_write and brelse of one block are enabled one after the other within the reservation |
| FsCrash.PowerCut | Scheduling_&_Virtual_memory/xv6/file.c:118-156 | The power fails at any moment of a filewrite and any number of times during recovery: the file system found afterwards is sound, the file is the old string with the first whole chunks of the buffer over it, and every other file is unchanged |
| DirPaths.SkipElem | Scheduling_&_Virtual_memory/xv6/fs.c:596-618 | The next element: what lies between slashes, or the end of the path, and has none inside, cut to its first 14 characters; what is left starts behind its slashes; None exactly where only slashes are left |
| DirPaths.ElementsOfPath | Scheduling_&_Virtual_memory/xv6/fs.c:577-618 | For names without slashes, kept apart by one or more slashes, with any number in front and at the end, the elements are these names in order, each cut to its first 14 characters |
| DirPaths.EveryPathSpells | Scheduling_&_Virtual_memory/xv6/fs.c:577-618 | Every path is spelled out in that way |
| DirPaths.Namex | Scheduling_&_Virtual_memory/xv6/fs.c:625-657 | The loop over the path is the walk along its elements, from the root for a path that starts with a slash and else from the current directory; for nameiparent the directory of the last element and its name |
| DirPaths.Dirlookup | Scheduling_&_Virtual_memory/xv6/fs.c:525-548 | The first entry in use with the name, found if and only if there is one |
| DirPaths.WalkStep | Scheduling_&_Virtual_memory/xv6/fs.c:634-651 | What one turn of the loop does to a walk, and to a walk to the parent |
| DirPaths.WalkLinked | Scheduling_&_Virtual_memory/xv6/fs.c:625-657 | From a linked directory a walk meets only linked inodes |
| DirLinks.LinkedKeeps | Scheduling_&_Virtual_memory/xv6/sysfile.c:119-165 | A new entry for a file together with one more link keeps counts exact, names unique and the tree a tree |
| DirLinks.TypedKeeps | Scheduling_&_Virtual_memory/xv6/fs.c:195-214 | Giving a type to, or freeing, an inode without links changes no count and no place in the tree |
| DirLinks.MadeDirKeeps | Scheduling_&_Virtual_memory/xv6/sysfile.c:260-279 | A new directory with "." and "..", its parent's extra link and its entry keep the invariant, one level below the parent |
| DirLinks.EmptyDirOneLink | Scheduling_&_Virtual_memory/xv6/sysfile.c:169-181 | An empty directory has exactly one link, the entry in the directory its ".." names |
| DirLinks.UnlinkedKeeps | Scheduling_&_Virtual_memory/xv6/sysfile.c:185-239 | Clearing the entry, taking a link from the inode and for a directory one from the parent keeps the invariant |
| DirSyscalls.UnlinkNeverPanics | Scheduling_&_Virtual_memory/xv6/sysfile.c:211-213 | An entry other than "." and ".." names an inode with a link, so "unlink: nlink < 1" is unreachable |
| DirSyscalls.CreateKeeps | Scheduling_&_Virtual_memory/xv6/sysfile.c:242-283 | A new inode of any kind, linked under a free name, keeps the invariant |
| DirSyscalls.Tree.Dirlink | Scheduling_&_Virtual_memory/xv6/fs.c:552-578 | Refused without change exactly when the name is there; otherwise the first free slot gets the entry |
| DirSyscalls.Tree.IsDirEmpty | Scheduling_&_Virtual_memory/xv6/sysfile.c:169-181 | True exactly when all entries after the first two are unused |
| DirSyscalls.Tree.LinkInode | Scheduling_&_Virtual_memory/xv6/sysfile.c:140-164 | The entry and the count together, or after the rollback the tree exactly as before |
| DirSyscalls.Tree.SysLink | Scheduling_&_Virtual_memory/xv6/sysfile.c:119-165 | One more name for the file, counts exact; failure changes nothing and comes only when the old path is no file or the new place is not free |
| DirSyscalls.Tree.UnlinkAt | Scheduling_&_Virtual_memory/xv6/sysfile.c:204-233 | The entry goes with one link of its inode and, for a directory, one of the parent; refused without change for a missing name or a non-empty directory |
| DirSyscalls.Tree.UnlinkName | Scheduling_&_Virtual_memory/xv6/sysfile.c:203-239 | Succeeds exactly for a name other than "." and ".." of a file or an empty directory, and never panics |
| DirSyscalls.Tree.SysUnlink | Scheduling_&_Virtual_memory/xv6/sysfile.c:185-239 | Succeeds exactly when the path may be removed, then does precisely that and keeps the invariant; otherwise changes nothing; never panics |
| DirSyscalls.Tree.Iput | Scheduling_&_Virtual_memory/xv6/fs.c:332-352 | The last reference to an inode without links frees it; nothing else changes |
| DirSyscalls.Tree.Ialloc | Scheduling_&_Virtual_memory/xv6/fs.c:195-214 | The lowest free inode, or none is free |
| DirSyscalls.Tree.Make | Scheduling_&_Virtual_memory/xv6/sysfile.c:260-282 | A free inode of the wanted kind, linked under the name, the invariant kept; panics only for want of an inode or of room |
| DirSyscalls.Tree.Create | Scheduling_&_Virtual_memory/xv6/sysfile.c:242-283 | An existing file is returned for T_FILE; a new inode, the lowest that was free, is linked where the path is free; failure changes nothing and panics come only for want of an inode or of room |
| DirNames.WalkIff | Scheduling_&_Virtual_memory/xv6/fs.c:625-657 | From a linked inode a walk ends at an inode if and only if there is a chain of directories from the one to the other, each naming the next |
| DirNames.LinkResolves | Scheduling_&_Virtual_memory/xv6/sysfile.c:119-165 | After link the new path finds what the old path found, and every path that found something finds the same |
| DirNames.CreateResolves | Scheduling_&_Virtual_memory/xv6/sysfile.c:242-283 | After create the path finds the new inode, of the wanted kind and with one link, and every path that found something finds the same |
| DirNames.UnlinkResolves | Scheduling_&_Virtual_memory/xv6/sysfile.c:185-239 | After unlink the path finds nothing, and whatever a path still finds it found before |
| DirNames.LinkNames | Scheduling_&_Virtual_memory/xv6/fs.c:552-578 | A new link adds this name and no other, and takes none away |
| DirNames.CreateNames | Scheduling_&_Virtual_memory/xv6/sysfile.c:260-282 | A new inode adds its name, for a directory also "." and "..", and no other |
| DirNames.UnlinkNames | Scheduling_&_Virtual_memory/xv6/sysfile.c:220-233 | Unlink takes this name away and no other, but for those of a directory that is freed |
| DirNames.UnlinkInode | Scheduling_&_Virtual_memory/xv6/sysfile.c:227-229 | The inode of the name has one link less, and is free exactly if that was its last link and the last reference |
| DirNames.MayUnlinkExactly | Scheduling_&_Virtual_memory/xv6/sysfile.c:203-219 | Unlink succeeds if and only if the last name is not "." or "..", its directory has it, and it is not the name of a directory with names of its own |
| DirNames.CanPlaceExactly | Scheduling_&_Virtual_memory/xv6/sysfile.c:140-148 | A new name can be placed if and only if the directory of the path is there and does not have it |
| DirNames.SpelledResolves | Scheduling_&_Virtual_memory/xv6/fs.c:625-657 | Names that an entry can hold, spelled out behind slashes, find what the walk along them from the root finds, from every current directory |
| DirTheorems.FormattedIsGood | Scheduling_&_Virtual_memory/xv6/mkfs.c:117-163 | The directory tree mkfs writes satisfies the invariant, with the empty entries that rounding up the root's size adds |
| DirTheorems.StepGood | Scheduling_&_Virtual_memory/xv6/sysfile.c:119-283 | Every successful link, unlink and create, and every last close, keeps the invariant |
| DirTheorems.TreeTheorem | Scheduling_&_Virtual_memory/xv6/sysfile.c:118-283 | In every state of every run from a formatted image nlink is the number of links, names in a directory are unique, every linked directory has a path that finds it from every current directory, and each but the root has exactly one name outside "." and ".." |
| DirTheorems.PathToDir | Scheduling_&_Virtual_memory/xv6/fs.c:625-657 | Every linked directory has a walk from the root to it |
| DirTheorems.StepNames | Scheduling_&_Virtual_memory/xv6/fs.c:596-618 | Every call leaves only names that an entry can hold and a path can spell |
| PzipEncode.MaxRunsDecode | ParallelZip/pzip.c:187-217 | The maximal-run encoding decodes to the string |
| PzipEncode.MaxRunsMaximal | ParallelZip/pzip.c:187-217 | It has no two neighbouring equal symbols, and no NUL if the string has none |
| PzipEncode.MaximalIsUnique | ParallelZip/pzip.c:187-217 | It is the only encoding with that property |
| PzipEncode.ChunkDecodes | ParallelZip/pzip.c:145-159 | The runs of a chunk decode to the chunk without its NULs, whatever the signed compare does to runs of bytes >= 0x80 |
| PzipEncode.ChunkRunIs | ParallelZip/pzip.c:146-153 | The consumer counts a byte below 128 as far as it goes, and each larger one by itself |
| PzipEncode.PlainChunk | ParallelZip/pzip.c:145-159 | A chunk without NULs and without bytes from 128 on is encoded by maximal runs |
| PzipEncode.EncodeChunk | ParallelZip/pzip.c:146-159 | The encoding loop produces these runs, with positive counts and no NUL |
| PzipEncode.JoinAfterProperties | ParallelZip/pzip.c:194-214 | Adding equal neighbours leaves no equal neighbours and decodes to the same string |
| PzipEncode.JoinIsMaxRuns | ParallelZip/pzip.c:187-217 | Joining gives the maximal-run encoding of what the records decode to, wherever the records were cut |
| PzipEncode.JoinChunk | ParallelZip/pzip.c:194-214 | The walk over one chunk, which adds in place to the record before, keeps the promise on what is written and pending |
| PzipEncode.CompressOutput | ParallelZip/pzip.c:187-217 | The merge writes exactly the maximal-run encoding of what all chunks decode to, for inputs of any size whose run counts fit an int |
| PzipChunks.ChunksCover | ParallelZip/pzip.c:93-117 | The chunks of a file are the file, each of them not empty and at most chunkSz long |
| PzipChunks.AllChunksCover | ParallelZip/pzip.c:65-119 | The chunks of all files in order are the concatenated input, empty files included |
| PzipChunks.LoopsExactly | ParallelZip/pzip.c:44-46 | Called with a file size, ceiling on ints gives the number of chunks if and only if the size is below 2^31 |
| PzipChunks.CountIsCeiling | ParallelZip/pzip.c:44-46 | So the count of main and the producer is the number of chunks of the file if and only if the file is below 2^31 bytes |
| PzipChunks.NoChunks | ParallelZip/pzip.c:81-95 | A file of 2^31 bytes or more, up to a chunk less than 2^32, gets no chunk at all |
| PzipChunks.InFile | ParallelZip/pzip.c:93-117 | Even where the count is wrong the producer stays inside the file, and no chunk is larger than chunkSz |
| PzipChunks.CutOne | ParallelZip/pzip.c:104-108 | The size of a chunk is what is left of the file or chunkSz, and the loop ends where the file does |
| PzipChunks.CutExactly | ParallelZip/pzip.c:93-117 | The chunks made for a file are its cut from the front if and only if the file is below 2^31 bytes; from there up to a chunk less than 2^32 bytes there are none |
| PzipChunks.ProducedExactly | ParallelZip/pzip.c:65-119 | The chunks of a list of files are together the input if and only if every file is below 2^31 bytes |
| PzipChunks.CountChunks | ParallelZip/pzip.c:227-240 | main counts exactly the chunks the producer will make, as long as an int holds every file size and the number of chunks |
| PzipChunks.FileJobs | ParallelZip/pzip.c:82-118 | The pointer walk over one file, with its int count, makes these chunks |
| PzipChunks.Jobs | ParallelZip/pzip.c:65-119 | The producer makes the chunks of all files in order; together they are the input if and only if every file is below 2^31 bytes |
| PzipChunks.ParseInverts | ParallelZip/pzip.c:155-158 | Reading five-byte records back gives the records written |
| PzipProtocol.PutKeepsRing | ParallelZip/pzip.c:48-52 | fillPtr = (usePtr + numFull) mod qLen, and the ring holds the consecutive chunk numbers not yet taken |
| PzipProtocol.GetKeepsRing | ParallelZip/pzip.c:54-59 | The same for get, which takes the oldest number |
| PzipProtocol.StepKeeps | ParallelZip/pzip.c:97-183 | Every step keeps the invariant: ring, slots written once, a waiting producer means a full ring, and numFull > 0 or completion means some consumer is neither waiting nor gone |
| PzipTheorems.ParallelEqualsSequential | ParallelZip/pzip.c:219-257 | For every schedule, number of consumers, ring size and chunk size, as long as an int holds every file size and the number of chunks: after the joins each slot was written once, and merging gives the maximal-run encoding of the whole input without NULs |
| PzipTheorems.OutputDecodes | ParallelZip/pzip.c:187-217 | The bytes written decode to the input without NULs and have no equal neighbours, if every run count fits an int |
| PzipTheorems.ShortInputsFit | ParallelZip/pzip.c:187-217 | As every count does in an input of less than 2^31 bytes |
| PzipTheorems.JoinedSlots | ParallelZip/pzip.c:228-253 | After the joins every slot holds the runs of its chunk and was written exactly once |
| PzipTheorems.NoDeadlock | ParallelZip/pzip.c:110-183 | Until all have joined some thread can move without a spurious wakeup |
| PzipTheorems.StepDescends | ParallelZip/pzip.c:97-183 | Every step but a spurious wakeup lowers a lexicographic measure |
| PzipTheorems.RunsAreBounded | ParallelZip/pzip.c:97-183 | So a schedule without spurious wakeups is no longer than the measure at its start |
| PzipThreads.Shared.Put | ParallelZip/pzip.c:48-52 | The item goes to the back of the queue in the ring, older items stay |
| PzipThreads.Shared.Get | ParallelZip/pzip.c:54-59 | Returns the oldest item and takes it out of the queue |
| PzipThreads.Shared.ProducerTurn | ParallelZip/pzip.c:109-116 | The critical section is exactly the producer step of the protocol |
| PzipThreads.Shared.ConsumerTurn | ParallelZip/pzip.c:134-178 | The critical section is exactly the consumer step of the protocol |
| PzipThreads.Shared.Encode | ParallelZip/pzip.c:142-168 | The chunk's runs are stored in its own slot |
| UmallocList.InsertSorted | Scheduling_&_Virtual_memory/xv6/umalloc.c:30-38 | Linking a block in at its place keeps address order and disjointness |
| UmallocList.MergeKeeps | Scheduling_&_Virtual_memory/xv6/umalloc.c:33-41 | Joining two touching neighbours keeps the list circular, sorted and disjoint, and closes that gap |
| UmallocList.MergeUnits | Scheduling_&_Virtual_memory/xv6/umalloc.c:33-41 | Joining loses no unit |
| UmallocHeap.FreedKeeps | Scheduling_&_Virtual_memory/xv6/umalloc.c:24-44 | free() keeps the free list one circle in address order, disjoint and fully coalesced, conserves the units, and removes exactly this allocation |
| UmallocHeap.FreedSizes | Scheduling_&_Virtual_memory/xv6/umalloc.c:24-44 | The headers of the other live allocations do not change |
| UmallocHeap.FreedCovers | Scheduling_&_Virtual_memory/xv6/umalloc.c:24-44 | An address is free afterwards if and only if it was free or lies in the block given back |
| UmallocHeap.StopTest | Scheduling_&_Virtual_memory/xv6/umalloc.c:30-32 | The test of the search loop holds at exactly one place of the circle, the one where the block belongs |
| UmallocHeap.StopExists | Scheduling_&_Virtual_memory/xv6/umalloc.c:30-32 | There is such a place |
| UmallocHeap.CutFresh | Scheduling_&_Virtual_memory/xv6/umalloc.c:78-82 | The header made by splitting is nobody else's |
| UmallocHeap.TookKeeps | Scheduling_&_Virtual_memory/xv6/umalloc.c:74-85 | Taking a block whole or splitting its tail off keeps the invariant and conserves units |
| UmallocHeap.TookOne | Scheduling_&_Virtual_memory/xv6/umalloc.c:74-85 | Exactly one new live block of the wanted units; other headers stay |
| UmallocHeap.GrownKeeps | Scheduling_&_Virtual_memory/xv6/umalloc.c:46-61 | Units from sbrk extend the heap: total units grow by exactly these |
| UmallocAllocator.RoomExactly | Scheduling_&_Virtual_memory/xv6/umalloc.c:69 | A block of the computed units holds the request and its header if and only if nbytes + 7 does not wrap; past that it gets one unit |
| UmallocAllocator.SbrkExactly | Scheduling_&_Virtual_memory/xv6/umalloc.c:54 | sbrk is asked for the right number of bytes if and only if it is below 2^31 |
| UmallocAllocator.RequestExactly | Scheduling_&_Virtual_memory/xv6/umalloc.c:46-69 | A request makes morecore ask for what it puts on the free list if and only if it is at most 0x7FFF_FFF0 bytes or the rounding wraps; otherwise sbrk gets 0 or less and does not move the break |
| UmallocAllocator.FreedFields | Scheduling_&_Virtual_memory/xv6/umalloc.c:33-42 | The pointer and size assignments in their four cases give the state of the specification |
| UmallocAllocator.LapEnds | Scheduling_&_Virtual_memory/xv6/umalloc.c:74-88 | A lap that came back to freep without a fit has seen every free block |
| UmallocAllocator.MoreEffect | Scheduling_&_Virtual_memory/xv6/umalloc.c:74-89 | After morecore the same blocks are live and one free block is large enough, so the second lap ends |
| UmallocAllocator.Heap.Locate | Scheduling_&_Virtual_memory/xv6/umalloc.c:30-32 | The search from freep ends within a lap at the block's place |
| UmallocAllocator.Heap.Relink | Scheduling_&_Virtual_memory/xv6/umalloc.c:33-42 | The in-place assignments equal the functional relinking |
| UmallocAllocator.Heap.Free | Scheduling_&_Virtual_memory/xv6/umalloc.c:25-44 | The block goes back to its place, coalesced; nothing else changes hands; after any calls of malloc and free the units of the heap are those that sbrk granted |
| UmallocAllocator.Heap.Morecore | Scheduling_&_Virtual_memory/xv6/umalloc.c:46-61 | At least 4096 units that sbrk granted in full join the list through free, or nothing changes when sbrk refuses |
| UmallocAllocator.Heap.Lap | Scheduling_&_Virtual_memory/xv6/umalloc.c:74-86 | One lap finds the first block behind freep that fits, or none does |
| UmallocAllocator.Heap.Take | Scheduling_&_Virtual_memory/xv6/umalloc.c:75-84 | The tail or the whole of the block becomes live, and freep is its predecessor |
| UmallocAllocator.Heap.Find | Scheduling_&_Virtual_memory/xv6/umalloc.c:70-88 | sbrk is asked if and only if no free block fits, once; the block taken is the first behind freep that fits |
| UmallocAllocator.Heap.Malloc | Scheduling_&_Virtual_memory/xv6/umalloc.c:63-90 | A new live block of exactly the computed units with all other allocations untouched, or 0 exactly when nothing fits and sbrk refuses; after any calls of malloc and free the units of the heap are those that sbrk granted |
| VmPages.TakenKeeps | Scheduling_&_Virtual_memory/xv6/kalloc.c:83-95 | Taking the first free page keeps the page partition |
| VmPages.GivenKeeps | Scheduling_&_Virtual_memory/xv6/kalloc.c:60-77 | Giving a page in hand back keeps the page partition |
| VmPages.HungKeeps | Scheduling_&_Virtual_memory/xv6/vm.c:45-53 | A blank page hung into an absent directory entry becomes that directory's table and nothing else's |
| VmPages.UserStoredKeeps | Scheduling_&_Virtual_memory/xv6/vm.c:69-73 | A page in hand stored in an absent entry becomes that address space's user page |
| VmPages.ClearedKeeps | Scheduling_&_Virtual_memory/xv6/vm.c:265-277 | Clearing an entry and freeing its page keeps the partition |
| VmSpaces.HungFrame | Scheduling_&_Virtual_memory/xv6/vm.c:45-53 | Making a table changes no mapping of any address space |
| VmSpaces.EntryDecides | Scheduling_&_Virtual_memory/xv6/vm.c:45-53 | What both levels of the page table allow together is what the entry of the page itself says |
| VmBytes.WrittenByte | Scheduling_&_Virtual_memory/xv6/vm.c:372-384 | A write into a user page changes exactly the bytes at its virtual address: different user pages are different memory |
| VmBytes.WroteMore | Scheduling_&_Virtual_memory/xv6/vm.c:372-384 | One turn of copyout extends the written range and leaves all other bytes of the address space |
| VmEffects.RollBack | Scheduling_&_Virtual_memory/xv6/vm.c:235-246 | A half-grown address space that is shrunk again has its old mapping and contents |
| VmEffects.NoUsersLeft | Scheduling_&_Virtual_memory/xv6/vm.c:284-298 | Shrinking to 0 leaves no user page |
| VmEffects.ReleasedInv | Scheduling_&_Virtual_memory/xv6/vm.c:284-298 | What remains after an address space is freed satisfies the invariant |
| VmEffects.NothingLeft | Scheduling_&_Virtual_memory/xv6/vm.c:284-298 | Making an address space and freeing it gives every page its old use |
| VmEffects.CopyNext | Scheduling_&_Virtual_memory/xv6/vm.c:325-339 | One page copied extends the copied part and keeps the parent and all others |
| VmEffects.Bystander | Scheduling_&_Virtual_memory/xv6/vm.c:61-345 | An operation on one address space leaves the mapping and the user pages of every other one |
| VmKernel.NewSpaceFaults | Scheduling_&_Virtual_memory/xv6/vm.c:350-360 | A space as setupkvm leaves it is closed to users and has no table at any user address, so uva2ka and copyout fault there |
| VmKernel.Memory.Kfree | Scheduling_&_Virtual_memory/xv6/kalloc.c:60-77 | The page goes to the front of the free list |
| VmKernel.Memory.Kalloc | Scheduling_&_Virtual_memory/xv6/kalloc.c:83-95 | The first free page, in use by nobody before; None exactly when the list is empty |
| VmKernel.Memory.constructor | Scheduling_&_Virtual_memory/xv6/kalloc.c:32-44 | With every page held at boot the page partition holds |
| VmKernel.Memory.FreeRange | Scheduling_&_Virtual_memory/xv6/kalloc.c:47-53 | Exactly the whole pages of the range, which the boot code holds, join the free list, and the page partition holds |
| VmKernel.Memory.WalkPgdir | Scheduling_&_Virtual_memory/xv6/vm.c:36-55 | The table for an address, made if wanted; no mapping changes; fails without change, and when allocating exactly if the table is missing and no page is free |
| VmKernel.Memory.MapPage | Scheduling_&_Virtual_memory/xv6/vm.c:69-73 | One page is mapped at one absent address; nothing changes exactly when it needs a table and no page is free |
| VmKernel.Memory.MapPages | Scheduling_&_Virtual_memory/xv6/vm.c:61-80 | The pages are mapped consecutively up to where a table is needed and no page is free; true exactly when that is all of them |
| VmKernel.Memory.Unmap | Scheduling_&_Virtual_memory/xv6/vm.c:265-277 | One turn unmaps and frees the page, or skips to the next table |
| VmKernel.Memory.DeallocUvm | Scheduling_&_Virtual_memory/xv6/vm.c:256-279 | Exactly the pages between the new and the old end are unmapped and free; nothing changes when not shrinking |
| VmKernel.Memory.Place | Scheduling_&_Virtual_memory/xv6/vm.c:234-246 | One page is allocated, filled and mapped; it fails exactly when no page is free, or one and a table is needed too, and then the mapping is as before |
| VmKernel.Memory.AllocUvm | Scheduling_&_Virtual_memory/xv6/vm.c:222-249 | Zeroed pages up to the new size with the old ones untouched; on failure the old mapping, and it fails only where the pages ran out on the way; other address spaces keep theirs in either case |
| VmKernel.Memory.FreeVm | Scheduling_&_Virtual_memory/xv6/vm.c:284-298 | Everything the address space owned is free, nothing else changes, and the invariant holds |
| VmKernel.Memory.SetupKvm | Scheduling_&_Virtual_memory/xv6/vm.c:119-136 | A new address space with exactly the kernel mappings, and no table for any user address; or, only where the pages ran out, no page changed its use or contents |
| VmKernel.Memory.CopyPage | Scheduling_&_Virtual_memory/xv6/vm.c:325-339 | One turn copies one page to a page of its own, or gives everything back |
| VmKernel.Memory.CopyUvm | Scheduling_&_Virtual_memory/xv6/vm.c:316-345 | A child with a copy of each of the parent's pages from page 1 on, or, only where the pages ran out, no page changed its use or contents |
| VmKernel.Memory.GiveUp | Scheduling_&_Virtual_memory/xv6/vm.c:335-344 | The way out frees the page in hand and the half-made child, so that no page changed its use |
| VmKernel.Memory.Uva2ka | Scheduling_&_Virtual_memory/xv6/vm.c:350-360 | The physical page exactly for a user page; a fault exactly where the directory has no table for the address; else 0 |
| VmKernel.Memory.CopyOut | Scheduling_&_Virtual_memory/xv6/vm.c:366-386 | The bytes arrive in order at va up to the first page that is no user page, and no other byte of the address space changes; there it faults exactly if the directory has no table for the page, and else returns -1 |
| PipeRing.TestsAreExact | Scheduling_&_Virtual_memory/xv6/pipe.c:85-106 | The tests on 32-bit counters, wrapped or not, tell full and empty exactly |
| PipeRing.PutKeeps | Scheduling_&_Virtual_memory/xv6/pipe.c:93 | A byte written is at the end of the stream that the ring carries |
| PipeRing.Pipe.WriteFrom | Scheduling_&_Virtual_memory/xv6/pipe.c:84-94 | The copy loop appends to the stream as many bytes as there is room for, in order |
| PipeRing.Pipe.ReadInto | Scheduling_&_Virtual_memory/xv6/pipe.c:113-117 | The copy loop delivers the oldest bytes, at most n, until the ring is empty |
| PipeProtocol.StreamKept | Scheduling_&_Virtual_memory/xv6/pipe.c:79-121 | Every step keeps what was received plus what is in the ring equal to what was sent |
| PipeProtocol.SleepKept | Scheduling_&_Virtual_memory/xv6/pipe.c:79-121 | Every step keeps a reason for each sleeper: its condition holds or somebody inside is about to wake it |
| PipeTheorems.PrefixOfStream | Scheduling_&_Virtual_memory/xv6/pipe.c:79-121 | In every state of every run the bytes received are a prefix of the bytes sent, at most PIPESIZE behind, however often the counters wrapped |
| PipeTheorems.SleepersHaveReason | Scheduling_&_Virtual_memory/xv6/pipe.c:85-112 | With the lock free a sleeping reader means empty with the write end open, a sleeping writer full with the read end open, so the two never sleep together |
| PipeCalls.ReadReturns | Scheduling_&_Virtual_memory/xv6/pipe.c:100-121 | In every run a read of n bytes returns the next bytes of the stream, at most n; fewer only when it has emptied the pipe, and none for n > 0 only when the write end is closed |
| PipeCalls.WriteReturns | Scheduling_&_Virtual_memory/xv6/pipe.c:79-97 | In every run a write has put in all its bytes, in order and nothing else; or a first part of them, and then the pipe is full and the read end closed |
| PipeCalls.ClosedForGood | Scheduling_&_Virtual_memory/xv6/pipe.c:59-76 | An end is open if and only if nobody has closed it |
| PipeCalls.QuietAfterClose | Scheduling_&_Virtual_memory/xv6/pipe.c:59-121 | Nothing is put in after the write end is closed, nor taken out after the read end is |
| PipeTheorems.WakerHolds | Scheduling_&_Virtual_memory/xv6/pipe.c:59-121 | Whoever sleeps although it could go on has a process of the other kind holding the pipe lock on its way to wakeup() |
| PipeTheorems.WakeupNears | Scheduling_&_Virtual_memory/xv6/pipe.c:59-121 | Each step of the lock holder, or of who has the table lock, wakes the sleeper or brings its wakeup nearer, and no other step puts it off |
| PipeTheorems.NoLostWakeup | Scheduling_&_Virtual_memory/xv6/proc.c:450-506 | In every run, from the moment a sleeper could go on, one of these steps is always enabled, and fewer than Distance of them are taken before it is awake |
| ProcFamily.ExitKeeps | Scheduling_&_Virtual_memory/xv6/proc.c:250-290 | exit keeps the invariant: parents can wait, nobody sleeps in wait with a zombie child, pids are distinct, each exit is reaped at most once |
| ProcFamily.HandedMissed | Scheduling_&_Virtual_memory/xv6/proc.c:278-284 | Handing children to init, with the wakeup for zombies, leaves nobody asleep in wait with a zombie child |
| ProcFamily.ExitEffect | Scheduling_&_Virtual_memory/xv6/proc.c:250-290 | What exit does to each process: it is a zombie itself, its children are init's, who sleeps for its parent runs, and who sleeps for init does if a zombie came to it; all else is unchanged |
| ProcFamily.ReapKeeps | Scheduling_&_Virtual_memory/xv6/proc.c:309-321 | Reaping keeps the invariant, and the pid was not reaped before |
| ProcFamily.WaitKeeps | Scheduling_&_Virtual_memory/xv6/proc.c:326-332 | A parent without zombie children may go to sleep |
| ProcTable.EmbryoKeeps | Scheduling_&_Virtual_memory/xv6/proc.c:75-95 | A new embryo with the next pid keeps pids of live slots distinct and the history exact |
| ProcTable.StatusKeeps | Scheduling_&_Virtual_memory/xv6/proc.c:344-529 | Moving a live process between runnable, running and asleep keeps the invariant |
| ProcTable.Table.AllocProc | Scheduling_&_Virtual_memory/xv6/proc.c:75-95 | The first unused slot becomes an embryo with the next pid; None exactly without an unused slot |
| ProcTable.Table.GiveUp | Scheduling_&_Virtual_memory/xv6/proc.c:98-101 | A slot whose process could not get memory is unused again, the rest unchanged |
| ProcTable.Table.Adopt | Scheduling_&_Virtual_memory/xv6/proc.c:203 | The embryo gets the caller as its parent, and the invariant is kept while it is not yet runnable |
| ProcTable.Table.Publish | Scheduling_&_Virtual_memory/xv6/proc.c:217-225 | The embryo becomes runnable, and its pid is returned |
| ProcTable.Table.Wakeup1 | Scheduling_&_Virtual_memory/xv6/proc.c:490-497 | Nobody sleeps on the channel afterwards; who did is runnable, and every other process is unchanged |
| ProcTable.Table.HandOver | Scheduling_&_Virtual_memory/xv6/proc.c:278-284 | The loop gives every child to init and wakes init for zombies |
| ProcTable.Table.Exit | Scheduling_&_Virtual_memory/xv6/proc.c:250-290 | The process becomes a zombie, its children init's, its parent awake; the invariant is kept |
| ProcTable.Table.Wait | Scheduling_&_Virtual_memory/xv6/proc.c:295-334 | The first zombie child in the table is reaped, for the first time, and its slot is empty; fails exactly when killed or childless; else the caller sleeps with no zombie child |
| ProcTable.Table.SetRunning | Scheduling_&_Virtual_memory/xv6/proc.c:418-424 | A process moves between runnable and running, and the invariant is kept |
| ProcTable.Table.SleepOn | Scheduling_&_Virtual_memory/xv6/proc.c:450-484 | The process sleeps on a channel that is no process, and the invariant is kept |
| ProcTable.Table.Wakeup | Scheduling_&_Virtual_memory/xv6/proc.c:501-506 | Nobody sleeps on the channel afterwards; who did is runnable, every other process is unchanged, and the invariant is kept |
| ProcTable.Table.Kill | Scheduling_&_Virtual_memory/xv6/proc.c:512-529 | The first slot with the pid is marked and, if asleep, runnable, all else unchanged; fails exactly when no slot has the pid |
| Scheduler.RunnableHaveAll | Scheduling_&_Virtual_memory/xv6/proc.c:366-376 | So a process that stays runnable gets all its tickets in every pass |
| Scheduler.ExactShare | Scheduling_&_Virtual_memory/xv6/proc.c:357-384 | k passes that each serve a process fully give it exactly k times its tickets |
| Scheduler.ProportionalShare | Scheduling_&_Virtual_memory/xv6/proc.c:344-388 | At every moment of such passes two processes have |ticks_p * t_q - ticks_q * t_p| <= t_p * t_q, whatever the others do |
| Scheduler.WaitBound | Scheduling_&_Virtual_memory/xv6/proc.c:344-388 | Between two slices of a process in one pass or in adjacent passes at most the sum of the others' tickets goes by, also if it is not always runnable |
| Scheduler.GapBound | Scheduling_&_Virtual_memory/xv6/proc.c:344-388 | From any moment of a schedule on, a process served in every pass gets its next slice after at most the others' tickets |
| Scheduler.Cpu.Turns | Scheduling_&_Virtual_memory/xv6/proc.c:351-388 | In k turns of the scheduler's loop every slice goes to a process that is runnable at that moment, and who gets fewer slices than tickets in a pass is not runnable when its turn is over; they raise ticksAcc of every process that is runnable whenever the scheduler looks at it, within passes and between them, by exactly k times its tickets; its slices are in proportion at every moment of the trace, and no stretch of the trace without it is longer than the others' tickets |
| Scheduler.StretchBound | Scheduling_&_Virtual_memory/xv6/proc.c:357-384 | A stretch of a pass over some slots is no longer than their tickets |
| Scheduler.Cpu.RunSlot | Scheduling_&_Virtual_memory/xv6/proc.c:366-376 | A process gets its slices in a row, at most its tickets; it is runnable before each of them, and fewer end with one after which it is not |
| Scheduler.Cpu.Pass | Scheduling_&_Virtual_memory/xv6/proc.c:357-384 | A pass gives slices in table order, each to a process that is runnable at that moment, nobody more than its tickets, fewer only to who is not runnable when its turn is over, and counts them right |
| ShellGrammar.LineFormed | Scheduling_&_Virtual_memory/xv6/sh.c:344-446 | An accepted line gives a tree with at most nine words per command whose spans are maximal words of the line |
| ShellTokens.LexesExactly | Scheduling_&_Virtual_memory/xv6/sh.c:266-308 | A line has exactly the tokens that gettoken finds one after the other: symbols, ">>" as one, and words as long as they can be, with white space around them |
| ShellExact.ParsesExactly | Scheduling_&_Virtual_memory/xv6/sh.c:328-446 | For every line and tree: the parser reads the line as this tree if and only if the grammar makes the tree of the line's tokens and no command has more than nine words |
| ShellExact.PanicsExactly | Scheduling_&_Virtual_memory/xv6/sh.c:328-446 | A line of the grammar is refused if and only if a command has more than nine words |
| ShellExact.PlainRound | Scheduling_&_Virtual_memory/xv6/sh.c:417-446 | A line of words and redirections in any mixture and spacing is one command with the words in order, the first redirection innermost |
| ShellExact.ItemsRound | Scheduling_&_Virtual_memory/xv6/sh.c:426-446 | The same for what parseexec reads inside a longer line, behind words and redirections it has read already |
| ShellExact.LineRound | Scheduling_&_Virtual_memory/xv6/sh.c:345-359 | A phrase of the grammar inside a longer line gives its tree, up to a closing parenthesis or the end |
| ShellExact.LineSound | Scheduling_&_Virtual_memory/xv6/sh.c:345-359 | What parseline accepts is a phrase of the grammar, with the tree it returns |
| ShellRoundTrip.RoundTrip | Scheduling_&_Virtual_memory/xv6/sh.c:328-446 | Parsing the fully parenthesised printing of a tree succeeds if and only if each command has at most nine words, and then gives the tree back with nothing left over |
| ShellRoundTrip.NormalForm | Scheduling_&_Virtual_memory/xv6/sh.c:328-446 | Every accepted line has a parenthesised form with the same tree |
| ShellParser.Parser.GetToken | Scheduling_&_Virtual_memory/xv6/sh.c:266-308 | The token at the position, its span, and the position after the white space behind it |
| ShellParser.Parser.PeekFor | Scheduling_&_Virtual_memory/xv6/sh.c:311-320 | Skips white space, and tells whether one of the characters is next; never the end of the line |
| ShellParser.Parser.ParseRedirs | Scheduling_&_Virtual_memory/xv6/sh.c:375-397 | The loop collects exactly the redirections of the grammar, later ones outside, and fails exactly on a missing file name |
| ShellParser.Parser.ParseArgs | Scheduling_&_Virtual_memory/xv6/sh.c:429-445 | The loop collects words and redirections as the grammar does, and panics exactly where it does |
| ShellParser.Parser.ParseBlock | Scheduling_&_Virtual_memory/xv6/sh.c:400-413 | A parenthesised line and the redirections after it, or the panic on a missing parenthesis |
| ShellParser.Parser.ParsePipe | Scheduling_&_Virtual_memory/xv6/sh.c:362-372 | Pipes group to the right, as in the grammar |
| ShellParser.Parser.ParseLine | Scheduling_&_Virtual_memory/xv6/sh.c:345-359 | Background marks and lists, as in the grammar; the mutual recursion ends because each call consumes input or descends |
| ShellStrings.StringsAreText | Scheduling_&_Virtual_memory/xv6/sh.c:450-493 | However many words were ended by a NUL, each word of the tree reads as it was parsed |
| ShellStrings.NulTerminate | Scheduling_&_Virtual_memory/xv6/sh.c:450-493 | Exactly the characters after the words become NUL |
| ShellStrings.ParseCmd | Scheduling_&_Virtual_memory/xv6/sh.c:328-342 | The tree of the line with every word a C string in the buffer; stops exactly when the grammar rejects the line or something is left over |
| Grep.StarIff | Scheduling_&_Virtual_memory/xv6/grep.c:99-106 | matchstar succeeds if and only if some number of fitting characters, none included, is followed by the rest |
| Grep.Sound | Scheduling_&_Virtual_memory/xv6/grep.c:85-96 | When matchhere succeeds the text can be cut into one stretch per piece of the pattern |
| Grep.Complete | Scheduling_&_Virtual_memory/xv6/grep.c:85-96 | When the text can be cut so, matchhere succeeds |
| Grep.MatchHere | Scheduling_&_Virtual_memory/xv6/grep.c:85-96 | The recursion computes the relation the two lemmas characterise, and ends |
| Grep.MatchStar | Scheduling_&_Virtual_memory/xv6/grep.c:99-106 | The loop computes the star relation |
| Grep.Match | Scheduling_&_Virtual_memory/xv6/grep.c:73-82 | True if and only if some substring of the text is in the language of the pattern, at the start for a leading ^ |

## Left out

- CrashLogKernel.Kernel.LogWriteBlock: the two panics of log_write are its precondition; CrashLogGeometry says exactly when they cannot fire.
- FsKernel.Kernel.Bfree: the panic for a free block is its precondition; FsInvariant.FreeInv discharges it for every block an inode owns.
- FsKernel.Kernel.Balloc: on a full disk the source panics; here the operation stops with no result, and what its caller had done so far is left as it is.
- FsKernel.Kernel.Readi: no size exceeds what the block map holds; beyond it bmap panics.
- FsKernel.Kernel.Bmap: the panic for a block number past MAXFILE is its precondition.
- FsFile.File.Write: lengths below 2^31, and BSIZE 512 as in fs.h.
- FsFile.File.WriteChunk: a chunk is at most what filewrite cuts off.
- FsCrash.PowerCut: one process changes blocks while the write runs, though others may run operations; the file has no holes; dinodes match the inodes in memory when the write begins, and fit their fields. That the buffers changed in a transaction are at its end the blocks of FsKernel.Kernel is a condition on the run; FsPerform.Performs shows that there are such runs.
- FsRuns.NewFileSystem: the root directory and the files that mkfs copies into the image are not modelled; all files start empty.
- BufferCache.Cache.Brelse: a holder must have written or pinned what it changed, as every caller in the kernel does.
- DirSyscalls.Tree.SysUnlink: the current directory is linked; directories kept alive after their unlink, and operations inside them, are not covered. `last` says whether the inode's other references are gone.
- DirSyscalls.Tree.Create: panics for want of an inode or of room end the model's promise on the tree.
- DirTheorems.FormattedIsGood: the names mkfs puts into the root are distinct, not empty, without slashes, at most 14 characters, and none is "." or "..".
- DirTheorems.TreeTheorem: nlink is a number without a limit, while the source has a short; each system call is one step, and the locks that make it one are not modelled.
- PipeRing.Pipe.WriteFrom: PIPESIZE is 512, as in the source.
- PzipEncode.CompressOutput: every run count is below 2^31 and there is at least one byte that is not NUL; otherwise the source overflows an int or writes a record that is not there.
- UmallocAllocator.Heap.Morecore: addresses are counted in header units from the start of the data segment, sbrk hands out memory at or above the last break. Where RequestExactly says that sbrk is asked for too little, only a refusing sbrk is covered.
- UmallocAllocator.Heap.Find: the same condition on sbrk as Morecore.
- UmallocAllocator.Heap.Malloc: the same condition on sbrk as Morecore.
- VmKernel.Memory.MapPages: the panic "remap" is its precondition.
- VmKernel.Memory.CopyUvm: the two panics for missing parent pages are its precondition; the copy starts at page 1, as the source does here.
- VmKernel.Memory.CopyOut: page bytes are natural numbers, and the kernel half of the address space is not for users (as setupkvm leaves it).
- VmKernel.Memory.Kalloc: the free list is a sequence of pages; its link words inside the pages are not modelled, nor is kmem.use_lock.
- PzipTheorems.ParallelEqualsSequential: for file sizes and chunk counts that an int holds; PzipChunks.ProducedExactly says what happens to the input otherwise.
- PipeTheorems.NoLostWakeup: processes are not killed while they are in the pipe, and an end is not closed while it is in use.
- ProcTable.Table.AllocProc: process ids do not wrap.
- Scheduler.Cpu.Pass: one CPU, tickets fixed, and the states of the processes at the end of each slice and between passes are given from outside (settickets, sysproc.c:95-103, is not a step); ticksAcc does not wrap.
- ShellParser.Parser.ParseArgs: the EXEC node is built after its arguments are known, while the source fills it in as they come.
- Spinlocks and sleep locks are atomic steps; weak memory orders and interrupt masking are not modelled, and the TLB is always fresh.
- filealloc, filedup and fileclose, and offsets shared between processes: reference counts of open files.
- Exhaustion of NBUF, NINODE and the inode cache: panics that stop the kernel.
- Hardware, boot, assembly, trap vectors, the console, printf, exec and ELF loading, device branches of readi and writei.
- Command programs, the line buffering of grep, and running the shell's trees: input and output around the cores.
- Memory mapping and file opening in pzip: file contents are byte sequences. pzipfinal.c and pzipnew.c repeat pzip.c.
- The xv6-system_calls tree (the same kernel code with a counter), KeyValueStore/kv.c (an array of key-value pairs saved to a file) and Wisconsin_Shell/wish.c (a line splitter around fork and exec).
