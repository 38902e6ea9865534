# The xv6 kernel and two of its programs, in Dafny

This project models the parts of xv6 (RISC-V) that keep state across many steps, and proves what they keep:
the write-ahead log over the buffer cache, page tables over the page allocator, the block, file and directory
layers of the file system, spinlocks, sleep-locks and the exit/wait protocol, pipes, the user heap, the shell's
parser and grep. `dafny verify dfyconfig.toml` checks all of it.

Code that changes state is a class whose methods assign the same fields in the same order; a `ghost` field holds
the abstract value that the methods' contracts speak of. Protocols between processes are state machines: a state,
the events that may happen in it, a step function with the code's branches, and theorems about every run. A
`panic` ends a method with a result that says so, or is shown not to happen.

| files | subject |
|---|---|
| `Params`, `Basics` | constants of param.h and fs.h; a value that may be missing |
| `RedoLog`, `BufferCache`, `Log`, `LogReservation`, `FullLog` | the disk under crashes; bio.c; log.c over bio.c; begin_op and end_op; a run that fills the log |
| `Sv39`, `PageTables`, `AddressSpaces`, `PageCosts`, `Vm`, `UserMemory`, `ProcessSize` | entries and indices; what is true of all tables and pages; relations between states; how many pages mapping takes; kalloc.c and vm.c; copyin and copyout; sbrk |
| `Processes`, `ProcessRuns` | allocproc and the memory side of kfork; any series of calls by any processes |
| `DiskBytes`, `FileBlocks`, `FileContents`, `FileSystem`, `FileIO` | bits and words in a block; who owns each block; files as byte sequences; balloc, bmap, itrunc; readi, writei, filewrite |
| `WriteCosts`, `WriteRoom`, `FullChunk`, `TruncCosts` | which blocks a write logs; when it finds room; a disk where it logs ten; which blocks freeing a file logs |
| `FileRuns`, `FileCrash` | any series of calls on files; operations under crashes |
| `Directories`, `FileTree`, `Paths`, `TreeRuns` | link counts; dirlookup, create, link, unlink, namex; what names and paths lead to; any series of calls on directories |
| `SpinLocks`, `SleepWakeup`, `SleepLocks`, `ExitWait`, `Families` | spinlock.c; sleep and wakeup for any conditions; sleep-locks; fork, exit, wait, the scheduler; parents and children |
| `HeapBlocks`, `HeapAllocator` | the blocks of the user heap; malloc and free |
| `ShellSyntax`, `ShellGrammar`, `ShellText`, `ShellPrinter`, `Shell` | tokens and the parser's functions; the lines of the grammar; lines as typed text; the parenthesised form; the parser and nulterminate |
| `Pipe`, `Regex`, `Grep` | the ring buffer; patterns and their matcher; grep's loop |

## What the proofs found

Some properties hold only under a condition, and some comments promise more than the code does. The model follows
the code.

- `log_write` tests the size of the log before it looks for a block that is already there
  (quiz/lab1/kernel/log.c:221-230). An operation that keeps its promise can therefore panic by logging a block
  again when the log is completely full: `LogReservation.AbsorptionPanics`. `LogReservation.Consequences` shows that
  this is the only way.
- The cache has as many buffers as the log has slots (quiz/lab1/kernel/param.h:14-15), and every logged block is
  pinned. A commit of a completely full log cannot read the log's own blocks and panics in `bget`; any smaller log
  commits when nothing else is held: `Log.Log.Commit`. Three operations of ten blocks each reach it:
  `FullLog.FullLogPanics`.
- A failed `uvmalloc` or `uvmcopy` leaves the mapped pages of the target as they were, but page-table pages made on
  the way stay until the table is freed: `Grown` in the contracts of `Vm.Kernel.UvmAlloc` and `Vm.Kernel.UvmCopy`.
- sys_sbrk's lazy branch tests the new size for overflow only (quiz/lab1/kernel/sysproc.c:54-61). From a size of at
  most TRAPFRAME every call keeps it so but a lazy one with addr + n above TRAPFRAME. Growing eagerly into the special
  pages panics in mappages, or fails when there is not a page left for that: `Vm.Kernel.UvmAlloc` has the exact number.
  When a process whose size is TRAMPOLINE gives a page back, uvmdealloc frees its trapframe page, which is then not
  mapped when the process returns to user space; if it is killed in that call, freeproc frees the page again, which
  closes the free list into a circle. `ProcessSize.Process.Sbrk`, `ProcessSize.Process.LoseTrapframe`,
  `ProcessSize.FreedTwice`.
- One `filewrite` chunk can log all ten blocks an operation may log. It does so exactly when it starts in the last
  block of the file and ends in the third after it, the file has no indirect block yet and gets one, and the four
  lowest free blocks are under four different bitmap blocks: `FileIO.WriteChunk`, `FullChunk.LogsTenBlocks`.
- `itrunc` logs one bitmap block for each that has a block of the file, and the inode block. So an `iput` that frees
  a file keeps within MAXOPBLOCKS on every disk of a layout exactly when there are fewer than ten bitmap blocks:
  `TruncCosts.FreeingFits`. A file system of 2000 blocks has one, one of 200000 blocks (quiz/lab1/kernel/param.h:17)
  has 25.
- `pipewrite` returns without waking the readers when it finds its process killed after it has already put bytes
  into the pipe (quiz/lab1/kernel/pipe.c:84-87). A reader that slept on the empty pipe then stays asleep beside
  waiting bytes, until somebody else writes or the last writer closes. That happens exactly when readers sleep, the
  read end is open, and the first byte at which the writer is found killed is neither its first nor beyond the size
  of the pipe, with no unreadable byte before it: `Pipe.Ring.WriteSome`, `Pipe.LosesWakeup`.
- `piperead` takes a byte out of the ring before it copies it to the reader. If the copy fails the byte is gone, and
  the returned count does not include it. That happens exactly when memory cannot be written at a byte below both the
  count asked for and the number of bytes inside: `Pipe.Ring.ReadSome`, `Pipe.LosesByte`.
- grep stops at the first line that, with its newline, does not fit in 1023 bytes, and says nothing about the lines
  after it, whatever they are: `Grep.PrintedUpTo`. It prints all matching lines exactly when none of them comes at
  or after that line: `Grep.AllLines`, `Grep.DroppedLine`.
- The shell's parser panics on a command of ten words. Any other line that the grammar allows, typed with any spacing
  that keeps its tokens apart, is parsed as what it means: `ShellText.TypedLine`.
- Whatever pages are mapped, shared out and filled in lazily, each process sees an array of bytes of its own that only
  its own calls change, from boot on through any series of fork, sbrk, copies and exit: `ProcessRuns.AnyRun`.

## Model

| member | source | states |
|---|---|---|
| `RedoLog.AllOrNothing` | quiz/lab1/kernel/log.c:66-204 | Crash a commit after any number of its block writes, crash the recoveries that follow any number of times at any of their writes, and let one recovery finish: every home block holds its old contents, or every one its new contents, the new ones exactly when the first header write reached the disk, and the header ends empty |
| `RedoLog.CrashesDoNotMatter` | quiz/lab1/kernel/log.c:118-124 | Any series of crashed recoveries leaves a disk on which an undisturbed recovery does what it would have done at first |
| `RedoLog.RecoveryIsRestartable` | quiz/lab1/kernel/log.c:67-84 | A recovery stopped after any of its writes is finished by the next one |
| `RedoLog.SealedRecovers` | quiz/lab1/kernel/log.c:101-115 | Once the header is on disk, recovery installs the whole transaction and touches nothing else |
| `RedoLog.LoggedRecovers` | quiz/lab1/kernel/log.c:180-192 | Before that, recovery changes no home block, however much of the log has been written |
| `BufferCache.Cache.constructor` | quiz/lab1/kernel/bio.c:37-53 | binit leaves one ring of all buffers, none of them in use |
| `BufferCache.Cache.BGet` | quiz/lab1/kernel/bio.c:59-89 | Fails exactly when the block is not cached and every buffer is referenced; otherwise hands out the one buffer of the block, and a recycled buffer is the unreferenced one released longest ago |
| `BufferCache.Cache.BRead` | quiz/lab1/kernel/bio.c:93-103 | The buffer returned holds the current contents of the block; no other buffer changes |
| `BufferCache.Cache.BWrite` | quiz/lab1/kernel/bio.c:107-112 | Exactly one disk block changes, to the buffer's contents |
| `BufferCache.Cache.BRelse` | quiz/lab1/kernel/bio.c:117-137 | The last release makes the buffer the most recently released one and keeps the list one ring of all buffers |
| `BufferCache.Cache.BPin` | quiz/lab1/kernel/bio.c:140-144 | A pin is a reference, so a pinned buffer is not recycled |
| `BufferCache.Cache.BUnpin` | quiz/lab1/kernel/bio.c:147-151 | With another reference still held, dropping a pin keeps the cache in agreement with the disk |
| `BufferCache.UnlinkRing` | quiz/lab1/kernel/bio.c:128-129 | Taking a buffer out of the doubly linked list leaves one ring of the others |
| `BufferCache.PushFrontRing` | quiz/lab1/kernel/bio.c:130-133 | Relinking it behind the head gives one ring with it in front |
| `BufferCache.FewReferences` | quiz/lab1/kernel/bio.c:76-88 | With fewer references held than there are buffers, bget does not run out |
| `BufferCache.AllReferenced` | quiz/lab1/kernel/bio.c:76-88 | When as many different blocks are held as there are buffers, every other block panics in bget |
| `Log.Log.WriteLog` | quiz/lab1/kernel/log.c:180-192 | The disk goes through the images of the log being filled from the cache, whether or not the copying halts |
| `Log.Log.WriteHead` | quiz/lab1/kernel/log.c:104-115 | One block write puts count and block numbers into the header block and changes nothing else |
| `Log.Log.ReadHead` | quiz/lab1/kernel/log.c:88-98 | The header in memory becomes the one on disk |
| `Log.Log.InstallTrans` | quiz/lab1/kernel/log.c:67-84 | The disk goes through the images of the log being installed; at a commit each block is unpinned, after a crash none is |
| `Log.Log.RecoverFromLog` | quiz/lab1/kernel/log.c:118-124 | At boot recovery never runs out of buffers, makes one write for each logged block and one for the header, and leaves the recovered disk |
| `Log.Log.Commit` | quiz/lab1/kernel/log.c:195-204 | The disk goes through the images to which AllOrNothing applies; it completes whenever a buffer is left over, and never with a completely full log; afterwards what readers saw is on disk |
| `Log.Log.Boot` | quiz/lab1/kernel/log.c:54-63 | On any disk with a log, initlog leaves an empty, open log that satisfies the invariant, over the recovered disk |
| `FullLog.Fill` | quiz/lab1/kernel/log.c:127-236 | Three admitted operations that log ten blocks each fill the log, and the last of them is to commit |
| `FullLog.FullLogPanics` | quiz/lab1/kernel/log.c:180-192 | That commit does not complete |
| `Log.Log.LogWrite` | quiz/lab1/kernel/log.c:216-236 | Succeeds exactly when the log is not full and an operation is running; a block is entered and pinned once, absorbed after that |
| `Log.Log.BeginOp` | quiz/lab1/kernel/log.c:128-143 | Admits an operation exactly when no commit runs and a full reservation is left |
| `Log.Log.EndOp` | quiz/lab1/kernel/log.c:148-165 | The last operation, and only it, starts the commit |
| `Log.Log.CommitAndReopen` | quiz/lab1/kernel/log.c:167-176 | After the commit the log is empty and open again and readers see what they saw |
| `Log.CommittedView` | quiz/lab1/kernel/log.c:195-204 | What readers saw before a commit is what its recovered disk holds |
| `LogReservation.EveryRunFits` | quiz/lab1/kernel/log.c:127-236 | In every interleaving of operations that add at most MAXOPBLOCKS blocks, logged blocks plus unused reservations fit in the log, logged numbers stay distinct, and committing excludes running operations |
| `LogReservation.Consequences` | quiz/lab1/kernel/log.c:127-236 | So an idle log admits an operation, end_op never finds a commit under way, and a promised block fits unless it is already there in a completely full log |
| `LogReservation.AbsorptionPanics` | quiz/lab1/kernel/log.c:221-230 | A run in which an operation that keeps its promise panics by logging a block again |
| `Sv39.DecodeEncode` | quiz/lab1/kernel/riscv.h:372-389 | An entry is read back from its 64-bit word; the word fits for a 44-bit page number |
| `Sv39.EncodeDecode` | quiz/lab1/kernel/riscv.h:372-389 | Every word is the word of the entry it is read as |
| `Sv39.EntryBits` | quiz/lab1/kernel/riscv.h:372-389 | The bits of an entry's word, counted from the lowest, are valid, read, write, execute and user, and from bit 10 on those of the page number |
| `Sv39.PaRoundTrip` | quiz/lab1/kernel/riscv.h:385-387 | PTE2PA undoes PA2PTE exactly on page addresses |
| `Sv39.IndicesArePages` | quiz/lab1/kernel/riscv.h:391-400 | The three 9-bit indices of an address below MAXVA are its page number, and all index triples occur |
| `Sv39.IndicesInjective` | quiz/lab1/kernel/riscv.h:391-400 | Two addresses below MAXVA with the same indices are in the same page |
| `PageTables.SetLeaf` | quiz/lab1/kernel/vm.c:160-172 | Writing one lowest-level entry in memory adds one page to one abstract table and keeps everything else true of all tables and pages |
| `PageTables.ClearLeaf` | quiz/lab1/kernel/vm.c:200-211 | Clearing it takes one page out |
| `PageTables.EntryIsLeaf` | quiz/lab1/kernel/vm.c:98-115 | A valid lowest-level entry in memory is the abstract table's entry for that page |
| `PageTables.NewChild` | quiz/lab1/kernel/vm.c:103-113 | Linking a page of zeros as a lower-level table maps nothing |
| `PageTables.LooseChange` | quiz/lab1/kernel/kalloc.c:47-82 | Moving a page between the free list and the kernel disturbs no table |
| `AddressSpaces.NoPageIsLost` | quiz/lab1/kernel/kalloc.c:33-82 | Every page is on the free list, a page-table page, a mapped page or held by the kernel |
| `AddressSpaces.TablePagesDiffer` | quiz/lab1/kernel/vm.c:98-115 | A page-table page is not free and is in one place of one table |
| `AddressSpaces.MappedPagesDiffer` | quiz/lab1/kernel/vm.c:193-324 | A mapped user page is not free, not a page-table page, and mapped once in all tables together |
| `AddressSpaces.FreePagesAreFree` | quiz/lab1/kernel/kalloc.c:69-82 | The free list holds exactly the free pages |
| `AddressSpaces.RolledBack` | quiz/lab1/kernel/vm.c:217-240 | Taking out what a failed operation has added gives back its pages and leaves the abstract table as it was |
| `AddressSpaces.FreedAll` | quiz/lab1/kernel/vm.c:283-288 | Unmapping all pages and freeing the page-table pages frees exactly what the table owned |
| `Vm.Kernel.constructor` | quiz/lab1/kernel/kalloc.c:27-40 | freerange makes each page of its range free, once |
| `Vm.Kernel.KAlloc` | quiz/lab1/kernel/kalloc.c:69-82 | Returns the first free page, filled with junk, or null exactly when there is none |
| `Vm.Kernel.KFree` | quiz/lab1/kernel/kalloc.c:47-63 | A page that is not free goes to the front of the list |
| `Vm.Kernel.NextTable` | quiz/lab1/kernel/vm.c:103-113 | One level down in the tree, made of a zeroed page if asked for |
| `Vm.Kernel.Walk` | quiz/lab1/kernel/vm.c:98-115 | Finds the entry of an address without changing any abstract table; with allocation it fails exactly when fewer pages are free than page-table pages are missing on the way |
| `Vm.Kernel.WalkAddr` | quiz/lab1/kernel/vm.c:121-138 | The physical page of a user page, 0 for anything else |
| `Vm.Kernel.IsMapped` | quiz/lab1/kernel/vm.c:476-486 | True exactly for pages in the abstract table |
| `Vm.Kernel.MapPages` | quiz/lab1/kernel/vm.c:146-174 | Adds exactly its range, or exactly a prefix of it when fewer pages are free than page-table pages are missing for the range; all other tables and all data stay |
| `Vm.Kernel.UvmUnmap` | quiz/lab1/kernel/vm.c:193-212 | Removes exactly its range, skipping pages that are not mapped; freed pages are on the free list, a trapframe or trampoline page in the range among them, others are held |
| `Vm.Kernel.MapFresh` | quiz/lab1/kernel/vm.c:226-237 | Allocates, fills and maps one page exactly if a page is free for it and for each missing page-table page on its path; gives the page back otherwise |
| `Vm.Kernel.UvmCreate` | quiz/lab1/kernel/vm.c:179-187 | A new empty table, or nothing changes, exactly when no page is free |
| `Vm.Kernel.UvmDealloc` | quiz/lab1/kernel/vm.c:247-258 | Removes and frees exactly the pages between the two sizes, for every oldsz that walk accepts |
| `Vm.Kernel.UvmAlloc` | quiz/lab1/kernel/vm.c:217-240 | Adds zeroed pages exactly between the two sizes; succeeds exactly when it stays below the trapframe page and as many pages are free as the range and its missing page-table pages take; panics exactly when it reaches the trapframe page with one more page free; a failed call leaves the pages that are mapped, in every table, as they were |
| `Vm.Kernel.UvmCopy` | quiz/lab1/kernel/vm.c:297-324 | Every page of the old table below sz gets a copy of its own with the same flags and bytes; succeeds, and panics at the trapframe page, exactly under the conditions of UvmAlloc for the mapped pages; a failed call leaves the target as it was |
| `Vm.Kernel.FreeWalk` | quiz/lab1/kernel/vm.c:263-278 | Frees the page-table pages below a page and meets no leaf, so it does not panic |
| `Vm.Kernel.UvmFree` | quiz/lab1/kernel/vm.c:283-288 | Frees every page that belonged to the table and no other, for every sz that walk accepts |
| `Vm.Kernel.ProcPagetable` | quiz/lab1/kernel/proc.c:177-206 | A table with just the trampoline and trapframe exactly when three pages are free, or every page has the role it had |
| `Vm.Kernel.ProcFreePagetable` | quiz/lab1/kernel/proc.c:211-216 | The whole table goes; the trampoline and trapframe pages stay; for every sz that walk accepts |
| `UserMemory.NewProcTable` | quiz/lab1/kernel/proc.c:177-206 | A new table is one that copyin and copyout can work with: user code has no access to its two pages, the trampoline can be read and executed and not written, the trapframe read and written and not executed |
| `ProcessSize.Process.GrowProc` | quiz/lab1/kernel/proc.c:236-252 | Growing ends below the trapframe page, fails with the size as it was, or panics, each exactly as UvmAlloc does; no byte that a process sees changes, and the new ones can be written; shrinking makes what lies beyond the last page read as zero, and takes the trapframe page away exactly when it comes from above that page to below it |
| `ProcessSize.Process.Sbrk` | quiz/lab1/kernel/sysproc.c:39-63 | From a size of at most TRAPFRAME the size stays one exactly unless the call grows lazily and addr + n is above TRAPFRAME; lazy and eager growth leave the same bytes, and other processes keep all of theirs |
| `ProcessSize.Process.LoseTrapframe` | quiz/lab1/kernel/sysproc.c:54-61 | From any such size a series of calls ends with the trapframe page on the free list and unmapped while the process still holds it |
| `ProcessSize.Process.FreeProc` | quiz/lab1/kernel/proc.c:153-161 | A process that still holds its trapframe page is freed with every page once: its table's pages and that page become free, and every other page keeps its role and contents |
| `Processes.AllocProc` | quiz/lab1/kernel/proc.c:110-147 | A trapframe page and a table with the two kernel pages for a process of size 0, exactly when four pages are free, or every page has the role it had; no byte that a process sees changes |
| `Processes.Fork` | quiz/lab1/kernel/proc.c:257-279 | The child sees the parent's bytes on pages of its own that were free, with the same access to each page; succeeds, and panics at the trapframe page, exactly when as many pages are free as that takes; a failed call leaves every table and every page's role as it was |
| `ProcessRuns.AnyRun` | quiz/lab1/kernel/proc.c:110-279 | From kinit on, after any series of userinit, kfork, sys_sbrk, copyin, copyout and freeproc by any processes, what each process reads is what it would read if it had an array of bytes to itself, zero at first or a copy of its parent's |
| `ProcessSize.FreedTwice` | quiz/lab1/kernel/kalloc.c:47-82 | Freeing a page that is free makes the free list a circle through that page, which never ends |
| `ProcessSize.HasShrunk` | quiz/lab1/kernel/vm.c:247-258 | After uvmdealloc from at most TRAMPOLINE the process holds its trapframe page, unless the sizes are on its two sides |
| `UserMemory.VmFault` | quiz/lab1/kernel/vm.c:453-473 | Maps a page of zeros exactly if the page is below sz, not mapped, and there is memory for it and its page-table pages; no byte that any process can see or that is in a page of the kernel changes, and pages change their role only from free to this table's |
| `UserMemory.CopyOut` | quiz/lab1/kernel/vm.c:343-375 | Exactly the bytes [dstva, dstva+len) of this process become the source bytes, across page boundaries and lazily mapped pages; a failed call has done so for a prefix; no other byte of a process or of the kernel's pages changes and no page is lost on the way |
| `UserMemory.CopyOutPage` | quiz/lab1/kernel/vm.c:350-370 | A page of the range is written exactly if it is mapped for writing, or one that vmfault maps |
| `UserMemory.CopyIn` | quiz/lab1/kernel/vm.c:381-403 | Returns the bytes a process sees there, zeros for pages not yet mapped, and changes none; no page is lost on the way |
| `UserMemory.CopyInPage` | quiz/lab1/kernel/vm.c:385-400 | A page of the range is read exactly if it is a user page, or one that vmfault maps |
| `UserMemory.ReadBack` | quiz/lab1/kernel/vm.c:343-403 | What copyout has written is what user memory holds |
| `UserMemory.OutAndIn` | quiz/lab1/kernel/vm.c:343-403 | A copyin of the range that copyout has written returns the bytes written |
| `UserMemory.ReadOnlyStays` | quiz/lab1/kernel/vm.c:358-362 | copyout changes no byte of a page that user code may not write |
| `UserMemory.PageIsSeen` | quiz/lab1/kernel/vm.c:363-398 | A process sees the bytes of a mapped page in order, the first one at the page's address |
| `UserMemory.PatchPage` | quiz/lab1/kernel/vm.c:363-367 | Writing within one physical page changes the user bytes it backs and no other process's |
| `FileBlocks.OneOwner` | quiz/lab1/kernel/fs.c:395-444 | The blocks of all files are data blocks with their bitmap bit set, and no two places in any inodes share one |
| `FileBlocks.SetBitsAreOwned` | quiz/lab1/kernel/fs.c:67-106 | The bit of a data block is set exactly if an operation holds the block, or it is in exactly one place of exactly one inode |
| `FileBlocks.ExactOwner` | quiz/lab1/kernel/fs.c:67-106 | Between operations a bitmap bit is set exactly if its block is metadata or in exactly one place, a slot or the indirect block, of exactly one inode |
| `FileRuns.AnyRun` | quiz/lab1/kernel/fs.c:338-562 | So it is after mkfs and any series of bmap, readi, writei, itrunc, iput and link count changes on any files |
| `FileBlocks.Rewire` | quiz/lab1/kernel/fs.c:406-444 | Filling an empty slot with a newly allocated block, or emptying a slot, keeps ownership exact |
| `DiskBytes.ByteWeight` | quiz/lab1/mkfs/mkfs.c:276-285 | Changing byte k of a block number in an indirect block changes the number by 256 to the power k times the difference, and no other number: the lowest byte stands first, as mkfs stores it and the kernel reads it |
| `DiskBytes.WordBits` | quiz/lab1/kernel/fs.c:67-89 | The bits of a block in the order in which the bitmap counts them are those of its words, lowest first |
| `FileContents.BlockOfFile` | quiz/lab1/kernel/fs.c:395-444 | The bytes of a file from n * BSIZE on are those of the block that entry n of its addrs names, or entry n - NDIRECT of its indirect block |
| `FileContents.PatchBlock` | quiz/lab1/kernel/fs.c:549-553 | Writing part of one block changes just these bytes of just this file |
| `FileSystem.Fs.BAlloc` | quiz/lab1/kernel/fs.c:67-89 | The lowest free block, marked and zeroed, or 0 exactly when the disk is full |
| `FileSystem.Fs.BFree` | quiz/lab1/kernel/fs.c:93-106 | Clears the bit of a block that is in use, so it does not panic |
| `FileSystem.Fs.BMap` | quiz/lab1/kernel/fs.c:406-444 | The block of a file at an index, allocated with its indirect block if need be; every other slot of every file stays, and nothing changes if it was there; the blocks taken are the lowest free ones, none stays held, and exactly they, their bitmap blocks and a changed indirect block are logged |
| `FileSystem.Fs.ITrunc` | quiz/lab1/kernel/fs.c:449-476 | Frees exactly the blocks of the file, leaves its inode empty, and logs exactly the bitmap blocks of those blocks and the inode block |
| `FileSystem.Fs.IPut` | quiz/lab1/kernel/fs.c:338-363 | The last reference to an inode without links frees its blocks and clears it; any other changes nothing |
| `FileSystem.Fs.constructor` | quiz/lab1/mkfs/mkfs.c:69-175 | The image that mkfs makes without files satisfies the invariant of all files and blocks, and no block is held |
| `TruncCosts.FreeingFits` | quiz/lab1/kernel/fs.c:338-363 | Freeing any file, of any file system at rest on any disk of a layout, logs at most MAXOPBLOCKS blocks exactly when there are fewer bitmap blocks than that |
| `TruncCosts.SpreadOk` | quiz/lab1/kernel/fs.c:449-476 | The file system that shows the other direction is sound and at rest: the root directory, one file of ten blocks, all else free |
| `FileIO.ReadI` | quiz/lab1/kernel/fs.c:495-519 | Returns the stored slice, cut off at the end of the file, and changes nothing |
| `FileIO.WriteI` | quiz/lab1/kernel/fs.c:529-562 | Replaces exactly [off, off+r) of the file's bytes, grows the file to hold them, changes no other file, leaves no holes and no block held; stops short only when the disk is full or the source cannot be read; a source that can be read is written to its end exactly when enough blocks are free; everything changed is logged, by a write that completes exactly what ExactCount counts |
| `WriteRoom.RoomDecides` | quiz/lab1/kernel/fs.c:406-562 | A write comes to its end exactly when as many blocks are free as are missing in its range, and one more if the indirect block is missing and needed |
| `WriteCosts.ExactCount` | quiz/lab1/kernel/fs.c:529-562 | A write that completes logs one block for each block it touches, one for an indirect block it fills, one for each bitmap block that has one of the blocks it has allocated, and the inode block |
| `WriteCosts.TenBlocks` | quiz/lab1/kernel/file.c:149-158 | A write from a block the file has to at most three more logs ten blocks exactly when the other three and the indirect block are missing and the four lowest free blocks are under four bitmap blocks |
| `FullChunk.StateIsOk` | quiz/lab1/kernel/fs.c:395-444 | A sound file system at rest, laid out as mkfs does, with 2036 files that own all blocks but four, one of them eleven blocks and a byte long |
| `FullChunk.LogsTenBlocks` | quiz/lab1/kernel/file.c:149-165 | On it a chunk that appends three blocks to that file is written completely and logs ten blocks |
| `FileIO.WriteChunk` | quiz/lab1/kernel/file.c:156-165 | One transaction logs no more distinct blocks than one operation may, and as many exactly under the condition of TenBlocks on the state before it |
| `FileIO.FileWrite` | quiz/lab1/kernel/file.c:135-179 | Writes n bytes at the offset, advances the offset by what was written and leaves no block held; each of its transactions logs at most MAXOPBLOCKS blocks; returns n, or -1 after a write that is too far out, finds the disk full or cannot read its source |
| `FileCrash.ShowsOne` | quiz/lab1/kernel/fs.h:32-39 | What is on disk determines the bytes of every block and every inode, so these theorems speak of one file system before and one after |
| `FileCrash.OpSurvives` | quiz/lab1/kernel/log.c:66-204 | An operation that logs everything it changes, committed and crashed at any write, and recovered through any crashes, leaves the disk showing the file system before it or the one after it |
| `FileCrash.ChunkSurvives` | quiz/lab1/kernel/file.c:149-165 | A filewrite chunk is such an operation, at any offset and whether or not it is cut short |
| `FileCrash.FreeingSurvives` | quiz/lab1/kernel/fs.c:338-363 | So is the last iput of a file, with fewer than MAXOPBLOCKS bitmap blocks |
| `Directories.NoLinkNoName` | quiz/lab1/kernel/fs.c:338-363 | No linked directory names an inode whose link count is 0, so iput frees none that can be reached |
| `Directories.LinkKeeps` | quiz/lab1/kernel/sysfile.c:124-170 | A new entry together with the count it adds keeps every link count equal to the number of entries |
| `Directories.UnlinkFileKeeps` | quiz/lab1/kernel/sysfile.c:222-233 | So does clearing an entry and lowering the count, which was not 0 |
| `Directories.AttachKeeps` | quiz/lab1/kernel/sysfile.c:276-289 | So does a new directory's entry with the ".." that counts as a link to its parent |
| `Directories.DetachKeeps` | quiz/lab1/kernel/sysfile.c:222-233 | So does removing an empty directory |
| `Directories.EmptyDirAlone` | quiz/lab1/kernel/sysfile.c:174-233 | The one link to an empty directory is the entry being removed, and its ".." names the directory of that entry |
| `Directories.FindIsTheOne` | quiz/lab1/kernel/fs.c:575-598 | Names in a directory are unique, so a lookup finds the entry of that name |
| `FileTree.Fs.DirLookup` | quiz/lab1/kernel/fs.c:575-598 | The first live entry of that name, or 0 |
| `FileTree.Fs.DirLink` | quiz/lab1/kernel/fs.c:603-629 | Fails exactly when the name is there or the write fails; otherwise fills the first empty slot |
| `FileTree.Fs.IAlloc` | quiz/lab1/kernel/fs.c:200-220 | The lowest free inode, or none exactly when all are taken |
| `FileTree.Fs.IPut` | quiz/lab1/kernel/fs.c:338-363 | Frees an inode exactly when it has neither links nor users, which keeps all link counts right |
| `FileTree.Fs.Create` | quiz/lab1/kernel/sysfile.c:246-302 | Opens the inode of an existing name exactly if the kinds allow it; for a new name succeeds exactly when an inode is free and the directory writes succeed, with the lowest free inode linked under the name, and otherwise leaves the tree as it was |
| `FileTree.Fs.constructor` | quiz/lab1/mkfs/mkfs.c:117-170 | The tree that mkfs makes, a root directory one block long whose two entries name it, satisfies the invariant of links and counts |
| `FileTree.Fs.Link` | quiz/lab1/kernel/sysfile.c:124-170 | Succeeds exactly for a non-directory and a new name; a failed call takes the count back |
| `FileTree.Fs.IsDirEmpty` | quiz/lab1/kernel/sysfile.c:174-186 | True exactly when no slot after ".." is in use |
| `FileTree.Fs.Unlink` | quiz/lab1/kernel/sysfile.c:189-243 | Removes the entry and one link, and for a directory also the parent's; refuses ".", "..", missing names and directories that are not empty; never finds a count of 0 |
| `FileTree.SkipElem` | quiz/lab1/kernel/fs.c:646-668 | Takes the first of the names between slashes off the path, cut off at DIRSIZ bytes |
| `FileTree.NameX` | quiz/lab1/kernel/fs.c:675-707 | Follows the names of the path through directories only, from the root if it begins with a slash and from the current directory if not; for nameiparent stops one short and returns the last name |
| `Paths.OneName` | quiz/lab1/kernel/fs.c:694-699 | Looking up a name from a linked directory gives an inode exactly if the directory has an entry of that name for it |
| `Paths.DotAndDotDot` | quiz/lab1/kernel/fs.c:675-707 | "." leads to the directory itself, ".." to the one that has its entry, and from the root to the root |
| `Paths.DownAndUp` | quiz/lab1/kernel/fs.c:675-707 | Going into a directory and to ".." comes back |
| `Paths.WalkJoin` | quiz/lab1/kernel/fs.c:685-705 | Following one path after another is following the first and then the second from where it ends |
| `Paths.WalkFollows` | quiz/lab1/kernel/fs.c:685-705 | A path that leads somewhere is a chain of entries from the start to there, and ends at an inode with links |
| `Paths.ChainIsFollowed` | quiz/lab1/kernel/fs.c:685-705 | And along every chain of entries the path of their names leads to its end |
| `Paths.ElementsJoin` | quiz/lab1/kernel/fs.c:646-668 | The names of two paths with a slash between are those of the one and then of the other |
| `Paths.JoinedElements` | quiz/lab1/kernel/fs.c:646-668 | A path written from names is read back as these names |
| `Paths.CreatedMeans` | quiz/lab1/kernel/sysfile.c:246-302 | After create the new inode has the kind asked for, one link, and its name; a directory has "." for itself, ".." for its parent and no other entry; no other name of any directory leads anywhere else than before |
| `Paths.LinkedMeans` | quiz/lab1/kernel/sysfile.c:124-170 | After link the new name leads to the same inode, which has one link more, and no other name has changed |
| `Paths.UnlinkedMeans` | quiz/lab1/kernel/sysfile.c:189-243 | After unlink the name is gone, and no other |
| `TreeRuns.AnyRun` | quiz/lab1/kernel/sysfile.c:124-302 | After mkfs and any series of create, link, unlink and iput every directory in use is reached from the root by some path, and ".." often enough leads from it to the root: there are no cycles |
| `SpinLocks.MutualExclusion` | quiz/lab1/kernel/spinlock.c:22-72 | In every interleaving a spinlock has one holder at most, and locked says whether it has one |
| `SpinLocks.HoldingIsExact` | quiz/lab1/kernel/spinlock.c:77-82 | holding, although it reads two fields of a lock others may be changing, is right for the CPU that asks |
| `SpinLocks.InterruptsNest` | quiz/lab1/kernel/spinlock.c:89-113 | Interrupts are off exactly while a CPU waits for or holds a lock or is between push_off and pop_off, and come back as they were; pop_off in release never panics |
| `SleepWakeup.NoLostWakeup` | quiz/lab1/kernel/proc.c:537-584 | For any conditions over data under lk, in every interleaving of processes that call wakeup before they release lk or wait when they have made one true: nobody sleeps with its condition true while lk is free, and while it is held the holder's wakeup has yet to come to the sleeper |
| `SleepWakeup.WaitEndsTrue` | quiz/lab1/kernel/proc.c:537-568 | A process comes out of its waiting loop only with its condition true and lk held |
| `SleepWakeup.SleepsUntilWoken` | quiz/lab1/kernel/proc.c:537-584 | A process that has gone to sleep does not run again before a wakeup scan or a kill has dealt with it |
| `SleepWakeup.StepKeeps` | quiz/lab1/kernel/proc.c:537-584 | Every step of sleep and wakeup, and every change of the data under lk, keeps the invariant behind it |
| `SleepLocks.NoLostWakeup` | quiz/lab1/kernel/sleeplock.c:21-41 | In every interleaving nobody sleeps on a free sleep-lock unless a wakeup scan is running |
| `SleepLocks.MutualExclusion` | quiz/lab1/kernel/sleeplock.c:22-41 | One process at most has the sleep-lock, and locked says whether one does |
| `SleepLocks.SleepsUntilWoken` | quiz/lab1/kernel/sleeplock.c:21-41 | A process that sleeps in acquiresleep does not run again before a wakeup scan or a kill has dealt with it |
| `SleepLocks.SomebodyAwake` | quiz/lab1/kernel/sleeplock.c:21-41 | The processes that use a sleep-lock are never all asleep |
| `SleepLocks.StepKeeps` | quiz/lab1/kernel/sleeplock.c:21-41 | Every step of acquiresleep and releasesleep, with sleep and wakeup inside them, keeps the invariant behind both |
| `ExitWait.ParentsCanWait` | quiz/lab1/kernel/proc.c:308-363 | No parent pointer names an exited process or an unused slot |
| `ExitWait.ReportedOnce` | quiz/lab1/kernel/proc.c:368-412 | No process is returned by two kwaits; each gets the status that it exited with and goes to its maker or to init |
| `ExitWait.FreedOffCpu` | quiz/lab1/kernel/proc.c:156-172 | freeproc runs under the slot's lock and never on a process that a CPU is executing |
| `ExitWait.NobodySleepsOverAZombie` | quiz/lab1/kernel/proc.c:308-412 | In every interleaving nobody sleeps in kwait while a child is a zombie, except init while the exiting process that gave it the zombie holds wait_lock and is about to wake it up |
| `ExitWait.StepKeeps` | quiz/lab1/kernel/proc.c:257-487 | Every step of fork, exit with its wakeups, reparent, wait, the scheduler and sched keeps the invariant behind these |
| `Families.UsedIsBeingMade` | quiz/lab1/kernel/proc.c:257-303 | In every interleaving a slot that is neither free nor in full use belongs to a process that is in kfork and making it: no fork is left half done |
| `Families.ParentIsMaker` | quiz/lab1/kernel/proc.c:292-322 | Every process but init has a parent, which is the process that made it until that one exits and has handed it on, and init then |
| `Families.GivesUpWithoutChildren` | quiz/lab1/kernel/proc.c:368-420 | kwait of a process that has not been killed that comes to the end of its scan gives up exactly when it has no child, and goes to sleep exactly when it has one |
| `Families.ReportsAreTrue` | quiz/lab1/kernel/proc.c:326-412 | A status that kwait returns is the argument of a kexit in the run by the process whose pid it returns, which the waiting process made in the run unless the waiting one is init |
| `Families.SleepsUntilWoken` | quiz/lab1/kernel/proc.c:419-420 | A process asleep in kwait does not run before the exit of a child, a child given to init, or something outside has woken it up |
| `HeapBlocks.BlocksDisjoint` | quiz/lab1/user/umalloc.c:10-18 | No unit of the heap is in two blocks, free or live |
| `HeapBlocks.Conservation` | quiz/lab1/user/umalloc.c:24-90 | Free and live units together are the units got from sbrk |
| `HeapBlocks.InsertKeeps` | quiz/lab1/user/umalloc.c:29-43 | A block put into its gap leaves one cycle in address order |
| `HeapBlocks.MergeKeeps` | quiz/lab1/user/umalloc.c:33-42 | Two free blocks that touch become one |
| `HeapBlocks.TakeTailKeeps` | quiz/lab1/user/umalloc.c:78-82 | Splitting gives away the tail of a free block and nothing else |
| `HeapBlocks.ExtendKeeps` | quiz/lab1/user/umalloc.c:47-61 | A new area above everything so far overlaps nothing |
| `HeapAllocator.FreedKeeps` | quiz/lab1/user/umalloc.c:25-44 | free coalesces on both sides, so free blocks never touch, whichever of the two tests succeed |
| `HeapAllocator.WholeRound` | quiz/lab1/user/umalloc.c:74-89 | When malloc's search is back where it began, no free block was large enough |
| `HeapAllocator.Allocator.FindGap` | quiz/lab1/user/umalloc.c:29-32 | free's search ends, in the one gap where the block belongs |
| `HeapAllocator.Allocator.Free` | quiz/lab1/user/umalloc.c:25-44 | Exactly the given block stops being live; the heap stays ordered, disjoint and coalesced |
| `HeapAllocator.Allocator.MoreCore` | quiz/lab1/user/umalloc.c:47-61 | At least the units asked for become free, or nothing changes when sbrk fails |
| `HeapAllocator.Allocator.Malloc` | quiz/lab1/user/umalloc.c:64-90 | At least nbytes bytes, and less than a unit more, disjoint from every live block; null exactly when no free block is large enough and sbrk fails; calls sbrk only when no free block is large enough; the search ends |
| `ShellSyntax.LexSpans` | quiz/lab1/user/sh.c:272-314 | A word is a maximal run of characters that are neither spaces nor symbols |
| `ShellGrammar.ParsesExactly` | quiz/lab1/user/sh.c:334-452 | A token list is accepted exactly if it is that of a line of the grammar, words and redirections in any order, pipelines, ";", "&" and parentheses, with at most nine words to a command; the tree is what the line means: the words in order, the redirections around them, first one innermost |
| `ShellGrammar.TenWordsPanic` | quiz/lab1/user/sh.c:443-445 | A line of the grammar with ten words to a command makes the parser panic |
| `ShellText.TypedLine` | quiz/lab1/user/sh.c:268-452 | The same for the text of a line, with any spaces before its tokens, or none where two tokens do not run together |
| `ShellText.LexText` | quiz/lab1/user/sh.c:268-314 | Such a text lexes to the tokens it was made of, each where it stands |
| `ShellText.AllWords` | quiz/lab1/user/sh.c:351-452 | The words of the tree are the words of the line, all of them and no other |
| `ShellPrinter.RoundTrip` | quiz/lab1/user/sh.c:334-452 | Parsing the parenthesised printed form of a command tree gives the same tree if none of its commands has ten words, and a panic if one has |
| `ShellPrinter.ReadPrint` | quiz/lab1/user/sh.c:272-314 | The printed form consists of the tree's tokens, each where it was printed |
| `ShellPrinter.LineParses` | quiz/lab1/user/sh.c:351-452 | The grammar reads the tokens of a tree as that tree, whatever closes it |
| `ShellPrinter.LineFails` | quiz/lab1/user/sh.c:443-445 | Ten words to a command make it panic, however deep the command is |
| `Shell.GetToken` | quiz/lab1/user/sh.c:272-314 | Returns the next token's code and place and leaves the cursor at the tokens after it |
| `Shell.Peek` | quiz/lab1/user/sh.c:317-326 | Says whether the next token is one of the given symbols and takes none |
| `Shell.ParseRedirs` | quiz/lab1/user/sh.c:381-403 | Reads all redirections, each around what came before |
| `Shell.ParseExec` | quiz/lab1/user/sh.c:422-452 | Agrees with the grammar, panics included, and ends |
| `Shell.ParseBlock` | quiz/lab1/user/sh.c:406-419 | Agrees with the grammar for a parenthesised line |
| `Shell.ParsePipe` | quiz/lab1/user/sh.c:368-378 | Agrees with the grammar for a pipeline |
| `Shell.ParseLine` | quiz/lab1/user/sh.c:351-365 | Agrees with the grammar for a list with background commands |
| `Shell.LineWords` | quiz/lab1/user/sh.c:351-452 | Every word of a parsed command is a token of the line |
| `Shell.NulTerminate` | quiz/lab1/user/sh.c:456-499 | Puts a NUL at the end of every word of the command and changes nothing else |
| `Shell.WordsAreTokens` | quiz/lab1/user/sh.c:456-499 | Each argv and file pointer, read as a C string afterwards, is exactly its token: no NUL lands inside another one |
| `Shell.ParseCmd` | quiz/lab1/user/sh.c:334-348 | A line is accepted exactly when the grammar uses it up; then all its words can be read in the buffer |
| `Pipe.PutQueues` | quiz/lab1/kernel/pipe.c:95-96 | A byte written into a ring that is not full is the last one in it, also across the wrap of the counter |
| `Pipe.TakeQueues` | quiz/lab1/kernel/pipe.c:121 | The byte taken is the first one |
| `Pipe.Ring.WriteSome` | quiz/lab1/kernel/pipe.c:77-103 | Appends exactly the bytes it counts and stops for the code's reasons only; loses a wakeup exactly when readers sleep, the read end is open, and the first byte at which it is found killed, with all before it readable and fitting, is not its first |
| `Pipe.Ring.ReadSome` | quiz/lab1/kernel/pipe.c:106-130 | Takes a prefix of the bytes in the pipe and delivers all of it but for one byte, lost exactly when memory cannot be written at a byte below both n and the number of bytes inside; loses no wakeup |
| `Pipe.Ring.Close` | quiz/lab1/kernel/pipe.c:59-74 | Wakes the other side and frees the pipe when both ends are closed |
| `Pipe.Fifo` | quiz/lab1/kernel/pipe.c:76-130 | After any calls on a pipe the bytes taken out so far are a prefix of those put in, and the rest is what is inside |
| `Pipe.LosesWakeup` | quiz/lab1/kernel/pipe.c:84-87 | Two calls after which a reader sleeps beside a byte |
| `Pipe.LosesByte` | quiz/lab1/kernel/pipe.c:121-125 | Two calls after which a byte is gone that no reader got |
| `Regex.ReadThenWritten` | quiz/lab1/user/grep.c:85-96 | Every pattern is read as items that are written as just that pattern |
| `Regex.WrittenThenRead` | quiz/lab1/user/grep.c:85-96 | And items are read back from how they are written, if a star only follows a character that it repeats and a last $ is only the end of the text |
| `Regex.MatchHere` | quiz/lab1/user/grep.c:85-96 | True exactly when some stretch of text that begins here can be cut into pieces that fit the pattern's items |
| `Regex.MatchStar` | quiz/lab1/user/grep.c:99-106 | The same for a starred character before the rest of a pattern |
| `Regex.Match` | quiz/lab1/user/grep.c:73-82 | True exactly when some stretch of the text does, anchored by ^ at the front and $ at the back |
| `Grep.Grep` | quiz/lab1/user/grep.c:12-35 | Prints the same whatever pieces read returns the input in |
| `Grep.PrintedUpTo` | quiz/lab1/user/grep.c:18-34 | What it prints is the matching newline-terminated lines before the first line that does not fit the buffer |
| `Grep.AllLines` | quiz/lab1/user/grep.c:18-34 | It is all matching lines exactly when no matching line begins where grep stops or later |
| `Grep.DroppedLine` | quiz/lab1/user/grep.c:18-34 | An input whose one matching line is not printed |
| `Grep.LinesFitMeans` | quiz/lab1/user/grep.c:18 | They fit exactly when each is at most 1023 bytes long with its newline |

## Left out

- Everything under quiz/lab2, which repeats these files with small additions.
- Devices, traps, assembly and the memory model: a block read or write is one atomic step, a context switch hands a
  lock from one process to another, and taking a lock is atomic.
- The kernel's own page table, whose leaves alias page-table pages; the page tables here are those of processes.
- Physical memory is a map of pages that hold a free-list link, 512 entries or 4096 bytes, not one array of bytes.
- BufferCache.Cache.BGet: one device; the sleep-lock of each buffer is not modelled, so no second process reads a
  buffer while it is changed.
- Log.Log.Commit: no other process reads blocks while a commit runs; how many buffers others hold is a number at the
  start.
- PageTables.NewChild: user tables are made of 4096-byte pages only, as walk makes them; superpages are not modelled.
- UserMemory.CopyIn: copyinstr and uvmclear are easy variants of what is here. The size of the process is at most
  TRAPFRAME; ProcessSize says which calls keep it so.
- Processes.Fork: the saved registers in the trapframe page, open files, the current directory and the name are not
  copied; the slot, the pid and the locks are in ExitWait.
- ProcessRuns.AnyRun: calls of sbrk that would take the size above TRAPFRAME lazily are left out of the runs; Sbrk says
  that these are the only ones that do. exec is not modelled.
- Vm.Kernel.UvmFree: a size above MAXVA makes walk panic; the precondition excludes it.
- ProcessSize.Process.Sbrk: sizes of at most TRAMPOLINE. Above that the page of the trampoline, which is no page of
  the allocator, can be reached too, and kfree panics.
- FileSystem.Fs.BMap: inodes are records beside the disk blocks, with a second record for what iupdate has stored;
  their packing into inode blocks, iget's table of references, and ilock are not modelled.
- FileIO.WriteI: either_copyin copies a whole piece or fails before it changes the buffer.
- FileTree.Fs.Create: directory slots are typed entries, not 16-byte records read by readi and written by writei;
  whether writei succeeds, and whether iput has the last reference, are parameters; 16-bit link counts do not
  overflow.
- FileTree.Fs.Unlink: operations start from directories that are themselves linked.
- ExitWait.StepKeeps: open files, the current directory and the copying of memory by fork are left out; whether killed
  says that a waiting process has been killed is a parameter of the step. A wakeup scan is one step, at the
  slot of the process that may sleep on the channel; SleepWakeup has the scan step by step.
- SleepWakeup.NoLostWakeup: one channel and one lock; processes that wait on other channels are not part of it.
- FileCrash.OpSurvives: one operation to a transaction, committed from the file system's set of logged blocks; a group
  of operations in one commit, and the calls of log_write one by one, are in Log.
- UserMemory.CopyOut: a page cannot be written when it is mapped for reading only, lies above sz, or there is no memory
  for it; the three are told apart for each page, in CopyOutPage, not for the whole range.
- LogReservation.EveryRunFits: that an operation adds at most MAXOPBLOCKS blocks is proved for the transactions of
  filewrite and, with its exact condition, for freeing a file; not for create, link and unlink, whose directories
  are not made of blocks here.
- SpinLocks.MutualExclusion: intena travels with a kernel thread across a context switch in sched, which is not part
  of this model.
- HeapAllocator.Allocator.Malloc: requests whose size in bytes, rounded up to units, fits in an int.
- Shell.ParseCmd: runcmd and getcmd are not modelled; malloc for the nodes does not fail.
- Pipe.Ring.WriteSome: pipealloc's files and pages are left out.
- Grep.Grep: the input has no NUL, and a read that fails counts as the end of the input.
- FileSystem.Fs.constructor: mkfs's root directory has one block of any bytes, and no files are put in.
- ELF loading, the console, formatted printing and the other user programs.
