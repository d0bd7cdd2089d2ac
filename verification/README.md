# xv6-riscv with MLFQ scheduling and copy-on-write fork: a verified model

A Dafny model of the parts of this kernel and its user programs that carry the most state, with proofs
over every input, every run and every interleaving.

- **Storage.** The buffer cache with its LRU list (`Lru`, `Bio`), the redo log (`LogSpec`, `LogProto`, `Log`), and
  both together (`StorageSpec`, `Storage`, `Versions`, `Observed`): processes hold, change and release blocks while a commit
  takes, locks, copies, writes and releases them one step at a time, every step comes out as on one map from
  block numbers to contents, and whenever power fails recovery gives the version in force at that moment. `Observed`
  says it in terms of the requests and answers alone.
- **Files.** Block ownership, the inode's block map, reading, writing and truncating (`FsSpec`, `Fs`), the cutting
  of writes into transactions (`File`), the bytes of inodes and bitmap (`FsDisk`), and files over the log
  (`Journal`): files are flat byte arrays, whatever an operation changes it logs, and a crash anywhere inside
  `filewrite`, on any disk that can be mounted, leaves the files as they were after one of its transactions.
- **Memory.** Reference-counted frames (`Frames`), the kernel's own pages (`KernelPages`), the eager machine in
  which every process has its own pages (`EagerSpec`, `EagerRuns`), the copy-on-write machine that refines it
  (`Vm`, `VmRuns`), three-level page tables that refine a flat map (`PageTable`), and the two put together
  (`Layers`). `Memory` says from the requests and answers alone what each process finds at each address. User pages, page tables, trapframes and other kernel pages come from one free list, and each
  request succeeds by what is on it.
- **Scheduling and blocking.** The multi-level queue with its boost (`Sched`) and sleep locks over `sleep` and
  `wakeup` (`SleepLock`), as step machines.
- **User programs and pipes.** The K&R allocator (`HeapSpec`, `Heap`), the shell's parser (`ShellSyntax`,
  `Shell`, `ShellText`), grep's matcher (`Grep`) and the pipe ring (`Pipe`).

`Common` and `Blocks` hold the types and constants the others share.

Code that changes state step by step is a class or a method with the source's loops; each is tied to functions
on values, and the laws are proved of those, so that what a caller sees does not rest on the definitions of the
steps. Concurrency is a step machine whose steps lie between two lock
operations. A panic is a precondition or an error result. What comes from outside (sbrk's answers to user
programs, copies that fail, kills, timer ticks, how a time slice ends) is a parameter over which the statements
quantify. 32-bit wrap-around is written out wherever the source depends on it: file offsets, tick counts, pipe
counters, the `int` argument of `sbrk`.

Results that differ from what one might expect of the code:

- A writer killed in the middle of `pipewrite` after storing bytes returns without waking readers.
  `Pipe.ServedStep` says exactly which writes leave a sleeping reader behind available bytes, in terms of what is
  known before the call, and `Pipe.KilledWriter` exhibits one.
- `sbrk` takes an `int`, so `morecore` can ask for less than it puts on the free list. The blocks that `malloc`
  hands out and keeps lie in memory that is there exactly until a request of more than 0x7fffffe0 bytes gets to
  `sbrk` and is granted (`Heap.SbrkArgument`, `Heap.Allocator.Malloc`, `Heap.Run`); `Heap.Nowhere` asks for
  0xfffffff0 bytes and is given a block of which nothing is there.
- `NBUF` equals `LOGBLOCKS`, and `write_log` needs one more buffer. Three operations within their limits can log
  `LOGBLOCKS` blocks (`LogProto.LogCanFill`); the commit's first `bread` then panics (`StorageSpec.OverfullPanics` on the
  map, `Storage.OverfullRun` on the log and cache from any disk large enough). `StorageSpec.PanicsWhenFull` gives the
  exact condition: the blocks referred to, by processes, by the log or by the commit in the middle of a turn, are at
  least `NBUF`, and a process asks for another one or the commit begins a turn.
- `log_write` must not be called once an operation has `MAXOPBLOCKS` blocks in the log, even for one of them. A
  truncation calls it for the bitmap blocks of the blocks it frees and then for the inode's block, and `iput` once
  more for the inode's block: `Fs.FileSystem.Itrunc` and `Fs.FileSystem.Iput` say exactly when a call comes too
  late. In a transaction of its own `itrunc` is safe with at most nine bitmap blocks and `iput` with at most eight,
  more than the disks `mkfs` makes have (`Fs.TruncationFits`); `Fs.WideTruncation` and `Fs.WideUnlink` exceed them.
- The demotion comments in `kernel/trap.c` say "more than" the limit; the code demotes on reaching it, and the
  model follows the code.

## Model

| member | source | states |
|---|---|---|
| LogSpec.CrashAtomicity | kernel/log.c:66-124 | after a crash following any write of commit and then any number of crashes inside recovery, the recovery that completes leaves an empty log and the home blocks exactly as before the transaction or exactly as after it |
| LogSpec.CommitIsAtomic | kernel/log.c:195-204 | for every prefix of commit's writes recovery gives the old home blocks up to the header write and the new ones from then on |
| LogSpec.CommitInstalls | kernel/log.c:195-204 | a commit that runs to its end leaves the home blocks equal to the cache and the log empty |
| LogSpec.RecoveryRestarts | kernel/log.c:117-124 | cutting recovery short after any write and starting again ends with the same home blocks |
| LogSpec.RecoveryClears | kernel/log.c:117-124 | recovery empties the log, and a second recovery changes no home block |
| LogSpec.Crashes | kernel/log.c:117-124 | any sequence of interrupted recoveries keeps the disk recoverable to the same home blocks |
| LogSpec.EncodeHeader | kernel/log.c:103-115 | the header block holds the count and the block numbers in order |
| LogSpec.CommitPhases | kernel/log.c:195-204 | write_log, write_head, install_trans and the second write_head issue exactly the writes the crash results speak of |
| LogProto.ProtocolSafe | kernel/log.c:127-176 | over every interleaving no panic fires, logged blocks plus unused reservations fit the log, a commit sees no operation, an idle log is empty, and a process sleeps in begin_op only while a commit runs or while the logged blocks and MAXOPBLOCKS for everybody inside and one more exceed the log |
| LogProto.AdmitsExactly | kernel/log.c:127-143 | over every interleaving begin_op lets a process in exactly if no commit runs and the log has room for the blocks logged and MAXOPBLOCKS for everybody inside and the newcomer; otherwise it sleeps, and nobody else is affected |
| LogProto.StepInv | kernel/log.c:127-236 | every step of begin_op, log_write, end_op and commit keeps the reservation invariant |
| LogProto.LogWriteRoom | kernel/log.c:215-236 | whenever an operation that has added fewer than MAXOPBLOCKS blocks calls log_write, neither of its panics fires |
| LogProto.LogCanFill | kernel/log.c:127-143 | three operations can log LOGBLOCKS blocks before anything is committed |
| Log.CommitAllWrites | kernel/log.c:179-204 | the cache-level commit issues exactly CommitWrites and leaves the disk they make |
| Log.CommitAllHome | kernel/log.c:179-204 | after commit, cache and disk agree with the transaction on every home block |
| Log.RecoverAllWrites | kernel/log.c:117-124 | the cache-level recovery issues exactly RecoveryWrites |
| Log.Log.WriteLog | kernel/log.c:179-193 | copies every logged block from cache to log area and nothing else |
| Log.Log.WriteHead | kernel/log.c:103-115 | the disk header becomes the in-memory one; bread fails, and then nothing changes, exactly if every buffer is busy with another block |
| Log.Log.PutHead | kernel/log.c:103-115 | through the held header buffer, header block and disk become the in-memory header by one device write |
| Log.Log.Erase | kernel/log.c:201-202 | the log is empty in memory and on disk, and the protocol takes the step that ends the commit |
| Log.Log.InstallTrans | kernel/log.c:66-85 | copies every log block home; after a commit each block loses exactly its pin |
| Log.Log.Commit | kernel/log.c:195-204 | the device writes are CommitWrites, every prefix of them recovers all or nothing, the log ends empty and the protocol state advances |
| Log.Log.ReadHead | kernel/log.c:87-99 | the in-memory header becomes the one on disk, and nothing else changes |
| Log.Log.RecoverFromLog | kernel/log.c:117-124 | the disk becomes the recovered disk with an empty log; any prefix of the writes can be restarted |
| Log.Log.BeginOp | kernel/log.c:127-143 | an operation starts exactly when no commit runs and n + (outstanding + 1) * MAXOPBLOCKS is at most LOGBLOCKS, and is counted; otherwise the process sleeps and nothing else changes |
| Log.Log.LogWrite | kernel/log.c:215-236 | a new block is appended and pinned once, a known one absorbed without a pin, and no panic fires |
| Log.Log.Change | kernel/log.c:206-236 | a change to a held block and its log_write: the latest contents become the new ones whether or not the block is in the log already, and the disk does not change |
| Log.Log.EndOp | kernel/log.c:147-176 | the operation is out; the last one out must commit, any other wakes the waiters |
| Log.Log.CommitDone | kernel/log.c:165-175 | takes the protocol's step that ends the commit and wakes the waiters |
| Log.Log.Modify | kernel/log.c:206-236 | bread, change, log_write, brelse: the latest contents change, the disk does not, and the block stays pinned |
| Lru.UnlinkKeepsCycle | kernel/bio.c:124-131 | taking a buffer out of the list leaves a cycle through the others in the same order |
| Lru.PushFrontKeepsCycle | kernel/bio.c:124-131 | putting it behind the head leaves a cycle that starts with it |
| Bio.Bcache.constructor | kernel/bio.c:36-53 | the list is a cycle through all NBUF buffers, nothing is referenced, and every block reads as on disk |
| Bio.SpareBuffer | kernel/bio.c:77-89 | fewer pinned and held blocks than buffers means some buffer can be recycled |
| Bio.NoSpareBuffer | kernel/bio.c:77-89 | with as many pinned and held blocks as buffers, no buffer can be recycled |
| Bio.GetFails | kernel/bio.c:77-89 | bget fails exactly when the blocks with references, none of them the one asked for, are at least NBUF |
| Bio.Bcache.Bget | kernel/bio.c:58-90 | returns the block's only buffer, or recycles the unreferenced one behind which all in the list are referenced, the least recently used; it fails exactly when NBUF other blocks have references; no referenced block loses its buffer |
| Bio.Bcache.Acquire | kernel/sleeplock.c:21-31 | one look at the sleep lock: taken exactly if it is free, and then the buffer holds the latest contents; otherwise nothing changes |
| Bio.Bcache.Bread | kernel/bio.c:92-103 | takes a reference and, exactly if nobody has the block locked, the lock, with the latest contents; a caller that has to wait keeps its reference |
| Bio.Bcache.Bwrite | kernel/bio.c:106-112 | the disk block becomes the latest contents, by one device write |
| Bio.Bcache.Unlock | kernel/sleeplock.c:33-41 | the lock is free and the reference stays |
| Bio.Bcache.Unref | kernel/bio.c:124-136 | one reference goes; the last one moves the buffer to the front of the list and loses no contents |
| Bio.Bcache.Brelse | kernel/bio.c:116-137 | the lock and one reference go, the last one as in Unref |
| Bio.Bcache.Bpin | kernel/bio.c:139-144 | one more reference keeps the block cached |
| Bio.Bcache.Bunpin | kernel/bio.c:146-151 | drops a pin while the holder keeps its own reference |
| Bio.Bcache.CopyBlock | kernel/log.c:184-191 | one turn of write_log or install_trans: contents, disk, pins and writes change as Copy says, or nothing changes, exactly if the first bread finds no buffer |
| StorageSpec.StepKeeps | kernel/log.c:127-236 | every step of any process, and every step of a commit down to each half of its bread and brelse, keeps the invariant of the map of blocks |
| StorageSpec.TurnOrderly | kernel/log.c:66-193 | each turn of a commit can be begun holding nothing, never takes or locks what it has, locks what it copies and writes, and ends holding nothing |
| StorageSpec.WhichTake | kernel/log.c:179-193 | a turn begins with a block of the log area that nobody uses; the other block it takes is one the log has pinned |
| StorageSpec.Counts | kernel/log.c:66-204 | the device writes issued and the pins dropped are those of the steps taken |
| StorageSpec.SavedWhole | kernel/log.c:147-204 | a version is saved only while no operation is in progress, and then has all of every operation's changes |
| StorageSpec.AllSaved | kernel/log.c:147-204 | when all operations have ended and the commit is over, all their changes are saved |
| StorageSpec.HolderOnly | kernel/bio.c:58-137 | no step of another process, nor of a commit that does not hold it, changes a block that somebody holds, or takes it away |
| StorageSpec.PanicsWhenFull | kernel/bio.c:77-89 | the system panics exactly when NBUF blocks are in use, by processes, the log or the commit, and a process asks for another one or the commit begins a turn |
| StorageSpec.OverfullPanics | kernel/log.c:127-193 | three operations, each within MAXOPBLOCKS, lead to a commit whose first step panics |
| Storage.Boot | kernel/log.c:53-64 | coming up on a disk left at any point of a commit gives the map with the recovered contents, at rest |
| Storage.DoGet | kernel/bio.c:58-90 | bget, by a process or by the commit, takes the map's step, and panics exactly when the map says so |
| Storage.DoLock | kernel/sleeplock.c:21-31 | the lock comes, exactly if nobody holds it, with the map's contents of the block |
| Storage.DoPut | kernel/log.c:206-236 | a change by the holder inside an operation changes the map, be the block in the log already or not, and not the disk |
| Storage.DoUnref | kernel/bio.c:116-137 | letting go of a block takes the map's step: the last to let go loses nothing |
| Storage.DoEnd | kernel/log.c:147-176 | end_op takes the map's step: the last operation out starts the commit |
| Storage.TakeStep | kernel/log.c:75-76 | bget inside a commit: the reference is the commit's and stays while it waits, or the system panics as the map says |
| Storage.SeizeStep | kernel/log.c:185-186 | acquiresleep inside a commit: taken exactly if nobody holds the block, else the commit waits with what it has |
| Storage.CopyStep | kernel/log.c:187-188 | write_log's or install_trans's copy: the device write is the next of CommitWrites and recovery still gives the version in force |
| Storage.SaveStep | kernel/log.c:103-115 | the header write makes the map's contents the version in force |
| Storage.UnpinStep | kernel/log.c:79-80 | one logged block loses its pin and nothing else changes |
| Storage.LeaveStep | kernel/log.c:81-82 | the commit lets go of a block, without loss even as the last to do so |
| Storage.EraseStep | kernel/log.c:195-204 | the last header write ends the commit with the disk equal to the map |
| Storage.CommitStep | kernel/log.c:147-204 | the next step of a commit waits, panics or is done exactly as on the map, with other processes' steps before and after it |
| Storage.Do | kernel/log.c:127-236 | every step has the outcome and the effect it has on the map |
| Storage.Run | kernel/log.c:127-236 | for every sequence of steps of any processes and of the commits, interleaved down to each lock, the outcomes and the final state are those of the map, and a crash after any device write since boot recovers the version in force at that moment; what the map answers is in Observed.AllAnswered |
| Storage.CrashNow | kernel/log.c:117-124 | a crash in the middle of whatever is going on recovers the last version |
| Storage.OverfullRun | kernel/log.c:127-193 | from any disk large enough the log and cache do reach that panic |
| Observed.AllAnswered | kernel/log.c:127-236 | over every run, from the requests and answers alone: a lock comes with the data of the last put into the block, or what was on the disk at boot, and is waited for only while another process has it or nobody is inside an operation; an operation is let in only with room for what those inside and the newcomer may log, and made to wait only without it or with nobody inside; every refusal has its exact reason |
| Observed.SavedMoment | kernel/log.c:147-204 | what is saved is what was there at a moment with nobody inside an operation, not before the system was last at rest |
| Observed.CrashPuts | kernel/log.c:117-204 | a crash of the log and cache leaves in every block the last data put there by the first k requests, after which nobody is inside an operation, and everything done before the log was last seen at rest is among them |
| Observed.Life | kernel/log.c:53-236 | from boot on a disk left at any point of a commit, for any requests: every answer is such, and so is what a crash leaves |
| Versions.QuietIs | kernel/log.c:127-176 | if the contents after each operation that leaves nobody inside one are the next of a sequence of versions, they are the right version whenever nobody is inside |
| Versions.LastSave | kernel/log.c:147-204 | then what is saved is one of the versions, not beyond the operations that have ended and not before those that had when the system was last settled |
| Versions.CrashAnywhere | kernel/log.c:117-204 | and a crash of the log and cache after any steps recovers that version |
| Versions.LoneGoesOn | kernel/log.c:179-204 | a commit of fewer than NBUF blocks, with nobody else using a block, can always take its next step |
| Versions.CommitEnds | kernel/log.c:147-204 | and comes to its end in finitely many steps |
| FsSpec.UsedIsOwned | kernel/fs.c:66-106 | a bitmap bit is set exactly for metadata and for blocks in some inode's slot |
| FsSpec.Disjoint | kernel/fs.c:405-444 | no block is in two slots, of one inode or of two |
| Blocks.PutGetWord | kernel/fs.c:430-438 | storing a little-endian entry in an indirect block changes that entry and no other |
| FsSpec.GiveRootKeeps | kernel/fs.c:411-429 | giving a zeroed free block to an empty address keeps ownership and mapping and changes no byte of any file |
| FsSpec.GiveEntryKeeps | kernel/fs.c:430-441 | the same for an entry of the indirect block |
| FsSpec.WriteChunkKeeps | kernel/fs.c:539-551 | writing inside one block changes exactly those bytes of that file |
| FsSpec.FinishWrite | kernel/fs.c:553-559 | with the size raised to the end of the write, the file is the old one with the bytes spliced in and every other file is unchanged |
| FsSpec.ReadPiece | kernel/fs.c:505-517 | below the size every block is mapped and holds the file's bytes |
| FsSpec.SpliceReads | kernel/fs.c:494-562 | a splice reads back as written, and nothing else changed |
| FsSpec.CutAll | kernel/fs.c:448-476 | when all slots of an inode are emptied exactly its blocks become free and every other file is unchanged |
| FsSpec.FreshImage | kernel/fs.h:8-24 | an image with only metadata in use and empty inodes satisfies the ownership invariant |
| Fs.FileSystem.Balloc | kernel/fs.c:66-89 | returns the lowest free block, marked and zeroed, or 0 exactly when the disk is full |
| Fs.FileSystem.Bfree | kernel/fs.c:92-106 | clears the bit of a block in use |
| Fs.FileSystem.Bmap | kernel/fs.c:405-444 | returns the block of a file index, allocating what is missing; a mapped index changes nothing, contents never change, 0 only on a full disk, and the blocks it logs are counted |
| Fs.FileSystem.MapIndirect | kernel/fs.c:422-441 | bmap beyond the direct blocks: the indirect block is counted once per transaction |
| Fs.FileSystem.Writei | kernel/fs.c:528-562 | refused exactly for offsets past the end or past the largest file; else exactly the written bytes change, the size is the larger of the old one and the end of the write, every other file is unchanged, a short count with good copies means a full disk, and then every changed block is logged; for a chunk no log_write comes too late |
| Fs.FileSystem.Readi | kernel/fs.c:494-519 | returns exactly the bytes of the range below the size, fails exactly when they cannot all be copied out, having delivered those that can, and changes nothing, so it never allocates |
| Fs.FileSystem.Itrunc | kernel/fs.c:448-476 | frees every block of the file and no other, never a free one; other files are unchanged; the transaction gains exactly the inode's block and the bitmap blocks of the blocks freed, and a log_write comes too late exactly if the transaction with those bitmap blocks has MAXOPBLOCKS |
| Fs.TruncationFits | kernel/fs.c:337-363 | in a transaction of its own no log_write of itrunc comes too late with at most nine bitmap blocks, and none of iput with at most eight |
| Fs.WideTruncation | kernel/fs.c:448-476 | a truncation over ten bitmap blocks in which one does |
| Fs.WideUnlink | kernel/fs.c:351-353 | an iput over nine bitmap blocks in which the second iupdate does, though the transaction has only MAXOPBLOCKS blocks |
| Fs.LogsTrans | kernel/log.c:206-236 | operations that log whatever they change still do so one after the other |
| Fs.FileSystem.Iupdate | kernel/fs.c:226-242 | the disk inode becomes the in-memory one |
| Fs.FileSystem.Ialloc | kernel/fs.c:199-220 | the lowest free inode becomes an empty file; 0 exactly when none is free |
| Fs.FileSystem.Ilock | kernel/fs.c:293-318 | an inode not loaded yet becomes the disk one, a loaded one stays |
| Fs.FileSystem.Iput | kernel/fs.c:337-363 | the last reference to an unlinked file frees its blocks and its inode and logs exactly what Itrunc logs, a log_write coming too late exactly if all these blocks make MAXOPBLOCKS; any other only drops a count |
| Fs.FileSystem.Do | kernel/fs.c:448-562 | a read, write or truncation takes a step of the byte arrays, a write being cut short only by a full disk, and moves no block of any file |
| Fs.FileSystem.Run | kernel/fs.c:448-562 | so does every operation of any sequence, on the disks it goes through, each of which keeps ownership |
| Fs.CostBound | kernel/file.c:149-172 | an unaligned start lies in a mapped block, so its turn of the loop logs one block only |
| Fs.TurnsBound | kernel/file.c:149-172 | the turns of one chunk log fewer than MAXOPBLOCKS blocks besides the inode |
| File.WriteOp | kernel/file.c:160-165 | one chunk is one transaction of at most MAXOPBLOCKS blocks, among them every block it changes, in which no log_write comes too late |
| File.FileWrite | kernel/file.c:134-179 | the bytes written are spliced in at the offset, which moves past them; the result is n exactly if all were; a short write with good copies inside the file limit means a full disk; after each transaction, of at most MAXOPBLOCKS blocks and with no log_write too late, a prefix of the bytes is written, and every block that changed is in it |
| File.FileRead | kernel/file.c:106-130 | returns the bytes at the offset, or on a failing copy delivers the first of them, and moves the offset past those returned, without opening a transaction or changing the disk |
| File.ChunksJoin | kernel/file.c:155-172 | consecutive chunks make one splice |
| FsDisk.DinodeBytes | kernel/fs.h:31-39 | the 64 bytes of an inode determine it |
| FsDisk.ByteBits | kernel/fs.c:73-78 | a byte of the bitmap determines its eight bits |
| FsDisk.InodeOnDisk | kernel/fs.h:31-45 | type, major, minor, nlink and size of inode i, and its thirteen addresses, stand little-endian at their offsets in the 64 bytes at i % 16 of block inodestart + i / 16 |
| FsDisk.BitOnDisk | kernel/fs.c:73-78 | block b is in use exactly if bit b % 8 of byte b % 8192 / 8 of block bmapstart + b / 8192 is set |
| FsDisk.FileOnDisk | kernel/fs.c:405-444 | byte o of a file is byte o % 1024 of the block whose number stands in the inode, or for the file's blocks from 12 on in the indirect block that the inode names |
| FsDisk.UnloggedSame | kernel/fs.h:41-51 | a block that no transaction logged has the same bytes before and after |
| FsDisk.OneImage | kernel/fs.h:8-51 | the blocks behind the log determine bitmap, inodes and every file |
| Journal.CrashInWrite | kernel/file.c:149-172 | power fails after any steps of any processes that carry a file write, each of its transactions ending in the contents it should: recovery leaves exactly the image after one of them, with a prefix of the bytes written and nothing else changed, boot and super block included, not beyond the transactions ended and not before those committed |
| Journal.WriteCutShort | kernel/file.c:149-172 | the same of the log and cache themselves, booted from any disk whose recovery holds the image |
| Journal.WriteThenCrash | kernel/file.c:134-179 | the same of the transactions that filewrite itself makes |
| Journal.WriteRuns | kernel/file.c:149-172 | every file write has steps that carry it to its end and until it is saved |
| Frames.CountBound | kernel/kalloc.c:28-28 | no reference count exceeds NPROC, so the 16-bit counter never wraps |
| Frames.AllocInv | kernel/kalloc.c:85-105 | taking a free frame keeps the accounting: each frame is free once with count 0, or counted by its PTEs and holders |
| Frames.UnmapInv | kernel/vm.c:192-212 | freeing a mapped page and clearing its PTE keeps the accounting |
| Frames.UnmapAbs | kernel/vm.c:192-212 | and takes exactly that page from that process |
| Frames.MapNewAbs | kernel/vm.c:228-238 | mapping a fresh frame gives the process that page and changes no other |
| Frames.ShareInv | kernel/vm.c:318-337 | sharing a frame with a child that does not have it yet keeps the accounting |
| Frames.ShareAbs | kernel/vm.c:318-337 | and gives the child the parent's page |
| Frames.ProtectKeeps | kernel/vm.c:324-328 | trading W for COW changes nothing a process sees |
| Frames.PokeAbs | kernel/vm.c:404-407 | because a writable frame is unshared, a store changes one page of one process |
| KernelPages.FreeCount | kernel/kalloc.c:54-105 | free frames, the kernel's frames and mapped frames add up to all of memory |
| KernelPages.NoLeak | kernel/proc.c:169-187 | when no process is left and every other kernel page is returned, every frame is free |
| Vm.SplitInv | kernel/vm.c:551-572 | breaking the sharing keeps the accounting |
| Vm.SplitAbs | kernel/vm.c:551-572 | and no process sees a difference |
| Vm.ForkCopies | kernel/vm.c:302-346 | in the eager machine fork gives the child exactly the parent's pages |
| Vm.ForkUndone | kernel/vm.c:343-345 | dropping the child's pages undoes a partial copy |
| Vm.GrowUndone | kernel/vm.c:228-236 | dropping the new pages undoes a partial growth |
| Vm.Machine.constructor | kernel/kalloc.c:30-48 | every frame is on the free list once with count 0 |
| Vm.Machine.Kfree | kernel/kalloc.c:54-80 | the count drops; the last reference junks the page and frees it |
| Vm.Machine.Kalloc | kernel/kalloc.c:85-105 | takes the first free frame with count 1, or fails exactly when there is none |
| Vm.Machine.Kfreemem | kernel/kalloc.c:117-131 | counts PGSIZE for every free frame |
| Vm.Machine.Walk | kernel/vm.c:97-117 | with alloc, makes the tables that lead to a page; succeeds exactly if as many frames are free as tables are missing, and what it made before failing stays |
| Vm.Machine.Freewalk | kernel/vm.c:262-279 | every page-table page of the process goes back to the free list, children before parents, and no other page does |
| Vm.Machine.Allocproc | kernel/proc.c:114-164 | a slot with trapframe and page table, exactly if four frames are free; otherwise everything is as before |
| Vm.Machine.Freeproc | kernel/proc.c:169-187 | trapframe, pages and page table of the process are returned, and nobody else's |
| Vm.Machine.KallocOther | kernel/pipe.c:31-32 | a page for another use of the kernel's, exactly if one is free |
| Vm.Machine.Cowalloc | kernel/vm.c:529-573 | succeeds exactly on a user page that is writable, or copy-on-write with a frame to be had; then the page is writable and nobody sees a difference |
| Vm.Machine.Uvmunmap | kernel/vm.c:192-212 | takes exactly the pages of the range |
| Vm.Machine.Uvmcopy | kernel/vm.c:302-346 | is the eager fork, exactly if as many frames are free as the child lacks page-table pages; on failure nobody sees a change, and the tables stay |
| Vm.Machine.Uvmalloc | kernel/vm.c:216-240 | maps zeroed pages up to the new size, or nothing; succeeds exactly if as many frames are free as pages and missing page-table pages are needed |
| Vm.Machine.Uvmdealloc | kernel/vm.c:246-258 | unmaps exactly the pages the smaller size does not cover |
| Vm.Machine.Vmfault | kernel/vm.c:491-512 | a promised page appears zeroed, exactly below the size, if unmapped, and with frames for it and its missing page-table pages, which it takes |
| Vm.Machine.Copyout | kernel/vm.c:364-414 | the bytes written stand at dstva in the process's memory, and every other byte of every process is as before, or zero in a page that appeared; all are written, or those up to a page boundary on failure; with the right to write and frames for every page and missing page-table page it succeeds |
| Vm.Machine.Copyin | kernel/vm.c:419-442 | returns the bytes the process holds, and at most faults promised pages in; with the right to read and frames for every page and missing page-table page it succeeds |
| Vm.Machine.UserStore | kernel/trap.c:71-75 | a store succeeds exactly if the page is writable or can be split, and then changes one byte of one process |
| Vm.Machine.Kfork | kernel/proc.c:273-320 | a free slot gets the parent's pages and size, exactly if there are frames for its trapframe, page table and the tables of the shared pages; otherwise nothing changes and as many frames are free as before |
| Vm.Machine.Exit | kernel/proc.c:169-187 | all of the process's pages, kernel pages and its slot are gone and no other process changes |
| Vm.Machine.Growproc | kernel/proc.c:250-269 | sbrk grows or shrinks as the eager machine, and grows exactly if it fits below the trapframe and there are frames for pages and tables |
| Vm.Machine.Sbrk | kernel/sysproc.c:39-65 | eagerly as growproc, or as a promise, given exactly if it stays below the trapframe; returns the size before, or -1 |
| VmRuns.Serve | kernel/vm.c:302-573 | each request takes the eager machine's step, ends by what is on the free list, and takes and returns exactly the kernel pages it should |
| VmRuns.Run | kernel/vm.c:302-573 | after any run of forks, stores, copyouts, faults, sbrks, exits and kernel allocations each process has exactly the pages the eager machine gives it, and each request ended by the free list as it was at that moment |
| Memory.AllTold | kernel/vm.c:192-573 | after any run every process finds at every address the byte that the requests and answers say: the last one stored or copied out there, its parent's at the fork, zero in memory got since, and none where no page is |
| Memory.AllPlain | kernel/vm.c:216-240 | every page a process has after any run can be read and written by it, and not executed |
| Memory.Life | kernel/vm.c:192-573 | a machine from boot and any requests: bytes and sizes are those, page by page and process by process |
| Memory.CopyBack | kernel/vm.c:364-442 | what copyout wrote copyin reads again |
| VmRuns.NothingLost | kernel/kalloc.c:54-131 | at the end of any run that leaves no process and no other kernel page, all frames are free |
| PageTable.MacrosRoundTrip | kernel/riscv.h:366-370 | address and flags survive the trip through a 64-bit PTE |
| PageTable.Indices | kernel/riscv.h:373-381 | the three indices of an address below MAXVA spell its page number |
| PageTable.AddTableFlat | kernel/vm.c:107-113 | creating an intermediate table changes no mapping |
| PageTable.SetLeafFlat | kernel/vm.c:158-169 | writing a PTE changes the mapping of that page and no other |
| PageTable.EmptyFlat | kernel/vm.c:262-279 | no leaf is left exactly when the flat map is empty |
| PageTable.MapRangeAt | kernel/vm.c:145-174 | each page of a mapped range has its own frame, in order, and other pages keep their PTE |
| PageTable.PageTables.constructor | kernel/vm.c:178-187 | a root table maps nothing |
| PageTable.PageTables.Walk | kernel/vm.c:97-117 | finds the leaf PTE of every address below MAXVA, creating tables only if asked; the mapping is unchanged, and it fails exactly when a table is missing and cannot be made |
| PageTable.PageTables.Mappages | kernel/vm.c:145-174 | adds the range to the flat map, up to the page that lacked a table; fails exactly if more tables are missing than pages are free |
| PageTable.PageTables.Uvmunmap | kernel/vm.c:192-212 | removes exactly the range from the flat map |
| PageTable.PageTables.Freewalk | kernel/vm.c:262-279 | frees every table below a place exactly once, and panics exactly when a leaf is left |
| PageTable.PageTables.Destroy | kernel/vm.c:282-288 | once nothing is mapped every table page is back on the free list, once |
| Layers.TreeOk | kernel/proc.c:191-220 | in every state of the machine each process's page-table pages are a well-formed three-level tree |
| Layers.TreeSays | kernel/vm.c:97-117 | what that tree says of a page is the machine's flat entry for it, with trampoline and trapframe at the top and nothing else |
| Layers.TreesApart | kernel/proc.c:191-220 | two processes share no page-table page |
| Layers.SameMissing | kernel/vm.c:97-117 | walk lacks as many tables on the way to a page as the machine counts |
| SleepLock.StepInv | kernel/proc.c:586-631 | every step of acquiresleep, releasesleep, sleep and wakeup keeps the invariant |
| SleepLock.NoLostWakeup | kernel/sleeplock.c:21-41 | over every interleaving at most one process holds the lock, and one that sleeps on it while it is free is ahead of a release's wakeup still under way |
| SleepLock.NoDeadlock | kernel/sleeplock.c:21-41 | while any process is busy with the lock some such process can step |
| Sched.ChargeLaw | kernel/trap.c:90-132 | a charged tick advances the level function by one and adds one to the statistics of the queue it was in |
| Sched.DemotionLaw | kernel/trap.c:204-235 | over every run a process is in queue 0 below 4 ticks charged since creation or the last boost, in queue 1 below 12 and in queue 2 from then on, with the ticks since it came there counted, and the per-queue statistics add up to all ticks charged |
| Sched.DueExact | kernel/proc.c:454-459 | the 32-bit boost test is exact |
| Sched.BoostsWhenDue | kernel/proc.c:459-469 | a round begins with every process in use back in queue 0 exactly if 100 ticks have come since that last happened, and otherwise with the table as it is |
| Sched.BoundStep | kernel/proc.c:471-506 | each step that does not dispatch a waiting process uses up the ticks it counts |
| Sched.StarvationBound | kernel/proc.c:438-508 | from every reachable state a process that stays RUNNABLE is dispatched before the counted ticks advance by BOOST_INTERVAL + 2 * NPROC - 1 |
| Sched.ServedInOrder | kernel/proc.c:448-507 | in every run from the beginning of any round on, as long as a process is not woken: the CPU never waits while it is runnable, and nobody of a later queue is dispatched while it is |
| Sched.Dispatches | kernel/proc.c:478-493 | over every run a process on which the scheduler's look falls is dispatched exactly if it is runnable at that moment and in the queue looked at, however it came to be so |
| Sched.Cpu.TimerTick | kernel/trap.c:90-131 | the nested tests compute Charge |
| Sched.Cpu.BoostAll | kernel/proc.c:459-469 | every process in use is back in queue 0 with count 0 |
| Sched.Cpu.BeginRound | kernel/proc.c:450-469 | every process in use is back in queue 0 with count 0 exactly if 100 ticks have come since the last boost, modulo 2^32; otherwise nothing changes |
| Sched.Cpu.ScanQueue | kernel/proc.c:478-493 | one pass over the table is a run of the step machine that looks at every entry once; of those runnable when it begins exactly the ones in this queue run, each once, and all who run do so in the order of the table; it finds something exactly if somebody has run, and else everybody runnable still is, in the same queue |
| Sched.Cpu.Round | kernel/proc.c:448-507 | one turn of the scheduler's loop, with interrupts between any two looks, is a run of the step machine: of those runnable after its one boost test exactly the ones in the last queue it looks at run, none is in an earlier queue, and it waits only if nobody was runnable before |
| HeapSpec.FreeAtKeeps | user/umalloc.c:33-42 | with both merges free keeps the address-ordered cycle of disjoint, non-adjacent blocks and adds exactly the block's units |
| HeapSpec.TakeKeeps | user/umalloc.c:75-85 | taking a whole block or its tail keeps the invariant and the total |
| HeapSpec.GrowKeeps | user/umalloc.c:54-59 | memory from sbrk beyond everything obtained overlaps nothing |
| Heap.SbrkArgument | user/umalloc.c:46-56 | sbrk is asked for the intended bytes exactly for requests up to 0x7fffffe0 bytes |
| Heap.SbrkWraps | user/umalloc.c:46-56 | a request of 0xfffffff0 bytes makes morecore call sbrk with 0 |
| Heap.Allocator.FindBefore | user/umalloc.c:30-32 | the search round the cycle ends at the block that bp has to follow |
| Heap.Allocator.Coalesce | user/umalloc.c:33-42 | the header rewriting, both merges |
| Heap.Allocator.Free | user/umalloc.c:24-44 | the block leaves the live ones and some free block covers it; what lay in memory that is there still does |
| Heap.Allocator.Morecore | user/umalloc.c:46-61 | puts at least 4096 units at sbrk's answer on the list, or changes nothing; all blocks lie in the memory sbrk really gave exactly if the byte count fits an int |
| Heap.Allocator.Malloc | user/umalloc.c:63-90 | returns a block of enough units that overlaps no live or free block, cut off the end of the first free block behind freep, going round, that is big enough, before which the next search begins; 0 exactly if no free block is big enough and sbrk fails, sbrk being asked exactly if none is; after it is, every block lies in memory that is there exactly for requests up to 0x7fffffe0 bytes; at most one step per free block before asking and one after |
| Heap.Accounts | user/umalloc.c:24-90 | free plus live units are the units obtained |
| Heap.LivesApart | user/umalloc.c:24-90 | live blocks do not overlap |
| Heap.LiveOffList | user/umalloc.c:24-90 | a live block overlaps no free one |
| Heap.FreeApart | user/umalloc.c:24-90 | free blocks are linked in address order and do not touch |
| Heap.Run | user/umalloc.c:24-90 | over any malloc and free sequence, up to the first larger request that sbrk is asked for and grants, the live blocks are those the requests and answers say, each of its request's size, every answer is 0 exactly if sbrk fails and no free block is large enough, and every block lies in memory that is there; after that request one does not |
| Heap.Nowhere | user/umalloc.c:46-90 | a request of 0xfffffff0 bytes: malloc gives a block, and no memory has been added |
| Heap.TakeBacked | user/umalloc.c:75-85 | what malloc cuts off a block ends where the block ended |
| ShellSyntax.LexWords | user/sh.c:301-305 | a word token is a maximal run of word characters |
| ShellSyntax.LexExact | user/sh.c:271-314 | the tokens are the text cut up without its white space: each is a bar, parenthesis, semicolon, ampersand, one or two angle brackets, or a maximal run of other characters, and only blanks lie between them |
| ShellSyntax.LineSound | user/sh.c:350-365 | what the descent accepts is derived by the grammar and consumes exactly those tokens |
| ShellSyntax.LineComplete | user/sh.c:350-365 | every derivation is found whatever may follow it |
| ShellSyntax.AcceptsGrammar | user/sh.c:350-452 | all tokens are taken exactly when they are a line of the grammar, and the result is its derivation |
| ShellSyntax.Unambiguous | user/sh.c:350-452 | a token sequence has at most one derivation |
| Shell.GetToken | user/sh.c:271-314 | returns the next token and moves behind it and the white space that follows |
| Shell.Peek | user/sh.c:316-326 | moves to the next token and tests its first character |
| Shell.ParseRedirs | user/sh.c:380-403 | wraps the command in the redirections that follow, or fails exactly if one lacks a file |
| Shell.ParseItems | user/sh.c:435-450 | collects the words and redirections of a command, or fails exactly on a stray token or MAXARGS words |
| Shell.ParseExec | user/sh.c:421-452 | agrees with the descent over the tokens, on success and on failure, and the tree has the words, operators and redirections taken up, in order |
| Shell.ParseBlock | user/sh.c:405-419 | the same for a line in parentheses and the redirections behind it |
| Shell.ParsePipe | user/sh.c:367-378 | agrees with the descent over the tokens, on success and on failure, and the tree read from left to right has the words, bars and redirections taken up, in order: what stands left of a bar is on its left |
| Shell.ParseLine | user/sh.c:350-365 | the same for the commands of a line and the operators between them |
| Shell.NulTerminate | user/sh.c:455-499 | a NUL goes to the end of each word and file name, and no other character changes |
| Shell.WordsSurvive | user/sh.c:455-499 | no word end lies inside a word, so each word reads as a C string equal to its token |
| Shell.OneTree | user/sh.c:333-348 | a line has at most one tree |
| Shell.LineMarks | user/sh.c:350-452 | read from left to right, left before right with the operator between, the tree has the words and operators of the line in order, and the redirections, with their kind told from mode and descriptor, in order among the operators |
| Shell.ParseCmd | user/sh.c:333-348 | succeeds exactly on the lines of the grammar; words, operators and redirections of the tree are those of the line in their order, left before right; every argument and file name is a C string equal to its token |
| ShellText.RoundTrip | user/sh.c:333-452 | every tree that can be written, with parentheses where it groups, is what the parser makes of its text |
| Grep.MatchHere | user/grep.c:85-96 | true exactly if some prefix of the text, all of it under a final $, is in the pattern's language |
| Grep.MatchStar | user/grep.c:99-106 | true exactly if the text starts with any number of fitting characters followed by a match |
| Grep.Match | user/grep.c:72-82 | true exactly if some substring, at the start under a leading ^, is in the pattern's language |
| Grep.PlainMatches | user/grep.c:72-96 | a pattern of letters and dots matches exactly where it occurs, a dot standing for any character; a leading ^ ties it to the beginning and a final $ to the end of the text |
| Grep.StarMatches | user/grep.c:99-106 | ^c*$ matches exactly the texts of nothing but c, all texts if c is a dot |
| Pipe.Ring.constructor | kernel/pipe.c:33-36 | an empty open pipe |
| Pipe.Ring.Write | kernel/pipe.c:76-103 | a segment takes as many bytes as ring, reader's end, user memory and the writer's life allow, and ends as the channel says; a sleeping reader is left behind bytes exactly if the writer is killed midway, told from the state before |
| Pipe.Ring.Read | kernel/pipe.c:105-134 | a segment delivers the oldest bytes, as many as asked for and can be copied out, and ends as the channel says |
| Pipe.Ring.Drain | kernel/pipe.c:120-130 | the copy loop gets exactly those bytes |
| Pipe.Ring.Close | kernel/pipe.c:58-74 | one end closes, those who waited for it are woken, and the page goes back exactly if both ends are closed |
| Pipe.Run | kernel/pipe.c:76-134 | for every interleaving of segments and closes the ring ends as the channel, each segment with the channel's outcome, and the counters differ by the bytes in transit modulo 2^32 |
| Pipe.Fifo | kernel/pipe.c:76-134 | on the channel the bytes got by all reads are a prefix of the bytes sent by all writes, at most PIPESIZE behind |
| Pipe.AllAnswered | kernel/pipe.c:76-134 | over every run, from the events and outcomes alone: how many bytes each segment moves, which, and what it returns or whether it sleeps |
| Pipe.ReturnsCount | kernel/pipe.c:76-134 | what a write returns, if not -1, is the number of bytes it has sent over all its segments, and what a read returns is the number of bytes it got |
| Pipe.NoIdleSleep | kernel/pipe.c:76-134 | a writer is asleep, as told from the outcomes, only while the ring is full and the read end open, a reader only while nothing is in transit and the write end open unless a write was killed midway |
| Pipe.ServedStep | kernel/pipe.c:76-134 | an event leaves a reader asleep behind bytes exactly if it is a write killed midway |
| Pipe.AlwaysServed | kernel/pipe.c:76-134 | a run without such a write never does |
| Pipe.KilledWriter | kernel/pipe.c:84-87 | a killed writer can leave a sleeping reader with a byte in the pipe |

## Left out

- Device drivers, boot code, assembly and TLB flushes: a block read or write is one atomic step, and page-table changes are visible at once.
- More than one CPU in `Sched`, and memory ordering: the tick counters are not locked, and the build's default is one CPU.
- `kernel/sysfile.c`, `kernel/exec.c`, paths, directories and link counts; `iget`, `idup` and the inode table beyond one entry.
- `kernel/console.c`, `printf`, `mkfs`, `runcmd`, `grep`'s line buffering, and the other user programs.
- Interleaving of two processes inside the file layer: operations on different inodes alternate only between whole calls.
- `copyinstr`, `uvmclear`, kernel page tables and device mappings.
- The memory of parsed commands: writes to `argv` through a saved pointer are updates of the tree, and `malloc` succeeds.
- Bio.Bcache.CopyBlock: a turn of a commit with nobody in between, for blocks that nobody has locked; waiting and other processes are in `Storage.CommitStep`.
- Log.Log.WriteLog: the same, for all turns of write_log.
- Log.Log.InstallTrans: the same, for all turns of install_trans; in recovery nobody else runs.
- Log.Log.Commit: the same, for all of commit.
- Log.Log.Modify: bread, log_write and brelse with nobody in between and a buffer to be had; the steps one by one are in `Storage`.
- Storage.EraseStep: the count in memory becomes 0 together with the header write, not before its bread; nobody looks at it in between.
- Journal.CrashInWrite: copies from user memory succeed, and the other operations that end meanwhile change no block.
- Fs.FileSystem.Writei: bytes that a failed copy left in the cache without logging are kept as part of the file, though evicting the buffer would undo them.
- Vm.Machine.Copyout: the frames it asks for are enough, not the least; a page whose old frame is freed by the split needs one fewer.
- Vm.Machine.Copyin: the frames it asks for are enough, not the least.
- Vm.Machine.UserStore: a store to a page promised by `sbrklazy` kills the process, as in the source.
- PageTable.PageTables.Uvmunmap: clears PTEs; freeing the frames behind them is in `Vm.Machine.Uvmunmap`.
- Sched.StarvationBound: ticks that arrive in the scheduler's own code are not counted, and fewer than 2^31 of them come between boosts.
- Heap.Allocator.Malloc: sbrk is taken to return addresses beyond everything obtained before, and blocks end below 2^36.
- Heap.Run: ends with the first request that leaves a block beyond the memory there is; what reading and writing there does is not modelled.
- SleepLock.NoLostWakeup: one sleep lock, whose channel no other sleeper uses.
