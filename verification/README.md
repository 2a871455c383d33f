# Models of an xv6 kernel's core and two of its user programs

A Dafny model of the Lab 4 xv6 kernel (`Lab CA/4/OS-SMS_LAB4-main`): the redo log and the
buffer cache under it, the file layer, the directory tree, the two allocators, address
spaces, the sleeping locks, pipes, exit and wait, and the cores of `grep` and `sh`.

| module | models |
|---|---|
| `Blocks`, `MemIde`, `LruRing`, `BufferCache` | disk blocks, the in-memory disk, the circular buffer list, the cache as one logical block map |
| `RedoLog`, `LogAdmission`, `Log`, `Transaction`, `Machine` | commit and recovery as sequences of block writes; admission control; the log's functions over the cache; a whole operation from begin_op to end_op; a machine that boots and serves interleaved operations |
| `FsBlocks`, `FileBytes`, `FileTruncate`, `FileSystem`, `FileLayer` | block ownership, files as byte sequences, itrunc, the block and inode functions, filewrite and fileread |
| `Dinodes`, `DurableFile` | inodes in their blocks; filewrite over the log, with power failures |
| `DirTree`, `PathNames`, `SysFile`, `LinkLimit` | link counts and tree shape; path names; link, unlink, create; how many links a file can get |
| `FreeList`, `UMalloc` | the user-level allocator |
| `PageTables`, `AddressSpace`, `Vm` | the page allocator and two-level page tables |
| `Spinlocks`, `SleepLock`, `Pipe` | interleaved steps over two spinlocks |
| `ProcTable`, `Processes` | the process table |
| `Grep` | the regular expression matcher |
| `ShellGrammar`, `ShellText`, `ShellTally`, `Shell` | the shell's parser |
| `Wrappers` | Option, words and bytes, sizes of sets |

Code that changes things in place is a class or a method with loops, specified by a
predicate or function on values; the properties are lemmas about those values. Protocols
are state machines whose steps are the stretches between lock operations.

Where the code departs from what one would expect of it, the departure is stated exactly:

- `log_write` tests the size before it looks for absorption, and `mkfs` makes the log exactly
  LOGSIZE blocks long. An operation within its budget can then meet "too big a transaction"
  (`LogAdmission.AbsorbedWritePanics`, `LogAdmission.SizePanicAvoidable`).
- `log_write` makes that test before it takes the log's lock. Two operations can pass it
  together, and a log of LOGSIZE blocks or fewer can then be given one block too many
  (`LogAdmission.TwoAtOnce`, `LogAdmission.RaceIsHarmless`). `Transaction` and `Machine`
  are therefore about logs larger than LOGSIZE, for which test and append can be one step.
- NBUF is the same number as LOGSIZE, and a logged block keeps its buffer until it is
  installed. With a log larger than LOGSIZE, three operations of MAXOPBLOCKS blocks each are
  let in together, and their commit finds no buffer (`Machine.CommitCanWait`). Whatever
  changes fewer than NBUF blocks between commits gets through (`Machine.PowerOn`).
- `nlink` is a 16-bit short that `link` does not check. A file can reach 32767 links with no
  directory larger than the largest file, and the next `link` breaks the tree's shape
  (`LinkLimit.LinkCanWrap`). A directory cannot (`DirTree.DirLinksBound`), so `create` always
  keeps the shape; nor can a file while all directories together have fewer than 32767
  entries (`DirTree.LinksBound`), as on the image that mkfs builds (`DirTree.MkfsNeverWraps`).
- `malloc` computes its unit count in 32 bits (`UMalloc.UnitsSuffice`).
- `filewrite` answers -1 for a write that reaches past the largest file, but the chunks
  before the limit stay written and the offset has moved (`FileLayer.Filewrite`,
  `FileLayer.PartOfIt`, `FileLayer.OneTooMany`).

Inputs that come from outside are parameters: sbrk's answer, who holds another reference to
an inode, the data page of the kernel, the process ids. A panic is an outcome, or a
precondition where the callers are proved to meet it.

## Model

| member | source | states |
|---|---|---|
| `RedoLog.CommitAtomic` | Lab CA/4/OS-SMS_LAB4-main/log.c:178-202 | Power failing after any number of the writes of commit: recovery leaves the home blocks either as before the transaction or with all of its blocks, and which of the two is decided by whether the first write_head finished. |
| `RedoLog.CommitDone` | Lab CA/4/OS-SMS_LAB4-main/log.c:193-202 | A commit that runs to its end leaves every block of the transaction in place and an empty log. |
| `RedoLog.RecoveryRestarts` | Lab CA/4/OS-SMS_LAB4-main/log.c:116-122 | Recovery cut off after any of its own writes and started again ends on the same home blocks as one uninterrupted recovery. |
| `RedoLog.RebootsConverge` | Lab CA/4/OS-SMS_LAB4-main/log.c:116-122 | Any number of interrupted recoveries, then a complete one: the home blocks of a single recovery, with an idle log. |
| `RedoLog.RunAtomic` | Lab CA/4/OS-SMS_LAB4-main/log.c:69-122 | Over every run of commits, with power failing at any write of any commit and of any recovery, the home blocks are those obtained by applying in place, whole and in order, exactly the transactions whose first write_head finished. |
| `RedoLog.HeadRoundTrip` | Lab CA/4/OS-SMS_LAB4-main/log.c:86-113 | read_head gets back what write_head stored: count and block list through little-endian words of one block. |
| `RedoLog.HappensAtomically` | Lab CA/4/OS-SMS_LAB4-main/log.c:193-202 | One commit, or one power failure with its reboots, changes the home blocks by a whole transaction or not at all. |
| `Log.Log.WriteLog` | Lab CA/4/OS-SMS_LAB4-main/log.c:178-190 | Every block listed is copied from the cache to its log slot, one disk write each; the disk goes through exactly the states of the value-level commit, home blocks untouched; with no buffer held it gets to the end exactly when some buffer is not pinned. |
| `Log.Log.InstallTrans` | Lab CA/4/OS-SMS_LAB4-main/log.c:70-82 | Each logged block is copied to its home, one write each, and its buffer is no longer dirty; cut off anywhere the disk is the partial installation of the specification. |
| `Log.Log.WriteHead` | Lab CA/4/OS-SMS_LAB4-main/log.c:102-113 | Exactly one disk write, of the header block holding the in-memory list. |
| `Log.Log.ReadHead` | Lab CA/4/OS-SMS_LAB4-main/log.c:86-96 | The in-memory list becomes the list in the header block. |
| `Log.Log.Commit` | Lab CA/4/OS-SMS_LAB4-main/log.c:193-202 | A finished commit performs exactly the 2n+2 writes of the specification, ends with an empty list and no pinned block of the transaction; a commit that stops leaves the disk at some step of that sequence. With no buffer held it finishes exactly when nothing is listed or not every buffer holds a listed block. |
| `Log.Log.CommitOp` | Lab CA/4/OS-SMS_LAB4-main/log.c:165-173 | The commit of end_op: the transaction made of the listed blocks' current contents joins the committed ones; the old record stays, the new disk states are those of the commit's writes so far, and they survive with this transaction exactly from the first write_head on; all committed transactions in order mean what the operations see. With no buffer held it finishes exactly when fewer than NBUF blocks are listed. |
| `Log.Log.BeginOp` | Lab CA/4/OS-SMS_LAB4-main/log.c:126-141 | Admitted exactly when not committing and the reservation fits; the counters become those of the admission state machine. |
| `Log.Log.EndOp` | Lab CA/4/OS-SMS_LAB4-main/log.c:146-163 | The panic is unreachable; the commit is started exactly when the last operation ends. |
| `Log.Log.LogWrite` | Lab CA/4/OS-SMS_LAB4-main/log.c:214-233 | Panics, changing nothing, exactly when the admission rules say so; otherwise the block is listed once (absorbed if it was listed), its buffer is dirty and pinned and no longer pending, and every other buffer and the logical contents are unchanged. |
| `Log.Log.FindListed` | Lab CA/4/OS-SMS_LAB4-main/log.c:223-227 | The place of the block in the list, or the list's length when it is not there. |
| `Log.Log.Recover` | Lab CA/4/OS-SMS_LAB4-main/log.c:54-66 | From any recoverable disk: stopped anywhere, every disk state recovers to the same home blocks; finished, the disk is the recovered one, the cache agrees with it, the admission state is the initial one, and nobody waits, so that operations can follow. With no buffer held it always finishes. |
| `Log.CommitKeepsSafe` | Lab CA/4/OS-SMS_LAB4-main/log.c:193-202 | Crash safety of a history extended by the first writes of one more commit. |
| `Log.SafeDuringRecovery` | Lab CA/4/OS-SMS_LAB4-main/log.c:116-122 | Crash safety of every disk state that recovery goes through. |
| `Log.InstallIsCommitFrom` | Lab CA/4/OS-SMS_LAB4-main/log.c:193-202 | install_trans after the first write_head is the second half of the specified commit, state by state. |
| `Log.Log.CommitMeaning` | Lab CA/4/OS-SMS_LAB4-main/log.c:165-202 | What a commit will add is what the operations see: the committed transactions with this one, applied in order, give the cache's block map outside the log. |
| `Log.Log.IdleOnDisk` | Lab CA/4/OS-SMS_LAB4-main/log.c:146-173 | With no operation active and no commit running the disk equals the cache's block map. |
| `Transaction.WriteBlock` | Lab CA/4/OS-SMS_LAB4-main/fs.c:43-51 | bread, a change, log_write and brelse by an operation with budget left: no panic, the block map changes in that block only, the admission state is the one after log_write, the operation holds no modified buffer afterwards, and every other operation under way is still between its writes. With no buffer held it always succeeds. |
| `Transaction.EndOp` | Lab CA/4/OS-SMS_LAB4-main/log.c:146-173 | end_op with its commit: every disk state it goes through recovers to the blocks of the last commit or to those of all the operations since, and when it commits the disk equals the block map; the process is then in no operation and the others are where they were. With no buffer held it stops exactly when it has to commit a list of NBUF blocks. |
| `Transaction.Transact` | Lab CA/4/OS-SMS_LAB4-main/log.c:126-233 | A whole operation, begin_op to end_op, of at most MAXOPBLOCKS changes: admitted exactly when there is room, never a panic, all its changes in the block map at the end, on the disk if it was the last, and after power failing at any write either all of them are recovered or none; with no buffer held it never stops on the way, and can be followed by the next operation. |
| `Transaction.CommitCrashes` | Lab CA/4/OS-SMS_LAB4-main/log.c:193-202 | The record of a commit in terms of disks: each new disk state recovers to the home blocks before the transaction or after it. |
| `Machine.PowerOn` | Lab CA/4/OS-SMS_LAB4-main/log.c:54-233 | A machine started from any disk that a power failure can leave recovers and then serves the calls of any number of processes in any interleaving, with group commit: every disk state on the way, recovery's included, recovers to the changes up to a moment when no operation was under way, never an earlier one than the state before; at rest, the disk has all of them. It stops exactly at the first call that has to wait: a begin_op without room, or a commit without a buffer. |
| `Machine.Serve` | Lab CA/4/OS-SMS_LAB4-main/log.c:126-233 | The same from any state of a serving machine, schedule step by schedule step; how far it gets is a function of the schedule alone. |
| `Machine.ServeEnd` | Lab CA/4/OS-SMS_LAB4-main/log.c:146-173 | end_op in a schedule: a commit happens exactly when no operation is left under way, finishes exactly when fewer than NBUF blocks were changed since the last one, and its disk states recover to the last such moment or to this one. |
| `Machine.Boot` | Lab CA/4/OS-SMS_LAB4-main/log.c:54-66 | binit, initlog and recovery always finish and establish all that the log's functions require. |
| `Machine.CommitKept` | Lab CA/4/OS-SMS_LAB4-main/log.c:193-202 | The disk states of a group commit recover to the schedule's previous boundary and then to this one, never back. |
| `Machine.LastOut` | Lab CA/4/OS-SMS_LAB4-main/log.c:146-157 | outstanding reaches 0 exactly when the schedule has no operation under way. |
| `Machine.CommitCanWait` | Lab CA/4/OS-SMS_LAB4-main/log.c:126-202 | A schedule of three operations that each keep to MAXOPBLOCKS blocks and are all let in, after which the commit finds no buffer: NBUF is LOGSIZE. |
| `LogAdmission.AdmissionSafe` | Lab CA/4/OS-SMS_LAB4-main/log.c:125-174 | In every reachable state listed blocks plus unused budgets fit in LOGSIZE, committing implies no operation is open, end_op's panic is unreachable, and an idle log that is not committing is empty and admits. |
| `LogAdmission.ReachableIsInv` | Lab CA/4/OS-SMS_LAB4-main/log.c:125-174 | Every state of every run of begin_op, log_write, end_op and commit satisfies the admission invariant. |
| `LogAdmission.SizePanicWhenFull` | Lab CA/4/OS-SMS_LAB4-main/log.c:218-219 | With log.size above LOGSIZE the size panic fires exactly when the list is already full, and never for an operation with budget left. |
| `LogAdmission.AbsorbedWritePanics` | Lab CA/4/OS-SMS_LAB4-main/log.c:214-233 | A reachable state in which an operation within its budget panics on a block that is already listed, because the size test comes before absorption. |
| `LogAdmission.SizePanicAvoidable` | Lab CA/4/OS-SMS_LAB4-main/log.c:218-219 | An operation with budget left can meet the size panic in some run exactly when log.size is at most LOGSIZE, which is how mkfs sets it. |
| `LogAdmission.RaceIsHarmless` | Lab CA/4/OS-SMS_LAB4-main/log.c:214-230 | With the size test before the lock is taken, as the code has it: in every run the list fits in the log if and only if the log is larger than LOGSIZE blocks (or is the header alone). |
| `LogAdmission.TwoAtOnce` | Lab CA/4/OS-SMS_LAB4-main/log.c:214-230 | For each smaller log, mkfs's size included, a run in which two operations pass the test together and list one block more than there is room for. |
| `LogAdmission.RacingIsInv` | Lab CA/4/OS-SMS_LAB4-main/log.c:125-233 | The admission invariant in every state of every run with test and append as separate steps. |
| `BufferCache.BufferCache.constructor` | Lab CA/4/OS-SMS_LAB4-main/bio.c:38-56 | All buffers on one cycle through the head, next and prev inverse, none in use, and the cache agreeing with the disk. |
| `BufferCache.BufferCache.Bget` | Lab CA/4/OS-SMS_LAB4-main/bio.c:62-93 | A hit adds a reference to the one buffer with the block; a miss recycles the least recently released clean unused buffer; fails exactly when no buffer has the block and none is clean and unused. Pinned buffers and the logical contents stay. |
| `BufferCache.BufferCache.FindCached` | Lab CA/4/OS-SMS_LAB4-main/bio.c:69-76 | The buffer that holds the block if any does, else the head. |
| `BufferCache.BufferCache.FindEvictable` | Lab CA/4/OS-SMS_LAB4-main/bio.c:81-91 | Of the clean unused buffers the one released longest ago, found from the tail of the list. |
| `BufferCache.BufferCache.Bread` | Lab CA/4/OS-SMS_LAB4-main/bio.c:97-106 | A locked buffer whose contents are the block's current logical value; it is had at once exactly when no process holds the block's buffer and bget finds one. |
| `BufferCache.RestServes` | Lab CA/4/OS-SMS_LAB4-main/bio.c:62-93 | When nobody holds a buffer a block can be had exactly when it is pinned or not every buffer is. |
| `BufferCache.PinnedCount` | Lab CA/4/OS-SMS_LAB4-main/log.c:231-231 | At most NBUF blocks are pinned, and NBUF exactly when every buffer is dirty. |
| `BufferCache.BufferCache.IderwRead` | Lab CA/4/OS-SMS_LAB4-main/memide.c:39-60 | The buffer gets the disk block and becomes valid; the disk is untouched. |
| `BufferCache.BufferCache.IderwWrite` | Lab CA/4/OS-SMS_LAB4-main/memide.c:39-60 | One disk block becomes the buffer's contents and the buffer is clean. |
| `MemIde.MemIde.Write` | Lab CA/4/OS-SMS_LAB4-main/memide.c:52-59 | One whole block is replaced, and the resulting disk state is recorded. |
| `BufferCache.BufferCache.SetDirty` | Lab CA/4/OS-SMS_LAB4-main/log.c:231-231 | The block is pinned: its buffer is dirty from now on and stays the block's buffer. |
| `BufferCache.BufferCache.Bwrite` | Lab CA/4/OS-SMS_LAB4-main/bio.c:110-116 | Exactly one block write, of the buffer's contents to its own block. |
| `BufferCache.BufferCache.Brelse` | Lab CA/4/OS-SMS_LAB4-main/bio.c:121-141 | One reference less; the last release moves the buffer to the front and makes it the most recently released. |
| `BufferCache.RecycleCoherent` | Lab CA/4/OS-SMS_LAB4-main/bio.c:82-87 | Giving a clean unused buffer to another block loses nothing: buffers and disk still represent the same block map, and no two buffers hold one block. |
| `BufferCache.Oldest` | Lab CA/4/OS-SMS_LAB4-main/bio.c:81-82 | Walking back from the tail, the first clean unused buffer met is the least recently released one. |
| `BufferCache.MoveToFront` | Lab CA/4/OS-SMS_LAB4-main/bio.c:130-138 | Moving the buffer just released to the front keeps the list ordered by most recent final release. |
| `LruRing.UnlinkRing` | Lab CA/4/OS-SMS_LAB4-main/bio.c:132-133 | Taking a node out leaves one cycle of exactly the other nodes, links mutually inverse. |
| `LruRing.PushFrontRing` | Lab CA/4/OS-SMS_LAB4-main/bio.c:134-137 | Putting a node after the head gives one cycle with it in front. |
| `FsBlocks.UsedIffPointedTo` | Lab CA/4/OS-SMS_LAB4-main/fs.c:56-95 | In every valid state a block's bit is set exactly when it is metadata or some pointer leads to it. |
| `FsBlocks.PointersDiffer` | Lab CA/4/OS-SMS_LAB4-main/fs.c:372-400 | No two pointers (direct, indirect, or indirect entry, of any files) lead to the same block. |
| `FsBlocks.MarkKeeps` | Lab CA/4/OS-SMS_LAB4-main/fs.c:57-79 | balloc of a free block keeps ownership, with the block marked, zeroed and owed a pointer. |
| `FsBlocks.LinkKeeps` | Lab CA/4/OS-SMS_LAB4-main/fs.c:384-391 | Storing the pointer to a block just allocated makes that pointer its owner. |
| `FsBlocks.ClearKeeps` | Lab CA/4/OS-SMS_LAB4-main/fs.c:82-95 | bfree of a block through its own pointer finds the bit set, and only that block becomes free. |
| `FsBlocks.FreeIndKeeps` | Lab CA/4/OS-SMS_LAB4-main/fs.c:421-433 | Once the entries' blocks are freed, freeing the indirect block leaves a fully owned state without those pointers. |
| `Blocks.BitAfterPut` | Lab CA/4/OS-SMS_LAB4-main/fs.c:66-73 | Setting or clearing one bit of a bitmap block changes that bit and no other. |
| `Blocks.WordAfterPut` | Lab CA/4/OS-SMS_LAB4-main/fs.c:385-390 | Storing a word of an indirect block changes that word and no other. |
| `FileSystem.FileSystem.FindFree` | Lab CA/4/OS-SMS_LAB4-main/fs.c:57-79 | The lowest free block, or that every block is in use. |
| `FileSystem.FileSystem.Balloc` | Lab CA/4/OS-SMS_LAB4-main/fs.c:57-79 | The lowest free block is marked and zeroed; fails exactly when none is free; two blocks are logged. |
| `FileSystem.FileSystem.Bfree` | Lab CA/4/OS-SMS_LAB4-main/fs.c:82-95 | One bit is cleared; the block must be in use, which is the panic's condition. |
| `FileSystem.FileSystem.Bmap` | Lab CA/4/OS-SMS_LAB4-main/fs.c:373-400 | The address of the block, allocated with its indirect block if missing; no file's contents and no other pointer change; states exactly what is added to the transaction; out of blocks only when every block is in use. |
| `FileSystem.FileSystem.Writei` | Lab CA/4/OS-SMS_LAB4-main/fs.c:482-511 | Refused exactly when the write starts past the end or reaches past MAXFILE*BSIZE, wrap-around included; otherwise the file is spliced with the data, all other files are untouched, inode and pointers are on disk; every block and every disk inode that changed is among the logged blocks, which lie outside the log and are at most 10 for a chunk of at most 1536 bytes and at most 5 within one block. It runs out of blocks only when the write reaches past the blocks the file has and every block of the disk is in use. |
| `FileSystem.FileSystem.Readi` | Lab CA/4/OS-SMS_LAB4-main/fs.c:453-476 | The slice of the file's bytes from off, all n of them or up to the end of the file; nothing changes; refused exactly when off is past the end or off+n overflows. |
| `FileSystem.FileSystem.Itrunc` | Lab CA/4/OS-SMS_LAB4-main/fs.c:408-435 | The file is empty, exactly its blocks are free again, every other file is untouched, and no bfree in it panics; it logs blocks of the free map and the inode's block only, and nothing else changes on the disk. |
| `FileSystem.FileSystem.Iupdate` | Lab CA/4/OS-SMS_LAB4-main/fs.c:221-238 | The in-memory inode is copied to its disk inode, logging its one inode block. |
| `FileSystem.FirstBlockExists` | Lab CA/4/OS-SMS_LAB4-main/fs.c:498-500 | A write that starts inside a block finds that block present, and never asks bmap for a block out of range. |
| `FileSystem.SpentRound` | Lab CA/4/OS-SMS_LAB4-main/fs.c:384-391 | One round of writei adds at most its data block, one map block per allocation and the indirect block. |
| `FileSystem.ChunkFits` | Lab CA/4/OS-SMS_LAB4-main/file.c:127-133 | Whatever the offset, alignment and bitmap layout, data, indirect, inode and bitmap blocks of a chunk of CHUNK bytes are at most 10 distinct blocks. |
| `FileSystem.WriteRefused` | Lab CA/4/OS-SMS_LAB4-main/fs.c:493-496 | The wrapping unsigned tests say exactly what the plain sums say. |
| `FileSystem.WithinBlockFits` | Lab CA/4/OS-SMS_LAB4-main/fs.c:559-575 | A write within one block, such as a directory entry, logs at most 5 blocks, the closing iupdate included. |
| `FileSystem.FewMapBlocks` | Lab CA/4/OS-SMS_LAB4-main/fs.h:47-48 | The free map of n blocks takes at most n/4096 rounded up blocks. |
| `FileBytes.WrittenMeansWrote` | Lab CA/4/OS-SMS_LAB4-main/fs.c:498-511 | After the loop, with the size set, file i is its old bytes with the data spliced in, every other file is byte for byte the same, and no file has holes. |
| `FileBytes.StoredBytes` | Lab CA/4/OS-SMS_LAB4-main/fs.c:499-503 | Storing the patched block changes exactly those bytes of all bytes of all files. |
| `FileTruncate.FreedMeansTruncated` | Lab CA/4/OS-SMS_LAB4-main/fs.c:408-435 | With all pointers gone and size 0 the file is empty, its blocks and no others are freed, other files keep their bytes. |
| `FileTruncate.FreedExactly` | Lab CA/4/OS-SMS_LAB4-main/fs.c:408-435 | A block is in use afterwards exactly when it was before and did not belong to the file. |
| `FileLayer.Filewrite` | Lab CA/4/OS-SMS_LAB4-main/file.c:118-153 | The chunk loop equals one whole write when it fits; it fails exactly when the write does not fit, leaving the whole chunks before the limit written and the offset after them; after every transaction, also before running out of blocks, the file system is sound and has exactly the chunks so far, and each transaction changes nothing outside its at most MAXOPBLOCKS logged blocks; out of blocks only when every block is in use. |
| `FileLayer.Fileread` | Lab CA/4/OS-SMS_LAB4-main/file.c:97-112 | What readi gives, and the offset moves by its length; refused without changing the offset. |
| `FileLayer.SofarMore` | Lab CA/4/OS-SMS_LAB4-main/file.c:133-151 | A write followed by an adjacent write is one write of both. |
| `FileLayer.SplicedTwice` | Lab CA/4/OS-SMS_LAB4-main/file.c:133-151 | Two adjacent splices are one. |
| `FileLayer.NoRoom` | Lab CA/4/OS-SMS_LAB4-main/file.c:133-147 | The first chunk that does not fit is the one after (MAXBYTES-off)/CHUNK whole chunks. |
| `FileLayer.PartOfIt` | Lab CA/4/OS-SMS_LAB4-main/file.c:133-153 | filewrite answers -1 with the offset moved exactly when the write does not fit and its first chunk does. |
| `FileLayer.OneTooMany` | Lab CA/4/OS-SMS_LAB4-main/file.c:133-153 | One byte more than the largest file, written to an empty file at offset 0: -1, with 70656 bytes written and the offset there. |
| `Dinodes.InodeAfterPut` | Lab CA/4/OS-SMS_LAB4-main/fs.c:221-236 | What iupdate stores in its block, ilock reads back; the seven other inodes of the block stay. |
| `Dinodes.FieldAfterPut` | Lab CA/4/OS-SMS_LAB4-main/fs.h:29-36 | The same word by word, with the words for type and links untouched. |
| `Dinodes.ImageConfined` | Lab CA/4/OS-SMS_LAB4-main/fs.c:221-236 | A transaction of the file system changes the home blocks it logged and no others, inodes packed eight to a block. |
| `Dinodes.ReadBack` | Lab CA/4/OS-SMS_LAB4-main/fs.c:288-312 | A machine that mounts a disk with the home blocks of a sound file system finds the same inodes, ownership and file contents, whatever the log area holds. |
| `DurableFile.ChangeListMeans` | Lab CA/4/OS-SMS_LAB4-main/log.c:214-233 | When only logged blocks differ, the list of those blocks with their contents, as the log takes it, is the whole difference. |
| `DurableFile.ChangeListFits` | Lab CA/4/OS-SMS_LAB4-main/log.c:214-233 | That list is a valid transaction: distinct home blocks within the budget. |
| `DurableFile.ScheduleMeans` | Lab CA/4/OS-SMS_LAB4-main/file.c:133-141 | The calls of filewrite's transactions, begin_op to end_op, are a legal schedule that leads the disk from each state of the file system to the next. |
| `DurableFile.BoundaryMeans` | Lab CA/4/OS-SMS_LAB4-main/file.c:133-141 | The only moments without an operation under way are between those transactions. |
| `DurableFile.ScheduleGoesOn` | Lab CA/4/OS-SMS_LAB4-main/file.c:133-141 | No call of that schedule ever has to wait for room or for a buffer. |
| `DurableFile.FilewriteSurvives` | Lab CA/4/OS-SMS_LAB4-main/file.c:118-153 | Power failing after any disk write of a filewrite: the recovered and mounted file system is sound, the file has exactly a whole number of the chunks, all other files are untouched, and later states never have fewer chunks. |
| `DurableFile.FilewriteDurable` | Lab CA/4/OS-SMS_LAB4-main/file.c:118-153 | When the machine comes to rest all of the filewrite is on the disk. |
| `DurableFile.RunFilewrite` | Lab CA/4/OS-SMS_LAB4-main/file.c:118-153 | From power-on over the log's methods: the filewrite gets to its end, all of it is then on the disk, and every disk state on the way is as FilewriteSurvives says. |
| `DirTree.LinkKeeps` | Lab CA/4/OS-SMS_LAB4-main/sysfile.c:119-165 | link on a file keeps link counts and tree shape exactly when nlink is below 32767; at 32767 the 16-bit count wraps and no ranking makes the result well shaped. |
| `DirTree.UnlinkKeeps` | Lab CA/4/OS-SMS_LAB4-main/sysfile.c:185-238 | unlink of a file always keeps the shape, and the named inode has a positive count. |
| `DirTree.UnlinkDirKeeps` | Lab CA/4/OS-SMS_LAB4-main/sysfile.c:212-231 | unlink of an empty directory always keeps the shape; its link count was 1 and becomes 0. |
| `DirTree.MakeDirKeeps` | Lab CA/4/OS-SMS_LAB4-main/sysfile.c:242-283 | create of a directory keeps the shape exactly when the parent's 16-bit nlink does not wrap. |
| `DirTree.UnnamedChange` | Lab CA/4/OS-SMS_LAB4-main/fs.c:332-352 | ialloc of a free inode and iput's freeing of an inode without links change nothing that a live entry names. |
| `DirTree.NamedCounted` | Lab CA/4/OS-SMS_LAB4-main/sysfile.c:210-211 | What a live entry names is allocated with a positive link count, so unlink's panic cannot fire. |
| `DirTree.EmptyDirNames` | Lab CA/4/OS-SMS_LAB4-main/sysfile.c:168-183 | An empty directory is named once, by its parent, is nobody's parent, and its parent has at least two links. |
| `DirTree.ReachesRoot` | Lab CA/4/OS-SMS_LAB4-main/sysfile.c:266-272 | From every live directory following .. reaches the root. |
| `DirTree.DirLinks` | Lab CA/4/OS-SMS_LAB4-main/sysfile.c:266-272 | A live directory's link count is one more than the number of its subdirectories. |
| `DirTree.DirLinksBound` | Lab CA/4/OS-SMS_LAB4-main/sysfile.c:266-272 | A directory no larger than the largest file, or among at most 32767 inodes, has nlink below 32767: each subdirectory takes an entry. create therefore never wraps a count around. |
| `DirTree.LinksBound` | Lab CA/4/OS-SMS_LAB4-main/sysfile.c:119-165 | No inode has more links than there are directory entries. |
| `DirTree.MkfsNeverWraps` | Lab CA/4/OS-SMS_LAB4-main/mkfs.c:94-99 | Directories within the 941 data blocks of mkfs's image keep every nlink below 32767. |
| `LinkLimit.CrowdReached` | Lab CA/4/OS-SMS_LAB4-main/sysfile.c:119-165 | For every n up to 32767 there is a well-shaped tree of 11 inodes, no directory larger than the largest file, with a file of n links; it is built by create and link. |
| `LinkLimit.LinkCanWrap` | Lab CA/4/OS-SMS_LAB4-main/sysfile.c:119-165 | A well-shaped tree with room for one more link to a file, where link wraps nlink around and no ranking makes the result well shaped. |
| `SysFile.FileTree.constructor` | Lab CA/4/OS-SMS_LAB4-main/mkfs.c:117-128 | The image with only the root is well shaped. |
| `SysFile.FileTree.Link` | Lab CA/4/OS-SMS_LAB4-main/sysfile.c:119-165 | Fails, undone completely, exactly for a directory, a missing parent or an existing name; panics exactly when the directory is full; otherwise one entry in the first free slot and one link more, well shaped exactly when nlink did not wrap; then no inode is lost by it. |
| `SysFile.FileTree.Unlink` | Lab CA/4/OS-SMS_LAB4-main/sysfile.c:185-238 | Fails exactly for the dots, a missing name or a directory that is not empty; otherwise the entry and the counts go; an inode that lost its only name is free exactly when nobody else refers to it, and else keeps its kind and contents; always well shaped, never panics; with no other reference no inode is lost. |
| `SysFile.FileTree.Create` | Lab CA/4/OS-SMS_LAB4-main/sysfile.c:242-283 | An existing name gives the file only for file on file, otherwise it fails; with a new name a free inode gets its count, dots and entry, and the tree is always well shaped; the kernel panics exactly when no inode is free or every entry of the largest directory is taken; no inode is lost by it. |
| `SysFile.LinkedMeans` | Lab CA/4/OS-SMS_LAB4-main/sysfile.c:119-165 | In terms of lookups: after link exactly one name of one directory stands for something else, namely the file, which has one link more; no other inode's links or kind change. |
| `SysFile.UnnamedMeans` | Lab CA/4/OS-SMS_LAB4-main/sysfile.c:185-238 | After unlink exactly that name stands for nothing, what it named has one link less, and for a directory the parent too. |
| `SysFile.MadeMeans` | Lab CA/4/OS-SMS_LAB4-main/sysfile.c:242-283 | After create exactly that name stands for the new inode, of the kind asked for and with one link; a directory has its two dots and its parent one link more. |
| `SysFile.UnlinkUndoesCreate` | Lab CA/4/OS-SMS_LAB4-main/sysfile.c:185-283 | unlink with no other reference after create: the inode is free, the entry empty, every other inode as before. |
| `SysFile.FileTree.Dirlookup` | Lab CA/4/OS-SMS_LAB4-main/fs.c:525-548 | The first live entry with the name, or that there is none. |
| `SysFile.FileTree.Dirlink` | Lab CA/4/OS-SMS_LAB4-main/fs.c:552-578 | Refused exactly when the name is present; panics exactly when every entry of the largest directory is taken; otherwise the first empty slot, or one past the end, gets the entry. |
| `SysFile.FileTree.Isdirempty` | Lab CA/4/OS-SMS_LAB4-main/sysfile.c:168-183 | True exactly when no entry but the dots is live. |
| `SysFile.FileTree.Ialloc` | Lab CA/4/OS-SMS_LAB4-main/fs.c:195-214 | The lowest free inode gets its type and no links; none exactly when no inode is free. |
| `SysFile.FileTree.Iput` | Lab CA/4/OS-SMS_LAB4-main/fs.c:332-352 | The inode is free afterwards exactly when it was, or has no links and this was the last reference; nothing else changes. |
| `SysFile.FileTree.Namex` | Lab CA/4/OS-SMS_LAB4-main/fs.c:625-657 | Resolves the elements of the path from the root or the current directory, for nameiparent all but the last, which is returned; fails exactly when the recursive definition does; the inode found is allocated with a positive link count. |
| `SysFile.ParentThenLookup` | Lab CA/4/OS-SMS_LAB4-main/fs.c:625-657 | namei of a path is the lookup of its last name in the directory that nameiparent gives, and nameiparent is namei of the rest. |
| `SysFile.EmptyPath` | Lab CA/4/OS-SMS_LAB4-main/fs.c:625-657 | A path without names leads where it starts, as does the name of the dot, and has no parent. |
| `PathNames.Skipelem` | Lab CA/4/OS-SMS_LAB4-main/fs.c:595-615 | The next element of the path, cut to DIRSIZ characters, and the position after the slashes that follow it; none exactly when only slashes are left. |
| `PathNames.ElementsOfPath` | Lab CA/4/OS-SMS_LAB4-main/fs.c:582-615 | Whatever numbers of slashes precede, separate and follow the names, the elements of the path are the names, cut to DIRSIZ characters. |
| `UMalloc.Allocator.Free` | Lab CA/4/OS-SMS_LAB4-main/umalloc.c:25-44 | The block returns to its place, joined with the neighbours it touches; the other allocated blocks and the total are unchanged; the search ends. |
| `UMalloc.Allocator.Malloc` | Lab CA/4/OS-SMS_LAB4-main/umalloc.c:64-90 | At most one call of sbrk, made exactly when no free block is large enough. Without it the block is the first one after freep that fits or its tail end, and the break is unchanged; with it the break is past the new region; after -1 the list, the allocated blocks and the break are as before. |
| `UMalloc.Allocator.MoreCore` | Lab CA/4/OS-SMS_LAB4-main/umalloc.c:47-61 | The new region is joined to the list, which then has a block large enough; on -1 nothing changes. |
| `UMalloc.Allocator.FindPlace` | Lab CA/4/OS-SMS_LAB4-main/umalloc.c:30-32 | The circular search terminates at the last list position below the block. |
| `UMalloc.Allocator.Join` | Lab CA/4/OS-SMS_LAB4-main/umalloc.c:33-42 | The header writes of free, as the specification has them. |
| `UMalloc.Allocator.Store` | Lab CA/4/OS-SMS_LAB4-main/umalloc.c:84-84 | A program writing into its own block leaves the allocator sound. |
| `UMalloc.FreeKeeps` | Lab CA/4/OS-SMS_LAB4-main/umalloc.c:25-44 | free keeps one circular, address-ordered list without adjacent blocks, everything disjoint, and free plus allocated units equal to the units obtained. |
| `UMalloc.TakeKeeps` | Lab CA/4/OS-SMS_LAB4-main/umalloc.c:74-85 | Taking units from a list block, whole or from its tail end, keeps the same invariant. |
| `UMalloc.GrowKeeps` | Lab CA/4/OS-SMS_LAB4-main/umalloc.c:54-58 | A fresh region from sbrk counts as one more allocated block. |
| `UMalloc.FreeUndoesTake` | Lab CA/4/OS-SMS_LAB4-main/umalloc.c:25-90 | Freeing what was just taken restores the free list exactly. |
| `UMalloc.UnitsSuffice` | Lab CA/4/OS-SMS_LAB4-main/umalloc.c:69-69 | The 32-bit unit count covers the request exactly when nbytes is at most 2^32-8. |
| `UMalloc.SbrkableSizes` | Lab CA/4/OS-SMS_LAB4-main/umalloc.c:52-54 | Which request sizes reach sbrk as a positive int. |
| `FreeList.FreedSorted` | Lab CA/4/OS-SMS_LAB4-main/umalloc.c:33-43 | The list stays ordered, with a gap between any two blocks. |
| `FreeList.FreedTotal` | Lab CA/4/OS-SMS_LAB4-main/umalloc.c:33-43 | Units are conserved by joining. |
| `FreeList.TakenApart` | Lab CA/4/OS-SMS_LAB4-main/umalloc.c:75-85 | The units taken lie clear of every block that stays on the list. |
| `Vm.Kernel.Kalloc` | Lab CA/4/OS-SMS_LAB4-main/kalloc.c:83-95 | The first free page, or 0 exactly when none is free. |
| `Vm.Kernel.Kfree` | Lab CA/4/OS-SMS_LAB4-main/kalloc.c:60-78 | The page is filled with junk and becomes the head of the linked free list. |
| `Vm.Kernel.Freerange` | Lab CA/4/OS-SMS_LAB4-main/kalloc.c:47-53 | Every page of the range becomes free. |
| `Vm.Kernel.Walkpgdir` | Lab CA/4/OS-SMS_LAB4-main/vm.c:36-56 | The page table for the address; made, zeroed and linked when asked for; no mapping of any address space changes; fails only when memory has run out. |
| `Vm.Kernel.Mappages` | Lab CA/4/OS-SMS_LAB4-main/vm.c:61-80 | Exactly the pages of the range are mapped to consecutive physical pages; the loop ends by equality even for the region ending at 2^32; fails only when memory has run out. |
| `Vm.Kernel.Setupkvm` | Lab CA/4/OS-SMS_LAB4-main/vm.c:119-136 | A directory that maps exactly kmap's four regions; or 0, only with fewer free pages than the directory and its page tables take, and with every page's owner and every page in use as before. |
| `Vm.Kernel.Allocuvm` | Lab CA/4/OS-SMS_LAB4-main/vm.c:222-249 | The new range is mapped to zeroed pages of its own and nothing else changes; out of memory, only with fewer free pages than the new pages and the page tables they lie in, the user mapping is what it was. |
| `Vm.Kernel.Deallocuvm` | Lab CA/4/OS-SMS_LAB4-main/vm.c:256-279 | Exactly the mapped pages of the range are freed and unmapped; no kfree panics. |
| `Vm.Kernel.Freevm` | Lab CA/4/OS-SMS_LAB4-main/vm.c:284-298 | Every page of the address space is freed once, and no other page changes owner or contents. |
| `Vm.Kernel.Copyuvm` | Lab CA/4/OS-SMS_LAB4-main/vm.c:316-345 | The child has the same flags and page contents on pages of its own and the kernel half as setupkvm builds it; the parent is untouched; it fails only with fewer free pages than all that takes, and then everything is as before. |
| `PageTables.TakeKeeps` | Lab CA/4/OS-SMS_LAB4-main/kalloc.c:88-93 | Popping the free list keeps the partition of memory into free, held, directory, table and user pages. |
| `PageTables.GiveKeeps` | Lab CA/4/OS-SMS_LAB4-main/kalloc.c:69-77 | Pushing a held page keeps the partition, with no page on the list twice. |
| `PageTables.LinkTableKeeps` | Lab CA/4/OS-SMS_LAB4-main/vm.c:44-53 | Linking a zeroed page table keeps the partition and every mapping. |
| `PageTables.MapUserKeeps` | Lab CA/4/OS-SMS_LAB4-main/vm.c:72-72 | Mapping a held page makes that entry its owner. |
| `PageTables.UnmapKeeps` | Lab CA/4/OS-SMS_LAB4-main/vm.c:267-275 | Clearing a user entry returns the page to the caller; no other entry leads to it. |
| `PageTables.AbandonKeeps` | Lab CA/4/OS-SMS_LAB4-main/vm.c:291-297 | Without user pages, directory and tables can be taken apart: nothing else leads to them. |
| `AddressSpace.OtherSpaces` | Lab CA/4/OS-SMS_LAB4-main/vm.c:61-80 | Growing one address space changes no mapping of another. |
| `AddressSpace.ShrunkMore` | Lab CA/4/OS-SMS_LAB4-main/vm.c:263-276 | One more page unmapped and freed, in the order of the code. |
| `AddressSpace.BuiltAndGone` | Lab CA/4/OS-SMS_LAB4-main/vm.c:128-134 | An address space built and then freed leaves no trace. |
| `AddressSpace.CopiesDisjoint` | Lab CA/4/OS-SMS_LAB4-main/vm.c:323-338 | The pages of the copy differ from one another. |
| `AddressSpace.CopiesApart` | Lab CA/4/OS-SMS_LAB4-main/vm.c:323-338 | The pages of the copy differ from all of the parent's pages. |
| `AddressSpace.CopyMore` | Lab CA/4/OS-SMS_LAB4-main/vm.c:323-338 | One more page copied: the earlier copies and all sources are still what they were. |
| `Vm.LastPage` | Lab CA/4/OS-SMS_LAB4-main/vm.c:66-67 | Rounding the last address down with wrap-around gives the last page of the range. |
| `SleepLock.MutualExclusion` | Lab CA/4/OS-SMS_LAB4-main/reentrantlock.c:13-37 | In every state of every run at most one process has acquires that it has not released, counted on the return of its calls; the lock names it, and `recursive` is that count. Both lock kinds. |
| `SleepLock.OwnerNeverWaits` | Lab CA/4/OS-SMS_LAB4-main/reentrantlock.c:13-22 | In every state of every run a process that holds the reentrant lock is nowhere on the way to sleep on it, asleep, or on the way back. |
| `SleepLock.OwnerReenters` | Lab CA/4/OS-SMS_LAB4-main/reentrantlock.c:16-19 | From the holder's call of acquire the only way on is its return. |
| `SleepLock.CallsCount` | Lab CA/4/OS-SMS_LAB4-main/reentrantlock.c:13-37 | For a process in no call, the lock's own record of it is its acquires minus its releases. |
| `SleepLock.NoLostWakeup` | Lab CA/4/OS-SMS_LAB4-main/sleeplock.c:22-42 | In every state of every run a process asleep on the lock means that somebody holds it or a releaser still owes the wakeup. Both lock kinds. |
| `SleepLock.QuietMeansAwake` | Lab CA/4/OS-SMS_LAB4-main/proc.c:419-475 | When nobody is inside the lock functions but sleepers, a free lock has none. |
| `SleepLock.StepOfKeepsInv` | Lab CA/4/OS-SMS_LAB4-main/reentrantlock.c:13-37 | Every step of acquire, sleep, release and wakeup keeps locked iff owned iff recursive > 0, the two spinlocks' holders, and the reason for every sleeper. |
| `SleepLock.ElsewhereKeepsInv` | Lab CA/4/OS-SMS_LAB4-main/proc.c:481-500 | kill's spurious wakeups and other users of ptable.lock break nothing. |
| `SleepLock.RunKeepsInv` | Lab CA/4/OS-SMS_LAB4-main/sleeplock.c:22-42 | The invariant holds in every state of every run. |
| `Pipe.Delivery` | Lab CA/4/OS-SMS_LAB4-main/pipe.c:79-121 | In every state of every run the bytes received are a prefix of the bytes stored, and the rest, at most PIPESIZE, is exactly what the buffer holds, for counters wrapping at 2^32. |
| `Pipe.ReturnedInOrder` | Lab CA/4/OS-SMS_LAB4-main/pipe.c:101-121 | What a piperead returns is consecutive bytes of the stream, those last received. |
| `Pipe.EachItsOwn` | Lab CA/4/OS-SMS_LAB4-main/pipe.c:79-121 | In every state of every run, with any number of writers and readers: each byte is attributed to the process that had the lock when it went through, and a process's bytes are, in order, the buffers of its pipewrites that have returned and the first i bytes of the one in progress; those it took out are what its pipereads returned and what the one in progress has. |
| `Pipe.Alone` | Lab CA/4/OS-SMS_LAB4-main/pipe.c:79-121 | With a single writer the bytes stored are the concatenation of its buffers; with a single reader the bytes received are the concatenation of what its calls returned. |
| `Pipe.OneToOne` | Lab CA/4/OS-SMS_LAB4-main/pipe.c:79-121 | One writer, one reader: what the reader's calls returned is a prefix of what the writer's calls were given. |
| `Pipe.WriteAnswer` | Lab CA/4/OS-SMS_LAB4-main/pipe.c:79-97 | pipewrite returns n with its whole buffer stored, or -1 before its end when the read end is closed. |
| `Pipe.ReadAnswer` | Lab CA/4/OS-SMS_LAB4-main/pipe.c:101-121 | piperead returns the number of bytes it got, fewer than n only with the pipe empty, and 0 (of some) only when the write end is closed. |
| `Pipe.CloseAnswer` | Lab CA/4/OS-SMS_LAB4-main/pipe.c:60-76 | When pipeclose returns its end is closed. |
| `Pipe.ReaderNotForgotten` | Lab CA/4/OS-SMS_LAB4-main/pipe.c:106-112 | A reader asleep on nread: the pipe is empty with the write end open, or the lock holder still owes the wakeup. |
| `Pipe.WriterNotForgotten` | Lab CA/4/OS-SMS_LAB4-main/pipe.c:85-92 | A writer asleep on nwrite: the pipe is full with the read end open, or the lock holder still owes the wakeup. |
| `Pipe.StepKeepsInv` | Lab CA/4/OS-SMS_LAB4-main/pipe.c:60-121 | Every step of any reader, writer or closer keeps the data, lock and sleeper invariants. |
| `Pipe.Tests` | Lab CA/4/OS-SMS_LAB4-main/pipe.c:85-106 | The empty and full tests on wrapped counters decide emptiness and fullness of the real queue. |
| `Pipe.WriteKeepsQueue` | Lab CA/4/OS-SMS_LAB4-main/pipe.c:84-94 | Storing a byte keeps the queue: the slot is free, 512 dividing 2^32. |
| `Pipe.ReadKeepsQueue` | Lab CA/4/OS-SMS_LAB4-main/pipe.c:113-117 | Taking a byte takes the oldest one. |
| `Processes.Ptable.Exit` | Lab CA/4/OS-SMS_LAB4-main/proc.c:229-269 | Panics exactly for init; otherwise children go to init, parent and init are woken when they must be, the process is a zombie off its CPU, and its pid is recorded as exited for the first time. |
| `Processes.Ptable.Wait` | Lab CA/4/OS-SMS_LAB4-main/proc.c:274-313 | The first zombie child is collected exactly when there is one: the pid is that child's, has exited and was never collected, the child's entry is freed and no other entry changes; -1, changing nothing, exactly without a zombie child and without children or when killed; otherwise only the caller changes, asleep in wait. |
| `Processes.Ptable.Allocproc` | Lab CA/4/OS-SMS_LAB4-main/proc.c:75-93 | The chosen unused entry becomes an embryo with a new pid, made by the caller, and every other embryo keeps its maker; none exactly when no entry is unused. |
| `Processes.Ptable.Schedule` | Lab CA/4/OS-SMS_LAB4-main/proc.c:335-347 | A runnable process gets the idle CPU and no other entry or CPU changes, or none is runnable; never one that runs elsewhere. |
| `Processes.Ptable.Wakeup` | Lab CA/4/OS-SMS_LAB4-main/proc.c:470-475 | Exactly the sleepers on the channel become runnable. |
| `Processes.Ptable.Kill` | Lab CA/4/OS-SMS_LAB4-main/proc.c:481-500 | The first entry with the pid, if there is one, is marked killed and does not sleep on: asleep it becomes runnable; no other field and no other entry changes. |
| `Processes.Ptable.ForkDone` | Lab CA/4/OS-SMS_LAB4-main/proc.c:216-220 | The embryo becomes runnable under its parent. |
| `ProcTable.AbandonedKeeps` | Lab CA/4/OS-SMS_LAB4-main/proc.c:256-263 | Passing children to init keeps parents alive and no one waiting in vain. |
| `ProcTable.ZombieKeeps` | Lab CA/4/OS-SMS_LAB4-main/proc.c:251-267 | A childless process whose parent is not asleep in wait may become a zombie. |
| `ProcTable.CollectKeeps` | Lab CA/4/OS-SMS_LAB4-main/proc.c:288-300 | The collected pid had exited and was not collected before; the table stays valid. |
| `ProcTable.CalmKeeps` | Lab CA/4/OS-SMS_LAB4-main/proc.c:387-453 | State changes among live processes keep parents, waiters and pids in order. |
| `ProcTable.ToCpu` | Lab CA/4/OS-SMS_LAB4-main/proc.c:343-345 | No process runs on two CPUs. |
| `ProcTable.BuddingKeeps` | Lab CA/4/OS-SMS_LAB4-main/proc.c:89-93 | Changes to an unused entry or an embryo break nothing. |
| `Grep.Match` | Lab CA/4/OS-SMS_LAB4-main/grep.c:73-82 | 1 exactly when some substring (a prefix under ^, a suffix under $) is in the language the pattern denotes. |
| `Grep.Matchhere` | Lab CA/4/OS-SMS_LAB4-main/grep.c:85-96 | 1 exactly when a prefix of the text (all of it under $) is in the language; terminates on pattern and text. |
| `Grep.Matchstar` | Lab CA/4/OS-SMS_LAB4-main/grep.c:99-106 | 1 exactly when some run of fitting characters is followed by a match of the rest. |
| `Grep.HereOne` | Lab CA/4/OS-SMS_LAB4-main/grep.c:93-95 | A single-character element matches one fitting character and leaves the rest. |
| `Grep.HereMany` | Lab CA/4/OS-SMS_LAB4-main/grep.c:89-90 | A starred element matches any run of fitting characters and leaves the rest. |
| `Grep.HereEnd` | Lab CA/4/OS-SMS_LAB4-main/grep.c:91-92 | A final $ matches only the end. |
| `ShellText.RoundTrip` | Lab CA/4/OS-SMS_LAB4-main/sh.c:328-446 | Every command tree with fewer than MAXARGS words per command, written with parentheses where precedence needs them, parses back to exactly that tree with nothing left over. |
| `ShellText.AnyText` | Lab CA/4/OS-SMS_LAB4-main/sh.c:266-446 | The same for every text that writes the tree down, with any spacing and with > or >>. |
| `ShellTally.AllAccounted` | Lab CA/4/OS-SMS_LAB4-main/sh.c:328-446 | A command line is accepted only if nothing is left over, every word and every symbol is in the tree exactly once, the parentheses balance and every command has fewer than MAXARGS words. |
| `ShellGrammar.AlikeLine` | Lab CA/4/OS-SMS_LAB4-main/sh.c:375-397 | The tree depends on the kinds of symbols only, and >> is the same as >. |
| `ShellText.LexOfSpell` | Lab CA/4/OS-SMS_LAB4-main/sh.c:266-308 | gettoken on a text gives exactly the tokens it was written with, >> included, whatever white space is before, between and after them, and with none where two tokens cannot run together. |
| `ShellGrammar.ParseOfRender` | Lab CA/4/OS-SMS_LAB4-main/sh.c:345-446 | On tokens, parsing is the inverse of writing. |
| `ShellGrammar.ExecBack` | Lab CA/4/OS-SMS_LAB4-main/sh.c:400-446 | Words, redirections and parenthesised blocks parse back, up to any token that ends them. |
| `ShellGrammar.MapParse` | Lab CA/4/OS-SMS_LAB4-main/sh.c:345-446 | Parsing depends on token kinds only: it commutes with any change of the words. |
| `ShellGrammar.EveryLine` | Lab CA/4/OS-SMS_LAB4-main/sh.c:345-359 | Every word of the tree is a word of the text. |
| `Shell.Parser.Peek` | Lab CA/4/OS-SMS_LAB4-main/sh.c:311-320 | True exactly when the next token is of one of the kinds; only white space is skipped. |
| `Shell.Parser.Gettoken` | Lab CA/4/OS-SMS_LAB4-main/sh.c:266-308 | The next token and its extent, NUL at the end. |
| `Shell.Parser.Parseredirs` | Lab CA/4/OS-SMS_LAB4-main/sh.c:375-397 | The redirections at the cursor, or panic for a missing file, as on tokens. |
| `Shell.Parser.Parseexec` | Lab CA/4/OS-SMS_LAB4-main/sh.c:416-446 | As the grammar on tokens says, panics included. |
| `Shell.Parser.Parsepipe` | Lab CA/4/OS-SMS_LAB4-main/sh.c:362-372 | As the grammar on tokens says. |
| `Shell.Parser.Parseline` | Lab CA/4/OS-SMS_LAB4-main/sh.c:345-359 | As the grammar on tokens says. |
| `Shell.Parser.Parsecmd` | Lab CA/4/OS-SMS_LAB4-main/sh.c:328-342 | The tree of the whole text or panic; on success every word and file name, read as a C string, is exactly its token. |
| `Shell.Parser.Nulterminate` | Lab CA/4/OS-SMS_LAB4-main/sh.c:450-493 | A NUL at the end of every word and file name of the tree, and no other change. |
| `Shell.EndsOutside` | Lab CA/4/OS-SMS_LAB4-main/sh.c:450-493 | No NUL of nulterminate lands inside a word. |
| `Shell.AllRead` | Lab CA/4/OS-SMS_LAB4-main/sh.c:450-493 | After nulterminate every word and file name reads exactly its token. |

## Left out

- Boot, hardware, traps, exec, the console, printf and the other user programs; the Lab 5 kernel, whose copies of these files have the same code.
- FileSystem.FileSystem.Writei: the T_DEV branch is not modelled.
- FileSystem.FileSystem.Readi: the T_DEV branch is not modelled.
- FileLayer.Filewrite: the FD_PIPE branch is not modelled (pipes have their own module); begin_op and end_op stand between the states it returns; that they are the log's is shown in DurableFile.
- FileLayer.Fileread: the FD_PIPE branch is not modelled.
- Directory contents as bytes: a directory is a sequence of entries; that entries are 16 bytes appears only as the limit on their number. Out of disk blocks while a directory grows is not modelled.
- FileSystem.FileSystem.Iupdate: the on-disk inodes are an array of records; how a block packs eight of them is in Dinodes.
- Dinodes.InodeAfterPut: type, device numbers and links of an inode are part of DirTree's nodes, not of this record; here their words are shown to stay as they are.
- SysFile.FileTree.Iput: the inode cache's slots and reference counts are the parameter that says whether this is the last reference.
- FileSystem.FileSystem.Balloc: the array that holds the blocks is the block map that the cache and the log represent. For filewrite the two are composed in DurableFile; the totals that create, link, unlink and iput log over a whole operation are not added up, only those of the writes and of itrunc in them.
- DurableFile.RunFilewrite: the filewrite's transactions run with no other process's between them; interleaved operations are covered by Machine.PowerOn in terms of blocks.
- Log.Log.LogWrite: the size test is one step with the append; LogAdmission.RaceIsHarmless says for which logs that makes no difference.
- BufferCache.BufferCache.Bread: waiting for a buffer that another process holds ends the call.
- Transaction.EndOp: the wakeups of processes that wait for room in the log are left out.
- Machine.PowerOn: the schedule is cut short at a begin_op that would have to sleep or a commit without a buffer; the next call then starts from any of the disk states. Each change is bread to brelse in one stretch, so that no process waits for another's buffer.
- Log.Log.BeginOp: sleeping on the log is a refusal, after which the caller may ask again.
- Log.Log.EndOp: the wakeup of processes that wait for room in the log is left out.
- Log.Log.CommitOp: the wakeup after the commit is left out.
- Transaction.Transact: one operation's steps run without another's between them; Machine.Serve has them interleaved.
- BufferCache.BufferCache.Bget: running out of buffers, and waiting for a buffer another process has locked, stop the operation (ok is false); readers are not interleaved inside a commit.
- UMalloc.Allocator.Malloc: sbrk's effect for a request that is not a positive int is not modelled (the result is BadSbrk); addresses count header-sized units.
- Vm.Kernel.Mappages: user pages are mapped one at a time, as every caller does; a remap is a precondition, not an outcome. Addresses of pages are page numbers.
- inituvm, loaduvm, clearpteu, uva2ka and copyout; what the processor does with page tables.
- SysFile.FileTree.Namex: the parents of link, unlink and create have nlink at least 1, so creating inside a directory that was removed while it was some process's current directory is not covered.
- DirTree.LinkKeeps: link, unlink and create are atomic steps; the interleaving of their inode locks is not modelled.
- SleepLock.NoLostWakeup: for the plain sleep lock only holders release it; overflow of `recursive` past an int is not modelled.
- Pipe.Delivery: runs without kill, and an end is closed once, when no call on it is in progress; freeing the pipe's page after both closes is not modelled.
- Processes.Ptable.Wait: each stretch with ptable.lock held is one step, and kernel stacks and page tables of the collected child are not modelled here.
- Processes.Ptable.Exit: the caller is not inside fork, and open files and the current directory are not modelled. Overflow of nextpid is not modelled.
- Grep: the line-buffer loop of grep(); strings hold no NUL.
- Shell.Parser.Parseredirs: the redirections are collected and put around the command at the end, because the tree is a value; open modes other than read or write-and-create do not occur. malloc failing is not modelled.
- mkfs, except for what it makes of the log size and the root directory.
