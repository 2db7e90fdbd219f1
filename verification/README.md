# xv6 with a rewritten scheduler, modelled in Dafny

This project models the parts of xv6 (the x86 teaching kernel, with round-robin, FCFS and lottery scheduling and
with `waitx`) whose correctness spans several functions or several CPUs, and proves what they keep. Every definition
follows the C code, its edge cases and its integer widths included. Where the code breaks its own intent, the model
keeps the code, shows an input or a run on which it fails, and proves exactly when it does not.

`dafny verify dfyconfig.toml` checks the whole project.

## Overview

**Scheduling and processes.** `Lcg` is the generator `krand` in 32-bit arithmetic, with a proof of its full period.
`Lottery` is the lottery branch of `scheduler` and the share of wins each process gets. `ProcTable` holds the loops
over the process table (`wakeup1`, `exit`, `wait`, `kill`, `allocproc`, the FCFS scan, the timer's accounting) as a
class whose methods rewrite the table. `Kernel` composes them into a state machine: any number of CPUs, each in
`scheduler` or in a process, `ptable.lock` handed across `swtch`, and one step for the code between two lock
operations or context switches; the timer interrupt of CPU 0 is three steps, during which that CPU takes no other.
`KernelSafety` is its invariant and the proof that every step keeps it; `KernelRuns`, `KernelTime`, `KernelPolicy` and
`KernelFcfs` draw the consequences for whole runs, and `KernelSteps` says what single operations come to.
`KernelWitness` builds particular runs out of whole system calls and scheduler passes; `KernelClamp` and
`KernelUnsettled` use it to show where a guarantee ends.

**Sleeping and waking.** `Monitor` is `sleep` and `wakeup` around an arbitrary spinlock, in every interleaving, and a
condition on critical sections under which no wakeup is lost. `SleepLock`, `LogSpace` and `PipeSync` instantiate it.
`Pipe` is the ring buffer with wrapping counters.

**Disk.** `LogDisk` is the redo log, one block write at a time, with crashes between any two writes of a commit and of
any number of recoveries. `Ring` and `Bio` are the LRU buffer cache over a doubly linked list; a flag selects the
recycling test as coded or with the B_DIRTY test that `log_write` counts on. `FsBlocks`, `FsLayout` and `Fs` are the
free map, inodes with direct and indirect blocks, and files as byte sequences; `FsCrash` puts them on the log.

**Memory and small languages.** `VmLayout`, `FramePool` and `Vm` are two-level page tables inside physical frames and
the free list threaded through the free frames. `FreeList` and `Umalloc` are the user-level allocator. `ShellTokens`,
`ShellGrammar` and `Shell` are the shell's scanner, parser and in-place termination of words, `ShellText` what a tree
says of the characters of its line; `Regex` is grep's matcher. `Params` holds the constants and types that several
modules share, `Numbers` and `ProcTypes` common arithmetic and types.

A `panic` is modelled as a result (`None`, `Remap`, `Died`, a boolean), so a contract says when it can happen.

## Model

| member | source | states |
|---|---|---|
| Lcg.Generator.Krand | xv6-public_final/proc.c:38-42 | each call multiplies the state by 1664525 and adds 1013904223 modulo 2^32, and returns it; the k-th call returns the k-th draw |
| Lcg.GeometricDivides | xv6-public_final/proc.c:38-42 | a power of two divides 1 + a + ... + a^(n-1), for krand's multiplier a, exactly when it divides n |
| Lcg.FullPeriod | xv6-public_final/proc.c:38-42 | from any seed the state recurs exactly at the multiples of 2^32 calls |
| Lcg.DistinctDraws | xv6-public_final/proc.c:38-42 | any 2^32 consecutive draws are pairwise distinct |
| Lottery.TotalTickets | xv6-public_final/proc.c:409-420 | the loop computes the sum of the tickets fields of the runnable slots, a field below one counting as one, saturated at the largest int |
| Lottery.FindWinner | xv6-public_final/proc.c:422-437 | the scan returns the first runnable slot whose wrapping int sum exceeds the draw, and nobody exactly when there is none; while the tickets fields add up to an int, that is the slot that holds the ticket, counting the fields through the runnable slots |
| Lottery.Pick | xv6-public_final/proc.c:408-439 | one call of krand when there are tickets, none otherwise; while the tickets fields add up to an int, the winner is the holder of the ticket that the draw modulo their sum falls on |
| Lottery.WinsIsBlock | xv6-public_final/proc.c:423-437 | while the tickets fit an int, a slot wins a draw exactly when the draw lies in its block of tickets |
| Lottery.EveryDrawFindsSomebody | xv6-public_final/proc.c:411-437 | every draw finds a process if and only if the tickets fit an int or a prefix sum wraps onto the saturated total |
| Lottery.SaturatedLotteryLosesADraw | xv6-public_final/proc.c:415-427 | two processes with 1 and the largest int as tickets: some draw finds nobody |
| Lottery.DrawsCoverEveryWord | xv6-public_final/proc.c:38-42 | every 32-bit word is drawn within any 2^32 consecutive draws |
| Lottery.EachDrawHasOneWinner | xv6-public_final/proc.c:421-437 | while the tickets fit an int, each draw below the total has exactly one winner |
| Lottery.LotteryShare | xv6-public_final/proc.c:408-439 | over any 2^32 consecutive draws on a fixed table whose tickets fields add up to T, an int, a runnable process with t in its field wins between floor(2^32/T)*t and (floor(2^32/T)+1)*t of them, one with less than one in it counts as having one, and who is not runnable wins none |
| ProcTable.Table.Wakeup1 | xv6-public_final/proc.c:536-543 | exactly the processes asleep on the channel become runnable |
| ProcTable.Table.AbandonChildren | xv6-public_final/proc.c:267-274 | every child gets init as parent, and init is woken exactly when one of them is a zombie |
| ProcTable.Table.Exit | xv6-public_final/proc.c:262-279 | the slot is a zombie with its exit tick, its children have init as parent, and of the sleepers just its parent in wait is woken, and init in wait when a child is a zombie; no other field of any slot changes |
| ProcTable.Table.ReapChild | xv6-public_final/proc.c:294-313 | the first zombie child is reaped, its slot unused with pid, parent, killed and stack cleared and its other fields kept, and nothing else changes; otherwise there is none, and the flag tells whether there is a child; the times are those waitx reports |
| ProcTable.Table.Kill | xv6-public_final/proc.c:554-572 | the first slot with the pid is marked killed, is runnable if it was asleep, and keeps its other fields, and no other slot changes; -1 exactly when there is no such slot |
| ProcTable.Table.AllocSlot | xv6-public_final/proc.c:92-105 | the first unused slot becomes an embryo with the pid; failure means there was none |
| ProcTable.Table.PickOldest | xv6-public_final/proc.c:390-398 | the runnable slot that FCFS picks is one of least ctime, the first such; none exactly when nothing is runnable |
| ProcTable.Table.AccountTick | xv6-public_final/trap.c:79-95 | each slot's counter for its state, and no other, advances by one |
| KernelSteps.KillEffect | xv6-public_final/proc.c:554-572 | in the state machine too, kill marks the first slot with the pid, leaves it not asleep, and changes no other field and no other slot |
| KernelSteps.SchedulerChoice | xv6-public_final/proc.c:378-456 | a CPU that enters the scheduler may dispatch a slot under policy 1 exactly when it is the first runnable one of least ctime, under policy 2, while the tickets fields add up to an int, exactly when it holds the ticket of the next draw, and otherwise scans from slot 0 |
| KernelSteps.SleepThenWakeup | xv6-public_final/proc.c:504-551 | a process that went to sleep on an address is made runnable by a wakeup on that address and by no other |
| KernelSteps.ForkEffect | xv6-public_final/proc.c:193-240 | an undisturbed fork adds one runnable child in the first unused slot, with the next pid, its parent, the creation tick, zero times and the parent's tickets, at least one; no other slot changes |
| KernelSafety.InitialInv | xv6-public_final/proc.c:142-169 | the machine after userinit satisfies the invariant |
| KernelSafety.InvStep | xv6-public_final/proc.c:378-572 | every step of every CPU and of the clock keeps the invariant on CPUs, slots, lock hand-over and families |
| KernelRuns.RunInv | xv6-public_final/proc.c:378-572 | every state of every run satisfies the invariant |
| KernelRuns.DispatchSafety | xv6-public_final/proc.c:378-475 | in every run, whenever ptable.lock is free, a process is RUNNING exactly when it is some CPU's c->proc, and no two CPUs have the same |
| KernelRuns.ReapSafety | xv6-public_final/proc.c:299-311 | when wait or waitx frees a kernel stack and page directory, they are a zombie child's, and no CPU is on that stack or has that process as c->proc |
| KernelRuns.NoLostExit | xv6-public_final/proc.c:193-374 | in every run, a process asleep in wait has a child and no zombie child, and every process but init has a parent that is neither unused nor a zombie |
| KernelTime.TimeStep | xv6-public_final/trap.c:71-96 | every step keeps each process' accounted time within its age plus the lead of a tick not yet accounted |
| KernelTime.OneCpuTicks | xv6-public_final/trap.c:71-96 | on one CPU no process code runs between a tick and its accounting |
| KernelTime.AccountedAtMostAge | xv6-public_final/trap.c:71-96 | in every run rtime + stime + retime is at most the age plus one, and at most the age on one CPU or when no other CPU steps between a tick and its accounting |
| KernelTime.WaitxAddsUp | xv6-public_final/proc.c:342-353 | what waitx reports for wait and run time adds up to the age at exit or one more, and the clamp acts exactly in the second case, never on one CPU |
| KernelClamp.ClampActs | xv6-public_final/proc.c:346-352 | for any number of CPUs above one and any table of two slots or more, a run in which only CPU 1 steps while CPU 0 is in the timer interrupt, and which ends in a zombie of age 0 with run time 1: the bound of one tick is reached |
| KernelClamp.ClampNeedsTwoCpus | xv6-public_final/proc.c:346-352 | the clamp of waitx acts in some run of n CPUs, on a table of any size from two on, if and only if n is at least 2 |
| KernelPolicy.RoundRobinBound | xv6-public_final/proc.c:440-452 | under round robin, a slot that stays runnable sees fewer dispatches of others by one CPU than there are slots before that CPU dispatches it, and at most one more if the CPU was in the middle of a choice under the policy before |
| KernelFcfs.AgeStep | xv6-public_final/proc.c:193-240 | every step of any number of CPUs keeps: who never slept or yielded is not asleep, nobody is born in the future, and no embryo is older than its parent |
| KernelFcfs.FcfsExitsInOrder | xv6-public_final/proc.c:388-407 | on one CPU, from any state of any run in which the scheduler is settled and for as long as the policy stays FCFS, processes that exit without ever having slept or yielded do so in nondecreasing order of ctime; settled means no round-robin scan to go on with, and a process on the CPU, if it is one of these, no younger than any that waits |
| KernelUnsettled.LeftoverScanFails | xv6-public_final/proc.c:441-451 | for a table of any size from three on, a run in which, after setpolicy(1), the scan of the round-robin pass before goes on in slot order and such processes exit out of order |
| KernelUnsettled.ScanUnderWayFails | xv6-public_final/proc.c:441-451 | the same from a moment at which the scheduler is itself in that scan |
| KernelUnsettled.LeftoverDrawFails | xv6-public_final/proc.c:408-439 | for a table of any size from three on, a run with no scan left in which a younger process dispatched by the lottery calls setpolicy(1) and exits before an older one |
| KernelUnsettled.OrderedExactlyWhenSettled | xv6-public_final/proc.c:378-456 | of the four situations the scheduler can be in when FCFS begins (in a scan, a scan to come back to, a younger process on the CPU, settled), the settled one is the only one from which every run keeps the order, for a table of any size from three on |
| Monitor.InvStep | xv6-public_final/proc.c:504-551 | every step of sleep's lock swap and of wakeup, in any interleaving, keeps: a sleeper is blocked or its wakeup is still owed by the lock's holder |
| Monitor.NoLostWakeup | xv6-public_final/proc.c:504-551 | in every run of disciplined critical sections, while the lock is free, whoever sleeps on a channel is still blocked there |
| SleepLock.SectionsDisciplined | xv6-public_final/sleeplock.c:18-38 | acquiresleep and releasesleep wake everyone they unblock |
| SleepLock.SectionEffects | xv6-public_final/sleeplock.c:18-38 | after acquiresleep the lock is taken with the process as its one holder, after releasesleep it is free with none, and who finds it taken sleeps |
| SleepLock.SleepLockSafety | xv6-public_final/sleeplock.c:18-38 | in every run, while the inner lock is free, at most one process holds the sleep lock, it is marked locked exactly then, and nobody sleeps on it unlocked |
| LogSpace.SectionsDisciplined | xv6-public_final/log.c:126-174 | begin_op, end_op and log_write keep the log's counts, leave blocks in the log only for a running operation or a commit, and wake everyone they unblock |
| LogSpace.BeginOpEffect | xv6-public_final/log.c:126-141 | an operation is let in exactly when no commit runs and ten blocks for it and for every running operation fit beside the logged ones in thirty; otherwise it sleeps |
| LogSpace.EndOpEffect | xv6-public_final/log.c:146-174 | the section that brings the operations to none, and no other, leaves a commit under way |
| LogSpace.LogEffects | xv6-public_final/log.c:161-233 | a new block takes one slot, an absorbed one none, and the end of a commit empties the log |
| LogSpace.LogSafety | xv6-public_final/log.c:126-233 | in every run, while log.lock is free, a commit has no operation outstanding, the log is empty unless an operation or a commit runs, used and reserved slots fit LOGSIZE, an operation within its reservation finds a slot, and a sleeper in begin_op still has to wait |
| LogSpace.ReachWritten | xv6-public_final/log.c:126-233 | without a panic on the way, three operations can together fill any numbers of slots up to their reservations and to the size of the log |
| Monitor.AlwaysFit | xv6-public_final/proc.c:504-551 | data that fits at every point of every section fits at every state of every run, whoever holds the lock |
| LogSpace.PanicFreeWhenLogIsLarger | xv6-public_final/log.c:214-221 | at any point of any run of any number of processes that has not panicked before, log_write by an operation with a slot left, of a new block or of one already logged, passes the size test, which reads lh.n without the lock, if and only if the on-disk log has more than LOGSIZE blocks; mkfs does not give it more |
| LogSpace.PanicMeansFull | xv6-public_final/log.c:214-221 | on such a log log_write panics if and only if the log is full, which takes a block already logged and every running operation to have used up its slots |
| LogSpace.FullLogPanics | xv6-public_final/log.c:214-221 | whatever the size of the on-disk log, some run without a panic before comes to a log_write that panics, and it is one of a block already logged unless not even one block fits |
| Pipe.Pipe.constructor | xv6-public_final/pipe.c:22-57 | a new pipe holds the empty queue with both ends open |
| Pipe.Pipe.WriteFrom | xv6-public_final/pipe.c:78-98 | a pass appends exactly the next bytes of the buffer to the queue, stops short only when the ring is full, and fails only when the read end is closed or the process killed |
| Pipe.Pipe.Read | xv6-public_final/pipe.c:100-121 | a pass takes the oldest bytes in order, as many as asked for and stored; it blocks or fails only on an empty pipe with the write end open |
| Pipe.Pipe.Close | xv6-public_final/pipe.c:59-75 | exactly one end closes, the bytes stay, and the pipe is freed exactly when both are closed |
| Pipe.FullTest | xv6-public_final/pipe.c:85 | with counters that wrap at 2^32 the test for a full ring is exact |
| Pipe.EmptyTest | xv6-public_final/pipe.c:106 | with counters that wrap at 2^32 the test for an empty ring is exact |
| Pipe.SlotIndex | xv6-public_final/pipe.c:93-115 | the slot of a wrapped counter is the slot of the unwrapped one |
| PipeSync.FailingWriteDiscipline | xv6-public_final/pipe.c:85-90 | the write that returns -1 leaves a sleeping reader unwoken exactly when it began on an empty ring with the write end open |
| PipeSync.SectionEffects | xv6-public_final/pipe.c:59-121 | a write section adds to the bytes stored, a read section to the bytes taken, and a close clears just its own end |
| PipeSync.WriterAsleepMeansFull | xv6-public_final/pipe.c:59-121 | in every run as coded, with the lock free, a writer asleep means a full ring with its read end open |
| PipeSync.CarefulSleepers | xv6-public_final/pipe.c:59-121 | if no write fails on an empty ring, a reader asleep also means an empty ring with its write end open |
| PipeSync.KilledWriterStrandsReader | xv6-public_final/pipe.c:85-90 | a run as coded in which a reader sleeps with the lock free and a full ring to read |
| LogDisk.Log.LogWrite | xv6-public_final/log.c:213-233 | a block is logged once however often it is written, and the panics occur exactly for a full log or outside a transaction |
| LogDisk.Log.WriteHead | xv6-public_final/log.c:101-113 | one block write puts the header on disk |
| LogDisk.Log.ReadHead | xv6-public_final/log.c:85-96 | the block list in memory becomes that of the header on disk |
| LogDisk.Log.WriteLog | xv6-public_final/log.c:177-190 | the log blocks receive the cached contents, one disk write after another in order |
| LogDisk.Log.InstallTrans | xv6-public_final/log.c:69-82 | every logged block is copied home, in order, and is no longer dirty |
| LogDisk.Log.Commit | xv6-public_final/log.c:192-202 | the disk passes through exactly the states that the crash theorem ranges over, and ends with an empty log and, if the log was empty on disk before, with every modified buffer at its home and every other home block as it was |
| LogDisk.Log.Recover | xv6-public_final/log.c:115-122 | recovery's disk writes are those the crash theorem ranges over, and it ends with an empty log |
| LogDisk.HeaderRoundTrip | xv6-public_final/log.c:84-113 | the block list written to a header block reads back |
| LogDisk.HeaderWords | xv6-public_final/log.c:84-113 | word 0 of the header block is the number of entries and the entries follow it |
| LogDisk.CommitCompletes | xv6-public_final/log.c:192-202 | an uninterrupted commit installs every block of the transaction and touches no other |
| LogDisk.CrashAtomicity | xv6-public_final/log.c:69-202 | a crash after any number of a commit's writes and of any number of interrupted recoveries leaves, once a recovery finishes, every home block old or every one as copied, depending only on whether the header was written |
| LogDisk.HistoryIsAtomic | xv6-public_final/log.c:69-202 | over any history of commits, crashes and recoveries the home blocks are those of a disk on which each transaction happened at once or not at all |
| Ring.Unlink | xv6-public_final/bio.c:123-126 | the two link writes of a removal take the node out of the ring |
| Ring.MoveSecond | xv6-public_final/bio.c:123-131 | brelse's six link writes move the node behind the head and keep the order of the rest |
| Bio.Cache.constructor | xv6-public_final/bio.c:35-52 | binit links every buffer into the ring |
| Bio.Cache.Bget | xv6-public_final/bio.c:57-88 | the buffer of the block if it is cached, else the least recently released one with a count of zero, which with the B_DIRTY test is clean too; a panic exactly when the block is not cached and there is no such buffer; a buffer somebody holds keeps its block and contents; the block is never cached twice |
| Bio.Cache.Bread | xv6-public_final/bio.c:91-102 | a read returns the latest contents, and the cache still shows all latest contents if and only if the block was cached or the buffer due for recycling held nothing of its own; a buffer given to another block had a count of zero, and one somebody holds keeps its block, its contents and its count, the reader's own added |
| Bio.Cache.LogWrite | xv6-public_final/log.c:213-233 | the buffer is dirty, the disk unchanged, and the latest contents are those written |
| Bio.Cache.Bwrite | xv6-public_final/bio.c:105-112 | buffer, disk and latest contents agree |
| Bio.Cache.Brelse | xv6-public_final/bio.c:115-135 | the last release moves the buffer to the front of the ring, which stays a permutation of all buffers and keeps the order of the rest |
| Bio.TouchAll | xv6-public_final/bio.c:57-135 | distinct blocks read and released one after the other end up at the front of the list, the last one first |
| Bio.LoggedUpdateIsLost | xv6-public_final/bio.c:74-83 | with the recycling test as coded, in a cache of any number of buffers and from any contents with no buffer held: after a block is logged and released and as many others are read and released as there are buffers, reading it gives the contents on disk and not those logged |
| FsBlocks.UsedAfter | xv6-public_final/fs.c:65-91 | setting or clearing one block's bit changes the bit of no other block |
| FsBlocks.UsedMeans | xv6-public_final/fs.c:65-91 | a block is in use when bit b % 8 of byte b / 8 of the free map is set |
| FsBlocks.WordAfter | xv6-public_final/fs.c:389-393 | storing one word of an indirect block changes no other word |
| FsLayout.ConsistentMeans | xv6-public_final/fs.c:57-400 | no block number is held at two places, and the bits set are exactly those of metadata and of blocks that some inode or indirect block holds |
| FsLayout.AddrMeans | xv6-public_final/fs.c:372-400 | the first twelve block numbers stand in the inode, the others are little-endian words of the indirect block |
| FsLayout.ContentsMeans | xv6-public_final/fs.c:452-476 | byte k of a file is byte k % 512 of its block k / 512 |
| Fs.FileSystem.constructor | xv6-public_final/mkfs.c:237-251 | a file system whose bits are set for the metadata alone is consistent, with empty files |
| Fs.FileSystem.Balloc | xv6-public_final/fs.c:56-78 | the lowest free block, marked and zeroed, and both blocks logged; a panic exactly when none is free |
| Fs.FileSystem.Bfree | xv6-public_final/fs.c:81-95 | the block's bit is cleared; a panic exactly when it was clear |
| Fs.FileSystem.Bmap | xv6-public_final/fs.c:372-400 | the block of the file, allocated with its indirect block if need be; no byte of any file changes, the structure stays consistent and every disk block changed is logged |
| Fs.FileSystem.Readi | xv6-public_final/fs.c:452-476 | the slice of the file's bytes, as many as asked for and left in the file; -1 exactly for an offset beyond the end or a sum that wraps; nothing changes, so nothing is allocated |
| Fs.FileSystem.Writei | xv6-public_final/fs.c:481-511 | the bytes given stand in the file at the offset, those before and behind them are as they were, the file grows just as far as they reach, no other file changes, no hole appears, changed inodes are recorded, every disk block changed is logged, and a write of at most 1536 bytes logs at most MAXOPBLOCKS blocks; -1 exactly for an offset beyond the end or past 140 blocks |
| Fs.LogBound | xv6-public_final/file.c:134-145 | four file blocks, three of them new, with their free-map blocks, the indirect block, its free-map block and the inode are at most MAXOPBLOCKS |
| Fs.FileSystem.Itrunc | xv6-public_final/fs.c:407-435 | bfree never panics, exactly the inode's direct, indirect and table blocks become free, the file is empty and every other file is unchanged |
| Fs.FileSystem.Filewrite | xv6-public_final/file.c:118-157 | all bytes are written exactly when they fit; otherwise the whole chunks that fit stay written and the result is -1; of the disks before, between and after its transactions each holds a consistent file system with one chunk more, every block that a transaction changes is among those it logs, these are at most MAXOPBLOCKS, and the number of transactions is the number of chunks accepted, and one more when the last is refused |
| FsCrash.EventRepresents | xv6-public_final/log.c:69-202 | a transaction that logs every block it changes, committed to its end or to a crash and its recoveries, leaves the disk of the file system before it or after it, depending only on whether it ended or its header was written |
| FsCrash.FilewriteCrash | xv6-public_final/file.c:118-157 | when the transactions of one filewrite are committed one after the other and a crash cuts the last after any of its block writes, followed by any number of interrupted recoveries, the disk holds a consistent file system in which a whole number of chunks is written and every other byte of every file is as before |
| FsCrash.OneFileSystem | xv6-public_final/fs.h:20-33 | if different blocks look different on the disk, the disk determines free map, inodes and data |
| FsLayout.OverwriteTwice | xv6-public_final/file.c:135-154 | consecutive chunks written one after the other are one write |
| FreeList.Canonical | xv6-public_final/umalloc.c:24-44 | an ordered, disjoint, fully joined list is determined by the set of free units |
| FreeList.InsertCoalesced | xv6-public_final/umalloc.c:24-44 | freeing a chunk that is apart from the free ones keeps the list ordered, disjoint and fully joined |
| FreeList.InsertUndoesCarve | xv6-public_final/umalloc.c:24-90 | freeing what malloc just cut off restores the free list |
| Umalloc.RelinkedKeeps | xv6-public_final/umalloc.c:32-43 | free's pointer writes realise the insertion with its joins in the circular list |
| Umalloc.Heap.Find | xv6-public_final/umalloc.c:29-31 | the walk from any freep, across the wrap, ends at the node after which the block belongs |
| Umalloc.Heap.Free | xv6-public_final/umalloc.c:24-44 | the block's units become free and are joined with their neighbours; every other block keeps its contents, and free and live units still account for everything obtained |
| Umalloc.Heap.Lap | xv6-public_final/umalloc.c:74-89 | the search finds the first chunk after freep that is large enough, or ends after one lap because there is none |
| Umalloc.Heap.Morecore | xv6-public_final/umalloc.c:46-61 | what the kernel grants, at least 4096 units, is added to the free units, after which some chunk is large enough; when the int argument of sbrk comes out negative or zero and the kernel agrees, which may even move the break down, the header goes where there is no memory for it |
| Umalloc.Heap.Malloc | xv6-public_final/umalloc.c:63-90 | a block apart from every live one, cut from the end of the first chunk that fits; null exactly when none fits and the kernel refuses; live contents are preserved; all this unless a header is written where there is no memory for it, which happens exactly when nothing fits, the request lies in the range that SbrkArgument excludes, and the kernel agrees |
| Umalloc.Capacity | xv6-public_final/umalloc.c:69 | the block holds the bytes asked for if and only if the rounding does not wrap in 32 bits, and then one unit less would not hold them |
| Umalloc.SbrkArgument | xv6-public_final/umalloc.c:52-54 | exactly the requests for which sbrk's int argument is positive |
| FramePool.PoolPut | xv6-public_final/kalloc.c:59-77 | pushing a held frame keeps every frame free exactly once or held |
| FramePool.PoolTake | xv6-public_final/kalloc.c:82-95 | popping the head keeps every frame free exactly once or held |
| Vm.Memory.Freerange | xv6-public_final/kalloc.c:46-53 | the frames of the range, and no others, leave the kernel's hands for the free list |
| Vm.Memory.Kfree | xv6-public_final/kalloc.c:59-77 | the frame is filled with junk and heads the list; the range panic cannot occur for a frame that was handed out |
| Vm.Memory.Kalloc | xv6-public_final/kalloc.c:79-95 | the head of the list, held by nobody before; null exactly when the list is empty |
| VmLayout.NoSharing | xv6-public_final/vm.c:36-345 | no two user pages of any directories share a frame, and no user page is a directory or a page table |
| VmLayout.TableEntries | xv6-public_final/vm.c:35-55 | a directory entry in use is present, writable and open to user code, so the page's own entry decides |
| Vm.Memory.Walk | xv6-public_final/vm.c:35-55 | the page table that covers the page, made zeroed and with the generous directory flags if asked; what any directory maps is unchanged, and failure means there is no table and no memory |
| Vm.Memory.MapPage | xv6-public_final/vm.c:69-79 | one entry of one directory is set and nothing else; the remap panic exactly when the page was mapped; failure changes nothing |
| Vm.Memory.Mappages | xv6-public_final/vm.c:60-80 | the whole range is mapped in order; after a failure a prefix is |
| Vm.Memory.Deallocuvm | xv6-public_final/vm.c:255-279 | exactly the pages from the new size up to the old are unmapped and their frames freed, the 4 megabyte step passes no mapped page, and every other page of every directory keeps mapping and contents |
| Vm.Memory.Allocuvm | xv6-public_final/vm.c:221-249 | frames of zero words that nobody held, present, writable and open to user code, at exactly the new pages; the remap panic only when one of them is mapped already, success only when none is; out of memory, the whole range is unmapped and nothing else changes but page tables |
| Vm.UndoneSame | xv6-public_final/vm.c:232-245 | if nothing was mapped there, such a failure leaves every page of every directory mapped as before |
| Vm.Memory.Freevm | xv6-public_final/vm.c:283-298 | the frames freed are exactly the directory's pages, tables and itself, each once; all other directories map what they mapped |
| Vm.Memory.Setupkvm | xv6-public_final/vm.c:105-136 | a new directory in which the hardware finds physical memory from KERNBASE on, read-only exactly from the end of the first megabyte to the kernel's data, the devices at their own addresses, nothing open to user code and no other page; or 0 with every frame given back |
| Vm.KmapMeans | xv6-public_final/vm.c:105-115 | the frame, the write bit and the user bit that kmap gives every page |
| Vm.KmapOk | xv6-public_final/vm.c:110-115 | the lines of kmap do not overlap, so setupkvm never meets the remap panic |
| Vm.Memory.Copyuvm | xv6-public_final/vm.c:315-345 | every user page is copied with its flags onto a frame nobody held and the other pages are mapped as setupkvm maps them, or 0 with every frame given back; the original is unchanged; the panics only when a page below the size is not mapped, success only when all are |
| Vm.Memory.Growproc | xv6-public_final/proc.c:172-189 | result and new size in every case, and size and pages agree afterwards if and only if the process had no memory or did not ask to give up exactly all of it |
| Vm.Memory.ShrinkToNothing | xv6-public_final/proc.c:172-189 | a process of one page that gives up one page gets -1 and keeps its size while its page is gone |
| Regex.MatchHere | xv6-public_final/grep.c:85-96 | true exactly when a prefix of the text is in the pattern's language, the whole text for a final dollar sign |
| Regex.MatchStar | xv6-public_final/grep.c:99-106 | true exactly when some run of accepted characters is followed by a match of the rest |
| Regex.Match | xv6-public_final/grep.c:72-82 | true exactly when some suffix of the text, only the whole text after a caret, matches |
| Regex.HereCons | xv6-public_final/grep.c:85-106 | a pattern matches exactly when its first piece takes some of the text and the rest of the pattern matches what follows |
| Regex.PlainHere | xv6-public_final/grep.c:85-96 | a pattern without a star or a final dollar sign matches exactly when each of its characters is a dot or the text's |
| Regex.StarHere | xv6-public_final/grep.c:99-106 | a leading starred character stands for any number of that character, of any characters when it is a dot |
| ShellTokens.Gettoken | xv6-public_final/sh.c:265-308 | blanks are skipped before and after the token; it is one of the seven symbols, >> being one token, or the longest run of other characters, reported as a word; 0 at the end of the line |
| ShellTokens.Peek | xv6-public_final/sh.c:310-320 | skips white space and tells whether the next character is one of those given |
| ShellTokens.TokensLexed | xv6-public_final/sh.c:265-308 | successive calls of gettoken yield the line's token list |
| ShellTokens.TokensCover | xv6-public_final/sh.c:265-308 | every character that is not white space belongs to a token |
| Shell.Parseredirs | xv6-public_final/sh.c:374-397 | the loop reads as many redirections as follow, each with the mode and descriptor its operator character asks for and the next word as its file, or panics for want of a file name |
| Shell.Parsesimple | xv6-public_final/sh.c:426-446 | words and redirections up to an operator; the panics for a stray token and for MAXARGS words |
| Shell.Parseblock | xv6-public_final/sh.c:399-413 | a line in parentheses followed by redirections, or the panic for a missing parenthesis |
| Shell.Parseexec | xv6-public_final/sh.c:415-446 | a block or a simple command |
| Shell.Parsepipe | xv6-public_final/sh.c:361-372 | pipelines grouped to the right |
| Shell.Parseline | xv6-public_final/sh.c:344-359 | background marks and lists grouped to the right; every call ends |
| ShellGrammar.ParserDecidesGrammar | xv6-public_final/sh.c:327-446 | the parser consumes all tokens with a tree if and only if the grammar derives that tree from them, so no line has two trees |
| ShellGrammar.LineOrder | xv6-public_final/sh.c:344-446 | the arguments in the tree, from left to right, are the words of the line that follow no redirection operator, in the order of the line, and the redirections in the tree, from left to right and from the inside out, are those of the line in its order |
| ShellGrammar.LineWords | xv6-public_final/sh.c:344-446 | the words of the tree are the words of the line, each as often as it stands there |
| ShellText.TreeRedirections | xv6-public_final/sh.c:374-397 | the k-th redirection of the tree is that of the k-th redirection operator of the line: mode 0 on descriptor 0 for <, mode 0x201 on descriptor 1 for > and >>, with the next word of the line as its file |
| ShellText.TreeSymbols | xv6-public_final/sh.c:344-372 | the tree has a pipe for every bar of the line, a list for every semicolon and a background command for every ampersand |
| Shell.Nulterminate | xv6-public_final/sh.c:448-493 | the buffer gets a NUL at the end of every word of the tree and changes nowhere else |
| Shell.WordsReadBack | xv6-public_final/sh.c:448-493 | every word of the tree then reads back as exactly its own characters |
| Shell.Parsecmd | xv6-public_final/sh.c:327-342 | success exactly for the lines of the grammar, with the grammar's tree, the redirections that the operator characters of the line ask for in their order, and every word readable as a C string; otherwise a panic that leaves the buffer alone |

## Left out

- The boot path, traps and system-call plumbing, drivers, spinlock internals and the assembly of `swtch`: a lock is a
  mutual-exclusion step and a context switch is an atomic hand-over of `ptable.lock`.
- Weak memory and instruction-level interleaving: the steps of `Kernel` and `Monitor` are the code between two lock
  operations or context switches.
- User programs, directories, path names, `ialloc` and the inode cache, `exec`, file descriptors, `getpinfo`.
- Liveness: that a runnable process is eventually dispatched under fair CPUs is stated only as the round-robin bound.
- KernelUnsettled.OrderedExactlyWhenSettled: exact situation by situation; a single unsettled state may still keep the
  order, as when nobody else waits.
- KernelTime.WaitxAddsUp: before the tick counter wraps; ticks are unbounded in the model.
- Kernel stack and page directory contents: the process model records only whether they are allocated.
- LogDisk.Log.LogWrite: block contents are words, and the log lies apart from the home blocks as mkfs lays it out.
- Bio.Cache.Bread: the sleep lock of a buffer is modelled in SleepLock and not repeated here, so concurrent holders of
  one buffer are not interleaved.
- Fs.FileSystem.Writei: regular files and directories only; the device branch calls code outside the file system, as
  does that of readi. Calls on one file system do not interleave; the inode lock is that of SleepLock.
- Fs.FileSystem.Filewrite: the transactions of one call follow one another without another process between them, and
  no other operation shares them.
- FsCrash.FilewriteCrash: how blocks of bytes, bits and inodes look as words of a disk block is a parameter.
- Fs.LogBound: an upper bound; that a write exists which reaches it is not shown.
- Umalloc.Heap.Morecore: nothing is promised once a header has gone where there is no memory for it: a negative
  argument may have taken pages of the heap away, and what the code goes on to do depends on what is mapped there.
- Umalloc.Heap.Malloc: the same; other users of sbrk are assumed to move the break by whole headers.
- Vm.Memory.Deallocuvm: an old size above KERNBASE, which no caller passes, is excluded.
- Vm.Memory.Mappages: ranges of the kernel half, as setupkvm passes them; every range of the user half that the code
  maps is one page long, which is MapPage. Addresses and sizes are whole pages, as those of every caller are.
- Shell.Parsecmd: running the tree (`runcmd`) and reading the line (`getcmd`) are not modelled.
- The multiplier and increment of krand are those of the code; statistical quality beyond the period is not considered.
