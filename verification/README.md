# A verified model of an xv6-style kernel and its user programs

This project models the parts of a small Unix-like kernel for RISC-V, and of the programs that run on it, whose
correctness is hard to see from the code: the file system over its buffer cache and disk driver, Sv39 page tables
and the memory of processes, the process table, pipes and descriptors, the storage allocator, the shell's parser
and grep's matcher.  Code that updates things in place is a class with loops and invariants; what it is for is
proved about it over all inputs, all interleavings and all runs.

| file | models |
|---|---|
| `Common`, `Bytes` | shared definitions; little-endian words and bitmaps in memory |
| `FsLayout`, `FsInode`, `FsMedium`, `Fs`, `FsRun` | blocks, inode blocks in bytes, `balloc`, `bmap`, `itrunc`, `readi`, `writei`, `iupdate`; the disk beneath the cache; runs on flat files |
| `Dir`, `DirRun` | directories as finite maps |
| `Bio`, `BioRun` | the buffer cache; runs of any number of processes |
| `Virtio`, `VirtioRun` | the disk driver against a device that takes and finishes requests in any order; runs and the data they move |
| `Pipe`, `PipeRun` | pipes; runs of any number of readers and writers |
| `Proc`, `ProcRun` | the process table; runs of exits, waits, sleeps, wakeups and kills |
| `Files`, `FilesRun` | descriptors, open files and pipe ends; the life of a pipe in any run |
| `Paging`, `VmState`, `Tables`, `Spaces`, `Pruning`, `Ledger`, `UserMemory`, `Contents`, `Vm`, `Processes` | frames, page tables in bytes, address spaces and what is in them, `growproc`, `fork`, exit |
| `Umalloc`, `Shell`, `ShellGrammar`, `Grep` | `malloc` and `free`; the shell's parser and its language; the matcher of grep |

A run theorem (`Run`, `Session`) takes any sequence of events.  Where its result is a log, a law says of every entry
what may stand there, given the entries before it; the law speaks of blocks, bytes and calls, not of the data
structures.  Environment choices (where a user copy faults, what the kernel answers to `sbrk`, which buffer is
recycled, what the device does next) are arguments.

## Findings

Properties the design promises and the code does not always keep.  Each has an input that breaks it and the exact
condition under which it holds.

- A failed `writei` leaves bytes in the cache that were never written (kernel/fs.c:329-333): they are read until the
  buffer is recycled, and then the old ones are.  Input: `FsRun.SeenThenGone`.  Cache and disk agree after the call
  exactly when it is refused, its copy does not fault, or the bytes it would leave behind are those the file has:
  `FsRun.AgreeIff`, for a caller `FsRun.WriteAgreed`.
- For the cache alone: a block changed and released without `bwrite` loses the change once thirty other blocks have
  been visited (kernel/bio.c:78-88).  Input: `BioRun.UnwrittenLost`.  A `bread` gives something else than the last
  change exactly when that change was thrown away and the disk has other data: `BioRun.ReadsLatestIff`.
- The allocator trusts `sbrk`, and `sbrk` may grant less than asked (kernel/vm.c:141-152, kernel/proc.c:130-138,
  kernel/syscall.c:81-90).  Two live blocks then overlap: `Umalloc.ShortGrant`.  `Umalloc.Session` holds up to the
  first grant that is not full; the region after that one starts inside it.
- A request of more than 2^31 - 32 bytes makes the argument of `sbrk` wrap (user/umalloc.c:54), and `malloc` may return
  a block that the process does not have: `Umalloc.HugeRequest`, at 2^31 bytes.  The argument is right exactly when
  header and data take fewer than 2^27 units of 16 bytes: `Umalloc.SbrkArgExact`.
- `proc_pagetable` gives back the root table only when it fails (kernel/proc.c:102-105).  Beginning a process with
  exactly three free pages loses one for good: `Processes.ThreePages`, and exactly then: `Processes.Step`.
- `proc_pagetable` clears its root page without looking whether there is one (kernel/proc.c:99-100).  Beginning a
  process with exactly one free page writes through address 0: `Processes.OnePage`, and exactly then: `Processes.Step`.
- `mappages` leaves out the last page when the last byte asked for is the first of its page (kernel/vm.c:46-47):
  `VmState.OneByteMissed`; it covers the range exactly otherwise: `VmState.MapCovers`.
- A name of 14 bytes or more is linked and cannot be looked up, because `dirlink` keeps 13 bytes and `dirlookup`
  compares 14 (kernel/fs.c:346-399): `Dir.LongNameLost`; it is found exactly when shorter: `Dir.LookupAfterLink`.
- `wait` sleeps in a process without children if an unused slot still names it as parent (kernel/proc.c:379-423):
  `Proc.ChildlessSleeps`; it fails as promised exactly when none does: `Proc.ChildlessWait`.
- A copy that faults in `piperead` takes one byte from the pipe and loses it (kernel/pipe.c:84-92).  Input:
  `PipeRun.ByteLost`.  Readers are given all that leaves the pipe exactly when no read faults before the bytes it asked
  for, with a byte left to fault on: `PipeRun.GivenIff`.

## Model

| member | source | states |
|---|---|---|
| `FsRun.Run` | kernel/fs.c:247-342 | any run of readi, writei and itrunc with buffers recycled at any point is, event by event, the same run on flat byte sequences, both as programs see the files and as the disk alone has them, inode blocks included; every read returns what the flat file holds, and a write falls short only on a full disk and exactly at a block boundary at or past the old end |
| `FsRun.AgreeIff` | kernel/fs.c:323-341 | where cache and disk agreed on a file, they agree after writei iff the arguments are refused, the copy does not fault, or the bytes it leaves in the last block are those the file had there: a condition on the arguments and the file alone |
| `FsRun.WriteAgreed` | kernel/fs.c:312-342 | a caller of writei can tell beforehand whether cache and disk will agree on the file |
| `FsRun.AgreeAtBoundary` | kernel/fs.c:323-341 | they agree when the fault is at the first byte, at a block boundary, or past the old end of the file |
| `FsRun.SeenThenGone` | kernel/fs.c:329-333 | for every file that is not empty: a write that faults after one byte returns -1, the next read finds the new byte, and the read after the buffer was recycled finds the old one |
| `Fs.FileSystem.Balloc` | kernel/fs.c:37-57 | the least free block, marked and zeroed in cache and on disk; 0 only when every block is used |
| `Fs.FileSystem.Bfree` | kernel/fs.c:59-72 | clears the bit of that block and changes nothing else |
| `Fs.FileSystem.Iupdate` | kernel/fs.c:108-121 | after it the 64 bytes of the inode in its inode block decode to the inode in memory, and every other inode of that block and of the others decodes as before |
| `FsInode.Encode` | kernel/fs.c:112-119 | storing size and the thirteen addresses makes the record decode to the inode, and no byte outside it changes |
| `FsInode.TableStores` | kernel/fs.c:110-120 | a record stored in the block and at the offset of an inode number changes what that number decodes to and no other |
| `Fs.DiskAlone` | kernel/fs.c:14-342 | between calls the disk alone, read through its own inode blocks, is a sound file system, and its files are the stored ones of the run |
| `Fs.FileSystem.Bmap` | kernel/fs.c:207-245 | the block of a file block, found or allocated; every block stays referred to once; nobody's bytes change; 0 only on a full disk |
| `Fs.FileSystem.Itrunc` | kernel/fs.c:247-274 | the inode is empty, exactly its blocks become free, and every other file is unchanged in cache and on disk |
| `Fs.FileSystem.Readi` | kernel/fs.c:285-310 | exactly the bytes of the file from the offset on, up to length, size and fault; nothing changes |
| `Fs.FileSystem.Writei` | kernel/fs.c:312-342 | refused or the flat overwrite; on a full disk a prefix up to a block boundary; on a fault what was copied, cut at the size reached; the disk has exactly the blocks that were completed; other files unchanged |
| `Fs.FileSystem.Evict` | kernel/bio.c:78-88 | recycling a buffer keeps the file system sound and makes that block of the file what the disk has there |
| `FsLayout.AllocFill` | kernel/fs.c:210-240 | claiming a block and storing it in an empty slot keeps the invariant, and of all slots only that one changes |
| `FsLayout.ClaimInv` | kernel/fs.c:37-57 | marking a free block disturbs no reference, no owner and no file |
| `FsLayout.ShedUsed` | kernel/fs.c:247-274 | after itrunc a block is used iff it was and did not belong to the inode |
| `FsMedium.MediumInv` | kernel/fs.c:14-342 | the blocks on disk without the cache form a sound file system under the same inodes, with the same blocks in the same places |
| `FsMedium.SyncedMore` | kernel/fs.c:319-336 | writing one more chunk brings exactly one more block of the disk's file up to date |
| `Dir.Dirlookup` | kernel/fs.c:352-374 | the first live entry whose name equals the name cut to 14 bytes, or 0 iff none is |
| `Dir.Dirlink` | kernel/fs.c:376-399 | the first free entry gets the binding, to 13 bytes of the name, and no other byte of the directory changes; an unbound name is refused only if no entry is free and the directory is at its largest size, or ends at a block boundary on a full disk; names stay unique iff no live name equals those 13 bytes |
| `Dir.Unbind` | kernel/syscall.c:340-342 | zeroing the entry removes exactly that binding and leaves the size |
| `Dir.Strncmp` | kernel/string.c:60-69 | 0 iff the two agree as strings cut to n bytes |
| `Dir.Safestrcpy` | kernel/string.c:84-97 | the field holds the name cut to fit and is terminated |
| `Dir.LookupAfterLink` | kernel/fs.c:352-399 | a name just linked is found, bound to its inode alone, iff it has fewer than 14 bytes; other names are as before |
| `Dir.LongNameLost` | kernel/fs.c:352-399 | fourteen bytes linked in an empty directory are not found again |
| `DirRun.Run` | kernel/fs.c:352-399 | any run of lookups, links and unlinks with names of up to 13 bytes: the directory is at every point the finite map those calls build, each lookup returns the map's value, a link of an unbound name fails only if the map fills the directory and it cannot grow, and grows it by one entry only if the map fills it; no name is bound twice, no other file changes |
| `DirRun.TightIff` | kernel/fs.c:376-399 | the directory has no free entry iff it is as long as its map has names |
| `Bio.Cache.constructor` | kernel/bio.c:38-55 | binit links all buffers into one cycle, all free |
| `Bio.Cache.FindCached` | kernel/bio.c:67-74 | the scan finds the buffer of a block iff it is cached |
| `Bio.Cache.FindVictim` | kernel/bio.c:78-88 | of the buffers nobody uses, the one released longest ago; none only if all are used |
| `Bio.Cache.Bget` | kernel/bio.c:60-92 | a reference to the one buffer of the block, or the panic exactly when it is not cached and all buffers are used; other buffers are untouched |
| `Bio.Cache.Fill` | kernel/bio.c:95-107 | the buffer holds the block, read from disk only if it was not valid |
| `Bio.Cache.Bwrite` | kernel/bio.c:110-116 | the disk gets exactly this block |
| `Bio.Cache.Brelse` | kernel/bio.c:120-141 | one reference less; the last one makes the buffer the most recently used, with the list still a permutation sorted by release |
| `Bio.LinkedFront` | kernel/bio.c:131-137 | the six pointer updates move one node to the front of the cycle and keep the order of the others |
| `BioRun.Run` | kernel/bio.c:57-141 | any interleaving of any number of processes: every step gives what the law of the log says, bget panics iff thirty other blocks are in use and else recycles the unused buffer released longest ago, and the disk holds what was last written to each block |
| `BioRun.LastWritten` | kernel/bio.c:57-141 | if every change was written before its release, each bread gives the data of the last bwrite to the block, or what the disk held at first, and recycling loses nothing |
| `BioRun.NeatPending` | kernel/bio.c:57-141 | then only the holder of a block can have an unwritten change to it |
| `BioRun.UnwrittenLost` | kernel/bio.c:57-141 | on a cache never used, for every block and thirty others: a change released without bwrite is read back at once, and after one visit to each of the others the block reads as it did before the change |
| `BioRun.ReadsLatestIff` | kernel/bio.c:57-141 | in every lawful log a bread differs from the last change to the block iff that change was thrown away when its buffer went to another block and the disk has other data, and then it gives what was last written |
| `BioRun.ThrownBack` | kernel/bio.c:57-141 | the users of a block go by the last change, or by what was last written once that was thrown away |
| `BioRun.OldestShown` | kernel/bio.c:78-88 | the buffer with the least release time among the unused is the last unused one of the list, told from the log alone |
| `Virtio.Disk.Alloc3` | kernel/virtio_disk.c:202-216 | three distinct free descriptors, or all given back when fewer are free |
| `Virtio.Disk.FreeChain` | kernel/virtio_disk.c:187-200 | frees exactly the chain's descriptors |
| `Virtio.Disk.Submit` | kernel/virtio_disk.c:218-284 | publishes a well-formed three-descriptor chain made of free descriptors only, or leaves all as it was |
| `Virtio.Disk.Intr` | kernel/virtio_disk.c:297-330 | acknowledges every completion not yet seen, once: exactly the chains that were done are acknowledged and exactly their buffers released |
| `Virtio.Disk.Finish` | kernel/virtio_disk.c:286-295 | the request is complete, a read has what the device read, and its descriptors are free again |
| `VirtioRun.Run` | kernel/virtio_disk.c:158-330 | any run of callers that also change and reassign their buffers, and of a device that fetches and completes in any order: the medium is the writes of the log played over what it was, every returned call had exactly one transfer, a third request waits iff two are in flight, and every request is completed at most once and is in the account or still in flight |
| `VirtioRun.ServedOnce` | kernel/virtio_disk.c:218-330 | a call that returns was served by one transfer between call and return: a write put on the medium what the buffer held at the call, a read leaves in the buffer what the medium held at the transfer |
| `VirtioRun.LawTold` | kernel/virtio_disk.c:218-330 | in every lawful log the medium is the replay of its writes, and each request in flight is waiting for its transfer or has had it |
| `VirtioRun.ManyFree` | kernel/virtio_disk.c:202-216 | three descriptors are free only while fewer than two requests are in flight |
| `VirtioRun.FewFree` | kernel/virtio_disk.c:202-216 | and always then |
| `Virtio.CompleteGood` | kernel/virtio_disk.c:218-295 | the device's completion of any chain it took keeps the invariant and moves one block, one way |
| `Pipe.Pipe.Close` | kernel/pipe.c:56-72 | closes one end, wakes the other side, and asks for the page back iff both ends are closed |
| `Pipe.Pipe.Read` | kernel/pipe.c:74-98 | sleeps iff empty with a writer left; else delivers the oldest bytes in order, up to length and fault, and wakes writers |
| `Pipe.Pipe.Write` | kernel/pipe.c:100-126 | appends exactly the bytes done; sleeps iff full; fails iff no reader is left or the process was killed |
| `Pipe.WrapDistance` | kernel/pipe.c:74-126 | 32-bit counters that wrap still tell an empty pipe and a full one from every other |
| `Pipe.NeverBothAsleep` | kernel/pipe.c:74-126 | readers sleep only on an empty pipe with a writer left, writers only on a full one with a reader left, so never both |
| `PipeRun.Run` | kernel/pipe.c:56-126 | any run with any number of processes: what left the pipe is what was in it and then what the writers put in, in order, and every step is the one the law allows, so a process is kept asleep only while what it waits for is missing |
| `PipeRun.LawfulWrites` | kernel/pipe.c:100-126 | what each write call put in is a prefix of its own data, however the calls interleave |
| `PipeRun.WriteCount` | kernel/pipe.c:100-126 | a write that returns a count had put in exactly that many bytes, all of its data up to the fault |
| `PipeRun.GivenIff` | kernel/pipe.c:84-97 | in every lawful log readers are given all that leaves the pipe iff no read step has a fault before the bytes asked for and a byte left to fault on |
| `PipeRun.ByteLost` | kernel/pipe.c:74-126 | a byte written is taken by a read that faults at once and returns 0, and the next reader sleeps on an empty pipe |
| `Proc.Table.Exit` | kernel/proc.c:312-344 | the process is a zombie with its status, its children are init's, its parent and, if it had children, init are woken from wait, and nothing else of any slot changes |
| `Proc.Table.Reparent` | kernel/proc.c:300-310 | exactly the children of the process get init as parent, and init is woken iff there was one |
| `Proc.Table.Wait` | kernel/proc.c:379-423 | reaps the first zombie child and gives its pid and status, or sleeps iff there are slots naming the caller and none is a zombie, or fails; both directions |
| `Proc.Table.Fork` | kernel/proc.c:212-258 | a new runnable child of the caller in the first unused slot, with a new pid; it fails iff there is no slot or no memory, and then nobody else changes |
| `Proc.Table.Wakeup` | kernel/proc.c:446-458 | every other process that sleeps on the channel becomes runnable with nothing else changed, and every other slot is as it was |
| `Proc.Table.Sleep` | kernel/proc.c:425-444 | the caller sleeps on the channel and nobody else changes |
| `Proc.Table.Kill` | kernel/proc.c:357-375 | the first slot with that pid is marked and, if asleep, made runnable; -1 iff there is none |
| `Proc.ExitGood` | kernel/proc.c:312-344 | exit keeps the tree of parents, and no waiting parent sleeps beside a zombie child |
| `Proc.ChildlessWait` | kernel/proc.c:379-423 | a childless process that was not killed is refused iff no unused slot still names it as parent |
| `Proc.ChildlessSleeps` | kernel/proc.c:379-423 | from boot: init forks, the child exits, init reaps it and waits again, and sleeps without a child |
| `Proc.Rooted` | kernel/proc.c:212-344 | from every process the parents lead to init |
| `ProcRun.Run` | kernel/proc.c:47-458 | any run of exits, waits, sleeps, wakeups, kills and forks: every call gives what the law of the log says, in every state parents are alive and no waiting parent sleeps beside a zombie child, earlier exits and reapings stay on record with one more for each in the log, and every process that exited is a zombie or was reaped, once |
| `ProcRun.ExitKept` | kernel/proc.c:312-423 | no exit is lost: the slot holds the dead process with its pid and status until a wait reaps it, and the first wait to do so is given that pid and status |
| `ProcRun.WaitedExited` | kernel/proc.c:379-423 | what wait gives did happen: a child of the caller that was dead at the start, or one exit of the log with that status, and the slot has held it ever since |
| `ProcRun.SleepsUntilRoused` | kernel/proc.c:425-458 | no sleeper is forgotten and none wakes by itself: asleep at one point of a run, a process is asleep at a later one unless a wakeup of its channel or a kill came between, and the first of these made it runnable |
| `ProcRun.NoneAsleep` | kernel/proc.c:446-458 | after a wakeup nobody but the caller sleeps on the channel |
| `ProcRun.MarkedIff` | kernel/proc.c:357-375 | while a process has not been reaped it keeps its pid, and it is marked killed iff it was before or a kill of that pid came since |
| `ProcRun.MarkNext` | kernel/proc.c:281-296 | one step: pid and mark stay until the slot is reaped, which clears both |
| `Files.Table.Fileclose` | kernel/file.c:118-135 | one reference less; the last closes the file and its end of the pipe |
| `Files.Table.Dup` | kernel/syscall.c:188-199 | the lowest free descriptor names the same file, or nothing iff no slot is free |
| `Files.Table.OpenFile` | kernel/syscall.c:452-471 | a new file under the lowest free descriptor, or nothing iff one of the two tables is full |
| `Files.Table.PipeCall` | kernel/syscall.c:537-564 | the two lowest free descriptors for the two ends of a new pipe, or everything undone, and that only without a page, two files, two descriptors or a way to copy them out |
| `Files.Table.Pipealloc` | kernel/pipe.c:17-54 | a pipe with two files, or nothing |
| `Files.Table.ForkFiles` | kernel/proc.c:237-242 | the child's descriptors name the parent's files |
| `Files.EndHasDescriptor` | kernel/pipe.c:56-72 | an end of a pipe is open iff some descriptor names its file |
| `Files.CloseGood` | kernel/file.c:118-135 | closing any descriptor keeps counts exact and pipes alive as long as an end is |
| `FilesRun.Run` | kernel/file.c:17-135 | any interleaving of these calls: each gives what the law of the log says, each count is the number of descriptors in every state, and pages of pipes are given back as the log has it, none twice |
| `FilesRun.LivesWhileUsed` | kernel/pipe.c:17-72 | in every lawful log a pipe's page has been given back iff no descriptor of any process names either end, and it was given back once |
| `FilesRun.CloseFrees` | kernel/file.c:118-135 | closing a descriptor gives a pipe's page back iff no other descriptor names that pipe |
| `Paging.WordRoundTrip` | kernel/riscv.h:351-355 | frame and flags are recovered from the word made of them, and the address iff it is aligned |
| `Paging.IndicesDecide` | kernel/riscv.h:357-360 | two addresses share the three indices iff they share the page |
| `Paging.PathOk` | kernel/vm.c:12-32 | the tables on the way to a page are the ones whose path leads there |
| `Paging.TableAdd` | kernel/vm.c:20-28 | hanging a cleared page into an empty entry keeps the tree and what every page maps to |
| `VmState.MapCovers` | kernel/vm.c:44-58 | mappages covers the range iff its last byte is not the first of its page; never more |
| `VmState.OneByteMissed` | kernel/vm.c:44-58 | one byte at the start of a page is not mapped at all |
| `VmState.SlotDecides` | kernel/vm.c:12-32 | two pages have the same slot iff they are the same page |
| `VmState.UserPermBits` | kernel/vm.c:146-146 | the bits of an entry that uvmalloc makes, one by one: valid, readable, for the user, and those asked for |
| `Vm.Machine.Freerange` | kernel/kmem.c:13-20 | the whole pages of the range, and no others, are put on the list |
| `Vm.Machine.Kalloc` | kernel/kmem.c:28-36 | takes the first free page, or gives 0 iff none is free |
| `Vm.Machine.Kfree` | kernel/kmem.c:38-45 | the page is the first free one |
| `Vm.Machine.Walk` | kernel/vm.c:12-32 | the slot for the page, in bytes of memory; with alloc it fails iff fewer pages are free than tables are missing; no mapping and no other frame changes |
| `Vm.Machine.Walkaddr` | kernel/vm.c:35-42 | the address of a page open to the user, or 0 iff there is none |
| `Vm.Machine.Mappages` | kernel/vm.c:44-58 | exactly the pages from the first to MapEnd are mapped, in order; on failure exactly those done so far, and then the next one lacks a table and no page is free |
| `Vm.Machine.Uvmunmap` | kernel/vm.c:98-123 | exactly the range is unmapped, and its frames are free iff asked |
| `Vm.Machine.Uvmalloc` | kernel/vm.c:133-153 | cleared pages are added up to the size returned; it falls short only when no page is free, or one is and the table for the next page is missing too |
| `Vm.Machine.Uvmdealloc` | kernel/vm.c:155-162 | exactly the pages above the new size are given back |
| `Vm.Machine.Uvmcopy` | kernel/vm.c:170-199 | the child gets copies of all pages, with the same flags, on frames of its own, iff there is a free page for each of them and for each table it lacks, and then exactly so many are gone; on failure it has none |
| `Tables.CostIs` | kernel/vm.c:170-199 | for a fresh address space that is one page for each page, for every 512 begun and for every 262144 begun, less the two tables the trampoline has already |
| `Tables.StockedMore` | kernel/vm.c:12-32 | mapping the next page adds to the tables exactly those on its way |
| `Tables.LacksIs` | kernel/vm.c:12-32 | the tables a walk finds missing are those no frame is owned as |
| `Vm.Machine.Freewalk` | kernel/vm.c:82-96 | in a space that maps nothing, the table and all tables below it become free and the panic is out of reach |
| `Vm.Machine.Uvmfree` | kernel/vm.c:125-131 | every page and table of the space is free, and nothing else changes hands |
| `Vm.Machine.ProcPagetable` | kernel/proc.c:96-112 | succeeds iff three pages are free; crashes iff none is; its failure leaves one page free, so of two one is lost |
| `Vm.Machine.ProcFreepagetable` | kernel/proc.c:114-119 | all that belongs to the space is free, each frame once; trampoline and trapframe are not |
| `Vm.Machine.Copyout` | kernel/vm.c:275-297 | succeeds iff every byte is in reach of the user; memory has exactly the bytes up to the first that is not |
| `Vm.Machine.Copyin` | kernel/vm.c:201-221 | succeeds iff every byte is in reach, and then delivers them |
| `Vm.Machine.Copyinstr` | kernel/vm.c:235-270 | succeeds iff a NUL comes within max bytes before any page out of reach, and then delivers the bytes up to it |
| `UserMemory.RoundTrip` | kernel/vm.c:201-297 | what was copied out is copied in again, over pages scattered anywhere |
| `UserMemory.ReachAll` | kernel/vm.c:35-42 | a copy goes through iff every page it touches is open to the user |
| `UserMemory.PokeOthers` | kernel/vm.c:275-297 | a copy into one process leaves every frame of the others alone |
| `UserMemory.StringIff` | kernel/vm.c:235-270 | there is a string to copy in iff a NUL lies within max bytes before any page out of reach |
| `Spaces.PagesFit` | kernel/vm.c:133-153 | pages on frames of their own are no more than there are frames |
| `Spaces.AllottedUndone` | kernel/vm.c:170-199 | pages allotted and given back leave at most some tables behind |
| `Pruning.NoLeaf` | kernel/vm.c:82-96 | a space that maps nothing has only empty entries in its lowest tables |
| `Ledger.FreeCount` | kernel/kmem.c:28-45 | the list is as long as there are free frames |
| `Ledger.Undone` | kernel/proc.c:212-258 | a process begun, filled in part and given back leaves every frame where it was |
| `Processes.Growproc` | kernel/proc.c:121-139 | whatever the argument and however little memory there is, the size kept is the size of the address space; how far it rises or falls, and that it falls short only when what is left cannot map the next page; new pages are zeros, the rest and every other process keep their bytes |
| `Processes.SbrkAnswers` | kernel/syscall.c:81-90 | what growproc does is what the allocator's model of sbrk allows |
| `Processes.Allocproc` | kernel/proc.c:141-180 | a new process iff four pages are free, with only the tables of the two pages above the user's; crashes iff one is; its failure leaves two free, so of three one is lost |
| `Processes.Fork` | kernel/proc.c:212-258 | succeeds iff four pages are free and, beyond them, one for every page of the parent and every table the copy needs; then the child has the same size, flags and bytes on frames of its own and nobody's memory changes; a failure leaves the processes, and with four pages free every frame, as they were |
| `Processes.Freeproc` | kernel/proc.c:281-296 | trapframe, pages and tables are free, and every other process keeps its pages and bytes |
| `Processes.Boot` | kernel/kmem.c:22-26 | after kinit exactly the whole pages of memory are free |
| `Processes.Step` | kernel/proc.c:96-296 | one operation: a birth and a fork succeed iff the pages they take are free, growth falls short only with at most one page left; it crashes iff it begins a process with one page free, and adds one frame to the lost ones iff it begins a process with three |
| `Processes.Run` | kernel/proc.c:96-296 | any run of births, forks, growth, exits and stores: each process has exactly the pages of its size on frames of its own; its memory is at every point what zeros on growth, the copy at fork and its own stores make it, whatever the others do; births and forks succeed iff memory suffices; and a frame is free, part of a process, or lost by a step that began a process with three pages free |
| `Processes.StoredMemory` | kernel/vm.c:275-297 | a store changes the bytes it reaches in one process and none in any other |
| `Contents.PutBytes` | kernel/vm.c:275-297 | on the flat memory of a process a store changes exactly the bytes it names |
| `Contents.ShowAllotted` | kernel/vm.c:133-199 | pages added to a space show what they are to hold, behind those that were there |
| `Processes.Somewhere` | kernel/proc.c:96-296 | every frame is free, lost, or the trapframe, a table or a page of a living process |
| `Processes.AllBack` | kernel/proc.c:281-296 | when all processes have ended, free and lost pages together are all of memory |
| `Processes.OnePage` | kernel/proc.c:96-100 | the input that crashes: a machine with one page |
| `Processes.ThreePages` | kernel/proc.c:102-105 | the input that loses a page: three before, two after, and no process |
| `Umalloc.Heap.Free` | user/umalloc.c:24-44 | the block is merged into the address-ordered circular list with both neighbours it touches |
| `Umalloc.Heap.Morecore` | user/umalloc.c:46-61 | a region at the break joins the list; the next one starts inside it iff the grant was not full |
| `Umalloc.Heap.Allocate` | user/umalloc.c:74-89 | the loop cuts the first block that is big enough, counting on from where it last was; it asks sbrk only if there is none, ends after at most one grant, and fails only if sbrk refused |
| `Umalloc.Heap.Malloc` | user/umalloc.c:63-90 | a block of the length asked for, disjoint from all others, or 0 only if sbrk refused and nothing fits; where a free block is big enough nothing is asked of sbrk, and otherwise a block comes from exactly one grant |
| `Umalloc.Session` | user/umalloc.c:24-90 | any sequence of malloc and free up to the first grant that is not full: after every request the units granted are exactly the free blocks and those handed out and not given back, each as long as asked, and memory is obtained only when no free block was big enough; the list ends up ordered, circular and coalesced |
| `Umalloc.Conservation` | user/umalloc.c:24-90 | free and live units add up to the units granted |
| `Umalloc.FreePartition` | user/umalloc.c:24-44 | freeing a block keeps free and live blocks disjoint and covering |
| `Umalloc.CarvePartition` | user/umalloc.c:74-84 | cutting a block from a free one does too |
| `Umalloc.ShortGrant` | user/umalloc.c:46-61 | two requests of 65520 bytes, the first granted one page: both blocks are live and share memory |
| `Umalloc.HugeRequest` | user/umalloc.c:46-90 | a request of 2^31 bytes leaves the break where it is and returns a block of which no unit lies beneath it |
| `Umalloc.SbrkArgExact` | user/umalloc.c:54-54 | the argument of sbrk is what was meant iff header and data take fewer than 2^27 units, so first fails at 2^31 - 31 bytes |
| `Umalloc.SbrkArgWraps` | user/umalloc.c:54-54 | requests whose argument comes out negative or sixteen |
| `Shell.Parser.Gettoken` | user/sh.c:282-324 | the next token and where it lies, with the cursor behind it and the space after it |
| `Shell.Parser.ParseLine` | user/sh.c:360-375 | the tree of the line from here on, or the panic iff there is none |
| `Shell.Parser.ParsePipe` | user/sh.c:377-388 | the same for a pipeline |
| `Shell.Parser.ParseRedirs` | user/sh.c:390-413 | wraps exactly the redirections that follow, in order |
| `Shell.Parser.ParseBlock` | user/sh.c:415-429 | the same for a line in brackets |
| `Shell.Parser.ParseExec` | user/sh.c:431-462 | the words and redirections of a command up to a bar, an ampersand, a semicolon or a closing bracket, or the panic iff there are ten words or brackets are missing |
| `Shell.Parser.Nulterminate` | user/sh.c:465-509 | exactly the characters behind the words of the tree become NUL |
| `Shell.Parsecmd` | user/sh.c:343-358 | a tree iff the grammar accepts the whole line, and then every pointer in it reads as its token |
| `ShellGrammar.ParseExact` | user/sh.c:282-462 | the lines accepted are exactly those whose tokens a grammar of units, pipelines and lists gives with no command of ten words, and the tree is the one the grammar gives |
| `ShellGrammar.LexExact` | user/sh.c:282-335 | gettoken finds these tokens exactly in the lines that spell them, with any space around them and some where two words or two > would run together |
| `ShellGrammar.ParseInverts` | user/sh.c:282-462 | any tree of plain words, written with brackets only where the grammar needs them and any spacing, is accepted iff no command has ten words, and then parses to that tree |
| `ShellGrammar.LineReads` | user/sh.c:360-462 | wherever the tokens of a line of the grammar stand, they are read to their end and no further |
| `ShellGrammar.LineWritten` | user/sh.c:360-462 | what the parser reads is a line of the grammar |
| `ShellGrammar.LineBack` | user/sh.c:360-462 | every tree has a line of the grammar |
| `Shell.TokensIntact` | user/sh.c:465-509 | writing NULs behind words destroys no other word |
| `Grep.Match` | user/grep.c:71-81 | true iff some substring, anchored as asked, is in the language of the pattern |
| `Grep.MatchHere` | user/grep.c:84-95 | true iff a prefix of the text is in the language |
| `Grep.MatchStar` | user/grep.c:98-105 | true iff a run of the character is followed by a match |
| `Grep.HereMany` | user/grep.c:98-105 | a starred pattern matches iff some run of its character is followed by a match of the rest |
| `Grep.ReadsBack` | user/grep.c:71-105 | reading a pattern inverts writing it, stars and a closing dollar included, where a star follows nothing or a starred character and a plain dollar is not last |
| `Grep.WritesBack` | user/grep.c:71-105 | every string is such a pattern, and the way it is written |

## Left out

- `Fs`, `Bio` and `Virtio` stand beside each other: no theorem runs the file system over the cache over the driver, so `disk` and `medium` of `Fs` are tied to the cache by what `BioRun` proves of it and not by a joint run.
- `Fs.FileSystem.Iupdate`: the first eight bytes of an inode on disk (type, device numbers, links) are not modelled, and the inode blocks are an array of their own beside the other blocks.
- The inode table (`ialloc`, `iget`, `iput`, `ilock`, kernel/fs.c:78-198) and path lookup (`namex`, kernel/fs.c:401-487): inodes are given and locked.
- `mkfs`, `exec`, traps (and the `setkilled` they call), interrupts, the console and the boot code.
- Spin locks and sleep locks: a stretch of code under a lock is one step, and that a waiting process is scheduled again is not proved.
- `uvmfirst`, `uvmclear`, `kvmmake` and `proc_mapstacks` (kernel/vm.c:225-233, 299-335, kernel/proc.c:182-191): the kernel's own map and the first program.
- The bytes of trapframes and registers in `fork`; the memory of the child is modelled, its registers are not.
- The status a device reports for a failed transfer: the device modelled here completes every request it takes.
- `runcmd` of the shell and the line buffering of grep (user/grep.c:11-35).
- The shell stores arguments in a node it has already wrapped in redirections; the model keeps words and redirections in two lists and builds the node at the end.
- What a process does with memory that `malloc` returned and it does not have: the header written there may fault, and the model says only that the block lies above the break.
- Runs of the allocator past the first grant that is not full.
- Sizes of file systems above 2^32 - 8192 blocks, at which the 32-bit counter of `balloc` wraps.
