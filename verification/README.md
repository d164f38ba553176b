# Verified model of the kernel's file system, paging, processes, ports and heap

This project models the stateful core of the Xinu kernel for x86 in Dafny and proves what each part promises over all inputs and all runs. Every part has the same three layers.

* **What it means.** Plain values: files as byte sequences with positions, flat memory by process and page, queues as sequences, a free list as a list of blocks. Each operation is a function on these values, and the theorems about runs are about these functions.
* **What the code does.** A class with the fields the code has (tables, link fields, buffers, dirty flags, list heads), and one method for each C function, with its loops and branches. Each method is proved to be the function above, on the state that the class's `Valid` ties to its fields.
* **Runs.** A sequence of operations on the class goes through exactly the states of the functions, and so has their properties.

## The parts

**Local file system** (`Lfs*.dfy`, `LocalFileSystem.dfy`, `BlockPool.dfy`). An open file is a position, one cached index block and one cached data block, each with a dirty flag, over index chains and two free lists on a disk of 512-byte sectors. Any sequence of reads, writes, seeks, character operations and truncations returns what the abstract files would return and leaves their bytes, up to the first operation that would leave files too large for the disk (`LfsRuns.Run`). So does any session that also creates, opens and closes files, in any order and by name (`LfsSessions.Run`): what was in a file when it was closed is read back when it is opened again (`LfsSessions.ReadsBackLater`), or after a restart (`LfsSessions.RunAndRestart`). What each operation does to bytes and positions is stated as laws (`LfsLaws.dfy`): a truncation empties the file from any position, reads add up, a seek is accepted up to the end. Index blocks and data blocks are always partitioned between the free lists and the files, and none is ever lost (`LfsRoom.FreeBlocks`); after a close the file is readable from the disk alone; formatting establishes all of this and the check program counts it correctly.

**Demand paging** (`Vm*.dfy`, `Paging*.dfy`, `BackingStore.dfy`). Frames, page tables with reference counts, the resident list, FIFO and clock replacement, and eight backing stores on one disk. Eviction changes nobody's memory; a fault changes nobody's memory unless it loses its page; every run of accesses sees flat memory up to the first page that cannot be brought in (`VmRuns.Run`). Over runs in which processes also begin and end, what a process sees depends on its own stores alone (`VmSystem.Isolation`). Which page the clock replaces, and after how many examinations, is given by a rank that every page has before the call (`VmSteps.SweepLeast`), and every sweep goes on from where the last one stopped: over any run of accesses, of two pages that nobody uses the one that the clock comes to first is replaced first (`VmClock.ReplacedInTurn`).

**Processes** (`Process*.dfy`, `QueueTable.dfy`, `Links.dfy`). The queue table, the ready list, semaphores, one-slot mailboxes, the delta-encoded sleep queue with its 32-bit keys, and deferred rescheduling. Each system call up to its next blocking point is one step, because interrupts are disabled. Every reachable state has every process on exactly the queue its state names; the highest priority runs; semaphores serve first come first; messages are delivered once and in order; an undisturbed sleeper wakes on its own tick; a semaphore's count is conserved, so that with a count of n no more than n waits and one for every signal are ever granted (`ProcessSemaphores.Exclusion`); a process with an equal ready is preempted within a quantum, whatever calls it makes, and undisturbed the clock goes round the equals (`ProcessSlices.WithinQuantum`, `ProcessSlices.TimeSlices`); and whatever the keys are, the clock wakes every sleeper when the delta list forecasts it (`ProcessForecast.TickForecast`).

**Ports** (`Port*.dfy`). A bounded queue from two semaphores and a shared node pool, with reset and delete while processes are blocked. All interleavings of the steps of all processes are covered, with processes that a signal has released and that have not yet run kept track of. Messages are received in the order in which they were sent (`PortRuns.EpochPrefix`), and those who block at a port are released in the order in which they came (`PortTurns.InTurn`).

**Kernel heap** (`Heap*.dfy`, `KernelHeap.dfy`). First fit from below, last fit from above, and coalescing on one address-ordered list. The list is determined by the addresses it covers (`HeapSpec.Canonical`), which gives both round trips and the return to one block once everything is given back.

**Sort and checksum** (`Sorting.dfy`, `QuickSort.dfy`, `Powers.dfy`, `Registers.dfy`, `Crc32.dfy`). The three-way in-place quick sort for every total preorder, and table-driven CRC-32 against the bit-serial register. The laws of such registers are proved for any words with an exclusive-or, and then used for 32-bit words.

## What the code does not do as promised

Each of these is a property that fails, with the exact condition for it and a state in which it fails.

* *A file can be open only once.* `device/lfs/lfsopen.c:159-163` copies the name into one place, so every recorded name is empty and the test at lines 48-75 never fires for a nonempty name: `LfsSpec.OpensAgain`, `LfsRuns.SharedFile`. The system is sound after an open exactly if the file was not already open (`Lfsopen`).
* *A new file is on disk after close.* `lfsopen` does not mark the directory dirty. A file that is created, and closed after any operations on any devices, is in the directory on disk exactly if the directory was dirty before, or one of the operations changed the length of a file: `LfsRuns.CreateAndClose`. Otherwise it is lost at a restart: `LfsRuns.LostFile`.
* *A port keeps its capacity over a reset.* `ptmaxcnt` has 16 bits: exactly counts from 65536 on do not survive a reset: `PortRuns.CapacityAfter`, `PortRuns.CapacityInstance`.
* *A fault leaves its page present.* It is lost exactly if the page to be replaced is the only one of the table that is to be filled: `VmFaults.LostExactly`, `VmInstances.LostInstance`.
* *The clock never panics.* It does not while its hand is on a page, or on the head of the list. The hand is lost in three ways. A replacement by the clock leaves it on the end of the list exactly if the newest page has the lowest rank, and the next one panics: `VmFaults.ClockHand`, `VmInstances.HandInstance`. A replacement by FIFO does not look at the hand, and leaves it on an entry of no list exactly if it takes the page under the hand for a table or a directory; once `srpolicy` selects the clock, the next replacement follows that entry: `VmFaults.FifoHand`, `VmFaults.FaultHand`, `VmInstances.FifoInstance`. And `kill` does so exactly if the hand is on a page of the dead process: `VmProcesses.KillFreesAll`, `VmInstances.KillInstance`. There is no fourth: `VmSystem.HandKept`.
* *A delay does not disturb other sleepers.* Exactly the delays that are positive as 32-bit numbers do not: `ProcessForecast.SleepForecast`. For others, let d be the delay as a 32-bit number and f the first key. `recvtime(0)`, and a sleep whose d is negative with f - d below 2^31, make everybody else late by 1 - d ticks. If f - d wraps around, everybody else is early by f - 1. If d is -2^31, counting it down wraps around, and everybody else is late by 2^31 - f. `ProcessForecast.SleepInstances` has one of each.
* *freemem rejects a range that meets a free block.* For all sizes exactly if the range ends below 2^32, or starts in a free block, or no free block lies above its start: `HeapSpec.RejectsIff`, `HeapSpec.RejectInstance`; `KernelHeap.Heap.Refuses` is the code's test.
* *The free list stays inside the heap.* Exactly if what is given back ends inside it: `HeapRuns.StaysInside`, `HeapRuns.OutsideInstance`.
* *getmem's block is the caller's.* Not for requests within seven bytes of 2^32: `HeapSpec.HugeRequest`.
* *newqueue refuses when the queue table is full.* Its test lets the index just at the end through, which is where the index is once all queues that the table was made for exist. The answer is right exactly if the index is not that one: `Processes.ProcessTable.QueuesFull`, `Processes.RefusesWhenFull`, `Processes.QueueBeyondEnd`.

## Assumptions

* Device calls succeed, and one operation runs at a time where the code takes a mutex. The disk driver and the network are not part of this model.
* Disks have at most 2^23 sectors, formatting gets at least three sectors and one index block, and the paging disk is large enough for all eight stores.
* The null process makes no call that blocks, as `system/initialize.c:178-181` asks.
* A heap process gets as many stores as are free: `bs_mapping` indexes its table with -1 otherwise.
* The disposal function of a port does not call that port, and a process that has been released but has not yet run is not killed.
* The sequence numbers of ports, the tick count and the counts of semaphores do not wrap around; keys of queues do, and are modelled in 32 bits.
* The kernel heap's length is a multiple of eight, and in runs of the heap requests are at most 2^32 - 8 bytes.
* Element comparisons are total preorders; the array of an element type stands for the bytes of its elements.

## Model

| member | source | states |
|---|---|---|
| LfsFormat.WordRoundTrip | xinu-x86-qemu/include/lfilesys.h:71-75 | a 32-bit word stored as four bytes reads back as itself |
| LfsFormat.IblkRoundTrip | xinu-x86-qemu/include/lfilesys.h:71-87 | the 72 bytes of an index block, wherever they lie in a sector, decode to the block that was encoded |
| LfsFormat.DirRoundTrip | xinu-x86-qemu/include/lfilesys.h:92-119 | a directory written to its 512-byte sector decodes to itself: no field overlaps another |
| LfsDisk.PatchOther | xinu-x86-qemu/device/lfs/lfibput.c:28-38 | copying one index block into a sector leaves the other six of that sector as they were |
| LfsDisk.IbPutGet | xinu-x86-qemu/device/lfs/lfibput.c:10-43 | lfibput on block b changes what lfibget returns for b, to what was put, and for no other block |
| LfsDisk.IbPutFrame | xinu-x86-qemu/device/lfs/lfibput.c:10-43 | lfibput changes no directory sector and no data sector |
| LfsDisk.ReadIblk | xinu-x86-qemu/device/lfs/lfibget.c:10-31 | the byte-copy loop of lfibget returns the index block at ib2sect, ib2disp |
| LfsDisk.WriteIblk | xinu-x86-qemu/device/lfs/lfibput.c:10-43 | the read, copy loop and write of lfibput is exactly the replacement of that one block |
| BlockPool.TakeKeeps | xinu-x86-qemu/device/lfs/lfiballoc.c:18-30 | taking the first free block for a file keeps every block on exactly one list |
| BlockPool.Release | xinu-x86-qemu/device/lfs/lftruncate.c:54-97 | giving all blocks of a file back, spliced or one by one, keeps every block on exactly one list and empties the file's |
| BlockPool.GiveBackKeeps | xinu-x86-qemu/system/ptrecv.c:38-43 | giving back the first block of a list keeps every block on exactly one list |
| BlockPool.Pigeonhole | xinu-x86-qemu/device/lfs/lfsckfmt.c:33-42 | a list without repetitions is no longer than the range of its members, so walks along it end |
| BlockPool.FileFits | xinu-x86-qemu/device/lfs/lfsetup.c:75-94 | no chain is longer than the area its blocks come from |
| LfsSpec.OverwriteOneMore | xinu-x86-qemu/device/lfs/lflwrite.c:16-25 | writing bytes one at a time is writing them all at once |
| LfsSpec.StepKeepsAbsOk | xinu-x86-qemu/device/lfs/lflseek.c:24-33 | positions stay between the beginning and the end of their files, and no file comes to be open twice by an operation |
| LfsSpec.StepFrame | xinu-x86-qemu/device/lfs/lflputc.c:30-59 | an operation changes no byte of any file but the one at its device, and no other position |
| LfsSpec.ReadAfterWrite | xinu-x86-qemu/device/lfs/lflread.c:9-39 | bytes written at a position are read back from there, whatever was in the file |
| LfsSpec.OpensAgain | xinu-x86-qemu/device/lfs/lfsopen.c:48-78 | the single-open rule is false of the code: a file opened or created under a nonempty name is opened again by the same call exactly when some device is still closed and the mode does not ask for a new file |
| LfsSpec.FirstClosedIs | xinu-x86-qemu/device/lfs/lfsopen.c:48-78 | the device picked is the first closed one, or none |
| LfsSpec.FindNameIs | xinu-x86-qemu/device/lfs/lfsopen.c:93-111 | the directory entry picked is the first whose name matches up to the null byte, or none |
| LfsLaws.TruncateIs | xinu-x86-qemu/device/lfs/lftruncate.c:22-49 | at whatever position, a truncation answers OK, empties the file, goes to its beginning, and leaves all other files and handles alone |
| LfsLaws.EofAfterTruncate | xinu-x86-qemu/device/lfs/lftruncate.c:22-49 | after a truncation getc and read meet the end of the file |
| LfsLaws.WriteAfterTruncate | xinu-x86-qemu/device/lfs/lftruncate.c:22-49 | what is written after a truncation is the whole file |
| LfsLaws.SeekIs | xinu-x86-qemu/device/lfs/lflseek.c:19-38 | a seek is accepted exactly up to and including the end of the file, and the next operation starts there |
| LfsLaws.SeekAgain | xinu-x86-qemu/device/lfs/lflseek.c:19-38 | of two seeks the last one counts |
| LfsLaws.ReadIs | xinu-x86-qemu/device/lfs/lflread.c:9-39 | a read hands over the next bytes, as many as asked for or as there are, goes on past them, and says end of file exactly at the end |
| LfsLaws.ReadsAddUp | xinu-x86-qemu/device/lfs/lflread.c:9-39 | a read of n bytes and then of k hand over what one read of n + k does, and leave the same state |
| LfsLaws.GetcIsRead | xinu-x86-qemu/device/lfs/lflread.c:23-33 | getc is a read of one byte |
| LfsLaws.GetcsAreRead | xinu-x86-qemu/device/lfs/lflread.c:23-33 | n times getc is a read of n bytes |
| LfsLaws.ReadWhole | xinu-x86-qemu/device/lfs/lflread.c:9-39 | from the beginning a read of its length hands over the whole file |
| LfsLaws.WriteIs | xinu-x86-qemu/device/lfs/lflwrite.c:9-29 | a write puts its bytes at the position, leaves every other byte where it is, and makes the file longer only as far as it must |
| LfsLaws.WritesAddUp | xinu-x86-qemu/device/lfs/lflwrite.c:9-29 | two writes are one write |
| LfsLaws.PutcIsWrite | xinu-x86-qemu/device/lfs/lflwrite.c:16-25 | putc is a write of one byte |
| LfsLaws.Failures | xinu-x86-qemu/device/lfs/lflread.c:17-21 | which operations fail: on a closed device, beyond the end for a seek, with a negative count for a transfer, and no others |
| LfsLaws.OpenIs | xinu-x86-qemu/device/lfs/lfsopen.c:30-139 | exactly when an open succeeds, and that it takes the first closed device and the first file of the name, or a new one |
| LfsModel.StepKeeps | xinu-x86-qemu/device/lfs/lfsetup.c:36-119 | a change to one file that leaves the others alone keeps the whole system's invariant if it keeps that file's and the free lists |
| LfsSteps.FlushDataKeeps | xinu-x86-qemu/device/lfs/lfflush.c:27-32 | writing the data buffer back keeps all files' bytes and the block partition |
| LfsSteps.FlushIblkKeeps | xinu-x86-qemu/device/lfs/lfflush.c:34-39 | writing the cached index block back does too |
| LfsSteps.LoadIblkKeeps | xinu-x86-qemu/device/lfs/lfsetup.c:64-92 | loading any index block of the chain, with clean caches, shows what the chain has there |
| LfsSteps.LoadDataKeeps | xinu-x86-qemu/device/lfs/lfsetup.c:105-114 | loading a data block of the file changes no file |
| LfsSteps.TakeFirstKeeps | xinu-x86-qemu/device/lfs/lfsetup.c:49-58 | a first index block moves from the free list to the file and nowhere else |
| LfsSteps.ExtendKeeps | xinu-x86-qemu/device/lfs/lfsetup.c:78-88 | one more index block, linked at the end of a full chain, keeps the partition and all bytes |
| LfsSteps.TakeDataKeeps | xinu-x86-qemu/device/lfs/lfsetup.c:105-109 | a fresh data block moves from the free list into the next free entry, and the filled buffer is no file's byte yet |
| LfsSteps.PutByteKeeps | xinu-x86-qemu/device/lfs/lflputc.c:48-60 | one stored byte changes one byte of one file, or makes that file one longer |
| LfsSteps.Spliced | xinu-x86-qemu/device/lfs/lftruncate.c:80-97 | a chain whose last block points at the head of the free list makes one longer free list |
| LfsSteps.FreedPools | xinu-x86-qemu/device/lfs/lftruncate.c:54-97 | after the walk both partitions hold, with the file owning nothing |
| LfsSteps.WalkedKeeps | xinu-x86-qemu/device/lfs/lftruncate.c:54-97 | the finished truncation walk leaves a state in which all other files have their bytes and this one has none |
| LfsReload.ReadsBack | xinu-x86-qemu/device/lfs/lfflush.c:19-39 | once its caches are clean, decoding the directory from sector 0 and following the file's chain on disk gives exactly its abstract bytes |
| LfsReload.StoredByteAt | xinu-x86-qemu/device/lfs/lfsetup.c:74-119 | each byte is found on disk at the place that index block, entry and offset name |
| LocalFileSystem.FileSystem.constructor | xinu-x86-qemu/device/lfs/lfsopen.c:80-91 | over any disk that a formatted or closed system left, all devices closed, the abstract files are those on disk |
| LocalFileSystem.FileSystem.Lfibget | xinu-x86-qemu/device/lfs/lfibget.c:10-31 | the block as the model of the disk has it |
| LocalFileSystem.FileSystem.Lfibput | xinu-x86-qemu/device/lfs/lfibput.c:10-43 | exactly that block changes |
| LocalFileSystem.FileSystem.Lfiballoc | xinu-x86-qemu/device/lfs/lfiballoc.c:10-33 | the head of the free list is taken and the directory written; it panics exactly when the list is empty |
| LocalFileSystem.FileSystem.Lfdballoc | xinu-x86-qemu/device/lfs/lfdballoc.c:12-40 | the head of the free list is taken, the buffer filled and the directory written; it panics exactly when the list is empty |
| LocalFileSystem.FileSystem.Lfdbfree | xinu-x86-qemu/device/lfs/lfdbfree.c:10-25 | the block is linked in front of the free list, and no other data block changes |
| LocalFileSystem.FileSystem.Lfflush | xinu-x86-qemu/device/lfs/lfflush.c:10-42 | afterwards nothing is dirty, the directory on disk is the one in memory if it was synced or dirty, and no file has changed |
| LocalFileSystem.FileSystem.NextIndex | xinu-x86-qemu/device/lfs/lfsetup.c:79-93 | one step along the chain, or one block more at its end; it panics exactly when none is free |
| LocalFileSystem.FileSystem.WalkChain | xinu-x86-qemu/device/lfs/lfsetup.c:74-94 | the loop ends with the index block that covers the position, having extended the chain no further than that |
| LocalFileSystem.FileSystem.SetBlock | xinu-x86-qemu/device/lfs/lfsetup.c:96-119 | the position's data block is in the buffer, allocated if the file did not reach it, and the byte pointer is at the position |
| LocalFileSystem.FileSystem.Lfsetup | xinu-x86-qemu/device/lfs/lfsetup.c:10-122 | the index block and data block of the position are cached and other files untouched; it panics exactly when a block is needed and none is free |
| LocalFileSystem.FileSystem.FetchByte | xinu-x86-qemu/device/lfs/lflgetc.c:45-49 | the byte at the position, whatever is cached and dirty |
| LocalFileSystem.FileSystem.StoreByte | xinu-x86-qemu/device/lfs/lflputc.c:48-60 | the file's bytes with this one put at the position; the directory becomes dirty exactly when the file grows |
| LocalFileSystem.FileSystem.Lflgetc | xinu-x86-qemu/device/lfs/lflgetc.c:9-52 | returns and does what the abstract file does: a byte, end of file, or an error for a closed device |
| LocalFileSystem.FileSystem.Lflputc | xinu-x86-qemu/device/lfs/lflputc.c:9-64 | writes what the abstract file would; it panics exactly when the disk has no room for one more byte |
| LocalFileSystem.FileSystem.Lflseek | xinu-x86-qemu/device/lfs/lflseek.c:9-41 | moves the abstract position, and refuses exactly the offsets beyond the end |
| LocalFileSystem.FileSystem.Lflread | xinu-x86-qemu/device/lfs/lflread.c:9-39 | returns the bytes the abstract file has there, fewer at its end, and an error for a negative count |
| LocalFileSystem.FileSystem.Lflwrite | xinu-x86-qemu/device/lfs/lflwrite.c:9-29 | writes the bytes the abstract file would have; it panics exactly when they need more blocks than are free |
| LocalFileSystem.FileSystem.FreeDblocks | xinu-x86-qemu/device/lfs/lftruncate.c:60-74 | the inner loop frees the data blocks of one index block and clears its entries |
| LocalFileSystem.FileSystem.FreeChain | xinu-x86-qemu/device/lfs/lftruncate.c:50-97 | the outer loop frees the blocks of the whole chain and ends it in the old free list; it ends because chains are finite |
| LocalFileSystem.FileSystem.Lftruncate | xinu-x86-qemu/device/lfs/lftruncate.c:10-104 | on an open device, at whatever position, answers OK with the file empty and at its beginning and everything else unchanged; else fails and changes nothing |
| LocalFileSystem.FileSystem.Lflcontrol | xinu-x86-qemu/device/lfs/lflcontrol.c:9-47 | truncates an open file on that request, whatever its position; refuses everything else and changes nothing |
| LocalFileSystem.FileSystem.FindDevice | xinu-x86-qemu/device/lfs/lfsopen.c:48-78 | the two loops over the devices find a clash only for the empty name, and else the first closed device |
| LocalFileSystem.FileSystem.FindEntry | xinu-x86-qemu/device/lfs/lfsopen.c:93-111 | the search loops find the first matching entry |
| LocalFileSystem.FileSystem.AddEntry | xinu-x86-qemu/device/lfs/lfsopen.c:123-139 | a new file with no bytes comes last, and the directory in memory only has it |
| LocalFileSystem.FileSystem.EntryFor | xinu-x86-qemu/device/lfs/lfsopen.c:80-139 | the entry for a name is the first that matches, or a new last one; -1 exactly if the mode does not allow it or the directory is full |
| LocalFileSystem.FileSystem.InitBlock | xinu-x86-qemu/device/lfs/lfsopen.c:148-175 | the control block is fresh, and its recorded name is empty whatever the name was |
| LocalFileSystem.FileSystem.Lfsopen | xinu-x86-qemu/device/lfs/lfsopen.c:9-180 | picks the device and the entry the abstract rule picks; that device then has the file open at its beginning, a new file has no bytes, and no other file, handle or name, nor the disk or the dirty flag, changes; the system is sound afterwards exactly if the file was not already open |
| LocalFileSystem.FileSystem.Lflclose | xinu-x86-qemu/device/lfs/lflclose.c:9-38 | the device is closed, nothing is dirty, the file can be read back from disk, and the directory on disk has all files exactly if it was dirty or had them before |
| LocalFileSystem.NoRoomIsOutOfSpace | xinu-x86-qemu/device/lfs/lfsetup.c:49-109 | needing a block that is not there is the same as the new length exceeding the room the free lists leave |
| LfsRoom.AllCounted | xinu-x86-qemu/device/lfs/lfsckfmt.c:33-55 | no block is lost: those that are free and those of the files add up to the range |
| LfsRoom.FreeBlocks | xinu-x86-qemu/device/lfs/lfsckfmt.c:33-55 | between operations the free blocks are what the lengths of the files leave |
| LfsRoom.OutOfSpaceIs | xinu-x86-qemu/device/lfs/lfdballoc.c:20-24 | a file can get the blocks for a new length exactly if all the files, with that one as it would be, fit on the disk |
| LfsRuns.Do | xinu-x86-qemu/device/lfs/lflcontrol.c:21-44 | any operation is the abstract step; it panics exactly when the files as it would leave them need more blocks than the disk has; and it makes the directory due for writing exactly if it changes the length of a file |
| LfsRuns.Run | xinu-x86-qemu/device/lfs/lfsetup.c:36-119 | every sequence of operations returns what it returns on plain byte sequences with positions, and leaves those bytes, up to the first operation that would leave files too large for the disk, which panics |
| LfsRuns.FitStepsIs | xinu-x86-qemu/device/lfs/lfiballoc.c:22-24 | that operation is the first after which the files do not fit |
| LfsRuns.CreateAndClose | xinu-x86-qemu/device/lfs/lfsopen.c:123-139 | a file is created, any operations follow on any devices, and it is closed: it is in the directory on disk exactly if the directory was already dirty before, or an operation changed the length of some file |
| LfsRuns.LostFile | xinu-x86-qemu/device/lfs/lfsopen.c:123-139 | on a new disk a file is created and closed, and after a restart it is gone |
| LfsRuns.SharedFile | xinu-x86-qemu/device/lfs/lfsopen.c:148-167 | on a new disk one file is created, opened by a second device as well, and both are at its beginning |
| LfsRuns.Restart | xinu-x86-qemu/device/lfs/lfsopen.c:80-91 | a system started afresh on the disk of a closed one shows as many files as the directory on disk has, with the same names and bytes; the others were never written |
| LfsSessions.TextIs | xinu-x86-qemu/device/lfs/lfsopen.c:93-111 | a name matches a directory entry exactly if it is the text of the entry up to the null byte |
| LfsSessions.FindSame | xinu-x86-qemu/device/lfs/lfsopen.c:93-111 | the search over padded entries picks the file that has this name |
| LfsSessions.TextsAfter | xinu-x86-qemu/device/lfs/lfsopen.c:123-139 | after an open the files have the names they had, and a new one has the name asked for |
| LfsSessions.UserStepKeeps | xinu-x86-qemu/device/lfs/lfsopen.c:48-78 | a call that does not open an open file keeps positions inside files and every file open once |
| LfsSessions.PerformOpen | xinu-x86-qemu/device/lfs/lfsopen.c:9-180 | an open is the step on plain names and handles, and leaves a sound system exactly if the file was closed |
| LfsSessions.Perform | xinu-x86-qemu/device/lfs/lflcontrol.c:21-44 | any call, be it an open, a close or an operation, is the step on plain names and bytes; it panics exactly when files would not fit |
| LfsSessions.Run | xinu-x86-qemu/device/lfs/lfsopen.c:9-180 | every sequence of opens, creations, operations and closes, in any order and on any devices, answers what it answers on plain names and byte sequences with positions, and leaves those, up to the first call that leaves files too large for the disk, which panics, or that opens an open file, which succeeds |
| LfsSessions.NamesStayApart | xinu-x86-qemu/device/lfs/lfsopen.c:93-139 | no session gives two files one name |
| LfsSessions.Untouched | xinu-x86-qemu/device/lfs/lflclose.c:9-38 | a closed file stays closed and keeps its name and bytes over every session that does not open its name |
| LfsSessions.ReadsBackLater | xinu-x86-qemu/device/lfs/lflread.c:9-39 | bytes that are in a file when it is closed are read back when it is opened again, whatever sessions on other files did in between |
| LfsSessions.StartAfresh | xinu-x86-qemu/device/lfs/lfsopen.c:80-91 | once everything is closed and the directory is written, a restart shows the same names and bytes, short of trailing files that are empty |
| LfsSessions.RunAndRestart | xinu-x86-qemu/device/lfs/lflclose.c:9-38 | a session that closes everything can be followed by a restart, which shows the names and bytes the session left, short of trailing files that are empty |
| LfsCreate.LinkIblks | xinu-x86-qemu/device/lfs/lfscreate.c:52-60 | every index block points at the next and the last at none |
| LfsCreate.LinkDblks | xinu-x86-qemu/device/lfs/lfscreate.c:62-71 | every data block points at the next and the last at none, and the index blocks stay |
| LfsCreate.FormattedOk | xinu-x86-qemu/device/lfs/lfscreate.c:40-71 | a disk with those links satisfies the whole invariant, all blocks free |
| LfsCreate.Lfscreate | xinu-x86-qemu/device/lfs/lfscreate.c:10-74 | refuses exactly when the index blocks would take more than half of the disk; else the disk satisfies the invariant with no files |
| LfsCreate.NullHead | xinu-x86-qemu/device/lfs/lfsckfmt.c:33-55 | a walk along a free list meets the null link only at its end |
| LfsCreate.Lfsckfmt | xinu-x86-qemu/device/lfs/lfsckfmt.c:10-58 | both walks end and count every free block exactly once, in any reachable state |
| PortSteps.InitOk | xinu-x86-qemu/system/ptinit.c:13-45 | the initial ports satisfy the invariant |
| PortSteps.StepKeeps | xinu-x86-qemu/system/ptrecv.c:24-46 | no step of any process breaks the invariant, and no ptrecv finds an empty queue |
| PortSteps.StepsOnePort | xinu-x86-qemu/system/ptsend.c:9-59 | a step works on one port and leaves the others alone |
| PortNodes.AppendLinked | xinu-x86-qemu/system/ptsend.c:40-55 | unlinking the first free node and linking it at the tail appends the message to that port's queue only |
| PortNodes.PopLinked | xinu-x86-qemu/system/ptrecv.c:35-44 | unlinking the first node takes the oldest message and frees the node |
| PortNodes.SpliceLinked | xinu-x86-qemu/system/ptclear.c:26-38 | linking the whole list in front of the free list empties that queue and frees all its nodes |
| Ports.PortSystem.constructor | xinu-x86-qemu/system/ptinit.c:13-45 | the loop links all nodes into one free list; all ports are free |
| Ports.PortSystem.LinkNode | xinu-x86-qemu/system/ptsend.c:40-56 | the message is the last of the port's queue |
| Ports.PortSystem.Unlink | xinu-x86-qemu/system/ptrecv.c:35-44 | the message is what was the first of the port's queue |
| Ports.PortSystem.Ptsend | xinu-x86-qemu/system/ptsend.c:9-59 | up to where it blocks or returns, the step that the interleaving model gives |
| Ports.PortSystem.Ptrecv | xinu-x86-qemu/system/ptrecv.c:9-48 | likewise, and it never takes from an empty queue |
| Ports.PortSystem.NextFree | xinu-x86-qemu/system/ptcreate.c:24-33 | the first free port from ptnextid on, which moves past it; none only if all are in use |
| Ports.PortSystem.Ptcreate | xinu-x86-qemu/system/ptcreate.c:9-46 | likewise, for any outcome of the two semcreate calls |
| Ports.PortSystem.Ptclear | xinu-x86-qemu/system/ptclear.c:19-24 | ptreset or ptdelete up to the first message: limbo state and a new sequence number |
| Ports.PortSystem.DisposeNext | xinu-x86-qemu/system/ptclear.c:28-32 | the disposal function gets the messages in their order |
| Ports.PortSystem.ClearSenders | xinu-x86-qemu/system/ptclear.c:34-46 | the whole list is freed and the blocked senders are released |
| Ports.PortSystem.ClearReceivers | xinu-x86-qemu/system/ptclear.c:40-47 | the blocked receivers are released |
| Ports.PortSystem.ClearEnd | xinu-x86-qemu/system/ptclear.c:48-49 | the port is in its new state |
| Ports.PortSystem.Resume | xinu-x86-qemu/system/ptsend.c:29-56 | a released process runs on: it finishes its call, or returns SYSERR if the port was cleared meanwhile |
| Ports.PortSystem.Kill | xinu-x86-qemu/system/kill.c:96-103 | a blocked process that is killed leaves the semaphore as if it had never come |
| PortRuns.RunKeeps | xinu-x86-qemu/system/ptsend.c:29-56 | every reachable state satisfies the invariant |
| PortRuns.Perform | xinu-x86-qemu/system/ptclear.c:11-50 | every interleaving of the port calls drives the linked nodes through the states of the model |
| PortRuns.Tokens | xinu-x86-qemu/system/ptsend.c:29-56 | queue length = max(0, receiver count) + released receivers, and max(0, sender count) + released senders + queue length = capacity |
| PortRuns.PtcountMeans | xinu-x86-qemu/system/ptcount.c:14-44 | what ptcount adds up to in every reachable state |
| PortRuns.CapacityAfter | xinu-x86-qemu/system/ptclear.c:40-47 | over every run in which it is not deleted, a port has the capacity it was created with exactly if it was never reset or the count is below 65536; after a reset it has the count modulo 65536 |
| PortRuns.CapacityInstance | xinu-x86-qemu/system/ptcreate.c:33-39 | a port created with the count 65536 is reset, and has no capacity left |
| PortRuns.CapStep | xinu-x86-qemu/system/ptclear.c:40-47 | the capacity changes only when a reset deals with the senders, and then to what ptmaxcnt holds |
| PortRuns.StepCapsExact | xinu-x86-qemu/system/ptclear.c:40-43 | while only such counts are asked for, every reset restores the capacity that was asked for |
| PortRuns.NoPanic | xinu-x86-qemu/system/ptsend.c:36-38 | no ptsend finds the free list empty if the capacities add up to no more than the pool |
| PortRuns.StepCapacity | xinu-x86-qemu/system/ptcreate.c:33-41 | only ptcreate adds capacity, and no more than it was asked for |
| PortRuns.EpochPrefix | xinu-x86-qemu/system/ptclear.c:21-48 | over every run: what was received in an epoch is a prefix of what was sent in it; once it is over, every message sent was received or disposed of, once and in order |
| PortRuns.ClearFailsWaiters | xinu-x86-qemu/system/ptclear.c:21-48 | a process inside ptsend or ptrecv when its port is cleared returns SYSERR whenever it next runs, whatever happened to the port in between, and touches no port |
| PortTurns.StepTurns | xinu-x86-qemu/system/ptsend.c:29-34 | a step takes the first n of those blocked at a port, or adds the caller at the end, or removes one that is killed |
| PortTurns.InTurn | xinu-x86-qemu/system/ptsend.c:29-34 | over every interleaving: of two processes that block in ptsend at one port, or in ptrecv, the one that came later is not released while the earlier is still blocked |
| PortTurns.OneReleased | xinu-x86-qemu/system/ptrecv.c:35-47 | a ptrecv that takes a message releases the sender that has waited longest and nobody else; a ptsend the receiver that has |
| PortLaws.SendIs | xinu-x86-qemu/system/ptsend.c:20-57 | when ptsend is refused, blocks, or panics, and that otherwise its message is the last: it blocks exactly if capacity, less the messages and the senders already let in, is used up |
| PortLaws.RecvIs | xinu-x86-qemu/system/ptrecv.c:19-47 | when ptrecv is refused or blocks, and that otherwise it hands over the oldest message: it blocks exactly if every message is promised to a receiver already let in |
| PortLaws.ResumeIs | xinu-x86-qemu/system/ptsend.c:29-56 | a released sender puts its own message last, a released receiver gets the oldest one, in the epoch in which it waited; in a later one it returns SYSERR |
| PortLaws.CreateIs | xinu-x86-qemu/system/ptcreate.c:18-45 | ptcreate takes the nearest free port, looking up and round from the one after the last, and fails exactly if none is free or the count is negative |
| PortLaws.ClearIs | xinu-x86-qemu/system/ptclear.c:19-24 | ptreset and ptdelete are refused exactly for ports not in use; else the port is closed to all others at once |
| PortLaws.ClearEnds | xinu-x86-qemu/system/ptclear.c:40-49 | at the end the port is empty, nobody waits at it, and it has all its capacity after ptreset, or is free and the next to be created after ptdelete |
| BackingStore.BlocksDisjoint | xinu-x86-qemu/paging/write_bs.c:11-56 | different pages, of one store or of two, share no disk block |
| BackingStore.ReadBack | xinu-x86-qemu/paging/read_bs.c:11-57 | a page written to a store is read back, and every other page of every store is as before |
| BackingStore.WriteBlocks | xinu-x86-qemu/paging/write_bs.c:41-53 | the loop writes the eight 512-byte pieces to the page's eight blocks and no other block |
| BackingStore.ReadBlocks | xinu-x86-qemu/paging/read_bs.c:36-53 | the loop reads them back in order |
| Links.InsertChained | xinu-x86-qemu/system/initialize.c:519-523 | linking an entry between two neighbours gives the longer list, linked both ways |
| Links.RemoveChained | xinu-x86-qemu/system/initialize.c:544-545 | unlinking an entry gives the shorter list, linked both ways |
| VmSpec.NoSharedBlock | xinu-x86-qemu/system/initialize.c:810-822 | distinct mapped pages, of any processes, never share a disk block |
| VmSpec.PageSlot | xinu-x86-qemu/system/initialize.c:605-620 | every resident page has a store and an offset there, which no other page has |
| VmSpec.EvictKeepsMemory | xinu-x86-qemu/system/initialize.c:605-645 | evicting any page changes no page of any process |
| VmSpec.EvictKeeps | xinu-x86-qemu/system/initialize.c:605-645 | evicting keeps the frame table, the resident list, the reference counts and the page tables consistent, also when a table is freed with its last page |
| VmSpec.ClaimKeeps | xinu-x86-qemu/system/initialize.c:512-531 | giving an unused frame a purpose changes no page and joins the resident list exactly if it is for a page |
| VmSteps.AccessChanges | xinu-x86-qemu/system/initialize.c:553-592 | an access to a resident page changes that page and no other |
| VmSteps.Sweep | xinu-x86-qemu/system/initialize.c:553-592 | the clock examines at most one page more than there are bits set, and stops at a page whose bits are both clear |
| VmSteps.WeightBound | xinu-x86-qemu/system/initialize.c:553-592 | n resident pages have at most 2n bits set: the clock examines at most 2n + 1 |
| VmSteps.AgedKeeps | xinu-x86-qemu/system/initialize.c:565-590 | an examination that does not select clears exactly one bit, and keeps dirty implying accessed |
| VmSteps.SweepClears | xinu-x86-qemu/system/initialize.c:553-592 | the clock only clears bits, and only of resident pages |
| VmSteps.SweepLeast | xinu-x86-qemu/system/initialize.c:553-592 | the clock selects the page of the lowest rank (its set bits times the number of pages, plus its distance from the hand) and examines one page more than that rank |
| VmSteps.LeastOnly | xinu-x86-qemu/system/initialize.c:553-592 | only one page has the lowest rank |
| VmSteps.SweepFirst | xinu-x86-qemu/system/initialize.c:553-592 | if some page has both bits clear, the first one in clock order is selected |
| VmSteps.SweepRanks | xinu-x86-qemu/system/initialize.c:553-592 | after a sweep every page has the rank it had before, less that of the page selected: the bits that were cleared, and where the clock stands, are exactly those of the examinations |
| VmFaults.ChoiceIs | xinu-x86-qemu/system/initialize.c:535-592 | FIFO replaces the oldest page, the clock one whose bits are both clear; never a directory or a table |
| VmFaults.GetFrameKeeps | xinu-x86-qemu/system/initialize.c:500-664 | finding a frame, with or without replacement, changes no page of any process |
| VmFaults.GetFrameResidents | xinu-x86-qemu/system/initialize.c:512-551 | the resident list loses the replaced page and gets the new one as its newest: under FIFO pages leave in the order they came |
| VmFaults.PicksIs | xinu-x86-qemu/system/initialize.c:535-592 | the page that is replaced, from the bits, the list and the hand before the call: the oldest, or the one of the lowest rank |
| VmFaults.ClockHand | xinu-x86-qemu/system/initialize.c:576-592 | from a good hand the clock never panics; the hand is good again exactly when the newest page does not have the lowest rank before the call |
| VmFaults.FifoHand | xinu-x86-qemu/system/initialize.c:540-551 | FIFO replaces the oldest page and does not look at the hand: a good hand stays good exactly if the frame is for a page again or the hand was not on the oldest page; else it is on an entry of no list |
| VmFaults.FrameHand | xinu-x86-qemu/system/initialize.c:500-664 | getting a frame under either policy takes a hand that is on a page or on an end of the list off the list exactly if FIFO takes the oldest page from under it and the frame is for a table or a directory |
| VmFaults.FaultHand | xinu-x86-qemu/system/initialize.c:666-740 | a fault under either policy takes a hand that is on a page or on an end of the list off the list exactly if it needs a table and FIFO takes the page under the hand for it; under the clock never |
| VmFaults.FaultKeeps | xinu-x86-qemu/system/initialize.c:666-740 | a fault that loads its page changes no page of any process |
| VmFaults.LostExactly | xinu-x86-qemu/system/initialize.c:640-645 | a fault loses its page exactly when the page it replaces is the only one of the table it is to fill |
| VmProcesses.KillFrameKeeps | xinu-x86-qemu/system/kill.c:46-71 | freeing one frame of a dying process keeps everybody's memory and all other frames |
| VmProcesses.KillFreesAll | xinu-x86-qemu/system/kill.c:46-82 | afterwards no frame and no store belongs to the process, every other process keeps its memory, and the hand is good exactly if it was not on a page of the process |
| VmProcesses.MapStoreKeeps | xinu-x86-qemu/system/initialize.c:772-800 | mapping one store more keeps every other mapping and its memory |
| VmProcesses.FirstStoreIs | xinu-x86-qemu/paging/allocate_bs.c:11-41 | allocate_bs takes the first store that is neither allocated nor open, and fails only if all are |
| VmProcesses.HeapMapped | xinu-x86-qemu/system/vcreate.c:91-106 | if enough stores are free, every page of a new heap is mapped and nobody else's memory changes |
| VmInstances.LostInstance | xinu-x86-qemu/system/initialize.c:640-645 | a state and a fault that loses its page |
| VmInstances.HandInstance | xinu-x86-qemu/system/initialize.c:576-592 | a state from which the clock leaves the hand on the end of the list, and the panic that follows |
| VmInstances.FifoInstance | xinu-x86-qemu/system/initialize.c:540-551 | a state in which FIFO, getting a frame for a table, leaves the hand on an entry of no list, though the newest page does not have the lowest rank |
| VmInstances.KillInstance | xinu-x86-qemu/system/kill.c:46-71 | a state in which kill leaves the hand on no page |
| Paging.PagingSystem.constructor | xinu-x86-qemu/system/initialize.c:346-482 | one static directory, five static tables, all other frames unused, nothing resident |
| Paging.PagingSystem.GetStoreOffset | xinu-x86-qemu/system/initialize.c:810-822 | the loop finds the store that has the page, and the page's place in it |
| Paging.PagingSystem.WriteBs | xinu-x86-qemu/paging/write_bs.c:11-56 | writes exactly when the store is open and has the page |
| Paging.PagingSystem.ReadBs | xinu-x86-qemu/paging/read_bs.c:11-57 | likewise for reading |
| Paging.PagingSystem.FindFrame | xinu-x86-qemu/system/initialize.c:512-531 | the loop finds the first unused frame |
| Paging.PagingSystem.Claim | xinu-x86-qemu/system/initialize.c:514-523 | the frame has its purpose, and a page is linked at the tail |
| Paging.PagingSystem.PageOut | xinu-x86-qemu/system/initialize.c:594-636 | the page is on disk and out of its table and of the resident list |
| Paging.PagingSystem.DropTable | xinu-x86-qemu/system/initialize.c:637-645 | the table is freed exactly when nothing is left in it |
| Paging.PagingSystem.Sweep | xinu-x86-qemu/system/initialize.c:553-592 | the pointer loop selects what the clock over the resident list selects, and ends |
| Paging.PagingSystem.GetFreeFrame | xinu-x86-qemu/system/initialize.c:500-664 | the frame and the state that the specification gives, or its panic |
| Paging.PagingSystem.CreatePagetable | xinu-x86-qemu/system/initialize.c:742-752 | a new empty table in the directory |
| Paging.PagingSystem.LoadPage | xinu-x86-qemu/system/initialize.c:723-739 | the page is read from its store into the frame and entered, or lost |
| Paging.PagingSystem.PageFault | xinu-x86-qemu/system/initialize.c:666-740 | the page is present afterwards exactly if the fault did not replace the only page of the table it was to fill |
| Paging.PagingSystem.Access | xinu-x86-qemu/system/initialize.c:553-592 | the accessed and dirty bits that the replacement looks at |
| Paging.PagingSystem.DeallocateBs | xinu-x86-qemu/paging/deallocate_bs.c:10-44 | the store is closed, and freed unless it is still open |
| Paging.PagingSystem.AllocateBs | xinu-x86-qemu/paging/allocate_bs.c:10-42 | the loop takes the first store that is neither allocated nor open, for a size a store can have |
| Paging.PagingSystem.BsMapping | xinu-x86-qemu/system/initialize.c:772-800 | the store is recorded for the process |
| Paging.PagingSystem.Kill | xinu-x86-qemu/system/kill.c:46-82 | frames and stores end as the specification says |
| Paging.PagingSystem.Srpolicy | xinu-x86-qemu/system/srpolicy.c:10-27 | the policy changes exactly if it is one of the two |
| Paging.PagingSystem.Vcreate | xinu-x86-qemu/system/vcreate.c:48-110 | a new process has its directory and its whole heap mapped |
| VmRuns.BringIn | xinu-x86-qemu/system/initialize.c:666-740 | a page can be brought in exactly if it is resident or the fault loads it |
| VmRuns.Touch | xinu-x86-qemu/system/initialize.c:666-740 | one access, with the fault it may cause, is one access to flat memory; it is done exactly if the page can be brought in |
| VmRuns.Run | xinu-x86-qemu/system/initialize.c:605-740 | every run of accesses by any processes sees what it would see on flat memory, whatever pages come and go meanwhile, up to the first access whose page cannot be brought in |
| VmClock.HandAt | xinu-x86-qemu/system/initialize.c:576-580 | after a replacement by the clock the hand is on the page next newer than the one replaced, or on the end of the list if that was the newest |
| VmClock.FirstGoesFirst | xinu-x86-qemu/system/initialize.c:553-592 | of two pages whose bits are clear, the one that the clock comes to first is replaced first, and as long as it is not, the order stays |
| VmClock.ReplacedInTurn | xinu-x86-qemu/system/initialize.c:535-592 | over every run of accesses, with any number of faults and replacements: of two resident pages that nobody uses, the one that the clock comes to first goes first; every sweep goes on from where the last one stopped |
| VmClock.FreeFirst | xinu-x86-qemu/system/initialize.c:512-532 | as long as a frame is unused the lowest such frame is taken, and nothing is replaced |
| VmClock.TouchMarks | xinu-x86-qemu/system/initialize.c:666-740 | after an access its page is marked accessed, and dirty exactly if it was written by this access or before; a page just brought in is the newest, with no other mark |
| VmClock.SecondChance | xinu-x86-qemu/system/initialize.c:576-590 | a page that has just been used is not the next to be replaced while any resident page is unused |
| VmSystem.UseKeeps | xinu-x86-qemu/system/initialize.c:605-740 | an access, with its fault, changes that page of that process and no other |
| VmSystem.BeginKeeps | xinu-x86-qemu/system/vcreate.c:48-110 | a new process gets its heap, and every other process keeps its directory and its memory |
| VmSystem.EndKeeps | xinu-x86-qemu/system/kill.c:46-82 | after kill nothing is mapped for the process, spare stores are unmapped again, and every other process keeps its directory and its memory |
| VmSystem.HandKept | xinu-x86-qemu/system/srpolicy.c:11-26 | over every event a hand that is on a page or on an end of the list stays so, except in exactly these cases: FIFO takes the page under it for a table of a fault or the directory of a new process, or the process whose page it is on is killed; a policy change does nothing to it |
| VmSystem.Isolation | xinu-x86-qemu/system/initialize.c:500-740 | over every run of accesses, of processes that begin and end, and of policy changes: what a living process's accesses see, and its memory at the end, is what its own stores alone make it |
| VmStores.EventAccounted | xinu-x86-qemu/paging/deallocate_bs.c:9-45 | no event leaves a store that is neither free nor mapped for a process |
| VmStores.NoStoreLost | xinu-x86-qemu/system/kill.c:74-82 | over every run the stores that can be handed out and those that processes hold are all there are, and once nobody holds one, all can be handed out again |
| VmSystem.Do | xinu-x86-qemu/system/initialize.c:500-740 | any event, on the tables and frames, is the step of the specification |
| VmSystem.Perform | xinu-x86-qemu/system/initialize.c:500-740 | a run takes the tables and frames through the states of the specification, and sees what it says |
| ProcessSpec.PlaceIs | xinu-x86-qemu/system/insert.c:22-32 | insert goes behind all whose key is not smaller and before the first that is |
| ProcessSteps.ReadyOrdered | xinu-x86-qemu/system/ready.c:22-27 | the ready list stays in the order of priorities |
| ProcessSteps.SwitchOk | xinu-x86-qemu/system/resched.c:38-45 | there always is a process to switch to, because the null process is current or ready |
| ProcessSteps.ReschedOk | xinu-x86-qemu/system/resched.c:19-45 | after resched no ready process has a higher priority than the current one |
| ProcessKeeps.SignalledOk | xinu-x86-qemu/system/signal.c:22-28 | a signal keeps count and queue of the semaphore in step |
| ProcessKeeps.WaitOk | xinu-x86-qemu/system/wait.c:22-37 | wait keeps the invariant, whether it blocks or not |
| ProcessKeeps.ClearOk | xinu-x86-qemu/system/semdelete.c:27-34 | releasing all waiters and replacing the count keeps the invariant |
| ProcessKeeps.KillOk | xinu-x86-qemu/system/kill.c:84-111 | kill takes a process off the queue its state names and gives a waiter's place back |
| ProcessKeeps.StepKeeps | xinu-x86-qemu/system/resched.c:12-61 | no system call and no clock tick breaks the invariant: every process on exactly the queue its state names, each semaphore with an empty queue or exactly -count waiters |
| ProcessClock.DeltaInsert | xinu-x86-qemu/system/insertd.c:22-39 | a sleeper goes where its wake-up tick belongs, behind those with the same tick, and no other sleeper's tick changes |
| ProcessClock.DeltaRemove | xinu-x86-qemu/system/unsleep.c:33-43 | taking a sleeper out changes no other sleeper's tick |
| ProcessClock.TickWakes | xinu-x86-qemu/system/clkhandler.c:28-37 | a tick makes ready exactly those sleepers whose tick it is, ties included, and touches nobody else |
| ProcessClock.TickOnTime | xinu-x86-qemu/system/clkhandler.c:28-37 | a tick leaves the delays of the others in step with their wake-up ticks |
| Processes.ProcessTable.constructor | xinu-x86-qemu/system/initialize.c:287-336 | the null process is current, nothing else exists, and all queues are linked and empty |
| Processes.ProcessTable.Newqueue | xinu-x86-qemu/system/newqueue.c:9-30 | refuses beyond the end of the table and changes nothing then; else head and tail of the new queue are linked to each other, with the largest and the smallest key |
| Processes.ProcessTable.QueuesFull | xinu-x86-qemu/system/newqueue.c:14-17 | the test for a full table, for every index and every table |
| Processes.RefusesWhenFull | xinu-x86-qemu/system/newqueue.c:14-17 | that test finds no room for a head and a tail, and only then, exactly if the index is not the end of the table itself |
| Processes.QueueBeyondEnd | xinu-x86-qemu/system/newqueue.c:11-17 | the index is at the end as soon as the queues that the table is made for exist: the next call is not refused and has no room |
| Processes.ProcessTable.Getitem | xinu-x86-qemu/system/getitem.c:47-58 | the process is off its queue, and no other queue changes |
| Processes.ProcessTable.Getfirst | xinu-x86-qemu/system/getitem.c:9-22 | the first process, or EMPTY exactly when there is none |
| Processes.ProcessTable.Enqueue | xinu-x86-qemu/system/queue.c:11-30 | the process is last |
| Processes.ProcessTable.Dequeue | xinu-x86-qemu/system/queue.c:36-52 | the first process, or EMPTY exactly when there is none |
| Processes.ProcessTable.Insert | xinu-x86-qemu/system/insert.c:9-36 | the walk and the splice put the process at its place with its key |
| Processes.ProcessTable.Insertd | xinu-x86-qemu/system/insertd.c:9-42 | the walk, the splice and the adjusted keys of the delta list, in 32 bits |
| Processes.ProcessTable.Resched | xinu-x86-qemu/system/resched.c:12-61 | the current process stays exactly if no ready key reaches its priority; while deferred only the attempt is noted |
| Processes.ProcessTable.Ready | xinu-x86-qemu/system/ready.c:11-29 | the process is on the ready list and rescheduling takes place or is noted |
| Processes.ProcessTable.DeferStop | xinu-x86-qemu/system/resched.c:80-87 | rescheduling takes place exactly when the last deferral ends and somebody asked for it |
| Processes.ProcessTable.Wait | xinu-x86-qemu/system/wait.c:9-39 | the step of the specification |
| Processes.ProcessTable.Signal | xinu-x86-qemu/system/signal.c:9-31 | the step of the specification |
| Processes.ProcessTable.Signaln | xinu-x86-qemu/system/signaln.c:9-37 | the loop, with rescheduling put off, releases as many as the specification says |
| Processes.ProcessTable.Newsem | xinu-x86-qemu/system/semcreate.c:35-50 | the rotating scan finds the first unused semaphore from nextsem on; after a full turn nextsem is where it was |
| Processes.ProcessTable.Semcreate | xinu-x86-qemu/system/semcreate.c:11-28 | the step of the specification |
| Processes.ProcessTable.Semdelete | xinu-x86-qemu/system/semdelete.c:9-36 | the loop on the count releases every waiter, first come first |
| Processes.ProcessTable.Semreset | xinu-x86-qemu/system/semreset.c:9-35 | the loop on the queue releases every waiter, first come first |
| Processes.ProcessTable.Sleepms | xinu-x86-qemu/system/sleep.c:26-50 | the step of the specification; a delay of 2^31 ms or more is a negative key |
| Processes.ProcessTable.Unsleep | xinu-x86-qemu/system/unsleep.c:11-47 | refuses exactly processes that do not sleep; else the next sleeper gets the rest of the delay, in 32 bits, and the process is off the queue |
| Processes.ProcessTable.Wakeup | xinu-x86-qemu/system/wakeup.c:9-20 | the loop makes ready the sleepers at the front whose key is not positive, and reschedules if there were any |
| Processes.ProcessTable.Clkhandler | xinu-x86-qemu/system/clkhandler.c:9-48 | the tick of the specification; what is left after a switch is done when the interrupted process runs again |
| Processes.ProcessTable.Send | xinu-x86-qemu/system/send.c:9-41 | the step of the specification |
| Processes.ProcessTable.Receive | xinu-x86-qemu/system/receive.c:9-25 | the step of the specification, up to where it waits |
| Processes.ProcessTable.Recvtime | xinu-x86-qemu/system/recvtime.c:9-44 | the step of the specification, up to where it waits |
| Processes.ProcessTable.Recvclr | xinu-x86-qemu/system/recvclr.c:9-25 | the step of the specification |
| Processes.ProcessTable.Finish | xinu-x86-qemu/system/receive.c:20-24 | what a process that waited for a message, or was switched away from in the clock handler, does when it runs again |
| Processes.ProcessTable.Suspend | xinu-x86-qemu/system/suspend.c:9-41 | the step of the specification |
| Processes.ProcessTable.Resume | xinu-x86-qemu/system/resume.c:9-35 | the step of the specification |
| Processes.ProcessTable.Yield | xinu-x86-qemu/system/yield.c:9-17 | one rescheduling |
| Processes.ProcessTable.Kill | xinu-x86-qemu/system/kill.c:84-111 | the step of the specification |
| Processes.ProcessTable.Create | xinu-x86-qemu/system/create.c:32-56 | a suspended process with an empty mailbox |
| Processes.ProcessTable.Do | xinu-x86-qemu/system/resched.c:12-61 | any call or tick, on the linked queue table, is the step of the specification |
| ProcessRuns.StepOnTime | xinu-x86-qemu/system/insertd.c:22-39 | no step with a delay from 1 to 2^31 - 1, or without one, moves any sleeper's wake-up tick |
| ProcessRuns.RunInv | xinu-x86-qemu/system/resched.c:19-45 | every reachable state satisfies the invariant, whatever the delays |
| ProcessRuns.RunKeeps | xinu-x86-qemu/system/clkhandler.c:28-37 | with such delays every reachable state also has all sleepers on time |
| ProcessRuns.Perform | xinu-x86-qemu/system/resched.c:19-45 | a sequence of calls takes the linked tables through the states of the run |
| ProcessRuns.ExactlyOneQueue | xinu-x86-qemu/system/wait.c:29-35 | a process is on exactly the queue its state names, and on none if it names none |
| ProcessRuns.MailboxSafety | xinu-x86-qemu/system/send.c:23-38 | over every run: the messages a process gets are exactly those send accepted for it, each once and in order, but for one still in its mailbox |
| ProcessRuns.ReceiveReturns | xinu-x86-qemu/system/recvtime.c:33-42 | receive returns only with a message; recvtime says TIMEOUT exactly when none is there |
| ProcessRuns.YieldTurns | xinu-x86-qemu/system/resched.c:27-41 | rescheduling puts the current process behind all ready ones of its priority |
| ProcessRuns.HasRing | xinu-x86-qemu/system/resched.c:19-45 | in every reachable state the ready list starts with the current process's equals, and all behind them have lower priorities |
| ProcessRuns.RoundRobin | xinu-x86-qemu/system/resched.c:19-45 | among k equal processes of the highest priority each runs once in every k switches, in a fixed order |
| ProcessSlices.TimeSlices | xinu-x86-qemu/system/clkhandler.c:41-47 | from any state with equals ready, ticks that wake nobody pass the processor round: the current process keeps it for the rest of its slice, then each has it in turn |
| ProcessSlices.TurnIs | xinu-x86-qemu/system/clkhandler.c:44-47 | the first turn lasts as long as the slice still has, and every other turn a quantum |
| ProcessSlices.PreemptedOnTime | xinu-x86-qemu/system/clkhandler.c:44-47 | with an equal ready, the current process runs through all ticks of its slice but the last, and then the next one runs |
| ProcessSlices.SlicesRepeat | xinu-x86-qemu/system/clkhandler.c:44-47 | the order repeats after a quantum for each |
| ProcessSlices.LeftOverSlice | xinu-x86-qemu/system/clkhandler.c:36-47 | a process that a wake-up interrupted in the clock handler does the rest of it when it runs again, and that takes one tick off its new slice |
| ProcessSlices.StepSlice | xinu-x86-qemu/system/resched.c:40-45 | a call leaves the slice as it is, unless it ends in a switch, and then it is a quantum |
| ProcessSlices.YieldIs | xinu-x86-qemu/system/yield.c:9-17 | yield and sleepms(0) pass the processor to the next equal, and the caller goes behind all of them |
| ProcessSlices.Reschedules | xinu-x86-qemu/system/resched.c:26-45 | a call that makes somebody ready reschedules: the caller goes on only if no ready process has its priority |
| ProcessSlices.WakingReschedules | xinu-x86-qemu/system/wakeup.c:13-18 | so does a tick that wakes anybody |
| ProcessSlices.NobodyKeepsOn | xinu-x86-qemu/system/clkhandler.c:44-47 | over every run of any calls: while a process keeps the processor and another of its priority is ready, every tick comes off its slice, so fewer ticks pass than it has |
| ProcessSlices.WithinQuantum | xinu-x86-qemu/system/clkhandler.c:44-47 | so from the start of the system on, a process with an equal ready is preempted within a quantum |
| ProcessWaits.QueueSteps | xinu-x86-qemu/system/signal.c:22-28 | a step takes the first n waiters of a semaphore, or adds the caller at the end, or removes one that is killed |
| ProcessWaits.FirstServed | xinu-x86-qemu/system/wait.c:29-35 | while an earlier waiter is still there, a later one leaves only by being killed |
| ProcessWaits.SleeperStep | xinu-x86-qemu/system/wakeup.c:9-20 | no step but its own tick, a kill, or a message for a timed receive ends or moves a sleep |
| ProcessWaits.WakesOnItsTick | xinu-x86-qemu/system/insertd.c:22-39 | over every run: an undisturbed sleeper sleeps until its own tick and is awake right after it |
| ProcessLaws.SleepsFor | xinu-x86-qemu/system/sleep.c:39-49 | over every run: a process that asks to wait for d ticks, 0 < d < 2^31, and is not killed or sent what it waits for, sleeps through d - 1 ticks and is ready or running after the next |
| ProcessLaws.ReleasedReady | xinu-x86-qemu/system/signal.c:26-28 | in any step, a process that leaves the queue of a semaphore runs or is ready, or has been killed |
| ProcessLaws.SemAnswers | xinu-x86-qemu/system/signaln.c:17-26 | which calls on semaphores are refused, and no others |
| ProcessLaws.SemcreateIs | xinu-x86-qemu/system/semcreate.c:34-50 | semcreate takes the nearest semaphore not in use, looking up and round, with the count asked for, and fails exactly if all are in use or the count is negative |
| ProcessLaws.SemdeleteIs | xinu-x86-qemu/system/semdelete.c:27-32 | after semdelete the semaphore is not in use and nobody waits for it |
| ProcessLaws.SendIs | xinu-x86-qemu/system/send.c:17-40 | send is refused exactly for a process that does not exist or has a message; else the message is in its mailbox, and if it waited for one it runs or is ready |
| ProcessLaws.ReceiveIs | xinu-x86-qemu/system/recvtime.c:17-43 | receive, recvtime and recvclr hand over the message that is there and empty the mailbox; with none, the first two stop the caller and the last returns |
| ProcessLaws.SuspendIs | xinu-x86-qemu/system/suspend.c:17-40 | who can be suspended, and that who is no longer runs |
| ProcessLaws.ResumeIs | xinu-x86-qemu/system/resume.c:20-34 | exactly suspended processes can be resumed, and then run or are ready |
| ProcessLaws.KillIs | xinu-x86-qemu/system/kill.c:17-22 | a process that is killed exists no more, is on no queue and does not run; exactly the null process and processes that do not exist are refused |
| ProcessLaws.CreateIs | xinu-x86-qemu/system/create.c:36-56 | a new process is suspended, with its priority and an empty mailbox, and nobody else changes |
| ProcessSemaphores.StepBalance | xinu-x86-qemu/system/wait.c:29-34 | no call and no tick changes the count of a semaphore but as its answer says |
| ProcessSemaphores.Conserved | xinu-x86-qemu/system/signaln.c:29-33 | over every run in which it is not deleted: a semaphore's count is what it was, or was last set to, plus the signals accepted, minus the waits, plus the waiters killed |
| ProcessSemaphores.WaitBlocks | xinu-x86-qemu/system/wait.c:29-34 | a wait blocks exactly if that number is not positive |
| ProcessSemaphores.FromCreation | xinu-x86-qemu/system/semcreate.c:20-27 | the number starts as the count that semcreate was asked for |
| ProcessSemaphores.Exclusion | xinu-x86-qemu/system/wait.c:29-34 | over every run from its creation with count n: the waits granted are never more than n and one for every signal, and just as many while anybody waits |
| ProcessForecast.StepKeys | xinu-x86-qemu/system/insertd.c:24-39 | no step computes a key that leaves 32 bits, or a priority that leaves 16 |
| ProcessForecast.RunKeys | xinu-x86-qemu/system/insertd.c:24-39 | in every reachable state all keys are 32-bit numbers |
| ProcessForecast.BootKeys | xinu-x86-qemu/system/initialize.c:299-326 | from the start of the system on they are |
| ProcessForecast.TickForecast | xinu-x86-qemu/system/clkhandler.c:28-37 | whatever the keys, a tick wakes exactly those sleepers for whom it was forecast, and leaves all other forecasts as they were |
| ProcessForecast.OnTimeForecast | xinu-x86-qemu/system/clkhandler.c:28-37 | sleepers that are on time are forecast for their wake-up ticks |
| ProcessForecast.SleepForecast | xinu-x86-qemu/system/sleep.c:26-50 | a call that sleeps keeps everybody on time exactly if its delay is positive as a 32-bit number; if not, everybody else is woken late, or early, by a number that depends on the delay and the first key |
| ProcessForecast.SleepInstances | xinu-x86-qemu/system/recvtime.c:27-30 | one sleeper with ten ticks left, and calls that make it late by one, early by nine, and late by 2^31 - 10 |
| HeapSpec.RoundmbUp | xinu-x86-qemu/include/memory.h:9-9 | the next multiple of eight, for sizes up to 2^32 - 8 |
| HeapSpec.HugeRequest | xinu-x86-qemu/system/getmem.c:22-42 | for the seven sizes above that the size is rounded to zero, and getmem names the first block and takes nothing |
| HeapSpec.Canonical | xinu-x86-qemu/system/freemem.c:28-67 | an ordered list without adjacent blocks is determined by the addresses it covers |
| HeapSpec.RunInBlock | xinu-x86-qemu/system/freemem.c:62-67 | a run of free addresses lies inside one block |
| HeapSpec.LowestFit | xinu-x86-qemu/system/getmem.c:24-49 | getmem names the lowest address with enough free bytes after it, and fails exactly when there is none |
| HeapSpec.HighestFit | xinu-x86-qemu/system/getstk.c:25-51 | getstk names the highest, and fails exactly when there is none |
| HeapSpec.TakenLowOk | xinu-x86-qemu/system/getmem.c:28-42 | the list stays ordered and exactly the bytes handed out are no longer free |
| HeapSpec.TakenHighOk | xinu-x86-qemu/system/getstk.c:43-51 | likewise for getstk |
| HeapSpec.OverlapsIff | xinu-x86-qemu/system/freemem.c:41-47 | for a range that ends below 2^32, freemem refuses exactly the ranges that meet a free block |
| HeapSpec.OverlapsWrapped | xinu-x86-qemu/system/freemem.c:41-47 | for a range that runs over 2^32 the sum wraps, and the test finds only the block that reaches in from below |
| HeapSpec.RejectsIff | xinu-x86-qemu/system/freemem.c:25-47 | for every size, freemem's test finds the ranges that meet a free block, and only those, exactly if the range ends below 2^32, or starts in a free block, or no free block lies above its start |
| HeapSpec.RejectInstance | xinu-x86-qemu/system/freemem.c:41-47 | two free blocks, and a range that meets one and is not refused |
| HeapSpec.FreedOk | xinu-x86-qemu/system/freemem.c:49-67 | after freemem the list is ordered, disjoint, without adjacent blocks, and covers the range and what it covered before |
| HeapSpec.GetThenFree | xinu-x86-qemu/system/getmem.c:26-41 | freemem(getmem(n), n) restores the identical list |
| HeapSpec.StackThenFree | xinu-x86-qemu/include/memory.h:16-19 | freestk(getstk(n), n) restores the identical list, with the address arithmetic of freestk |
| HeapSpec.SumTaken | xinu-x86-qemu/system/getmem.c:28-38 | memlist.mlength stays the sum of the block lengths when bytes are taken |
| HeapSpec.SumFreed | xinu-x86-qemu/system/freemem.c:49-67 | and when bytes are given back, merged or not |
| HeapSpec.SumBounded | xinu-x86-qemu/system/meminit.c:64-84 | the sum fits below the end of the last block, so it fits in 32 bits |
| KernelHeap.Heap.constructor | xinu-x86-qemu/system/meminit.c:62-84 | one block from the end of the kernel to the end of the heap |
| KernelHeap.Heap.FindFirst | xinu-x86-qemu/system/getmem.c:24-47 | the walk stops at the first block that is large enough |
| KernelHeap.Heap.Getmem | xinu-x86-qemu/system/getmem.c:9-50 | the linked list becomes the specification's, and the result is its block |
| KernelHeap.Heap.FindLast | xinu-x86-qemu/system/getstk.c:25-37 | the scan ends with the last block that is large enough |
| KernelHeap.Heap.Getstk | xinu-x86-qemu/system/getstk.c:9-52 | the linked list becomes the specification's, and the result is the highest word |
| KernelHeap.Heap.FindPlace | xinu-x86-qemu/system/freemem.c:28-34 | the walk stops between the blocks below the range and those not below it |
| KernelHeap.Heap.Refuses | xinu-x86-qemu/system/freemem.c:17-47 | the decision, for every address and every size |
| KernelHeap.Heap.Freemem | xinu-x86-qemu/system/freemem.c:9-70 | refuses, unchanged, a range outside the heap's start and end or meeting a free block; else the list becomes the specification's |
| KernelHeap.Heap.Coalesce | xinu-x86-qemu/system/freemem.c:62-67 | two adjacent blocks become one |
| KernelHeap.Heap.Freestk | xinu-x86-qemu/include/memory.h:16-19 | freemem of the range that getstk handed out |
| HeapRuns.ReturnOnce | xinu-x86-qemu/system/freemem.c:41-46 | a block that is handed out is accepted back, and refused a second time |
| HeapRuns.StepKeeps | xinu-x86-qemu/system/getmem.c:9-50 | free blocks and blocks handed out stay a partition of the heap, and their lengths add up to its size |
| HeapRuns.RunKeeps | xinu-x86-qemu/system/freemem.c:28-66 | over every run of getmem, getstk, freemem and freestk |
| HeapRuns.AllReturned | xinu-x86-qemu/system/freemem.c:48-66 | once everything is given back, in whatever order, the heap is the one initial block |
| HeapRuns.StaysInside | xinu-x86-qemu/system/freemem.c:19-23 | the list stays inside the heap exactly when what is given back ends inside it: freemem looks only at where a block starts |
| HeapRuns.OutsideInstance | xinu-x86-qemu/system/freemem.c:19-23 | a range that starts in the heap, ends beyond it, and is accepted |
| HeapRuns.Perform | xinu-x86-qemu/system/freemem.c:28-66 | the linked list goes through the states of the run |
| Sorting.MultisetSwap | xinu-x86-qemu/lib/qsort.c:109-124 | an exchange of two places, equal or not, is a permutation |
| Sorting.CyclePermutes | xinu-x86-qemu/lib/qsort.c:126-144 | so is the three-way exchange, also when two of its places coincide |
| Sorting.LikePivot | xinu-x86-qemu/lib/qsort.c:50-62 | comparing with any element equal to the pivot is comparing with the pivot |
| Sorting.DownStep | xinu-x86-qemu/lib/qsort.c:72-79 | moving the middle part up keeps the three parts and the elements |
| Sorting.UpStep | xinu-x86-qemu/lib/qsort.c:104-105 | moving the middle part down does too |
| Sorting.HalfSorted | xinu-x86-qemu/lib/qsort.c:89-102 | three parts with one outer part sorted leave only the other one to sort |
| QuickSort.Qsexc | xinu-x86-qemu/lib/qsort.c:109-124 | the two elements change places |
| QuickSort.Qstexc | xinu-x86-qemu/lib/qsort.c:126-144 | the three elements move round, in the order of the assignments |
| QuickSort.FromAbove | xinu-x86-qemu/lib/qsort.c:64-87 | the inner loop ends at the middle part or after one exchange, having looked at fewer elements than were left |
| QuickSort.Partition | xinu-x86-qemu/lib/qsort.c:44-106 | the loops end with a permutation in three parts: below, equal to, and above the pivot |
| QuickSort.Qs1 | xinu-x86-qemu/lib/qsort.c:29-107 | the segment is sorted, a permutation, everything outside untouched; each nested call gets one less of a budget d, and fewer than 2^d elements, so the recursion is no deeper than that |
| QuickSort.Qsort | xinu-x86-qemu/lib/qsort.c:22-27 | the first n elements are sorted, for every comparison that is a total preorder; the budget is log2 of n |
| Powers.Log2Is | xinu-x86-qemu/lib/qsort.c:29-107 | that budget is the least that n elements need |
| Registers.FoldXors | xinu-x86-qemu/compile/uboot-tool/crc32.c:149-152 | the difference of two registers depends only on the differences of what went in |
| Registers.FoldPacked | xinu-x86-qemu/compile/uboot-tool/crc32.c:149-152 | a few words shifted in one after the other are as good as one word at the start |
| Registers.WindowSeen | xinu-x86-qemu/compile/uboot-tool/crc32.c:164-177 | messages that differ only in a window that packs to something else than zero leave different registers |
| Crc32.StepFaithful | xinu-x86-qemu/compile/uboot-tool/crc32.c:65-71 | a step loses nothing: the polynomial's highest bit tells which bit went out |
| Crc32.NextIs | xinu-x86-qemu/compile/uboot-tool/crc32.c:149-149 | a table lookup does what eight steps of the whole register would |
| Crc32.ShiftBitsIs | xinu-x86-qemu/compile/uboot-tool/crc32.c:39-45 | shifting bits in one at a time is adding them all first, and then the steps |
| Crc32.TableIsSerial | xinu-x86-qemu/compile/uboot-tool/crc32.c:164-177 | the table's way through a message is the shift register's of section 8 of RFC 1952, for every message |
| Crc32.InParts | xinu-x86-qemu/compile/uboot-tool/crc32.c:155-177 | a message may be given to successive calls in parts, split anywhere |
| Crc32.BurstSeen | xinu-x86-qemu/compile/uboot-tool/crc32.c:164-177 | messages of one length that differ only inside four bytes in a row never have the same checksum |
| Crc32.MakePoly | xinu-x86-qemu/compile/uboot-tool/crc32.c:57-63 | the loop over the powers makes the exclusive-or pattern of the polynomial |
| Crc32.MakeTable | xinu-x86-qemu/compile/uboot-tool/crc32.c:51-73 | entry n is eight steps from n |
| Crc32.Do1 | xinu-x86-qemu/compile/uboot-tool/crc32.c:149-149 | one lookup does what shifting the eight bits of the byte in does |
| Crc32.Do8 | xinu-x86-qemu/compile/uboot-tool/crc32.c:149-152 | eight lookups |
| Crc32.Crc32NoComp | xinu-x86-qemu/compile/uboot-tool/crc32.c:184-203 | the loop by eights and the loop by ones leave the shift register's value |
| Crc32.Crc32 | xinu-x86-qemu/compile/uboot-tool/crc32.c:155-177 | the checksum of the shift register, complemented before and after |

## Left out

- LocalFileSystem.FileSystem.Lfsopen: after a file has been opened a second time the files, names and handles are known and the invariant is broken, but what operations do from then on is not stated, because the code's two control blocks cache the same blocks independently.
- KernelHeap.Heap.Freemem: takes only ranges that end below 2^32, because a range beyond that is accepted can link a block to itself; the decision itself is KernelHeap.Heap.Refuses, for all ranges.
- KernelHeap.Heap.Freestk: likewise, and not for an address below the rounded length.
- LfsCreate.Lfscreate: not for an index block count of zero or less, or fewer than three sectors, where the code's loops write an area that does not exist.
- Paging.PagingSystem.GetStoreOffset: only for a mapped page, because the code returns uninitialised values otherwise.
- Paging.PagingSystem.PageFault: only for an address inside the heap; outside it the handler returns and does nothing.
- Paging.PagingSystem.Sweep: only from a hand that is on a page or on the head of the list; from one that dangles the code follows null links.
- Paging.PagingSystem.Vcreate: needs as many free stores as the heap fills, as BsMapping does.
- Paging.PagingSystem.BsMapping: needs a free store, because the code's failure path reads and writes outside its table.
- Paging.PagingSystem.GetFreeFrame: when every frame is in use and none holds a page, FIFO panics and the clock goes on with the entry of its list end; the model stops there with an outcome of its own. Not from a dangling hand, as for Sweep.
- Processes.ProcessTable.Kill: queues and semaphores only; the message to the parent, the process count, descriptors and the stack are left out, and frames and stores are Paging.PagingSystem.Kill.
- Processes.ProcessTable.Create: takes the process that newpid found; names, stacks and descriptors are left out.
- Ports.PortSystem.Kill: not for a process that has been released and has not yet run.
- Crash consistency of the file system: a restart is modelled after all files are closed.
- chprio, which changes a priority without moving the process in the ready list.
- Wrap-around of the port sequence number, of the tick count and of semaphore counts.
- Processes.ProcessTable.Newqueue: not at the end of the table, where the code writes past it; the test for a full table is Processes.ProcessTable.QueuesFull, for every index.
- The stored CRC table that replaces the generated one when DYNAMIC_CRC_TABLE is not defined: its 256 constants are not compared.
- Elements of the sort as bytes: exchanges are of whole elements, which do not overlap.
- The virtual heap lists of vgetmem and vfreemem, which repeat the kernel heap's structure.
- The remote disk and remote file system, networking, buffer pools, tty and printing.
- Hardware: control registers, context switch, interrupt stubs, devices. A context switch is a change of the current process; an access sets the accessed bit, and a store the dirty bit too.
