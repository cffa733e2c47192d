# A verified model of a teaching kernel

This project models four connected parts of a 32-bit teaching kernel and proves what they are for:

* **The file system.** An inode has 12 direct blocks and one indirect table; two bitmaps and an inode
  table sit on a disk of 512-byte sectors; directories are tables of 24-byte entries. The class
  `Partitions.Partition` has the fields that the kernel updates and the functions of `fs/file.c`,
  `fs/dir.c` and `fs/inode.c` as methods. Its meaning is a value (`Store.Fs`) in which every block has
  at most one owner, a file is a byte string and a directory is a table of named slots in a tree.
  `Format` shows that a freshly formatted partition is such a state, `Steps` and `Runs` what each call does
  and that every run of calls stays in such states, `Room` how many blocks the calls take, `Calls` what whole
  uses of a file do, `Corners` runs into states nobody meant, `Lookup` and `Paths` what paths name, and
  `InodeTables` and `Codec` that the values are what the bytes on the disk say.
* **Memory.** `Heaps` is the size-class arena allocator; `Paging` has the physical pools, page tables and
  virtual bitmaps, the copying of an address space by fork and its release by exit.
* **Threads.** `Lists` is the intrusive list with sentinels, `Schedulers` the ready list and the semaphore
  queues, `Locks` the recursive lock under every interleaving, `Family` fork, exit and wait.
* **Pipes.** `Rings` is the ring buffer with its two blocking sides, `Pipes` the descriptor count, `FdTables`
  a process's descriptors.

Code that works step by step is a class or a method with loops, proved against functions and predicates
on a value that describes the state; lemmas then prove what those promise. For runs, a function or relation
says what one step makes of a state, each method is proved to do exactly that, and a lemma by induction over
sequences of steps proves what holds at every point of every run (`Runs.RunGood`, `Schedulers.RunSafe`,
`Locks.RunKeeps`, `Family.RunKeeps`, `Rings.PipeRunSafe`, `Rings.KeyRunSafe`, `Rings.TraceKeeps`).

How the model meets its surroundings:

* The disk is a sequence of sectors; the sectors of the inode table are read as inodes (`itab`), which
  `InodeTables` justifies byte by byte. `unsigned` values are bounded where the code stores them.
* System calls run with interrupts off, so a file-system call, a section of a lock and a turn of
  `sema_down` or `sys_wait` are single steps; everywhere else a step of another thread may come between.
* Whether a physical frame is to be had is an argument (`frames`) of the heap's methods, and how a fork ends
  is an argument of `Fork`; which thread runs next is an argument of the runs.
* `Partition` has the descriptor table of the running process; `write` and `read` are stated for the slot that a
  descriptor leads to.
* Ghost fields of `Partition` (the inodes in use, the owner of each block, the directories, the slot that
  names each inode) are bookkeeping that the invariant ties to the real fields.

## What the proofs found

Where the code and what it is meant to do part, the model follows the code, and the exact condition is
proved:

* `inode_sync` narrows the inode number to 8 bits, so it writes an inode's own slot exactly for numbers
  below 256 (`InodeTables.OwnSlotIff`).
* A directory whose slot 12 is empty while it has an indirect table would lose that table on the next entry
  (`Partitions.Partition.SyncDirEntry` states when). With inode numbers below 256 it cannot come to that
  (`Directory.FirstFitStaysLow`, `Consistency.NotQuirk`).
* `sys_mkdir` loses a block exactly when the name is new, an inode is free, and at least one block is free
  but not one more than the entry needs (`Partitions.Partition.MakeDir`): the inode is given back and the
  block is not. `Corners.MkdirLoses` is such a run on a formatted partition of eight data blocks.
* When the process has no descriptor left, `sys_open` with O_CREAT answers -1 although the file is made, and
  its slot stays taken, so that the file cannot be unlinked (`Partitions.Partition.Create`,
  `Corners.CreateWithoutFd`).
* `sys_rmdir` of "." in an empty directory gives the directory back and leaves the entry that names it;
  `sys_rmdir` of a directory that someone holds a handle of leaves a free inode number on the open list. It
  keeps the invariant exactly in the other cases (`Partitions.Partition.RemoveDir`, with the runs
  `Corners.RemoveSelf` and `Corners.RemoveHeld`). ".." as the last component is always refused, because a
  parent is never empty (`Consistency.ParentNotEmpty`).
* `sys_open` of a file that is there leaves its parent directory counted as open, and an open that is refused
  because the file is being written leaves the file counted once more than there are slots that hold it:
  exactly then the invariant is lost (`Partitions.Partition.OpenFound`). `Corners.RefusedRun` goes on from
  there to an inode number that is the next to be given out and still on the open list, so that the next
  file has it there twice (`Corners.NextCreateRepeats`, `InodeTables.PushKeepsDistinct`).
* The bitmap-sizing loop of `partition_format` ends exactly when the number of free sectors is not one more
  than a multiple of 4097 (`Format.SizeBitmap`, `Format.NeverSettles`); with fewer than 8 data blocks the
  root's bit is cleared again (`Format.FillBitmap`).
* A multi-bit `bitmap_scan` reads one bit past the map. It answers for the map alone exactly when that bit is
  set, or the map has a run of its own, or its last bits, one fewer than the run, are not all clear
  (`Bitmap.GuardDecides`, `Bitmap.Bitmap.Scan`). The page allocators of `Heaps` and `Paging` are modelled with
  the bit set, which makes their search `Bitmap.FirstRun` (`Bitmap.ScanIsFirstRun`).
* `pipe_write` takes the room to be one byte more than it is, and sleeps exactly when the data does not fit
  in what is left of 2047 bytes (`Rings.Ioqueue.PipeWrite`).
* A producer and a consumer that both block can sleep for ever: exactly when one is sent to the lock's queue
  while the other waits with the lock, which, as long as a registered side means an empty or full ring, only
  a side that comes out of the queue and registers without testing again can bring about
  (`Rings.StuckIff`, `Rings.ProperIff`, with the runs `Rings.BothSleep`, `Rings.BothSleepFull` and
  `Rings.RegistersLate`). No caller in this kernel has two blocking sides: a pipe's reader and the keyboard's
  interrupt handler test the ring first, and then nothing of this happens (`Rings.PipeRunSafe`,
  `Rings.KeyRunSafe`).
* The descriptor count of a pipe is right exactly when `sys_pipe` found two free descriptors
  (`Pipes.Pipe.SysPipe`), and a redirection keeps it exactly when it replaces a standard descriptor or a
  descriptor of the same kind (`Pipes.Pipe.Redirect`).
* A washed path may resolve where the raw one does not (`Paths.WashedMayResolveMore`): the raw one resolves
  exactly when the washed one does and every "." and ".." in it stands after a directory
  (`Paths.SameNodeIff`). `search_file` stops at the first regular file, whatever follows it
  (`Lookup.WalkResolves`).
* `malloc_page` and the copying of pages by fork succeed exactly when there is a free frame for each page and
  for each page table that is missing (`Paging.Memory.MallocPage`, `Paging.CopyPages`).

## Model

| member | source | states |
|---|---|---|
| Codec.WordRoundTrip | fs/dir.c:158-164 | a 32-bit little-endian word written and read back is itself |
| Codec.TableRoundTrip | fs/dir.c:120-164 | a sector written from 128 block numbers reads back as them |
| Codec.EntryRoundTrip | fs/dir.c:92-100 | an entry whose name is a C string of at most 15 characters survives its 24 bytes |
| Codec.PutEntryUpdates | fs/dir.c:174-182 | writing entry j of a sector changes that one of the 21 entries and no other |
| Bitmap.PutBit | lib/kernel/bitmap.c:59-68 | setting or clearing one bit of a byte leaves its other seven |
| Bitmap.FirstClear | lib/kernel/bitmap.c:21-37 | the lowest clear position, or -1 exactly when all are set |
| Bitmap.FirstRun | lib/kernel/bitmap.c:38-55 | the lowest run of cnt clear positions, or -1 exactly when there is none |
| Bitmap.Bitmap.Init | lib/kernel/bitmap.c:9-11 | all bits of the map are clear, the byte after it is untouched |
| Bitmap.Bitmap.Set | lib/kernel/bitmap.c:59-68 | exactly the one bit changes |
| Bitmap.Bitmap.ScanFirst | lib/kernel/bitmap.c:21-37 | the lowest clear bit of the map, or -1 exactly when the map is full |
| Bitmap.Bitmap.Scan | lib/kernel/bitmap.c:21-56 | one bit: the lowest clear one or -1; more: the lowest run over the map and its guard bit, which is that of the map alone exactly under the stated condition |
| Bitmap.Bitmap.ScanRun | lib/kernel/bitmap.c:38-56 | counting on from the first clear bit finds the lowest run |
| Bitmap.GuardDecides | lib/kernel/bitmap.c:38-55 | the run found is the lowest one of the map exactly when the guard bit is set, the map has a run, or its last cnt - 1 bits are not all clear |
| Bitmap.ScanIsFirstRun | kernel/memory.c:81-90 | with the guard bit set, or for one bit, the scan is the lowest-run search that the page allocators use |
| Store.OneOwner | fs/inode.c:160-204 | two equal references are the same reference, to a marked data block |
| Store.ViewFrame | fs/dir.c:29-52 | an inode whose record and owned sectors stay the same keeps its meaning |
| Moves.Rewrite | fs/dir.c:174-182 | rewriting one owned block changes one sector of one inode's meaning and nobody else's, and no owner |
| Moves.Grow | fs/file.c:231-332 | free blocks given to one inode keep one owner for each block and lose none |
| Moves.Shrink | fs/dir.c:254-289 | blocks taken from one inode and unmarked keep one owner for each block and lose none |
| Directory.AddKeepsShape | fs/dir.c:127-189 | an entry in the lowest dead slot keeps every directory invariant: blocks hold live entries, the table is there if needed, size counts |
| Directory.RemoveKeepsShape | fs/dir.c:254-297 | so does taking an entry out, with its block and the table going when they are empty |
| Directory.FewEntries | fs/dir.c:142-160 | with inode numbers below 256 a directory has at most 258 live entries |
| Directory.FirstFitStaysLow | fs/dir.c:142-160 | so the lowest dead slot of such a directory lies below slot 273: block 12 is the last ever used |
| Consistency.NotQuirk | fs/dir.c:142-160 | a directory that never went past block 12 has block 12 whenever it has a table, so that case does not come up |
| DirMoves.RewriteEntry | fs/dir.c:174-182 | an entry written into a present block changes that slot only, and no other inode |
| DirMoves.NewDirectOk | fs/dir.c:130-171 | a new direct block holds the new entry and nothing else, every other inode is the same |
| DirMoves.NewIndirectOk | fs/dir.c:142-171 | a new indirect block likewise, with its table; an old table is lost exactly when block 12 was empty beside it |
| DirMoves.DroppedOk | fs/dir.c:254-292 | giving back the block of an only entry removes that entry, and nothing is lost |
| DirMoves.AloneIsOnlyLive | fs/dir.c:226-254 | the counting loop finds a block that can go: not the first, with no other live entry |
| DirMoves.NotAloneKeepsOne | fs/dir.c:226-289 | otherwise the block keeps a live entry or is the first |
| Partitions.Partition.BlockBitmapAlloc | fs/file.c:59-66 | the lowest free data block is marked, or none is there and nothing changes |
| Partitions.Partition.LoadBlocks | fs/dir.c:34-48 | the 140 block numbers of an inode as its meaning has them |
| Partitions.Partition.SearchDirEntry | fs/dir.c:29-80 | finds an entry exactly when some slot has the name, and it is that slot |
| Partitions.Partition.SyncDirEntry | fs/dir.c:103-189 | true exactly when there is a dead slot and its blocks are free: none, one, or two for block 12 with its table; then exactly the new entry is added, in the lowest dead slot, and a block is lost exactly in the case of an empty slot 12 beside a table; false: nothing changed, but for that case |
| Partitions.Partition.CountBlock | fs/dir.c:222-243 | the counting loop over one block: how many entries count, whether "." is there, where the inode's entry is |
| Partitions.Partition.RemoveFound | fs/dir.c:251-295 | exactly that entry goes, with its block or table when they are empty |
| Partitions.Partition.DeleteDirEntry | fs/dir.c:192-299 | removes exactly one entry, the one of the inode, and fails exactly when there is none |
| Partitions.Partition.InodeSync | fs/inode.c:40-67 | the slot of the number's low 8 bits becomes the inode, no other slot changes |
| Partitions.Partition.AllocRange | fs/file.c:265-279 | a range of blocks is allocated, lowest first, or there are too few free ones |
| Partitions.Partition.GrowDirect | fs/file.c:259-279 | situation 1: new direct blocks |
| Partitions.Partition.GrowAcross | fs/file.c:280-312 | situation 2: the table and blocks on both sides of it |
| Partitions.Partition.GrowIndirect | fs/file.c:313-331 | situation 3: new indirect blocks |
| Partitions.Partition.FirstBlock | fs/file.c:231-240 | a file never written gets block 0 |
| Partitions.Partition.PrepareBlocks | fs/file.c:231-332 | afterwards the file owns exactly blocks 0 to (size + count) / 512; it fails exactly when too few are free |
| Partitions.Partition.WriteChunk | fs/file.c:338-355 | one chunk appends its bytes |
| Partitions.Partition.WriteChunks | fs/file.c:334-359 | the loop appends exactly the buffer and leaves the position at the last byte |
| Partitions.Partition.FileWrite | fs/file.c:200-364 | appends exactly the buffer, changes no other inode and loses no block; -1 exactly when too long or out of blocks |
| Partitions.Partition.LoadForRead | fs/file.c:392-432 | the blocks of the range to be read; the table is there when it is needed |
| Partitions.Partition.FileRead | fs/file.c:367-454 | exactly the bytes from the position to the end of the read or of the file; -1 exactly at the end |
| Partitions.Partition.Lseek | fs/fs.c:464-490 | the new position lies inside the file, or -1 and nothing changed |
| Partitions.Partition.InodeOpen | fs/inode.c:70-109 | shared when it is on the open list, read from its slot otherwise |
| Partitions.Partition.InodeClose | fs/inode.c:112-125 | off the list with the last close |
| Partitions.Partition.OpenDir | fs/fs.c:653-674 | the handle of sys_opendir counts the directory once more, and the invariant is kept |
| Partitions.Partition.CloseDir | fs/fs.c:677-684 | the handle is given back, and the invariant is kept |
| Partitions.Partition.GetFreeSlotInGlobal | fs/file.c:15-28 | the lowest free slot from 3 on, or -1 exactly when there is none |
| Partitions.Partition.InodeBitmapAlloc | fs/file.c:49-56 | the lowest free inode number |
| Partitions.Partition.MakeFile | fs/file.c:89-143 | file_create up to the descriptor: succeeds exactly with a free inode, a free slot and room for the entry, and otherwise everything is rolled back |
| Partitions.Partition.FileCreate | fs/file.c:89-158 | fails and rolls everything back exactly when an inode, a slot or room for the entry is missing; otherwise a new empty inode, its entry, the lowest free slot and the lowest free descriptor, or -1 with all of it made when no descriptor is free |
| Partitions.Partition.Create | fs/fs.c:321-375 | keeps the invariant; makes the file exactly when the name is new and an inode, a slot and the blocks for the entry are free, else nothing changes; the descriptor is the lowest free one, and -1 with the file made exactly when there is none |
| Partitions.Partition.FileOpen | fs/file.c:161-187 | refused exactly when the file is open for writing and the flag writes, with the count left raised; otherwise the lowest free slot holds the inode once more, with the lowest free descriptor or, without one, the slot still taken |
| Partitions.Partition.OpenFound | fs/fs.c:321-375 | sys_open of a file that is there: the whole new state, the parent left open, and the invariant kept exactly when the open is not refused |
| Partitions.Partition.ReleaseBlocks | fs/inode.c:160-191 | exactly the bits of the inode's blocks and table are cleared; none is the root's block |
| Partitions.Partition.InodeRelease | fs/inode.c:160-204 | the inode, its number, its blocks and its slot are given back, the open list is as before |
| Partitions.Partition.InUse | fs/fs.c:512-519 | whether some slot of file_table holds the inode |
| Partitions.Partition.Unlink | fs/fs.c:493-541 | 0 exactly when the name is a regular file nobody has open, then exactly it goes; else nothing changed |
| Partitions.Partition.MakeDir | fs/fs.c:544-650 | success exactly when the name is new, an inode is free and so are one block and those of the entry; a block is lost exactly when blocks are free but too few for that; success adds an empty directory, and else nothing changes; keeps the invariant |
| Partitions.Partition.DirRemove | fs/dir.c:359-377 | its assertions hold for an empty directory, which goes with its entry; asked to remove itself, a directory goes and its entry stays |
| Partitions.Partition.RemoveDir | fs/fs.c:698-727 | 0 exactly when the name, "." and ".." included, is a directory with nothing but its dots; then exactly it goes with its entry, but for "." the entry stays and dangles; the invariant is kept exactly when it is not "." and the directory is not on the open list |
| Partitions.Partition.FileClose | fs/file.c:189-197 | one count less, off the open list with the last, every inode the same, and so are the free blocks |
| Partitions.Partition.SysClose | fs/fs.c:386-403 | the same through a descriptor, which is free afterwards |
| Partitions.Partition.Write | fs/fs.c:406-431 | -1 exactly when the file was not opened for writing, would grow too large or finds too few blocks; otherwise it keeps the invariant, appends the buffer and takes exactly the blocks it needs |
| Consistency.WritesAre | fs/fs.h:15 | of the flags 0 to 7 all but 0 and 4 write |
| Partitions.Partition.Read | fs/fs.c:434-461 | sys_read on an open file keeps the invariant, returns exactly the bytes from the position on as far as they are there, and moves the position behind them; -1 exactly at the end, with nothing changed |
| Tree.TreeAddFile | fs/file.c:89-158 | a new file's entry keeps the tree: every inode but the root is named by one slot, and parents lead to the root |
| Tree.TreeAddDir | fs/fs.c:544-650 | so does a new directory with its dots |
| Tree.TreeRemove | fs/fs.c:493-541 | so does removing an entry of a file or an empty directory |
| Tree.NotOwnChild | fs/fs.c:730-739 | no directory contains itself |
| Tree.ChildrenDistinct | fs/dir.c:192-240 | a directory's entries name different inodes, none of them the root |
| Consistency.CoreCreated | fs/file.c:89-158 | creating a file keeps blocks, directories, files and the tree consistent |
| Consistency.CoreDirCreated | fs/fs.c:544-650 | so does making a directory |
| Consistency.CoreRemoved | fs/inode.c:160-204 | so does removing an entry with its inode |
| Consistency.InvWrote | fs/file.c:200-364 | a successful write keeps the whole invariant and loses no block |
| Consistency.InvFileMade | fs/fs.c:321-375 | so does creating a file through its parent directory |
| Consistency.InvDirMade | fs/fs.c:544-650 | so does sys_mkdir |
| Consistency.InvMkdirFailed | fs/fs.c:613-649 | when the entry cannot be made, everything is as before but the new block is marked and owned by nobody |
| Consistency.InvNodeGone | fs/fs.c:493-541 | unlink or rmdir loses no block and keeps the invariant exactly when the inode is not on the open list |
| Consistency.InvSlotClosed | fs/file.c:189-197 | closing a slot keeps the counts of the open list equal to the slots that hold each file |
| Consistency.InvSlotOpened | fs/file.c:161-187 | opening a file through a slot keeps the invariant |
| Consistency.RefusedBreaks | fs/file.c:172-185 | a refused open breaks it: the count is no longer that of the slots |
| Consistency.InvHandle | fs/fs.c:653-684 | handles of directories, opened or closed, keep it |
| Consistency.SelfGoneDangles | fs/dir.c:359-377 | a directory removed through its own "." leaves an entry that names no inode, and the invariant does not hold |
| Consistency.ParentNotEmpty | fs/fs.c:698-727 | a parent of a directory is not empty, so ".." is never removed |
| Room.FreeDelta | fs/file.c:59-66 | free, owned and lost blocks are all the data blocks, so what one inode gains is what is free no more |
| Room.WriteTakes | fs/file.c:231-332 | a write takes exactly the blocks it needs, its table included |
| Room.NeedAdds | fs/file.c:242-248 | two writes need what one write of both needs |
| Room.AddedUses | fs/dir.c:127-189 | an entry takes no block, one, or two with the table |
| Room.MadeTakes | fs/file.c:89-158 | a new file takes the blocks of its entry |
| Room.DeadThere | fs/dir.c:127-189 | a directory with inode numbers below 256 has a dead slot below 273 |
| Steps.CreateKeeps | fs/fs.c:321-375 | what sys_open with O_CREAT does, from opening the parent to closing it, keeps the invariant and adds just the file |
| Steps.MkdirKeeps | fs/fs.c:544-650 | so does a successful sys_mkdir with its directory |
| Steps.LostKeeps | fs/fs.c:613-649 | a block lost by sys_mkdir changes nothing else |
| Steps.RemoveKeeps | fs/fs.c:493-541 | a removal keeps the invariant exactly when the inode is not on the open list |
| Consistency.EmptyDir | fs/dir.c:353-356 | i_size is two entries exactly when only the dots are live, and then there is no other block and no table |
| Consistency.FoundSlot | fs/dir.c:29-80 | a name that is found is live, and beyond the dots its inode is named by no other slot |
| Consistency.BitsFromRefs | fs/inode.c:160-204 | equal references and equal lost blocks mean equal bitmaps, bit for bit |
| Consistency.AddThenRemove | fs/dir.c:254-297 | adding an entry and removing it gives back the block list, the table and every slot |
| Consistency.BitmapsRestored | fs/fs.c:493-541 | making a file, changing only it and removing it restores both bitmaps |
| Calls.WriteAll | fs/fs.c:406-431 | repeated writes succeed exactly when the file is open for writing and the blocks for all bytes are free; then they append all buffers, take exactly these blocks and change nothing else |
| Calls.WriteThenRead | fs/fs.c:434-490 | exactly then writing, seeking to 0 and reading gives the old bytes and then all the buffers |
| Calls.FromTwice | fs/file.c:367-454 | on the bytes of a file: what two reads in a row give is what one read of both counts gives |
| Calls.ReadTwice | fs/fs.c:434-461 | two calls of sys_read give the data, the position and the state that one call of both counts gives |
| Calls.ReadToEnd | fs/fs.c:434-461 | reading in pieces until -1 comes to an end, with every byte from the position to the end of the file once and in order |
| Calls.ReadAfterWrite | fs/file.c:334-359 | after a write a read gives the last byte written and no other |
| Calls.UseOnce | fs/fs.c:321-541 | create, write, close and unlink can be done exactly when name, inode, slot, descriptor, flag and blocks allow it; then both bitmaps, the descriptors, all other inodes and the slots are what they were |
| Corners.CreateWithoutFd | fs/file.c:143-144 | without a free descriptor the answer is -1, the file is there, its slot is taken, and unlink refuses it |
| Corners.MakeAndRefuse | fs/file.c:161-187 | made, opened for writing and refused: the count is 3 while two slots hold the file |
| Corners.RefusedRun | fs/file.c:161-197 | after both are closed and the file is unlinked, its number is the next one to be given out and still on the open list |
| Corners.NextCreateRepeats | fs/file.c:140-141 | so the next file has its number on open_inodes twice |
| Corners.RemoveSelf | fs/fs.c:698-727 | mkdir of a directory and rmdir of its ".": an entry names an inode that is not there |
| Corners.RemoveHeld | fs/fs.c:653-727 | mkdir, opendir and rmdir of a directory: its number is free and still on the open list |
| Corners.MkdirLoses | fs/fs.c:585-649 | a run on a formatted partition of eight data blocks at whose end exactly one block is marked and nobody's |
| Listing.EachOnce | fs/dir.c:302-350 | the list of live entries has each exactly once |
| Listing.DirRead | fs/dir.c:302-350 | the live entry at dir_pos, then NULL; its assertion holds |
| Listing.ReadAll | fs/fs.c:686-695 | repeated dir_read from position 0 gives each live entry exactly once |
| InodeTables.InodeRoundTrip | fs/inode.c:46-53 | the 76 bytes of an inode read back as its number, size and blocks |
| InodeTables.SlotOnly | fs/inode.c:55-66 | bytes put in a slot are in that slot, and no other of the 4096 slots changes |
| InodeTables.InodeTable.Locate | fs/inode.c:17-37 | sector, offset and whether the slot crosses a sector boundary |
| InodeTables.InodeTable.Patch | fs/inode.c:55-66 | reading, changing and writing one or two sectors changes exactly the 76 bytes |
| InodeTables.InodeTable.Sync | fs/inode.c:40-67 | exactly the 76 bytes of the slot of the low 8 bits of the number change |
| InodeTables.InodeTable.Load | fs/inode.c:82-104 | the inode of the full number's slot |
| InodeTables.InodeTable.Delete | fs/inode.c:141-157 | exactly the 76 bytes of the full number's slot become zero |
| InodeTables.OwnSlotIff | fs/inode.c:42-44 | inode_sync writes the inode's own slot exactly for numbers below 256 |
| InodeTables.OpenOnList | fs/inode.c:70-80 | the open list keeps each number at most once |
| InodeTables.PushKeepsDistinct | fs/file.c:140-141 | creating keeps it so exactly when the number was not on the list |
| InodeTables.DataKeepsTable | fs/inode.c:17-37 | a sector written outside the table changes no inode of it |
| InodeTables.SlotKeepsData | fs/inode.c:55-66 | a slot written changes no sector outside the table |
| Format.SizeBitmap | fs/fs.c:83-97 | the sizing loop ends, and the bitmap covers exactly the blocks that are left |
| Format.NeverSettles | fs/fs.c:92-97 | for one more than a multiple of 4097 no two turns agree |
| Format.FillBitmap | fs/fs.c:139-149 | only bit 0 and the padding are set; bit 0 exactly with at least 8 data blocks |
| Format.RegionsTile | fs/fs.c:99-115 | each sector of the partition is in exactly one region |
| Format.FirstInv | fs/fs.c:150-178 | a formatted partition satisfies the file-system invariant, with an empty root and no block lost |
| Format.PartitionFormat | fs/fs.c:71-178 | writes such a partition, the rest of its inode table zero, and nothing outside its table and root block but the bitmaps |
| Paths.PathParse | fs/fs.c:233-244 | the first component and the rest |
| Paths.WashStep | shell/buildin_cmd.c:24-35 | one component pushed on, popped off or ignored, on the string itself |
| Paths.WashPath | shell/buildin_cmd.c:10-41 | the spelling of the stack normal form of the components |
| Paths.NormIsNormal | shell/buildin_cmd.c:24-35 | the normal form has no ".", no ".." and no empty component |
| Paths.ComponentsOfSpell | shell/buildin_cmd.c:10-41 | parsing a spelled stack gives the stack |
| Paths.WashIdempotent | shell/buildin_cmd.c:10-41 | washing a washed path changes nothing |
| Paths.SpelledTidily | shell/buildin_cmd.c:24-35 | no doubled slash, and a trailing one only for the root |
| Paths.SameNode | shell/buildin_cmd.c:10-41 | wherever the raw path resolves in a directory tree, the washed one resolves to the same inode |
| Paths.SameNodeIff | shell/buildin_cmd.c:10-41 | the raw path resolves exactly when the washed one does and every "." and ".." in it stands after a directory |
| Paths.WashedMayResolveMore | shell/buildin_cmd.c:24-30 | an instance: a missing component followed by ".." |
| Lookup.WalkResolves | fs/fs.c:265-318 | search_file against the tree, for all three outcomes |
| Lookup.WalkParent | fs/fs.c:265-318 | the directory reported beside the answer: where the file is named, where the component is missing, or what the path leads to without its last component |
| Lookup.RootNames | fs/fs.c:268-274 | the three names answered at once walk to the root as well |
| Lookup.SearchFile | fs/fs.c:265-318 | inode, parent and type as the walk has them; only the parent is left open |
| Lookup.UnslashedKept | fs/fs.c:233-244 | names from path_parse keep the tree free of slashes |
| Lookup.ParentNr | fs/fs.c:730-739 | entry 1 of the first block is the parent's number |
| Lookup.ChildName | fs/fs.c:742-780 | the name of the one slot with the child's number |
| Lookup.Unreverse | fs/fs.c:816-821 | the strrchr loop turns the reversed path round |
| Lookup.GetCwd | fs/fs.c:783-824 | ends, with a washed path that resolves to the working directory |
| Lookup.CwdFound | fs/fs.c:783-824 | search_file maps the path of sys_getcwd back to the directory |
| Runs.FindDir | fs/fs.c:265-318 | exactly the directory that the walk of the path finds, or -1, with the state as it was |
| Runs.StepGood | fs/fs.c:321-727 | every step, of any call that does not end a run, keeps the invariant and the names free of slashes |
| Runs.RunGood | fs/fs.c:321-727 | over every sequence of states that such steps lead through, the invariant holds at each |
| Runs.Perform | fs/fs.c:321-727 | each call is the step that the relation says, and the calls after which nothing is promised are exactly those listed in `Stops` |
| Runs.Run | fs/fs.c:321-727 | each call is the step that the relation says; it ends early exactly with a call after which nothing is promised |
| Runs.BlocksHaveOneOwner | fs/file.c:59-66 | in every such state no block is referenced twice, each is marked, in the data region, and not the root's |
| Runs.FirstGood | fs/fs.c:71-178 | such runs may start on a formatted partition |
| Lists.List.constructor | lib/kernel/list.c:4-9 | an empty list on its two sentinels |
| Lists.List.InsertBefore | lib/kernel/list.c:11-18 | the element is at that position, the rest in order |
| Lists.List.Push | lib/kernel/list.c:20-22 | at the front |
| Lists.List.Append | lib/kernel/list.c:26-28 | at the end |
| Lists.List.Remove | lib/kernel/list.c:30-35 | that element gone, the rest in order |
| Lists.List.Pop | lib/kernel/list.c:37-41 | the first, and the rest |
| Lists.List.Empty | lib/kernel/list.c:43-45 | whether there is no element |
| Lists.List.Len | lib/kernel/list.c:47-55 | the number of elements |
| Lists.List.Find | lib/kernel/list.c:71-80 | whether the element is in the list |
| Lists.Transfer | thread/sync.c:36-40 | lists on different nodes do not disturb each other |
| Schedulers.SafeMeans | thread/thread.c:153-173 | one RUNNING thread, READY exactly the ready list without repeats, nobody on two lists |
| Schedulers.Scheduler.constructor | thread/thread.c:175-184 | what thread_init leaves is such a state |
| Schedulers.Scheduler.Schedule | thread/thread.c:153-173 | keeps it, for any status of the caller: the first of the ready list runs, behind which a running caller has lined up, or else the idle thread; nobody else changes; the assertion holds |
| Schedulers.Scheduler.Tick | thread/thread.c:153-173 | a used-up thread goes to the end, the first of the list runs |
| Schedulers.Scheduler.Yield | thread/thread.c:128-136 | the same for thread_yield |
| Schedulers.Scheduler.Block | thread/thread.c:186-193 | the caller gets the status, and the first of the ready list runs, or else the idle thread; nobody else changes |
| Schedulers.Scheduler.Unblock | thread/thread.c:195-209 | the thread goes to the front; the assertions hold |
| Schedulers.Scheduler.Start | thread/thread.c:107-119 | a new thread goes to the end |
| Schedulers.Scheduler.Reap | thread/thread.c:281-301 | a hanging thread leaves, everything else the same |
| Schedulers.Scheduler.ExitSelf | thread/thread.c:281-301 | the running thread leaves, and the first of the ready list runs, or else the idle thread; nobody else changes |
| Schedulers.Scheduler.SemaInit | thread/sync.c:6-9 | a semaphore with nobody waiting |
| Schedulers.Scheduler.SemaDown | thread/sync.c:17-31 | the value is taken, or the caller is last on the waiters list and the first of the ready list runs, or else the idle thread |
| Schedulers.Scheduler.SemaUp | thread/sync.c:33-44 | the value is back and the first waiter is first on the ready list; the assertions hold |
| Schedulers.NextSafe | thread/thread.c:128-209 | each action keeps the state safe |
| Schedulers.RunSafe | thread/thread.c:128-209 | over every sequence of actions in any order the state is safe at each point |
| Schedulers.StepMoves | thread/thread.c:153-173 | an action that puts nobody in front moves every ready thread one place up when it dispatches, and none otherwise |
| Schedulers.RunsInTurn | thread/thread.c:128-209 | over every run in which nobody is put in front, the thread at position k of the ready list runs with dispatch k + 1 |
| Schedulers.Scheduler.Run | thread/thread.c:128-209 | a run of the methods ends in exactly the state that the actions lead to, and it is safe |
| Locks.InvMeans | thread/sync.c:46-67 | one owner, count equals acquires minus releases, waiters with value 1 mean a woken thread |
| Locks.Lock.constructor | thread/sync.c:11-15 | a free lock |
| Locks.Lock.TestHolder | thread/sync.c:46-47 | an owner acquires again, others go to sema_down |
| Locks.Lock.DownTurn | thread/sync.c:17-31 | one turn of sema_down; its assertions hold |
| Locks.Lock.SetHolder | thread/sync.c:49-50 | the one who has the semaphore becomes the holder |
| Locks.Lock.SetCount | thread/sync.c:50-51 | the count was 0 and is 1 |
| Locks.Lock.AddCount | thread/sync.c:52-54 | a further acquire |
| Locks.Lock.TestCount | thread/sync.c:57-62 | both assertions of lock_release hold |
| Locks.Lock.DropCount | thread/sync.c:59-61 | one release of several |
| Locks.Lock.ClearHolder | thread/sync.c:63-64 | the last release: no holder |
| Locks.Lock.ClearCount | thread/sync.c:64-65 | and no count |
| Locks.Lock.Up | thread/sync.c:33-44 | the value is back, the first waiter is woken; both assertions hold |
| Locks.SectionKeeps | thread/sync.c:17-67 | each section keeps the invariant, and the assertions in it hold |
| Locks.RunKeeps | thread/sync.c:17-67 | over every interleaving of any threads' calls the invariant holds at each point, and so do the assertions of every next section |
| Locks.NestedUse | thread/sync.c:17-67 | n acquires and n releases by one thread: held that many times in between, and as before at the end |
| Locks.Run | thread/sync.c:17-67 | the methods under an interleaving end in exactly the state that its choices lead to |
| Family.LinksEndAtInit | userprog/wait_exit.c:83-90 | parent links of every process lead to pid 1 |
| Family.ForkKeeps | userprog/fork.c:131-147 | a fork gives a pid that nobody has and keeps the family in order |
| Family.ExitBeginKeeps | userprog/wait_exit.c:116-122 | giving the children to pid 1 keeps it in order and leaves none |
| Family.ExitFinishKeeps | userprog/wait_exit.c:123-129 | the parent lookup never fails, and no parent but pid 1 waits while its child hangs |
| Family.ReapKeeps | userprog/wait_exit.c:96-105 | reaping the first hanging child logs it once with its status and frees its pid |
| Family.BlockKeeps | userprog/wait_exit.c:107-112 | waiting without a hanging child keeps it in order |
| Family.Processes.constructor | thread/thread.c:175-184 | init, main and idle with pids 1, 2 and 3 |
| Family.Processes.AllocatePid | thread/thread.c:34-40 | the lowest free pid |
| Family.Processes.Fork | userprog/fork.c:131-147 | a child of the caller, ACTIVE and last on the all list, with the lowest free pid and every other process unchanged; or -1 with at most a pid lost |
| Family.Processes.ExitBegin | userprog/wait_exit.c:116-122 | status kept in 8 bits, every child given to pid 1, nobody else changed |
| Family.Processes.ExitFinish | userprog/wait_exit.c:123-129 | the parent, pid 1 included, is woken if it waits, the process hangs, nobody else changes |
| Family.Processes.Wait | userprog/wait_exit.c:92-114 | a hanging child with the status kept for it exactly when there is one, and then it is gone and its pid free; -1 only without children; else WAITING |
| Family.Processes.KernelExit | thread/thread.c:281-301 | a kernel thread leaves and its pid is free |
| Family.NextKeeps | userprog/wait_exit.c:65-129 | each step of fork, exit, wait and thread exit keeps the family in order |
| Family.RunKeeps | userprog/wait_exit.c:65-129 | over every sequence of them with any switches the family is in order at each point, and parent links lead to pid 1 |
| Family.Int8Is | userprog/wait_exit.c:116-122 | a status in -128 to 127 is kept as it is, any other modulo 256 |
| Family.ForkGivesChild | userprog/fork.c:9-29 | the new process is a child of the one that forked |
| Family.ChildUntilWait | userprog/wait_exit.c:65-129 | over every run in which p does not exit, a child of p stays one until p's own wait gets it |
| Family.ExitsStay | userprog/wait_exit.c:116-122 | over every run a status passed to sys_exit is kept |
| Family.ParentGetsStatus | userprog/wait_exit.c:92-129 | over every run: when r passed v to sys_exit and hangs as the only such child of p, p's wait gets r with v as an int8_t |
| Family.Run | userprog/wait_exit.c:65-129 | the methods end in exactly the state that the choices lead to |
| Heaps.LiveWithin | kernel/memory.c:250-257 | a live allocation lies in its own arena, after the header |
| Heaps.LiveApart | kernel/memory.c:259-331 | live allocations are disjoint |
| Heaps.LiveApartFromRest | kernel/memory.c:259-331 | and disjoint from headers and free blocks |
| Heaps.ArenaHasLive | kernel/memory.c:420-431 | an arena that is there has something live |
| Heaps.FullMeansAll | kernel/memory.c:420-428 | a full count means that every block is on the free list, as sys_free asserts |
| Heaps.TakeKeeps | kernel/memory.c:320-328 | taking a block keeps cnt equal to the free blocks and each block free or live |
| Heaps.GiveKeeps | kernel/memory.c:418-420 | so does giving one back |
| Heaps.OpenKeeps | kernel/memory.c:296-319 | so does cutting up a new page |
| Heaps.CloseKeeps | kernel/memory.c:420-429 | so does giving back a page |
| Heaps.LargeKeeps | kernel/memory.c:280-291 | so does a large allocation |
| Heaps.LargeGoneKeeps | kernel/memory.c:415-416 | and its end |
| Heaps.Heap.constructor | kernel/memory.c:239-248 | an empty heap |
| Heaps.Heap.MallocPage | kernel/memory.c:155-173 | the lowest run of unused pages; without frames they stay marked |
| Heaps.Heap.ClassOf | kernel/memory.c:293-298 | the smallest class that is big enough |
| Heaps.Heap.OpenArena | kernel/memory.c:299-319 | a page cut into free blocks of the class, everything live untouched |
| Heaps.Heap.TakeFirst | kernel/memory.c:320-328 | the first free block, cleared |
| Heaps.Heap.Malloc | kernel/memory.c:259-331 | NULL exactly when there is no room; otherwise a zeroed new allocation, every live byte kept: the first free block of the smallest class, or the first one of the lowest unused page, or the lowest run of pages that is long enough; no other page, arena or list changes, and without frames exactly that page or run stays marked |
| Heaps.Heap.RemoveBlocks | kernel/memory.c:421-427 | every block of the page leaves the list, each was on it, and the others stay in order |
| Heaps.Heap.Free | kernel/memory.c:402-434 | exactly that allocation goes; its page goes exactly with the last block, and its blocks leave the free list, whose others stay in order |
| Heaps.MallocFree | kernel/memory.c:259-434 | sys_malloc and sys_free of its result leave the pages, the arenas, the live allocations and the members of every free list as they were |
| Paging.Injective | kernel/memory.c:133-152 | no frame is mapped twice nor a table as well, and it is marked |
| Paging.TookFacts | kernel/memory.c:122-130 | palloc marks a frame that nobody has |
| Paging.AddedKeeps | kernel/memory.c:133-152 | mapping a page, with its table if needed, changes just that |
| Paging.AddedSpent | kernel/memory.c:133-152 | it takes one frame, and one more exactly for a missing table |
| Paging.TooFew | kernel/memory.c:155-173 | too few frames for the next page are too few for all |
| Paging.Memory.Palloc | kernel/memory.c:122-130 | the lowest free frame of the pool is marked and no other, or none is there and nothing changes |
| Paging.Memory.AddPage | kernel/memory.c:133-152 | one page mapped on a frame that was free, exactly when there is a frame for it and for a missing table; the entry was not present |
| Paging.Memory.SetVirtual | kernel/memory.c:81-106 | exactly those bits of the virtual bitmap |
| Paging.Memory.MallocPage | kernel/memory.c:155-173 | the lowest clear run mapped on frames that were free, exactly when there is a run and enough frames for its pages and the missing tables; nothing else changes; when frames run out, what was mapped till then stays, and is stated |
| Paging.Memory.MfreePage | kernel/memory.c:369-400 | exactly those pages, their frames and their virtual bits |
| Paging.Memory.FreeFrame | kernel/memory.c:449-460 | exactly the frame's bit |
| Paging.Undone | kernel/memory.c:333-400 | mfree_page undoes malloc_page but for the page tables it added |
| Paging.MallocThenFree | kernel/memory.c:155-400 | the two calls in a row, which succeed exactly with a run and enough frames |
| Paging.CopyPages | userprog/fork.c:35-65 | every marked page is copied exactly when the user pool has a frame for each and the kernel pool one for each missing table; otherwise the pool that ran out is the one reported, and without a frame for a page the pages before it are copied |
| Paging.CopiedMeans | userprog/fork.c:49-57 | the child's page has the parent's content on a frame nobody had |
| Paging.StillMarked | userprog/wait_exit.c:22-41 | each frame is freed for the first time |
| Paging.ReleasePages | userprog/wait_exit.c:9-41 | exactly the frames of the process's pages and tables are free afterwards, and no content changes |
| Rings.Ioqueue.constructor | device/ioqueue.c:5-9 | an empty ring |
| Rings.Ioqueue.Length | device/ioqueue.c:68-76 | the number of bytes in the ring |
| Rings.Ioqueue.Store | device/ioqueue.c:57-58 | one byte at the end |
| Rings.Ioqueue.Load | device/ioqueue.c:43-44 | the first byte, and the rest |
| Rings.Ioqueue.Get | device/ioqueue.c:37-50 | a byte and a woken producer, or asleep on the ring or its lock; first in, first out |
| Rings.Ioqueue.Put | device/ioqueue.c:52-65 | the byte stored and a woken consumer, or asleep |
| Rings.Ioqueue.ConsumerReleases | device/ioqueue.c:41 | the lock goes to the one who queues for it |
| Rings.Ioqueue.ProducerReleases | device/ioqueue.c:56 | the same for the producer |
| Rings.Ioqueue.ConsumerRetries | device/ioqueue.c:39-40 | registers without testing again; empty exactly if nothing came in meanwhile; both sides sleep for ever exactly if the producer waits |
| Rings.Ioqueue.ProducerRetries | device/ioqueue.c:54-55 | the same for the producer and full |
| Rings.Ioqueue.PipeRead | shell/pipe.c:28-43 | the first min(count, length) bytes, without sleeping |
| Rings.Ioqueue.PipeWrite | shell/pipe.c:45-58 | sleeps exactly when the data does not fit; what fits is in, in order |
| Rings.ProperIff | device/ioqueue.c:37-65 | registered means empty or full after a section exactly when it is not a late registration |
| Rings.StuckIff | device/ioqueue.c:37-65 | both sides sleep for ever after a section exactly when it queues one while the other waits |
| Rings.TraceKeeps | device/ioqueue.c:37-65 | over every run of two blocking sides the bytes stay in order, and a run goes on only while they are not both asleep |
| Rings.BothSleep | device/ioqueue.c:37-65 | a run after which both sides sleep for ever on an empty ring |
| Rings.BothSleepFull | device/ioqueue.c:37-65 | the mirrored run, on a full ring |
| Rings.RegistersLate | device/ioqueue.c:37-65 | a run after which a consumer is registered on a ring that is not empty |
| Rings.UseMeans | shell/pipe.c:28-58 | a write puts in what fits and sleeps exactly when something does not, a read takes what is there from the front, and going on moves nothing |
| Rings.PipeRunSafe | shell/pipe.c:28-58 | over every run of a pipe nobody is stuck, only the producer sleeps, on a full ring, and bytes come out as they went in |
| Rings.PipeRun | shell/pipe.c:28-58 | the ring after a run of uses is exactly what they make of it |
| Rings.KeyRunSafe | device/keyboard.c:156-158 | over every run of the keyboard ring nobody is stuck, only the reader sleeps, on an empty ring, and keys come out as they went in |
| Rings.KeyRun | fs/fs.c:441-451 | the ring after such a run is exactly what it makes of it |
| FdTables.PcbFdInstall | fs/file.c:31-46 | the lowest free descriptor from 3 on, or -1 exactly when there is none |
| Pipes.Pipe.Install | fs/file.c:31-46 | the lowest free descriptor |
| Pipes.Pipe.SysPipe | shell/pipe.c:14-26 | the two lowest free descriptors, or -1 for those that are not there, and no descriptor that was in use changes; the count is right exactly when both were there to get |
| Pipes.OpenAndClose | shell/pipe.c:14-26 | sys_pipe and closing both ends leave every descriptor as it was and free the page, exactly when two descriptors were free |
| Pipes.Pipe.Fork | userprog/fork.c:89-103 | the child's descriptors are counted |
| Pipes.Pipe.Close | fs/fs.c:386-403 | the page goes exactly with the last descriptor |
| Pipes.Pipe.Exit | userprog/wait_exit.c:48-62 | so it does when a process exits |
| Pipes.Pipe.Redirect | shell/pipe.c:60-68 | exactly when the count stays right |

## Left out

- Partitions.Partition.FileWrite: when a write runs out of blocks half-way, the code leaves what it allocated; the model says when that happens and promises nothing about the state then, and a run of `Runs` ends there. A write that would make a file exactly 71680 bytes long passes the length test and then fails an assertion; it is a precondition here.
- Partitions.Partition.FileRead: reads that end in block 139 of a file that has it fail an assertion in the code and are a precondition here.
- Partitions.Partition.Create: a name beyond 15 bytes, which the code copies over its buffer, and inode numbers from 256 on, which `inode_sync` confuses, are preconditions.
- Partitions.Partition.DirOpen: the count of the root inode is not raised while a call has opened it a second time through a path; `Lookup.SearchFile` counts it.
- Partitions.Partition.Unlink: takes the directory and the name; the path of a regular file followed by more components, which the code accepts, is stated by `Lookup.WalkResolves`.
- Partitions.Partition.RemoveDir: that the inode found is not the root's is a precondition, as the code asserts it.
- Partitions.Partition.InodeSync: changes the decoded table `itab`, not the table's sectors; `InodeTables` proves the same change for the sectors, and that writes to data blocks leave them alone.
- Partitions.Partition.Read: the position 2^32 - 1, which a write of no bytes to an empty file leaves, is excluded: the code then reads beyond its block list.
- Lookup.SearchFile: paths of several slashes and nothing else, for which the code returns an entry that it never read.
- Format.FillBitmap: bitmaps of 608 sectors or more that are full to the last bit, for which the memset of the padding runs past its buffer, are excluded.
- Format.PartitionFormat: so are the sizes that lead to them, multiples of 4097 free sectors above 4097 * 607, and those for which the sizing loop does not end.
- Heaps.Heap.Malloc: sizes of 3840 pages and more, for which malloc_page asserts, are a precondition.
- Paging.Memory.AddPage: without a frame for a page table the code goes on with frame 0; the model stops there (`NoTable`).
- Paging.CopyPages: without a frame for a page the code goes on and faults; the model stops there.
- Family.Processes.Fork: a full pid bitmap, for which the code asserts, is a precondition.
- Rings.Ioqueue.Put: the byte of a sleeping producer is kept by its caller, who puts it again after waking.
- Pipes.Pipe.SysPipe: a file table without a free slot and a ring page that cannot be had are not modelled.
- The on-disk copies of the two bitmaps (bitmap_sync) and the super block's fields beyond the layout.
- Failures of sys_malloc inside the file system, and its buffers.
- Names longer than 15 characters, buffer sizes, uninitialised buffers and messages.
- The position of a directory handle beyond one reading (`Listing`), sys_chdir, and sys_stat, which opens and closes what it looks at.
- Kernel page counts over fork and exit: the code rounds differently on the two sides.
- Heaps inherited by fork, whose arenas point into the parent.
- The disk driver, keyboard, timer, console, boot and context-switch assembly, program loading, the shell and the string library.
