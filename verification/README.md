# A model of the file system, the contexts and the shell paths, with proofs

The program is a teaching kernel: a file system on a simulated disk, contexts
with semaphores on one core, and a small shell. This project models its stateful
parts and proves what they are for.

Two layers run through it. For each operation a function on values says what the
operation does to the state, and lemmas prove the properties of that function,
over one call and over whole runs. Beside it a class holds the fields that the C
code updates in place, with the same loops and branches, and each method is
proved to do exactly what the function says.

| files | contents |
|---|---|
| `Disk`, `Superbloc`, `Inode`, `Ifile`, `Directories`, `PathText`, `Paths`, `Copy`, `Cp` | the state and the operations of the file system |
| `Ownership`, `Allocation`, `Reclaim`, `Partition`, `BlockOps`, `Growth`, `Room` | who owns each block, what allocation and deletion do to that, how many blocks a file takes, when a write finds room |
| `Sessions`, `Reachable`, `Torn` | whole runs: many open descriptors while files come and go, the directory tree meanwhile, a run that tears a directory |
| `Volume`, `FileDesc`, `DirFile` | the same operations on an array of blocks, on a descriptor with its buffer, on open directories |
| `Semaphores`, `Scheduler`, `Contexts` | semaphores over any interleaving; the ring of contexts and its round-robin choice; the linked lists themselves |
| `BoundedBuffer`, `Dispatch`, `DiskAccess`, `DriveCommands` | the two users of semaphores: producers and consumers, in any order and on the ring, and the disk drive |
| `CanonicalPath` | path canonicalisation, the current directory |
| `AsWritten` | lines of the source taken literally, with the exact condition under which each is right |

## How the state is represented

* The mounted volume is a sequence (in `Volume`, an array) of typed blocks: super
  block, free link, inode, index table, data. A block has 512 bytes, an inode 124
  direct slots, a table 128 slots. The cached fields of the super block are the
  head of the free chain, the count of free blocks and the root inode. Only the
  20-byte directory records are laid out in bytes.
* `Valid` says that a ghost layout exists in which each block has exactly one use:
  super block, position in the free chain, inode, or target of one slot of one
  inode or table.
* A descriptor holds a cursor, the highest written index (0 for an empty file) and
  a copy of the block under the cursor. The flat file it refines is an array of
  8517632 bytes, zero where nothing was written, with a cursor and that index.
* `Sessions` holds a volume and a map of descriptors, at most one for a file. Seen
  from outside it is a map from inode numbers to flat files, open or closed.
* A directory is the table of its records; a path is the list of its non-empty
  components. `TreeOk` says that every directory is a table of whole records with
  unique names that lead to inodes, and that no inode is named twice.
* A context is runnable unless blocked. `Semaphores` lets any runnable context
  take the next step; `Scheduler` adds the ring, the current context first.
* `BoundedBuffer` and `DiskAccess` are step systems: a context does one statement
  of its program, one byte of a copy or one drive command at a time.

## Where the model repairs the source

The stated contracts of these lines are followed rather than the lines; those
marked with a star are also taken literally in `AsWritten`.

1. `free_bloc` writes the link into the old head and never into the freed block
   (`src/superbloc.c:105-110`)*. The freed block is pushed on the chain.
2. The test for a missing indirect table looks at `blocs_directs`
   (`src/inode.c:119`). It looks at `blocs_indirect`.
3. `NB_BLOCS_BY_BLOC*NB_BLOCS_BY_BLOC` is 636 without parentheses
   (`src/inode.h:16-19`, `src/inode.c:151`)*. It is 128 * 128.
4. A failing `new_bloc` makes `initialize_bloc` clear block 0
   (`src/inode.c:102`)*. The allocation returns `BLOC_NULL` and changes no slot.
5. A file block past the largest file makes `vbloc_of_fbloc` return -1, a non-zero
   block number, after which the callers write to it (`src/inode.c:202-203`,
   `src/ifile.c:197-211`). It returns `BLOC_NULL`.
6. `delete_inode` reads into block numbers, frees the double table 128 times and
   returns the inode number (`src/inode.c:51-73`). It frees the indirect table and
   its blocks, then each table of the double table with its blocks, then the
   double table and the inode, each once.
7. `seek_ifile` moves the cursor before the flush that depends on it
   (`src/ifile.c:134-139`)*. It flushes at the old position.
8. `readc_ifile` returns a signed char, so byte 0xFE looks like the end of file
   (`src/ifile.c:167-179`)*. It returns the byte value.
9. `writec_ifile` changes the buffer before it knows that there is room
   (`src/ifile.c:193-199`)*. It allocates first.
10. `sem_up` raises the counter even when it wakes a waiter, who then goes on
    without taking the unit, and restarts the waiter's function
    (`src/sem.c:42-48`, `src/ctx.c:107-110`)*. The unit is handed to the waiter,
    who resumes.
11. `delete_ctx` leaves the current pointer on the freed context, which `yield`
    reads (`src/ctx.c:81-84`, `src/ctx.c:114`). The search goes on from the
    successor.

Kept as written: the size convention and its two different end-of-file tests
(`src/ifile.c:170`, `src/ifile.c:237`); the copy loop of `cp` ignores failing
writes and reports success (`src/builtins.c:209-213`); `delete_file` removes only
the entry, also of a non-empty directory (`src/file.c:56-71`), although its header
promises a refusal; `del_entry` reports a byte count on success
(`src/dir.c:147-151`); `canonical_path` treats every token that starts with two
dots as the parent; `cd` accepts a path that leads to a file.

## Model

| member | source | states |
|---|---|---|
| BlockOps.InitSuperSpec | src/superbloc.c:14-45 | after formatting n >= 2 blocks, block 1 is the empty root directory, the only inode, and the chain is 2, 3, ..., n-1 in order |
| Partition.ChainIsFreeSet | src/superbloc.c:71-113 | following the links from the head visits exactly nb_bloc_libre blocks, all different, all in 1..n-1, then stops; they are the free blocks |
| Partition.FreeCount | src/superbloc.c:71-113 | the cached count is the number of free blocks |
| BlockOps.FreeThenNew | src/superbloc.c:71-113 | new_bloc right after free_bloc(b), b any block in use, returns b and gives back the chain, the super block and every other block as they were |
| Partition.BlocksPartitioned | src/inode.c:24-217 | each block 1..n-1 is either free or in the tree of exactly one inode; block 0 is in neither |
| Partition.NamedOnce | src/inode.c:89-204 | a table or data block is named by exactly one slot of one inode or table of its own file; inodes and free blocks by none |
| Sessions.ReachablePartition | src/superbloc.c:14-113 | in every state reached from formatting by any interleaving of creations, deletions and sessions on open files, each block is free or in the tree of exactly one inode, and named by one slot at most |
| Inode.PlaceInjective | src/inode.c:95-200 | two file blocks in range never share a place in the direct, single and double levels |
| Inode.PlacesInOrder | src/inode.c:95-200 | file blocks 0..16635 and the slots of the three levels correspond one to one, in order |
| Allocation.EnsureAtInv | src/inode.c:76-204 | allocation at any place of the three levels keeps the single-use layout, adds only blocks that were free, and adds them to this inode |
| BlockOps.AllocateSpec | src/inode.c:89-204 | with do_allocate the requested place is mapped, to a zeroed block if it was a hole, exactly when the missing blocks are free; every other place of every file keeps its block and content; on failure nothing is remapped |
| BlockOps.VmapInjective | src/inode.c:89-204 | a volume block is the image of one (inode, file block) pair at most |
| BlockOps.CreateSpec | src/inode.c:24-41 | creation takes one free block for an empty inode and touches no other file; it fails exactly on a full disk |
| Reclaim.TreeOnce | src/inode.c:43-74 | the list that deletion frees names no block twice and only blocks of this inode |
| Reclaim.TreeHas | src/inode.c:43-74 | and names every block of this inode |
| Reclaim.FreeBlocsSpec | src/inode.c:206-217 | freeing a list of distinct blocks frees those and leaves every other block in its use |
| BlockOps.DeleteSpec | src/inode.c:43-74 | deletion adds exactly the blocks of the file to the free ones, raises the count by their number, and leaves every other file with its map and bytes |
| Reachable.CreateEditDelete | src/inode.c:24-74 | create, any sequence of operations, delete: the set of free blocks is what it was |
| Reachable.EditSpec | src/ifile.c:56-266 | opening, any operations and closing leave the file as the run on a flat file does, and every other file as it was |
| Ifile.OpenSpec | src/ifile.c:56-84 | an opened descriptor shows the bytes and size on disk with the cursor at 0 |
| Ifile.FlushSpec | src/ifile.c:102-120 | a flush puts on disk what the descriptor shows, takes no block and touches no other file |
| Ifile.MoveSpec | src/ifile.c:126-152 | a seek changes the cursor and no byte |
| Ifile.ReadcSpec | src/ifile.c:164-180 | returns the byte under the cursor, or READ_EOF exactly when the cursor is past the size mark |
| Ifile.WritecSpec | src/ifile.c:187-225 | fails, changing no byte, exactly when the file is at its largest or the missing blocks are not free; otherwise writes that byte of the flat file and takes exactly the missing blocks |
| Ifile.EnsureView | src/ifile.c:195-201 | the allocation that precedes a write shows in no byte |
| Ifile.ReadLoopSpec | src/ifile.c:230-249 | reading byte by byte returns what the flat file returns |
| Ifile.ReadRefines | src/ifile.c:230-249 | read_ifile, with its own test at entry, refines the flat read |
| Ifile.WriteLoopSpec | src/ifile.c:254-266 | a write stores all its bytes, or a proper prefix, possibly empty, that ends at a block boundary; it falls short only past the largest file, or when the disk ends full and had less than three free blocks for each block to be allocated |
| Ifile.CloseSpec | src/ifile.c:86-98 | after closing, the disk has the bytes and the size that the descriptor showed; other files are untouched |
| Ifile.StepRefines | src/ifile.c:56-266 | each of the nine operations refines the operation on the flat file; only a write takes blocks or fails, and it fails only past the largest file or on a disk that had too few free blocks and ends full |
| Ifile.RunRefines | src/ifile.c:56-266 | any run of them refines the run on the flat file, output by output, with the free blocks before and after each operation, across the three ranges and holes; no other file changes and no block is lost |
| Ifile.RunSucceeds | src/ifile.c:56-266 | with three free blocks for each block that the writes of a run touch, and in reach, no write fails: the run does and returns exactly what it does on the flat file |
| Ifile.FdKept | src/ifile.c:102-120 | a change that keeps the file of a descriptor keeps what the descriptor shows, even when its buffer is not on disk yet |
| Sessions.ActRefines | src/ifile.c:56-266 | with any number of open descriptors, each operation does to the map of flat files what it says: one file changes, is created, opened, closed or removed, and every other, open or not, stays |
| Sessions.ActsRefine | src/ifile.c:56-266 | any interleaving of sessions, creations and deletions of files that are not open does, output by output, what it does on the map of flat files, and the volume and every descriptor are sound in every state |
| Sessions.OwnRun | src/ifile.c:56-266 | whatever is interleaved with a session, the session is a run on a flat file of its own |
| Sessions.Untouched | src/ifile.c:56-266 | a file that a run does not name is the same flat file after it |
| Sessions.AlwaysSized | src/ifile.c:187-225 | the size mark of every file stays within the largest file in every run |
| Growth.TablesOfEnsure | src/inode.c:115-199 | an allocation adds exactly the index tables on the way to its place |
| Growth.NextShape | src/inode.c:89-204 | allocating file block k of a file that has blocks 0..k-1 gives one that has blocks 0..k and the tables they need, nothing more |
| Growth.WriteLoopNeed | src/ifile.c:254-266 | extending a file of p bytes by n succeeds exactly when it fits and the difference of the two block counts is free, and takes that difference |
| Growth.FreshFileCost | src/ifile.c:188-225 | n bytes in a new file take k = ceil(n/512) blocks, one more if k > 124, 1 + ceil((k-252)/128) more if k > 252; writing succeeds exactly when these are free and k <= 16636 |
| Room.WriteRoom | src/ifile.c:254-266 | a write of at most a block, starting in an allocated block unless it lies in one, succeeds exactly when the last byte is in reach and the blocks it lacks are free, and takes exactly those |
| Copy.RoundTrip | src/ifile.c:56-266 | bytes written to a new file and closed are read back after reopening, up to the end of file |
| Copy.CopyFileSpec | src/builtins.c:190-213 | the copy loop gives the destination the size mark and the bytes of the source, even of an empty one, exactly when the blocks for them are free; otherwise as many whole blocks as fit, the disk being full then; the source and all other files are untouched |
| Cp.CreateFileKeeps | src/file.c:24-53 | creating a path changes no file but its directory |
| Cp.CopyPathSpec | src/builtins.c:185-213 | cp from path to path, of any source that the path leads to, the receiving directory included: the new entry leads to a new file with the size and bytes of the source, or with what fits on the disk; the source is as before, and every other path leads where it did |
| Cp.CopyPathOutcome | src/builtins.c:190-213 | cp succeeds exactly when its destination can be created and its source leads somewhere once it is; when creation fails that is the result; when the source leads nowhere an empty destination stays, every other path and file is as before, and cp fails |
| Cp.Run | src/builtins.c:185-213 | the sequence of do_cp has exactly that outcome, also onto the file being created |
| Directories.DecodeEncode | src/dir.h:43-46 | a directory record is read back from its 20 bytes; the last 16 are the name buffer |
| Directories.EncodeDecode | src/dir.h:43-46 | and its 20 bytes from the record; the first four are the inode number, lowest byte first |
| Directories.StoredName | src/dir.c:95-98 | a name is read back from its record exactly when it has at most 15 characters |
| Directories.CutNameIs | src/dir.c:95-98 | a longer name reads as its first 15 characters |
| Directories.ReadRecord | src/dir.c:39-43 | reading 20 bytes at record k returns the whole record, also across blocks; the end of file comes exactly after the last one |
| Directories.FindFromSpec | src/dir.c:51-70 | the scan finds the first live record of a name |
| Directories.NullFromSpec | src/dir.c:29-47 | the scan finds the first null record |
| Directories.LookupIs | src/dir.c:61-66 | with unique names, looking up a live record's name finds that record |
| Directories.LookupAbsent | src/dir.c:61-69 | a lookup fails exactly when no live record has the name |
| Directories.AddIsInsert | src/dir.c:29-47 | recording a new name in the first null record, or past the last, inserts it in the map of names |
| Directories.ClearIsRemove | src/dir.c:140-147 | writing the null record removes the name from the map |
| Directories.WriteRecordSpec | src/dir.c:100-107 | writing record k succeeds exactly when the record exists or there is room for its last byte, and changes that record only; otherwise the table is as before, and the directory stays whole exactly when the record lies in one block |
| Directories.AddEntrySpec | src/dir.c:75-113 | add_entry inserts the stored name in the map, in the first null record; names stay unique exactly when no entry had the stored name |
| Directories.AddEntryRoom | src/dir.c:75-113 | add_entry succeeds exactly when a record is null or there is room for the last byte of a new one; the directory stays whole exactly then or when the new record lies in one block; it takes exactly the missing blocks |
| Directories.DelEntrySpec | src/dir.c:115-152 | del_entry removes a present name and returns 20; an absent one changes nothing and fails |
| Directories.NotADirectory | src/dir.c:75-198 | in an inode that is not a directory nothing is added, deleted or found |
| Paths.WalkConcat | src/dir.c:200-241 | looking up a list of components is looking up its parts one after the other |
| Paths.LastLookup | src/dir.c:243-276 | a path leads to what its last entry names in what the path up to its last slash leads to |
| Paths.DirectoryOfPath | src/dir.c:243-276 | dinumber_of_path returns what an absolute path leads to up to its last slash, at any depth, exactly when that is a directory |
| Paths.WalkKept | src/dir.c:200-241 | changing one entry of one directory changes no walk that does not take it |
| Paths.InitTree | src/superbloc.c:41-44 | the formatted tree is well formed and "/" leads to block 1 |
| Paths.CreateFileSpec | src/file.c:24-53 | succeeds exactly when the path up to its last slash leads to a directory, the path leads nowhere, a block is free for the inode, and then the entry finds room; the path of the entry then leads to the new inode and every other path where it did; without room for the entry an inode stays that no path leads to; the tree stays well formed exactly when there was room and the cut name was not taken, or when the record that found no room lies in one block |
| Paths.CreateInside | src/file.c:24-71 | in a directory just created at any path, creating an entry succeeds exactly when two blocks are free, and deleting it then succeeds |
| Paths.LongName | src/file.c:24-53 | a last name of 16 characters or more is created but its path leads nowhere, and creating it again, with room, makes the cut name ambiguous |
| Paths.EntryIsPath | src/dir.c:95-98 | the path of the entry is the path created exactly when the last name has at most 15 characters; a longer one never leads anywhere |
| Paths.DeleteFileSpec | src/file.c:55-71 | succeeds exactly when the entry exists; its path and every path that extends it then lead nowhere, and every other path leads where it did |
| Paths.OnePath | src/dir.c:200-241 | two paths that lead to the same inode have the same components |
| Paths.ThroughIsPrefix | src/dir.c:200-241 | a path goes through an entry exactly when it extends the path of that entry |
| Reachable.RunsKeepTree | src/file.c:24-71 | in any run of creations, deletions and operations on open files, the tree is well formed in every state exactly when each creation finds room for its entry or would append a record that lies in one block, and cuts no name to one that is taken |
| Reachable.OpKept | src/file.c:24-92 | creating or deleting a path changes nothing that an open file shows; using or closing an open file changes where no path leads, nor any other open file |
| Reachable.OpDoes | src/file.c:24-92 | where every path leads after a creation or a deletion; which flat file is opened, used or closed, and what becomes of it |
| Torn.TornExample | src/file.c:24-53 | 25 files in the root of a volume of 29 blocks leave one block free: creating a 26th takes it for the inode, fails, and leaves half a record in the root |
| Reachable.FileKeepsTree | src/ifile.c:56-266 | a change to a file that is not a directory changes where no path leads |
| Volume.Volume.InitSuper | src/superbloc.c:14-45 | formatting, on the array of blocks |
| Volume.Volume.NewBloc | src/superbloc.c:71-91 | pops the head of the chain |
| Volume.Volume.FreeBloc | src/superbloc.c:93-113 | pushes a block on the chain, refuses block 0 |
| Volume.Volume.FreeBlocs | src/inode.c:206-217 | frees the non-null pointers of a list in order |
| Volume.Volume.CreateInode | src/inode.c:24-41 | creation, on the array of blocks |
| Volume.Volume.Vbloc | src/inode.c:89-204 | the three levels with lazy allocation, on the array of blocks |
| Volume.Volume.DeleteInode | src/inode.c:43-74 | deletion level by level, on the array of blocks, frees the same list as the function |
| FileDesc.FileDesc.Open | src/ifile.c:56-84 | opening, on the descriptor and its buffer |
| FileDesc.FileDesc.Flush | src/ifile.c:102-120 | flush, on the descriptor and its buffer |
| FileDesc.FileDesc.Close | src/ifile.c:86-98 | close |
| FileDesc.FileDesc.Seek | src/ifile.c:126-152 | relative seek, modulo 2^32 |
| FileDesc.FileDesc.Seek2 | src/ifile.c:154-159 | absolute seek |
| FileDesc.FileDesc.Readc | src/ifile.c:164-180 | one byte read |
| FileDesc.FileDesc.Writec | src/ifile.c:187-225 | one byte written |
| FileDesc.FileDesc.Read | src/ifile.c:230-249 | the loop of read_ifile |
| FileDesc.FileDesc.Write | src/ifile.c:254-266 | the loop of write_ifile |
| FileDesc.CopyFile | src/builtins.c:209-212 | the loop of cp over two descriptors |
| DirFile.FindEntry | src/dir.c:51-70 | the scan returns the index of the first live record of that name, or -1 |
| DirFile.NewEntry | src/dir.c:29-47 | the scan returns the first null record, or the index past the last |
| DirFile.AddEntry | src/dir.c:75-113 | add_entry through a descriptor |
| DirFile.DelEntry | src/dir.c:115-152 | del_entry through a descriptor |
| DirFile.InumberOfBasename | src/dir.c:163-198 | lookup through a descriptor changes nothing on disk |
| DirFile.InumberOfPath | src/dir.c:200-241 | the loop over the path string is the fold of the lookup over its components |
| DirFile.DinumberOfPath | src/dir.c:243-276 | the directory of the last entry, through the walk and the type of its inode |
| DirFile.CreateFile | src/file.c:24-53 | create_file |
| DirFile.DeleteFile | src/file.c:55-71 | delete_file |
| DirFile.OpenFile | src/file.c:77-92 | open_file: a descriptor on the inode that the path leads to, or a failure |
| Semaphores.DownKeepsInv | src/sem.c:17-39 | down blocks the caller exactly when there is no unit, and keeps: blocked means waiting, once, on one semaphore; a unit is never left while someone waits |
| Semaphores.UpKeepsInv | src/sem.c:42-54 | up makes exactly the first waiter runnable, and keeps the same |
| Semaphores.DownUp | src/sem.c:17-54 | an up right after a down gives back the state before: waiters are served last in, first out |
| Semaphores.Balance | src/sem.c:9-54 | over every run, counter + completed downs = first value + ups, completed downs + waiters = downs + first waiters, and the counter is never negative |
| Scheduler.YieldInv | src/ctx.c:120-138 | yield goes to the first successor that is not blocked, begins it if it is new, and keeps the ring in cyclic order |
| Scheduler.CreatedRunsNext | src/ctx.c:52-63 | a created context is the next to run when the current one yields |
| Scheduler.ExitInv | src/ctx.c:69-85 | ending the current context removes it and only it, and goes on from its successor |
| Scheduler.DoInv | src/ctx.c:36-138 | every call keeps the ring over exactly the live contexts and is a run of the semaphore system |
| Scheduler.NextCurrent | src/sem.c:17-54 | a context keeps the processor when it gets a unit or wakes a waiter; when it waits, releases for nobody or yields, the next one in the ring that is not blocked has it |
| Scheduler.RunsKeepRing | src/ctx.c:36-138 | the same for every run of calls |
| Scheduler.Fair | src/ctx.c:120-138 | in a ring of n contexts, one that is not blocked is current after at most n - 1 changes of context, while none is created |
| Contexts.Core.CreateCtx | src/ctx.c:36-64 | links the new context after the current one |
| Contexts.Core.Search | src/ctx.c:128-132 | the pointer walk of yield ends, at the first context that is not blocked |
| Contexts.Core.Unlink | src/ctx.c:69-84 | the pointer walk of delete_ctx ends at the predecessor; the rest stays one cycle |
| Contexts.Core.SwitchTo | src/ctx.c:89-118 | the state part of a switch |
| Contexts.Core.Yield | src/ctx.c:120-138 | yield on the linked ring, the first yield included |
| Contexts.Core.Exit | src/ctx.c:107-115 | the end of a context on the linked ring |
| Contexts.Core.NewSem | src/sem.c:9-14 | a new semaphore with its value and no waiter |
| Contexts.Core.SemDown | src/sem.c:17-39 | down on the linked list of waiters and the ring |
| Contexts.Core.SemUp | src/sem.c:42-54 | up on the linked list of waiters and the ring |
| BoundedBuffer.Bounded | src/semtester.c:23-73 | 0 <= head - tail <= 5 in every run of any number of producers and consumers |
| BoundedBuffer.Exclusive | src/semtester.c:23-73 | at most one of them is between its down and its up on the mutex |
| BoundedBuffer.NoDeadlock | src/semtester.c:23-107 | with a producer and a consumer, some context can always run |
| BoundedBuffer.DeadlockIff | src/semtester.c:23-107 | for every list of contexts: some run blocks everybody exactly when there is no producer or no consumer |
| Dispatch.AlwaysAble | src/sem.c:17-39 | on the ring, with a producer and a consumer, the current context may always make its next call: when it must wait, yield finds another context |
| Dispatch.AlarmDoes | src/semtester.c:77-81 | an alarm gives the processor to the next context that is not blocked and moves none on |
| Dispatch.StatementDoes | src/semtester.c:23-73 | a statement takes the current context, and no other, one statement on; it keeps the processor unless it waits or releases for nobody |
| Dispatch.ScheduledFromStart | src/semtester.c:23-107 | from the first yield, however the alarm strikes, the contexts on the ring never get stuck, and the run is one of the interleavings, with one move for each statement |
| BoundedBuffer.RunInv | src/semtester.c:23-73 | units of the three semaphores, in counters and in the hands of contexts, add up to 1 and 5, and head - tail is accounted for, in every run |
| BoundedBuffer.HeadAndTail | src/semtester.c:23-73 | in every run head grows by one at each third statement of a producer, tail at each of a consumer, and neither otherwise |
| BoundedBuffer.InCircles | src/semtester.c:23-73 | a context executes its five statements in a circle, and only its own moves take it on |
| BoundedBuffer.Counted | src/semtester.c:23-73 | from the start, head and tail are the sums over the producers, and over the consumers, of (n + 2) / 5, n being the statements of each |
| DiskAccess.Serializable | src/mbr.c:63-99 | every interleaving of reads and writes, split into register, buffer and command steps, gives the results and the disk of the serial order of its commands |
| DiskAccess.RealTime | src/mbr.c:63-99 | that order puts an access that has returned before every access called later |
| DiskAccess.CallsReturn | src/mbr.c:63-99 | what has returned to a context, and what the drive has executed for it, is what it called for, in order, up to the call in progress |
| DiskAccess.EveryCallReturns | src/mbr.c:63-99 | a call returns within 1032 steps of its context, whatever the others do |
| DiskAccess.NeverStuck | src/mbr.c:63-99 | while a call is in progress, some context in a call can take a step |
| DiskAccess.ReadsLastWrite | src/drive.c:33-74 | a read of any size that was called for returns the bytes of the last write to the place, called for too, as far as that wrote, then what that write left of the sector; without a write, the bytes from the start |
| DiskAccess.OneUser | src/mbr.c:63-99 | at most one context uses the drive, and if one waits, one that can run is using it |
| DiskAccess.Address | src/mbr.c:48-61 | 32 * cylinder + sector of a block is that of the volume plus its number, with sector < 32 |
| DiskAccess.AddressInjective | src/mbr.c:48-61 | blocks of a volume, and of disjoint volumes, never share a sector |
| DiskAccess.VolumesIsolated | src/mbr.c:83-90 | in every run whose writes stay in range of volumes disjoint from v, the blocks of v keep their bytes |
| DriveCommands.DriveUnit.ReadNSector | src/drive.c:33-44 | the bytes of the sector, into the caller's buffer, and nothing else |
| DriveCommands.DriveUnit.WriteNSector | src/drive.c:59-74 | the sector becomes the caller's bytes followed by what MASTERBUFFER held |
| DriveCommands.DriveUnit.ReadBloc | src/mbr.c:63-70 | the bytes of that block of that volume |
| DriveCommands.DriveUnit.WriteBloc | src/mbr.c:83-90 | exactly that block of that volume changes |
| CanonicalPath.CanonicalShape | src/commons.c:14-55 | the result is "/" or names each behind exactly one '/', none empty nor starting with a dot, without a final '/' |
| CanonicalPath.Idempotent | src/commons.c:14-55 | a canonical path is its own canonical path, whatever the current directory |
| CanonicalPath.Resolution | src/commons.c:18-22 | a relative path is the fold of its tokens from the names of the current directory, an absolute one from the root |
| CanonicalPath.OneMore | src/commons.c:25-50 | one more token at the end of a path: the last name goes for one that starts with "..", nothing changes for another that starts with ".", any other becomes the last name |
| CanonicalPath.OneToken | src/commons.c:18-50 | a single token does the same to the names of the current directory, and behind a "/" to the root |
| CanonicalPath.NoToken | src/commons.c:18-55 | "/" is its own canonical path, the empty path that of the current directory, and one more "/" at the end changes nothing |
| CanonicalPath.CdSpec | src/builtins.c:100-119 | cd keeps the current directory a canonical path with one final "/", and moves to the names of the canonical path exactly when that leads somewhere |
| CanonicalPath.CdUp | src/builtins.c:100-119 | from a directory that is there, cd .. goes to its parent, and from the root to the root |
| CanonicalPath.CdDownUp | src/builtins.c:100-119 | cd to an entry that is there and then cd .. is back where it was |
| CanonicalPath.CwdAlwaysOk | src/builtins.c:100-119 | so in every run of cd, whatever happens to the disk |
| CanonicalPath.NextToken | src/commons.c:27-50 | each step of strtok yields the next component |
| CanonicalPath.LastIndex | src/commons.c:32-33 | the last '/' is where the last name begins |
| CanonicalPath.CanonicalPath | src/commons.c:14-55 | the loop builds the fold in its 256-byte buffer, never longer than its input |
| CanonicalPath.Shell.Cd | src/builtins.c:100-119 | do_cd on the mounted volume |
| AsWritten.FreeBlocOnlyRefuses | src/superbloc.c:93-113 | taken literally, free_bloc of a block in use leaves a valid volume exactly when the block is 0 |
| AsWritten.FreeBlocExample | src/superbloc.c:93-113 | freeing the root of a volume of three blocks that way breaks it |
| AsWritten.EnsureNeedsRoom | src/inode.c:89-204 | taken literally, mapping a file block at any of the three levels leaves a valid volume exactly when the blocks it lacks are free; then it is right |
| AsWritten.EnsureExample | src/inode.c:95-112 | so does writing to the root of a full volume |
| AsWritten.DoubleTooSmall | src/inode.c:151-203 | taken literally, the map is right exactly below block 888 and past the largest file |
| AsWritten.SeekNeedsClean | src/ifile.c:126-152 | taken literally, a seek keeps the bytes exactly when the buffer is clean, or the block is the same, or there is room and both blocks hold what the buffer holds |
| AsWritten.SeekLosesByte | src/ifile.c:126-152 | a byte written and then left by a seek to another block is lost |
| AsWritten.SeekExample | src/ifile.c:126-152 | so is the first byte of the root of a volume of three blocks |
| AsWritten.ReadsToTheEnd | src/ifile.c:164-180 | taken literally, a loop on readc_ifile reads the file to its end exactly when no byte is 0xFE |
| AsWritten.ReadExample | src/ifile.c:164-180 | of the bytes 1, 0xFE, 2 only the first is read |
| AsWritten.FailedWriteShows | src/ifile.c:188-200 | taken literally, a write with a clean buffer and too few free blocks fails, and leaves the bytes alone exactly when its byte was already there |
| AsWritten.DeletedStays | src/file.c:55-71 | what a deleted path led to keeps its inode, its blocks and its bytes, although the path leads nowhere |
| AsWritten.OneUnitTwoTakers | src/sem.c:42-54 | taken literally, sem_up is right exactly when nobody waits; otherwise one unit lets two contexts through |
| AsWritten.UpExample | src/sem.c:42-54 | a state in which one up lets two contexts through |

## Left out

- The simulated hardware: register encodings, interrupt masks, the sector-count bytes written before a command. The drive is its sectors, a head, two registers and one buffer.
- The byte layout of the super block, the inodes and the index tables, and the magic numbers in them.
- The partition table as data: creating, deleting and listing volumes, reading and writing the MBR. `DiskAccess` takes the position and size of a volume as given.
- `format_vol` and `format_sector`, the occupancy percentage, printing, line editing, option parsing, the shell's dispatch and the other built-in commands.
- `list_directory`, which shows deleted records and ignores a failing open.
- Stacks, the assembly of the switch, memory allocation, and several cores sharing `current_core`: the ring is that of one core.
- The kernel module, which wraps interfaces that are not in the repository.
- Two descriptors on one file at once: in `Sessions` a file is open once. `FileDesc.CopyFile` also copies an empty file onto itself.
- The literal forms of repairs 2, 5, 6 and 11: they read or write the super block as a table, stack memory as block numbers, or freed memory, which typed blocks and live objects do not show.
- BoundedBuffer.Bounded: head and tail are unbounded integers, where the source would wrap after 2^31 items.
- Paths.CreateFileSpec: returns a failure on a full disk, where create_ifile ends the program. Says where paths lead only while the tree is well formed; after a torn record or an ambiguous name, only that it no longer is.
- DirFile.InumberOfPath: a component of 16 characters or more is looked up as it is, and not found; the source writes past the end of a 16-byte buffer there.
- DirFile.CreateFile: like the other methods on paths, stated for directories of whole records (`Walkable`); what is read from a torn record is not said.
- Cp.Run: starts from canonical paths, and asks that the size mark of the source is within the largest file, which holds in every run (`Sessions.AlwaysSized`); past it the loop of the source would not end.
- Cp.CopyPathSpec: for a creation that succeeds under a name that is not taken once cut; `Cp.CopyPathOutcome` says what happens otherwise, except that it does not say where paths lead under an ambiguous name.
- Reachable.RunsKeepTree: directories are not opened as files, which would let any bytes be written to them.
- CanonicalPath.CanonicalPath: requires that the path, with the current directory when it is relative, fits the 256-byte buffers, as the source does without testing it.
- Scheduler.Fair: stated after the first yield, which starts the current context without looking for a successor.
