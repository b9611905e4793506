# A model of the Unix V6++ kernel and its debugger stub

The kernel is a small Unix in C++: one processor, a buffer cache over an ATA disk, V6-style files, pipes and
processes, with a GDB stub on the serial line. This project models the parts of it whose correctness is not
visible in any single function, and proves what they promise together.

* **Files.** `Words`, `FreeList`, `IndexTree`, `BlockMap`, `FileBytes`, `Truncation` say what blocks, the grouped
  free list and an inode's index mean; the classes `FileSystem` and `Inode` change them in place as the kernel
  does. A file is a sequence of bytes, the free list a stack, and truncating moves blocks from one to the other.
* **Buffer cache.** `Cache` holds the moves made with interrupts off, `CacheRuns` the processes and the disk that
  interleave them, `CacheInvariant`, `CacheSteps`, `CacheEvents` the invariant and why each step keeps it,
  `CacheTheorems` what that means to the cache's users, `CacheCalls` what each call comes to from its start to its
  return, and `CacheLists` where every buffer is. The class `BufferManager` carries the moves out on linked
  rings (`Rings`).
* **Directories and paths.** `Directories` reads a directory as a map, `DirectoryFiles` searches and changes one in
  place, `Paths`, `Walks` and `DiskBlocks` compare the kernel's path search with the two of the debuggers, and
  `PathChanges` says what paths mean after a name was created or deleted where the search says.
* **Process memory.** `Allocators` is the first-fit map, `PageTables` and `ProcessImages` the image of a process
  while its data and stack change size.
* **Pipes, scheduling, alarms.** `Pipes` and the class `PipeFile`; `Scheduler`; `Alarms`.
* **Debugger.** `Breakpoints` and the class `Debugger` patch INT3 into memory, `RangeSteps` says where the target then
  stops; `Packets` and the class `SerialPort` send and receive frames (remote serial protocol of the GDB manual,
  appendix E, section E.1).

Where the source changes state step by step there is a class or a method that does so too. Its postcondition names
the new state by a specification function, and the properties are proved about that function, about runs of it,
or about what it means. Lists threaded through control blocks are kept as arrays of links indexed by buffer number,
with the sequence that a list spells out beside them as ghost state.

Some properties turned out to hold only under a condition, which is then proved to be exactly the right one, and a run
or an input is given in which it fails:

* releasing a modified buffer, `CacheTheorems.ReleaseMustBeClean`, `CacheTheorems.ReleasedUnwritten`;
* unlinking a name, `Directories.UnlinkUncoversDuplicate`, `Directories.DuplicateUncovered`, and late, `Directories.LateUnlinkIsRight`,
  `Directories.LateUnlinkLoses`;
* the debuggers' path search, `Walks.WalkersAgree`, `Walks.BlockDeviceIsSearched`;
* where the stack is found, `ProcessImages.StackFoundIffAligned`, `ProcessImages.StackElsewhere`;
* which sizes of data and stack fit, `ProcessImages.AcceptedFitsIffAdjacent`, whose proof gives the sizes;
* closing a pipe's write end, and `sync` at a pipe, `Pipes.GuardIsExact`, `Pipes.DeliveredTwice`,
  `Pipes.DeliveredTwiceAfterSync`;
* noticing the alarm, `Alarms.EventKeeps`, `Alarms.AlarmMissed`, and setting the time, `Alarms.SettingTheTime`,
  `Alarms.TimePutForward`;
* breakpoints: `Breakpoints.SetOnTemporaryIsKept`, `Breakpoints.BreakpointLeftBehind`;
  `Breakpoints.WriteIsSafeIffUnrecorded`, `Breakpoints.WriteUndone`; `Breakpoints.TrapKeepsBreakpointsLive`,
  `Breakpoints.BreakpointForgotten`; `Breakpoints.CallIsSeen`, `Breakpoints.CallHidden`.

The files need nothing but each other: `dafny verify dfyconfig.toml` checks the whole project.

## Model

| member | source | states |
|---|---|---|
| FreeList.AllocPops | src/fs/FileSystem.cpp:336-416 | Over the stack spread through the superblock's table and the chained disk blocks, taking an entry fails exactly on the empty stack and otherwise pops it, also when that loads the next group of 100 |
| FreeList.FreePushes | src/fs/FileSystem.cpp:418-484 | Releasing a block pushes it, also when the full table first spills into that very block; the list stays well formed |
| FreeList.AllocAfterFree | src/fs/FileSystem.cpp:336-484 | Alloc after Free returns the block released and brings back the count and every table entry below it, across a spill too |
| FreeList.WriteKeepsFreeOk | src/fs/FileSystem.cpp:418-484 | Writing blocks that are not free leaves the list, its order and its chain alone |
| FreeList.StoredOfSpilled | src/fs/FileSystem.cpp:452-476 | A table written into a block and read back is the same table, whatever the block's buffer held before |
| FileSystems.FileSystem.Alloc | src/fs/FileSystem.cpp:336-416 | Returns the top of the free stack with a zeroed buffer, not writing the disk; 0 with the table emptied if nothing is free |
| FileSystems.FileSystem.Free | src/fs/FileSystem.cpp:418-484 | The free stack grows by the block; no other block's contents change, and none at all unless the table was full |
| FileSystems.FileSystem.TakeEntry | src/fs/FileSystem.cpp:355-390 | Reads the entry below `s_nfree`; a 0 empties the table, the last entry loads the group stored in the block it names |
| FileSystems.FileSystem.LoadGroup | src/fs/FileSystem.cpp:371-387 | The superblock's table becomes the one stored in a block, entry by entry |
| FileSystems.FileSystem.Write | src/dev/BufferManager.cpp:327-370 | A block that is not free gets the buffer's contents, and the free stack is unaffected |
| IndexTree.LeafSlotInjective | src/fs/INode.cpp:260-371 | Two logical blocks never share a slot of the index |
| IndexTree.LeafSlotOnto | src/fs/INode.cpp:260-371 | Every data slot of the direct, single and double index is some logical block below 33030 |
| IndexTree.LeafSlotOrdered | src/fs/INode.cpp:260-371 | The slots of a file come in the order of its blocks: direct, then one table deep, then two, each by position |
| IndexTree.AttachKeepsTree | src/fs/INode.cpp:268-371 | Recording a fresh block in an empty slot keeps the tree injective and changes no other slot |
| IndexTree.TreeFrame | src/fs/INode.cpp:244-411 | Writing blocks that are not tables of the file changes nothing in its tree |
| BlockMap.AttachFacts | src/fs/INode.cpp:268-371 | Attaching the top free block takes it off the stack, clears it, and writes at most one other block, a table of the file |
| BlockMap.Ensure | src/fs/INode.cpp:244-411 | What is missing on a slot's path is allocated, in count exactly; only slots on the path change, from 0 to former free blocks; the tree and the stack stay disjoint |
| BlockMap.MappedBlocksDiffer | src/fs/INode.cpp:244-411 | Different logical blocks lie in different blocks, none of them free or a table |
| BlockMap.EnsureKeepsOutside | src/fs/INode.cpp:244-411 | Blocks neither free nor of this file stay so and keep their contents |
| BlockMap.OtherFileKept | src/fs/INode.cpp:138-242 | Whatever keeps outside blocks leaves another file's whole tree and all its blocks as they were |
| FileBytes.EnsureTwice | src/fs/INode.cpp:244-411 | Mapping the same logical block again changes nothing |
| FileBytes.EnsureKeepsContent | src/fs/INode.cpp:244-411 | Mapping a block changes no byte of the file, and bytes past the end stay zero |
| FileBytes.DataWrite | src/fs/INode.cpp:197-230 | Writing one data block changes the file's bytes in that block only and leaves its index alone |
| FileBytes.OverlayTwice | src/fs/INode.cpp:138-242 | Writing two adjacent pieces one after the other is writing them together |
| FileBytes.WindowOfOverlay | src/fs/INode.cpp:45-242 | Reading the range just written gives the data written |
| FileBytes.WindowBesideOverlay | src/fs/INode.cpp:45-242 | Reading a range that was not written, within the old size, gives what it gave before |
| FileBytes.BlockWindow | src/fs/INode.cpp:85-130 | Part of a mapped block on the disk is that part of the file's contents |
| FileBytes.SufficesSame | src/fs/INode.cpp:138-242 | Whether the free blocks suffice for the rest of a transfer depends on the tree and the free stack alone, not on the data stored so far |
| Inodes.Inode.Bmap | src/fs/INode.cpp:244-411 | Performs exactly `Ensure` on inode, disk and free stack, returns the block the index then names and a read-ahead block that is 0 or that of the next logical block; beyond 33030 blocks EFBIG and no change |
| Inodes.AheadInTable | src/fs/INode.cpp:377-408 | The read-ahead hint is the next entry of the table in hand, 0 after its last |
| Inodes.AheadIsNext | src/fs/INode.cpp:296-408 | The block to read ahead is that of the next logical block if both numbers lie in one table or both in the inode's direct part, and 0 otherwise |
| Inodes.Inode.MapBlock | src/fs/INode.cpp:244-411 | On a file in good order `Bmap` changes no byte, moves no mapped block and touches nothing outside the file |
| Inodes.Inode.StoreChunk | src/fs/INode.cpp:197-230 | A piece within a block is overlaid on the file's bytes and the size grows to cover it, whether or not the block was read first |
| Inodes.Inode.ReadI | src/fs/INode.cpp:45-136 | Returns exactly the file's bytes from the offset, cut at the size, and advances offset and count by what was read |
| Inodes.Inode.WriteI | src/fs/INode.cpp:138-242 | The contents become the old ones, zero-filled to the offset if needed, overlaid with the data up to the largest file size, with EFBIG exactly if something remains; no mapped block moves and nothing outside changes |
| Inodes.Inode.ITrunc | src/fs/INode.cpp:541-623 | Every data, single and double index block is pushed on the free stack once, in the order of the loops; afterwards free is exactly what was not outside; all addresses are 0 and other files keep their blocks and contents |
| Inodes.Inode.ReleaseFirst | src/fs/INode.cpp:556-611 | A table's blocks are released before the table, each table being read before a spill can have overwritten it |
| Truncation.FromRoot | src/fs/INode.cpp:541-623 | Only blocks of the file are given up |
| Truncation.InRoot | src/fs/INode.cpp:541-623 | Every block of the file is given up |
| Truncation.NotYet | src/fs/INode.cpp:541-623 | No block is given up before its turn, so none twice and no table before what it names |
| Truncation.AllGivenUp | src/fs/INode.cpp:541-623 | After truncation a block is free if and only if it was free or in the file |
| CacheTheorems.Reachable | src/dev/BufferManager.cpp:14-409 | The cache's invariant holds after any run of calls, process steps, disk completions and retries |
| CacheTheorems.BreadSeesTheFlatDisk | src/dev/BufferManager.cpp:40-136 | In every run, whatever was evicted, delayed, in flight or read ahead, the buffer handed over by a read is held by the caller, is the only one for its block, and holds what a disk without a cache would; that the block is the one asked for is `CacheCalls.HandsOverWhatWasAsked` |
| CacheTheorems.AnyBlockCanBeRead | src/dev/BufferManager.cpp:220-244 | From the initial state, for every block of the disk, a run of the calls, steps and completion exists in which Bread returns its contents |
| CacheTheorems.FlatChangesByWrites | src/dev/BufferManager.cpp:327-370 | That flat disk changes by Bwrite, Bdwrite and Bawrite alone, in one block, to the caller's data |
| CacheTheorems.HeldIsUndisturbed | src/dev/BufferManager.cpp:40-218 | No step of another process or of the disk changes a held buffer, its owner, or its block's meaning |
| CacheTheorems.SyncWriteIsOnDisk | src/dev/BufferManager.cpp:327-354 | Once a synchronous Bwrite has waited, the real disk has the block |
| CacheTheorems.NoLostWakeup | src/dev/BufferManager.cpp:84-218 | In every run a process asleep for a buffer sleeps on a busy and wanted one, one asleep for any buffer sees an empty free list and the wanted mark, one in IOWait waits for a synchronous request still queued and not done |
| CacheTheorems.ListsAreInOrder | src/dev/BufferManager.cpp:14-38 | In every run the free list is exactly the non-busy buffers, the queue holds busy ones only, the rings partition the buffers, no block is cached twice, and the device is active exactly when the queue is not empty |
| CacheTheorems.RequestsAreServedInOrder | src/dev/BlockDevice.cpp:101-149 | The queue only grows at its end and shrinks at its front |
| CacheTheorems.CleanCacheMeansFlatDisk | src/dev/BufferManager.cpp:384-409 | With nothing delayed and nothing being written, the real disk equals the flat one |
| CacheTheorems.FlushLeavesNothingDelayed | src/dev/BufferManager.cpp:384-409 | Bflush returns only when no free buffer has a delayed write |
| CacheTheorems.ReleaseMustBeClean | src/dev/BufferManager.cpp:138-180 | Releasing a modified buffer with Brelse alone keeps the cache coherent if and only if the modification changed nothing |
| CacheTheorems.ReleasedUnwritten | src/dev/BufferManager.cpp:138-180 | A run for any block and any new contents after which plainly releasing the buffer leaves cache and flat disk in disagreement |
| CacheTheorems.CompleteTouches | src/dev/ATADriver.cpp:9-46 | A completion takes the first request off the queue and changes no other buffer and no contents of the flat disk |
| CacheTheorems.StepTouches | src/dev/BufferManager.cpp:40-409 | A step of a process changes at most the one buffer it is at, and neither disk |
| CacheTheorems.HandlerIsCompletion | src/dev/ATADriver.cpp:9-46 | What the handler does to queue and buffer, as the class performs it, is the completion of the runs |
| CacheCalls.HandsOverWhatWasAsked | src/dev/BufferManager.cpp:40-325 | In every run, whatever others and the disk do between a call and the next one of the process, a buffer it is handed is for the device and block of that call, and a filled one just for Bread and Breada |
| CacheCalls.CallReturns | src/dev/BufferManager.cpp:40-409 | When a call has returned, the process has in hand exactly the buffers it had before, less the one it gave to Brelse, Bwrite, Bawrite or Bdwrite, or more by one that was not in its hands, is for the block asked for, and after a read holds what a disk without a cache would hold now |
| CacheCalls.BwriteWaits | src/dev/BufferManager.cpp:327-354 | A synchronous Bwrite returns only in runs in which, since the call, there was a moment when the real disk's block held what the buffer held at the call |
| CacheCalls.BreadaReadsAhead | src/dev/BufferManager.cpp:246-325 | If its own block was not cached at the call, Breada returns only after the other block was found cached, or was obtained filled, or its asynchronous read was ordered and is submitted |
| CacheCalls.OwnStep | src/dev/BufferManager.cpp:40-409 | Every step a process can take moves it on or puts it to sleep, and changes neither what its call owes it nor its hands, until it hands over just that |
| CacheLists.NoBufferIsForgotten | src/dev/BufferManager.cpp:14-409 | In every run every buffer is on the free list, in the active device's queue, about to be put there by the running process, or with a process whose program or whose call has it |
| CacheLists.OldestIsTaken | src/dev/BufferManager.cpp:84-180 | In every run the free list changes by one buffer leaving its place or joining at the end, and the only buffer ever given to another block is the first of the list, with nothing left to write |
| CacheEvents.EventKeeps | src/dev/BufferManager.cpp:40-409 | Every event keeps the invariant |
| CacheEvents.InitKeeps | src/dev/BufferManager.cpp:14-38 | The initial cache satisfies it, whatever the disk holds |
| CacheInvariant.SetCoherent | src/dev/BufferManager.cpp:40-409 | Changing one buffer keeps coherence if that buffer alone agrees with the disks for its new use |
| CacheInvariant.RelinkCoherent | src/dev/BufferManager.cpp:120-136 | A clean free buffer may be given to any block that is not cached |
| Cache.RelinkKeepsRings | src/dev/BufferManager.cpp:118-134 | Moving a buffer to its new ring keeps every buffer on exactly one ring |
| BufferManagers.BufferManager.Initialize | src/dev/BufferManager.cpp:14-38 | All 15 buffers are on the NODEV ring, last first, and on the free list, first first, with no flag set |
| BufferManagers.BufferManager.InCore | src/dev/BufferManager.cpp:478-491 | Following the ring finds the block's buffer, and -1 only if none on the ring holds it |
| BufferManagers.BufferManager.NotAvail | src/dev/BufferManager.cpp:466-476 | Unlinking through `av_forw` and `av_back` removes just that buffer from the free list and marks it busy |
| BufferManagers.BufferManager.Relink | src/dev/BufferManager.cpp:118-134 | The buffer leaves its ring and becomes the first of its new one, with only the busy flag |
| BufferManagers.BufferManager.Link | src/dev/BufferManager.cpp:162-180 | The buffer becomes the last of the free list with busy, wanted and async cleared, the links being those the queue uses otherwise |
| BufferManagers.BufferManager.Brelse | src/dev/BufferManager.cpp:138-180 | As before, and the wanted mark of the free list is cleared |
| BufferManagers.BufferManager.Strategy | src/dev/BlockDevice.cpp:101-149 | The request joins the end of the queue threaded through `av_forw`, and the device is started if it was idle |
| BufferManagers.BufferManager.Start | src/dev/BlockDevice.cpp:151-162 | Activates the device exactly when there is a request |
| BufferManagers.BufferManager.IODone | src/dev/BufferManager.cpp:202-218 | An asynchronous request's buffer returns to the free list, any other is marked done and no longer wanted |
| BufferManagers.BufferManager.ATAHandler | src/dev/ATADriver.cpp:9-46 | Nothing on an empty queue; an error counts and the request stays first; otherwise it is dequeued and finished and the next one started |
| BufferManagers.BufferManager.FirstDelayed | src/dev/BufferManager.cpp:384-409 | The search along the free list finds the first delayed write of the device, and -1 only if there is none |
| Directories.DecodeEncode | src/include/FileManager.h:180-198 | An entry written and read back is the same entry |
| Directories.EntriesOfOverlay | src/fs/FileManager.cpp:809-829 | Writing one entry's bytes over another, or behind the last, changes just that entry of the list |
| Directories.CreateAddsBinding | src/fs/FileManager.cpp:640-673 | A new name in the first free slot or at the end adds one binding, leaves all others, and names stay unique |
| Directories.UnlinkRemovesBinding | src/fs/FileManager.cpp:1046-1085 | Freeing an entry removes one binding and leaves all others |
| Directories.UnlinkUndoesCreate | src/fs/FileManager.cpp:809-1085 | Unlinking what was just created gives the old map |
| Directories.UnlinkUncoversDuplicate | src/fs/FileManager.cpp:1046-1085 | A name is still there after unlinking if and only if a second live entry with it followed |
| Directories.DuplicateUncovered | src/fs/FileManager.cpp:1046-1085 | A directory in which unlinking a name leaves it bound to another inode |
| Directories.LateUnlinkIsRight | src/fs/FileManager.cpp:1046-1085 | Freeing the entry found before others changed the directory takes out just the name if and only if the entry still has it, or is free and the name is gone |
| Directories.LateUnlinkLoses | src/fs/FileManager.cpp:1055-1080 | A directory in which the late unlink takes out another process's new name |
| DirectoryFiles.Search | src/fs/FileManager.cpp:634-729 | Reading the directory block by block finds the first live entry of that name and its offset, or the first free slot |
| DirectoryFiles.WriteEntry | src/fs/FileManager.cpp:809-829 | One entry of the directory's list is replaced or appended; other files are untouched |
| DirectoryFiles.Create | src/fs/FileManager.cpp:787-829 | The directory's map gains exactly the new binding, or is left alone with the number already bound |
| DirectoryFiles.UnLink | src/fs/FileManager.cpp:1046-1085 | The directory's map loses exactly the name, whose number is returned |
| DirectoryFiles.SameName | src/fs/FileManager.cpp:710-728 | The loop over 28 characters decides equality of names |
| Paths.ExtractPathComponent | src/debug/fs/FSDebugger.cpp:535-555 | Takes the next name of the path, cut to 28 characters, and leaves the rest; nothing exactly when no name is left |
| Paths.NameEquals | src/debug/fs/FSDebugger.cpp:511-533 | Compares a stored name with a component as the padded names compare |
| Paths.NormalizePath | src/debug/json/debug_json.cpp:369-408 | Produces the normal form within 256 bytes, by the single pass of the source |
| Paths.NormalMeansTheSame | src/debug/json/debug_json.cpp:369-408 | A path that fits the buffer keeps its sequence of names, backslashes counting as slashes |
| Paths.NormalIsNormal | src/debug/json/debug_json.cpp:369-408 | The result starts with a slash and but for that ends in none, has no two side by side and no backslash, and fits the buffer |
| Paths.NormalStays | src/debug/json/debug_json.cpp:369-408 | A path in that form that fits is left as it is |
| Paths.PathOfNames | src/fs/FileManager.cpp:600-630 | A path put together from names is taken apart into just these, each cut to 28 characters and filled up with NUL |
| Walks.NameI | src/fs/FileManager.cpp:537-770 | The character loop over path and directories computes name-by-name resolution, in all three modes; what the resolution for CREATE and DELETE finds is said by `PathChanges` |
| Walks.LookupPath | src/debug/fs/FSDebugger.cpp:646-723 | The debugger's loop computes its own name-by-name resolution from the root |
| Walks.LookupDiskPath | src/debug/json/debug_json.cpp:529-583 | The same after normalizing the path |
| Walks.KernelFindsDebuggerFinds | src/debug/fs/FSDebugger.cpp:646-723 | Whatever the kernel resolves, the debuggers resolve to the same inode |
| Walks.DebuggerFindsKernelFinds | src/fs/FileManager.cpp:588-591 | What the debuggers resolve, the kernel resolves alike if and only if they entered no block device on the way; otherwise ENOTDIR |
| Walks.WalkersAgree | src/debug/json/debug_json.cpp:529-583 | All three walkers resolve an absolute path without backslashes to the same inode, or all fail, if and only if the debuggers do not reach its end through a block device; on paths they resolve, `Walks.DebuggerFindsKernelFinds` gives the condition on the image alone |
| Walks.EmptyDevicesAreNotEntered | src/debug/fs/FSDebugger.cpp:672-690 | Block devices without entries are never entered, so with these alone the walkers agree on every path |
| Walks.BlockDeviceIsSearched | src/debug/fs/FSDebugger.cpp:672-690 | An image on which only the debuggers find the path |
| PathChanges.CreateFindsPlace | src/fs/FileManager.cpp:640-673 | For CREATE there is a place exactly if the path without its last name leads to a directory that does not have that name; the place is that directory, that name, and the offset of the first free entry or of the end; otherwise the result is that of opening |
| PathChanges.DeleteFindsParent | src/fs/FileManager.cpp:736-748 | For DELETE the parent is found exactly if the path can be opened: the directory its front part leads to, the live entry just before the offset, with the last name and the number that opening finds; otherwise the result is that of opening |
| PathChanges.PlaceAddsName | src/fs/FileManager.cpp:654-673 | An entry written at the offset found adds just its binding to the directory's map, and names stay unique |
| PathChanges.ParentLosesName | src/fs/FileManager.cpp:1046-1085 | Freeing the entry just before the offset found takes just that binding out |
| PathChanges.CreateThenOpen | src/fs/FileManager.cpp:537-829 | After that the path created opens, and leads to the inode written |
| PathChanges.OldPathsOpen | src/fs/FileManager.cpp:537-829 | Whatever could be opened before a name was added still opens as it did, also through the directory changed |
| PathChanges.DeleteThenGone | src/fs/FileManager.cpp:537-1085 | After the entry was freed the path does not open any more, even if its front part leads through the name deleted |
| PathChanges.PathsLose | src/fs/FileManager.cpp:1046-1085 | Any path that could be opened then leads where it led, or nowhere |
| DiskBlocks.DebuggerMapsLikeTheKernel | src/debug/fs/FSDebugger.cpp:272-317 | The debugger's index arithmetic names the block the kernel's index names, 0 for a hole |
| DiskBlocks.SectorHoldsEntry | src/debug/fs/FSDebugger.cpp:680-692 | The sector and the offset the debuggers compute for an entry hold that entry of the directory's contents |
| DiskBlocks.SearchSectors | src/debug/fs/FSDebugger.cpp:676-711 | The debuggers' loop over one directory, entry by entry through raw sectors, finds what a search of the directory's contents finds, and fails only on a hole |
| Allocators.CanonicalUnique | src/mm/Allocator.cpp:10-103 | The sorted, merged, zero-terminated table is determined by the set of free units |
| Allocators.TakenIsRemoved | src/mm/Allocator.cpp:10-39 | Taking the front of a region keeps the table canonical and removes exactly those units |
| Allocators.ReleasedIsAdded | src/mm/Allocator.cpp:41-103 | Releasing merges with either neighbour, keeps the table canonical and adds exactly those units |
| Allocators.Alloc | src/mm/Allocator.cpp:10-39 | In place, the first region that fits loses its front, closing the gap if nothing is left; 0 exactly if none fits |
| Allocators.Free | src/mm/Allocator.cpp:41-103 | In place, the block is put back in order and merged |
| Allocators.FreeAllAdds | src/mm/Allocator.cpp:41-103 | Releasing outstanding blocks one after another frees just their units |
| Allocators.FreeInAnyOrder | src/mm/Allocator.cpp:41-103 | Releasing the same units in any blocks and any order gives the same table |
| Allocators.FreeEverything | src/mm/Allocator.cpp:41-103 | Releasing all that is in use gives the initial single region |
| Allocators.FreeUndoesAlloc | src/mm/Allocator.cpp:10-103 | Releasing what was just allocated restores the table entry for entry |
| PageTables.DataPhys | src/proc/MemoryDescriptor.cpp:85-182 | Through the loaded tables a data address goes to its place in the image |
| PageTables.StackPhys | src/proc/MemoryDescriptor.cpp:85-182 | A stack address goes to its place behind the data, counted from the top of user space |
| PageTables.TextPhys | src/proc/MemoryDescriptor.cpp:137-182 | A text address goes to the shared text |
| PageTables.RelativeAt | src/proc/MemoryDescriptor.cpp:85-114 | Which entry of the relative table belongs to text, data, stack or nothing |
| ProcessImages.SameEverywhere | src/proc/Process.cpp:324-403 | Every user address mapped before and after a relocation of the image reads the same byte |
| ProcessImages.StackFoundIffAligned | src/proc/MemoryDescriptor.cpp:85-114 | A stack byte is found where the image keeps it if and only if the size of the data is a whole number of pages |
| ProcessImages.StackElsewhere | src/proc/MemoryDescriptor.cpp:85-114 | With one byte of data the loaded tables lead to another place |
| ProcessImages.AcceptedFitsIffAdjacent | src/proc/MemoryDescriptor.cpp:85-114 | The test for too large a layout, which ignores the gap between text and data, keeps data and stack apart for all sizes if and only if that gap has no page to spare |
| ProcessImages.CopyDown | src/proc/Process.cpp:384-388 | Copying first byte first moves a possibly overlapping range down intact |
| ProcessImages.CopyUp | src/proc/Process.cpp:338-348 | Copying last byte first moves a possibly overlapping range up intact |
| ProcessImages.Process.MapEntry | src/proc/MemoryDescriptor.cpp:27-43 | Fills the entries of a range with consecutive pages and returns the next page |
| ProcessImages.Process.EstablishUserPageTable | src/proc/MemoryDescriptor.cpp:85-114 | Builds and loads the tables of the layout unless it exceeds user space, in which case nothing changes |
| ProcessImages.Process.MapToPageTable | src/proc/MemoryDescriptor.cpp:137-182 | Relocates the relative table by the text's and the image's places, page 0 kept |
| ProcessImages.Process.Expand | src/proc/Process.cpp:131-178 | Shrinking gives back the end and keeps all bytes; growing moves the image to the first place that fits, gives back the old one and reloads the tables. Pages are conserved: the free ones and the image's, which stay apart, are together the same set as before |
| ProcessImages.Process.SBreak | src/proc/Process.cpp:353-403 | The data's end moves, the user sees every byte mapped before and after unchanged, no page is lost or gained, and on an error nothing changes |
| ProcessImages.Process.SStack | src/proc/Process.cpp:324-351 | The stack grows by a page invisibly to the user, and no page is lost or gained; when user space is too small the recorded stack size has grown all the same and the process is no longer consistent |
| Pipes.DeliveredIsPrefix | src/fs/FileManager.cpp:436-534 | In every run, `sync` included, within the guard of `Pipes.GuardIsExact`, readers receive a prefix of what writers wrote, the rest being in the pipe, and the read offset never passes the size nor the size PIPSIZ |
| Pipes.GuardIsExact | src/fs/OpenFileManager.cpp:204-259 | The guard: the write end is not closed for good under the transfer of one of several processes that could read, nor while `sync` has the inode with data unread that somebody can read and there is another process; and `sync` does not take an inode unlocked by a last close under a transfer that will leave data while there is another process. From any state such runs reach, an event is within it if and only if no such run after it ever delivers anything but a prefix of what was written |
| Pipes.NoDeadlock | src/fs/FileManager.cpp:436-534 | In all runs, whenever ends are closed and `sync` comes: never is one process asleep for data and another for space; sleepers' reasons and marks are in place; nobody sleeps for either on a half-closed pipe |
| Pipes.WriteCallIsWritten | src/fs/FileManager.cpp:483-533 | In every run, what a process has put into the pipe since its write call, followed by what it still has to write, is the bytes of the call; when it is out of the call with both ends open and no signal, it has put in all of them |
| Pipes.TransferFills | src/fs/FileManager.cpp:519-524 | A transfer of a writer leaves it nothing to write, or leaves the pipe full |
| Pipes.OneWriterWritesAll | src/fs/FileManager.cpp:483-533 | If one process makes all write calls, is not signalled and both ends stay open, the bytes of its calls joined are what the pipe was given, followed by what is still to be written |
| Pipes.ReadCallDelivers | src/fs/FileManager.cpp:436-480 | In every guarded run a read gives its caller at most what was asked for, and something whenever it returns with both ends open, no signal and a count above 0 |
| Pipes.EndOfFile | src/fs/FileManager.cpp:446-470 | At the unlocked pipe a read transfers exactly if there is unread data, returns empty-handed exactly if there is none and an end is closed for good, and otherwise goes to sleep for data |
| Pipes.OneTransferAtATime | src/fs/INode.cpp:649-671 | In the same runs transfers are kept apart by the lock, which `sync` then does not have, or after an end was closed for good by there being nobody who could start another |
| Pipes.DeliveredTwice | src/fs/OpenFileManager.cpp:236-239 | A run with two readers and a writer closing during a transfer in which a byte is delivered twice |
| Pipes.DeliveredTwiceAfterSync | src/fs/OpenFileManager.cpp:241-259 | A run with no transfer under way when the writer closes, in which `sync` then unlocks a reader's transfer and a byte is delivered twice |
| Pipes.OverrunDeliversTwice | src/fs/OpenFileManager.cpp:241-259 | From any state in which `sync` has lost the lock, data is unread and one process can read and share the read end with another, a run delivers bytes again |
| Pipes.OvertakenDeliversTwice | src/fs/FileManager.cpp:476-480 | From any state in which a reader's transfer does not hold the lock and another process can read, a run delivers bytes again |
| Pipes.EventKeeps | src/fs/FileManager.cpp:436-534 | Every call, step, signal, close, fork and step of `sync` within the guard keeps the pipe's invariant |
| Pipes.WeakKeeps | src/fs/FileManager.cpp:436-534 | Every event at all keeps the part about sleepers and open ends |
| PipeFiles.PipeFile.ReadP | src/fs/FileManager.cpp:436-480 | In place, up to the sleep, the return or the transfer: lock, start over an emptied pipe, wake the writers |
| PipeFiles.PipeFile.ReadDone | src/fs/FileManager.cpp:476-480 | The bytes at the offset go to the reader, the offset advances and the lock is released |
| PipeFiles.PipeFile.WriteP | src/fs/FileManager.cpp:483-524 | In place, up to a sleep, an error or a transfer of what fits |
| PipeFiles.PipeFile.WriteDone | src/fs/FileManager.cpp:523-533 | The piece is appended, the lock released and the readers woken |
| PipeFiles.PipeFile.CloseF | src/fs/OpenFileManager.cpp:54-80 | Everybody at the pipe is woken; the last close of an end drops its reference and unlocks |
| PipeFiles.PipeFile.SyncTake | src/fs/OpenFileManager.cpp:241-252 | Takes the inode's lock exactly if it is free and the inode in use |
| PipeFiles.PipeFile.SyncRelease | src/fs/OpenFileManager.cpp:253-257 | Unlocks the inode, whoever has it by then, and wakes who waits for it |
| PipeFiles.WokenTwice | src/proc/ProcessManager.cpp:824-834 | Two wakeups one after the other wake whom either wakes |
| Scheduler.ProcessManager.Select | src/proc/ProcessManager.cpp:739-783 | Chooses the first of the most urgent ready and loaded processes in cyclic order after the last one chosen |
| Scheduler.Closer | src/proc/ProcessManager.cpp:739-783 | Choosing somebody else of the same urgency brings a process nearer in cyclic order |
| Scheduler.BoundedWaiting | src/proc/ProcessManager.cpp:739-783 | A process that stays ready, loaded and most urgent is chosen within NPROC selections, whatever the others do |
| Scheduler.ProcessManager.SetPri | src/proc/Process.cpp:40-57 | A user process's priority is capped at 255, so Select can choose it, and a worse one than the current asks for rescheduling |
| Alarms.AlarmAhead | src/interrupt/SystemCall.cpp:584-622 | In every run in which no second is counted before the alarm's own has been compared, `time <= tout <= wakeTime` for each sleeper, and `time < tout` once compared, so none sleeps past its time |
| Alarms.NeverEarly | src/interrupt/SystemCall.cpp:592-618 | Unless signalled, a process leaves the loop only when the wake time it computed has come |
| Alarms.SleepLasts | src/interrupt/SystemCall.cpp:584-622 | In every run, `sleep(seconds)` not ended by a signal has returned only if that many seconds have passed since the call, and while the process is asleep, with nothing left to compare and no alarm missed, they have not |
| Alarms.TimeIsExact | src/interrupt/TimeInterrupt.cpp:83-109 | As long as no interrupt finds the kernel at work for a process, the time is the number of clock interrupts divided by HZ |
| Alarms.NoTimeLost | src/interrupt/TimeInterrupt.cpp:83-116 | Seconds put off while the kernel is busy are made up for: clock interrupts are conserved |
| Alarms.SettingTheTime | src/interrupt/SystemCall.cpp:584-622 | Setting the time by hand is safe if and only if it stays before the alarm or nobody is asleep |
| Alarms.TimePutForward | src/interrupt/SystemCall.cpp:466-476 | A reachable state in which putting the time past the alarm leaves a sleeper that no number of clock interrupts wakes |
| Alarms.EventKeeps | src/interrupt/TimeInterrupt.cpp:83-116 | Every call, step, clock interrupt, comparison and signal keeps the invariant if and only if it is not a nested interrupt of the idle kernel with `lbolt >= HZ - 1` while the alarm's own second is still to be compared and somebody is asleep |
| Alarms.MissNeedsBacklog | src/interrupt/TimeInterrupt.cpp:83-116 | How many interrupts must have been put off for that |
| Alarms.AlarmMissed | src/interrupt/TimeInterrupt.cpp:104-116 | A run from the start in which the clock steps over the alarm and a process sleeps past its time |
| Alarms.MissedIsLost | src/interrupt/TimeInterrupt.cpp:104-116 | After that no number of clock interrupts wakes anybody |
| Alarms.Time.Clock | src/interrupt/TimeInterrupt.cpp:83-109 | With interrupts off, the handler counts, and postpones the second for any kernel work of a running process |
| Alarms.Time.CompareWithAlarm | src/interrupt/TimeInterrupt.cpp:112-116 | With interrupts on, it wakes the sleepers if the time is the alarm's just then |
| Alarms.Time.SslepStart | src/interrupt/SystemCall.cpp:588-591 | The wake time is the time of the call plus the seconds asked for |
| Alarms.Time.SslepTurn | src/interrupt/SystemCall.cpp:584-622 | A turn of the loop moves the shared alarm to the nearest wake time and sleeps, or finds the time come |
| Alarms.Time.WakeUpAll | src/proc/ProcessManager.cpp:824-834 | Exactly the sleepers go back to testing their time |
| Breakpoints.RunKeeps | src/debug/gdb/gdb_breakpoints.cpp:29-174 | After any run of set, unset, traps, steps, range steps and the target's own writes, memory is the target's code with INT3 at exactly the inserted and temporary addresses |
| Breakpoints.EverythingIsRestored | src/debug/gdb/gdb_breakpoints.cpp:89-106 | After any run, removing the breakpoints in any order and ending the range step, before or after, gives the code byte for byte |
| Breakpoints.EventKeeps | src/debug/gdb/debugger_main.cpp:299-356 | Every command, trap and permitted write keeps the overlay and the saved bytes |
| Breakpoints.AddKeeps | src/debug/gdb/gdb_breakpoints.cpp:52-86 | Setting a breakpoint anywhere but on the temporary one keeps the overlay and every other breakpoint |
| Breakpoints.DropKeeps | src/debug/gdb/gdb_breakpoints.cpp:89-106 | Removing one restores its byte and keeps every other breakpoint |
| Breakpoints.SetOnTemporaryIsKept | src/debug/gdb/gdb_protocol.cpp:187-202 | Setting, ending the range step and removing gives the byte back if and only if the address is not the temporary one or its byte is INT3 anyway |
| Breakpoints.BreakpointLeftBehind | src/debug/gdb/gdb_protocol.cpp:187-202 | A run after which nothing is set or armed and an INT3 is left in the code |
| Breakpoints.WriteIsSafeIffUnrecorded | src/debug/gdb/gdb_breakpoints.cpp:77-83 | A write that changes a byte keeps the overlay if and only if no byte is saved for its address |
| Breakpoints.WriteUndone | src/debug/gdb/gdb_breakpoints.cpp:40-49 | A write under a breakpoint that removing the breakpoint undoes |
| Breakpoints.TrapKeepsBreakpointsLive | src/debug/gdb/debugger_main.cpp:299-320 | A trap keeps every breakpoint inserted or pending if and only if it is not on a second one while another waits to be put back |
| Breakpoints.BreakpointForgotten | src/debug/gdb/debugger_main.cpp:299-320 | A run, a call under a breakpoint stepped over into another breakpoint, after which the first is set, not in memory and not waiting to be put back |
| Breakpoints.StepPutsBreakpointsBack | src/debug/gdb/debugger_main.cpp:322-356 | After a single step every breakpoint is in memory again |
| Breakpoints.CallIsSeen | src/debug/gdb/gdb_protocol.cpp:166-185 | The test for a call sees one in patched memory if and only if the code has one and none of the bytes looked at is patched |
| Breakpoints.CallHidden | src/debug/gdb/gdb_protocol.cpp:166-185 | A run after which a call in the code is not seen as one |
| RangeSteps.RangeStepStops | src/debug/gdb/gdb_protocol.cpp:187-214 | A range step replaces the one before; from a call at its start the target runs freely into an INT3 at the range's end exactly if no breakpoint set there is taken out or the byte is INT3 anyway; otherwise memory has no temporary breakpoint |
| RangeSteps.StepInRange | src/debug/gdb/debugger_main.cpp:322-356 | A step within the range goes on unasked, over a call to a trap at the range's end; a step out of it ends the range and takes the temporary breakpoint out |
| RangeSteps.TrapStops | src/debug/gdb/debugger_main.cpp:299-320 | The temporary breakpoint's trap takes it out and keeps the range, a trap on one of the table's ends the range and makes it pending, both with the target's own byte back; any other changes nothing |
| RangeSteps.ContinuesOverBreakpoint | src/debug/gdb/gdb_protocol.cpp:459-527 | Continuing goes on unasked after the step exactly if a breakpoint is pending, and that is in memory again then; a single step never goes on unasked |
| RangeSteps.EnableAndDisable | src/debug/gdb/gdb_breakpoints.cpp:119-134 | Enabling puts exactly the breakpoints set, but for address 0, into memory and disabling takes exactly these out |
| Debuggers.Debugger.FindBreakpoint | src/debug/gdb/gdb_breakpoints.cpp:109-116 | The loop finds the first enabled entry for the address |
| Debuggers.Debugger.AddBreakpoint | src/debug/gdb/gdb_breakpoints.cpp:52-86 | In place, the first unused or the next entry takes the address and its byte; 0, -1 or -2 as the table and the kind allow |
| Debuggers.Debugger.RemoveBreakpoint | src/debug/gdb/gdb_breakpoints.cpp:89-106 | In place, byte restored, entry unused, a pending resume of it cancelled; -1 if there is none |
| Debuggers.Debugger.EnableBreakpoints | src/debug/gdb/gdb_breakpoints.cpp:119-125 | In place, every enabled entry but one at address 0 is inserted |
| Debuggers.Debugger.DisableBreakpoints | src/debug/gdb/gdb_breakpoints.cpp:128-134 | In place, every enabled entry but one at address 0 is taken out |
| Debuggers.Debugger.HandleBreakpointTrap | src/debug/gdb/debugger_main.cpp:299-320 | In place, the temporary breakpoint is consumed or the table's one made pending; the instruction pointer goes back and the trap flag is cleared exactly for these; 1 for the table's |
| Debuggers.Debugger.HandleDebugTrap | src/debug/gdb/debugger_main.cpp:322-356 | In place, the pending one is put back and the range left, stepped on or run through; says exactly when the target goes on unasked, and with which trap flag |
| Debuggers.Debugger.ActivateRangeStep | src/debug/gdb/gdb_protocol.cpp:204-214 | In place, a new range replaces the old; a call at its start is run through with a breakpoint at its end |
| Debuggers.Debugger.ConsumeRangeStepBreakpoint | src/debug/gdb/gdb_protocol.cpp:216-228 | In place, the temporary breakpoint is taken out exactly when it is at that address |
| Debuggers.Debugger.HandleContinue | src/debug/gdb/gdb_protocol.cpp:459-474 | In place, the range step ends, and a pending breakpoint will be stepped over and passed without asking |
| Debuggers.Debugger.HandleStep | src/debug/gdb/gdb_protocol.cpp:517-527 | In place, the range step ends, the trap flag is set and the next stop is reported |
| Debuggers.Debugger.HandleRangeStep | src/debug/gdb/gdb_protocol.cpp:528-541 | In place, the range is stepped through, or run through from a call at its start |
| Packets.RoundTrip | src/debug/gdb/gdb_serial.cpp:149-358 | After any noise and through any pauses shorter than the timeout, the receiver returns exactly the payload framed, acknowledges it and reads not a byte more |
| Packets.FrameSaysSum | src/debug/gdb/gdb_serial.cpp:149-170 | A frame is `$`, the payload, `#` and the plain total of the payload's bytes modulo 256 in two lower-case hexadecimal digits, the higher first |
| Packets.AcceptedIffSumIsRight | src/debug/gdb/gdb_serial.cpp:320-356 | A frame with any two bytes for its sum is accepted if and only if they are digits, of either case, that say its payload's sum; otherwise -1 and a nack |
| Packets.WrongByteIsRefused | src/debug/gdb/gdb_serial.cpp:338-353 | A frame with one payload byte changed is refused, and the frame sent again after it is received |
| Packets.TooLongIsRefused | src/debug/gdb/gdb_serial.cpp:302-318 | A payload that does not fit is refused at the first byte too many |
| Packets.InterruptIsHeard | src/debug/gdb/gdb_serial.cpp:275-281 | The interrupt byte is returned at once from any state and not answered |
| Packets.SessionIsReceived | src/debug/gdb/gdb_serial.cpp:243-358 | As many calls as frames sent give the messages in order, whatever noise and pauses lie between |
| Packets.GapsDoNotMatter | src/debug/gdb/gdb_serial.cpp:254-271 | Silences shorter than the timeout change nothing in what is received |
| Packets.SilenceEndsCall | src/debug/gdb/gdb_serial.cpp:254-264 | A silence longer than the limit ends the call with nothing, and what comes then is left |
| Packets.SumNoticesOneByte | src/debug/gdb/gdb_serial.cpp:308-310 | Changing one byte changes the sum modulo 256 by just the difference |
| SerialPorts.SerialPort.SendPacket | src/debug/gdb/gdb_serial.cpp:149-170 | Exactly the frame of the data goes out |
| SerialPorts.SerialPort.GdbSendPacket | src/debug/gdb/gdb_protocol.cpp:325-350 | The frame put together in the buffer is the same frame |
| SerialPorts.SerialPort.RecvPacket | src/debug/gdb/gdb_serial.cpp:243-358 | The state machine over polls returns, answers, stores and consumes what the receiving function says, with the buffer terminated; 0 after 1000001 silent polls |

## Left out

* Hardware and assembly: ports, DMA, descriptor tables, context switches, interrupt entry. A process switch happens
  only in `Sleep`; the disk is an abstract completer that may interrupt between any two steps of a process.
* Final I/O errors. A request is repeated until it succeeds, at most ten times; what the kernel does after that, with
  the result of `SetMinor` discarded at src/dev/BufferManager.cpp:160, is not coherent and not modelled.
* One block device with minor number 0, as the kernel configures it, and block numbers within its disk.
* The cache's operations that may sleep part-way (`GetBlk`, `Bread`, `Breada`, `IOWait`, `Bwrite`, `Bflush`) are step
  functions in `CacheRuns`, so that other processes and the disk can act in between; as methods there are their critical
  sections, in the class `BufferManager`.
- BufferManagers.BufferManager.Brelse: the wakeups are in the step functions of `CacheRuns`; the branch for `B_ERROR` belongs to the final I/O errors left out.
- BufferManagers.BufferManager.IODone: likewise without the wakeups.
- BufferManagers.BufferManager.Strategy: takes every block number for one on the disk; the branch that answers others with `B_ERROR` is left out.
- BufferManagers.BufferManager.ATAHandler: requires that an error is not the eleventh in a row.
* `BufferManager::Swap`, which goes around the cache, and `ClrBuf`.
* In the runs of the cache a process calls one operation at a time and keeps the rules the file system keeps: it
  modifies and releases only buffers it holds, and writes modified ones. Waiting for a buffer held by a process that
  waits in turn (possible when `Breada`'s caller holds others) is not excluded by `NoLostWakeup`.
- FileSystems.FileSystem.Alloc: requires `s_nfree >= 1`, since the decrement at src/fs/FileSystem.cpp:358 is unguarded; the source leaves 0 there once the disk has run full, after which only `Free` is meaningful.
- Inodes.Inode.Bmap: requires free blocks for what is missing on the path; allocation failing part-way, which leaves a half-built path, is not modelled.
- Inodes.Inode.ReadI: requires free blocks for the holes it meets, which it fills as the source does; read-ahead only chooses which call reads the block, so it is not seen here. Device special files are left out.
- Inodes.Inode.WriteI: requires that no allocation on the way fails; ENOSPC in the middle of a write is left out, and so is the choice between delayed and asynchronous writing.
- Inodes.Inode.ITrunc: the mode, link count and update flags of the inode are not modelled, nor are the locks of the superblock.
- DirectoryFiles.Search: requires a directory without holes, as `mkdir` and `WriteDir` make them; `DiskBlocks.SearchSectors` says what the debuggers do with holes.
- DirectoryFiles.Create: inode allocation, permissions and the link count are left out; when a new entry must be appended there must be room for it.
- DirectoryFiles.UnLink: one process without interruption, while the source unlocks the directory between the search and the write; `Directories.LateUnlinkIsRight` says what an interruption can do. What happens to the inode whose name is gone is left out.
- Walks.LookupPath: searches the entries a directory's contents read as; the search through raw sectors is `DiskBlocks.SearchSectors`, and that directories have no holes is assumed here.
- Walks.NameI: searches the entries a directory's contents read as, while the search block by block is `DirectoryFiles.Search`; permissions, mounts, a full inode table and blocking in `IGet` are left out.
- Walks.WalkersAgree: caches are flushed, so that the debuggers read on the disk what the kernel reads; paths whose normal form does not fit the 256-byte buffer are cut by the JSON debugger and not compared.
- ProcessImages.Process.Expand: only where memory for the larger image is found; swapping the process out instead is left out, as is a process without shared text.
- ProcessImages.Process.SBreak: requires page-aligned data, an end not before the data's start, and less than a spare page between text and data; `ProcessImages.StackFoundIffAligned` and `ProcessImages.AcceptedFitsIffAdjacent` say why.
- ProcessImages.Process.EstablishUserPageTable: requires that accepted layouts are page-aligned and do not overlap, for which the source does not test.
- ProcessImages.Process.SStack: requires the same alignment and adjacency, and free memory where the new size is accepted.
- Allocators.Free: requires a spare slot in the table and that the block was in use; the source checks neither.
- Pipes.DeliveredIsPrefix: runs outside the guard of `Pipes.GuardIsExact`, which says that nothing less will do; `sync` is made by a process without a part in the pipe, and its writing of the inode to the disk is seen only through the lock.
- PipeFiles.PipeFile.CloseF: freeing the blocks of a pipe when its last end is closed is left out.
- Scheduler.ProcessManager.Select: the loop that halts until something can run is left out; one round is modelled.
- Alarms.AlarmAhead: no call of `stime`, no wrap-around of the clock, and no event that `Alarms.EventKeeps` shows to miss the alarm.
- Breakpoints.RunKeeps: the client sets no breakpoint on the temporary one and the target writes no address with a saved byte; the lemmas on these two cases say exactly what goes wrong otherwise. Addresses are those of mapped memory.
- Debuggers.Debugger.HandleContinue: matching the packet, the error answer and committing the registers are left out, here and in the other handlers.
- Packets.RoundTrip: payloads without `#` and the interrupt byte, which the protocol escapes elsewhere; `gdb_recv_packet` and the retry loop around the receiver are left out, and an empty payload is returned as 0 like a timeout.
- SerialPorts.SerialPort.RecvPacket: requires a buffer of at least two bytes, which the interrupt byte and its terminator are written to without a check.
- SerialPorts.SerialPort.GdbSendPacket: requires that the frame fits the 1024-byte buffer, which the source does not check.
* Integer widths: sizes, offsets, block and device numbers, counts, times and addresses are unbounded, whatever the width
  of the source's variables for them (`short`, `int`, `unsigned int`), so neither wrap-around nor narrowing is seen. Exact
  are the words of index and free-list blocks, inode numbers in directories, and the one-byte sum of a packet.
* Swapping, `exec`, `fork`, loaders, terminals, drivers other than the disk's, user programs, the text of the JSON
  debugger's documents, and memory allocation in the user library: easy, or resting on parts not in the repository.
