# MOS kernel, user library and file server: a verified model

MOS is a small teaching kernel for RISC-V Sv32 with a user library, a file server and a disk-image builder.
This project models its hardest parts in Dafny and proves what their comments promise:

- **Memory** (`Sv32`, `Entries`, `PageTables`, `PageSteps`, `Pmap`, `SelfMap`, `Faults`): physical frames with counts and a
  free list, two-level page tables in those same frames, tear-down, page faults, and the self-map that shows user
  code its own page tables. Counts are exact and every frame is in one place after every call, as long as permissions have
  no misplaced address bits; insert, remove and lookup act as operations on a map; `vpt` and `vpd` read the live tables.
- **Copy-on-write fork** (`CowModel`, `CowProof`, `CowFork`, `CowProgram`, `CowMemory`): a transition system for
  fork and its fault handler with any number of environments, which refines a machine that copies at once, and
  whose system calls and page faults are those of the page tables.
- **Environments** (`SchedModel`, `SchedProof`, `SchedLaws`, `SchedRuns`, `SchedWait`, `Envs`): run queue, ids, ASIDs, message
  passing and round robin as a state machine; each message is delivered once, waiting is bounded, and the
  calls in place are the steps of that machine.
- **File server** (`FsModel`, `FileServer`) and **image builder** (`FsFormat`): every block is held by one slot,
  truncation frees exactly the tail, the bitmap on disk never says free of a block in use, and a server
  started on a built image finds everything where the builder put it.
- **Virtqueue driver** (`VirtqModel`, `Virtqueue`): descriptors, chains and 16-bit rings against any conforming
  device that acts between any two steps of the driver (VIRTIO 1.0, sections 2.4.5, 2.4.6 and 2.4.8).
- **Pipe** (`PipeEnds`, `PipeFifo`): a bounded buffer between two preemptible environments, and end detection by
  comparing reference counts while descriptors are closed.
- **Sequential algorithms**: intrusive lists (`Queues`), the ELF segment loader (`ElfLoad`) and the number
  formatter (`PrintNum`). `Words` and `Counting` are shared arithmetic.

State that the C code changes in place is a class; its methods are proved against functions or predicates on
the state as a value, and the theorems are about those. Interleaving is modelled in two ways: as a transition
system over whole runs (fork, scheduling), and by methods that let the other side take any number of its own
steps between two statements (device, pipe, library calls that wait).

## What does not hold, and when it does

- `sys_set_env_status` breaks the run queue exactly when it wakes an environment that waits for a message
  (`SchedProof.SetStatusKeepsExactly`, `SchedProof.WokenReceiverIsQueuedTwice`).
- A send can return an error and yet have delivered its value (`SchedRuns.FailedSendDelivers`).
- A priority of zero starves the run queue (`SchedWait.PriorityZeroStarves`); at least one does not
  (`SchedWait.PositivePriorityEnds`).
- A new indirect block is empty exactly when the first free block is not cached with entries
  (`FileServer.NewIndirectIsEmpty`); otherwise the file shows them. Block ownership is then lost in every state
  without lost blocks, and in general exactly when the old words do not all name different lost blocks
  (`FileServer.MadeIsOwnedExactly`, `FileServer.Server.FileMapBlock`; an input: `FileServer.StaleBlockIsShared`).
- Truncation loses blocks exactly when at most ten blocks remain and an entry lies beyond the old size
  (`FileServer.TruncationLeaksExactly`, `FileServer.StrayEntryIsLost`).
- The system calls do not mask `perm`. page_insert keeps the counts exactly when its high bits are bits of the
  frame number (`Pmap.Kernel.PageInsert`, `Entries.NamesItsFrameExactly`; an input: `Entries.NextFrameNamed`).
- A store to an unmapped place of the self-map strands one or two counted frames for good
  (`Pmap.Kernel.StoreIntoSelfMap`).
- Builder and server disagree on the bitmap size exactly when the disk size is a multiple of 32768 blocks
  (`FsFormat.BitmapSizesAgree`, `FsFormat.ImagePassesChecks`).
- The segment loader maps the first page twice exactly when the file part ends inside an unaligned first page
  and there is a part to fill up (`ElfLoad.AddressSpace.ElfLoadSeg`); what is in memory then is right in the
  cases of `ElfLoad.BlankImageIsRightExactly` only.
- Removing an environment from the run queue that is not in it is harmless exactly when its two old links agree
  (`Queues.RemovedAgainExactly`); otherwise it can cut the queue (`Queues.RemovedAgain`) or close it to a loop
  (`Queues.RemovedAgainLoops`).
- A read of zero bytes from a pipe does not mean that the buffer is drained when a writer was open before it
  (`PipeFifo.ClosedButNotDrained`); with none left it does (`PipeFifo.Pipe.PipeRead`).
- The closed test of a pipe can be wrong while dup is on its way, exactly in the cases of
  `PipeEnds.TestIsRight` (also `PipeEnds.LooksClosedExactly` and `PipeEnds.DupBreaksTheTest`).
- A fault between reading `vpt` and the first map call of duppage breaks isolation, in every state
  (`CowFork.FaultInTransitLeaks`); without it `CowProof.CowRefinesEager` holds.
- Pages that the parent writes after handing them over, such as its stack, differ at the end of fork; the child
  has them as they were when handed over (`CowFork.ChildGetsPageOfThatMoment`).
- The comment above `pipe_read` says that it returns zero only when nothing has been written since the last
  read; the code does not ensure that, and the model follows the code.

## Model

| member | source | states |
|---|---|---|
| Sv32.PteRoundTrip | include/pmap.h:28-45 | decoding an entry gives back the frame and the permission bits it was built from, for every frame number and every 10-bit permission |
| Sv32.VaParts | include/mmu.h:11-19 | page number, directory index and table index of an address fit together; an address is below UTOP exactly when its directory index is below that of UTOP |
| Entries.NamesItsFrameExactly | kern/pmap.c:281-293 | with any 32-bit permission or-ed in, the hardware finds in the entry the frame that is counted for it if and only if the high bits of the permission are bits of the frame number |
| Words.BitAt | fs/fs.c:180-206 | the bit operations on words in numbers: bit k counts 2^k, setting adds it and clearing takes it away |
| Entries.FittingEntry | kern/pmap.c:281-293 | with fitting high bits the entry is the one that the low ten permission bits alone give |
| Entries.NextFrameNamed | kern/syscall_all.c:158-158 | an input that does not fit: bit 10 of the permission turns the entry of every even page into one of the next page |
| Entries.StoredFits | kern/pmap.c:275-293 | what the kernel reads back from the entry: the frame when the bits fit, and in any case the low ten bits with PTE_V and PTE_R for writable pages |
| Entries.StoredFlags | kern/pmap.c:275-293 | the flags that are read back, bit by bit: those of the caller, with V, and with R if W is among them |
| SelfMap.WalkIsPageMap | include/pmap.h:47-59 | below UTOP the Sv32 hardware walk, `va2pa` and the abstract page map agree on every address of every environment |
| PageTables.CountLost | kern/pmap.c:335-342 | when one use of a frame disappears and all others stay, that frame has one use fewer and every other frame as many as before |
| PageTables.LiveIsCounted | kern/pmap.c:335-342 | a frame that a live entry names has a positive count and is neither free nor held, so that page_decref never underflows |
| PageTables.ReleaseKeepsCore | kern/pmap.c:335-342 | losing one use and releasing its frame keeps counts exact and every frame in one of free, held, referenced |
| PageTables.RetainKeepsCore | kern/pmap.c:296-301 | gaining one use and counting it keeps counts exact and the partition of frames |
| PageTables.UnreferencedHasNoUse | kern/pmap.c:179-196 | a frame with count zero is named by no directory, table, copy or page entry |
| PageSteps.TableWrite | kern/pmap.c:227-256 | writing one word of one page table changes that one leaf use only, although tables live in the frames they map |
| PageSteps.DirWrite | kern/pmap.c:227-256 | writing one word of a directory changes at most the uses behind that entry |
| PageSteps.AllocKeepsCore | kern/pmap.c:179-196 | zeroing the frame handed out changes no use of any frame and keeps the invariant |
| PageSteps.NewTableKeeps | kern/pmap.c:235-250 | a zeroed frame from the free list becomes a page table: no page appears, counts stay exact |
| PageSteps.RemovedKeeps | kern/pmap.c:346-362 | removing a page loses exactly its leaf use, keeps the invariant and every self-map |
| PageSteps.InsertedKeeps | kern/pmap.c:270-302 | inserting a page, over an old one or into a fresh table, keeps counts, partition and self-maps |
| PageSteps.InsertedPageMaps | kern/pmap.c:270-302 | the insert is a map update at the page number of va; all other environments keep their page maps |
| PageSteps.MisnamedBreaksCore | kern/pmap.c:281-293 | any other word in the place of a valid entry, naming another frame for the hardware, breaks the counts or the addresses, in every state |
| PageSteps.ChargedKeepsCore | kern/pmap.c:296-298 | a frame that stays counted without an entry keeps counts and partition when it is booked as referenced for good |
| PageSteps.RemovedPageMaps | kern/pmap.c:346-362 | the removal takes the page number of va out of the map and touches no other environment |
| PageSteps.SelfMapClearedKeeps | kern/pmap.c:296-299 | dropping the UVPT entry after an insert keeps the copy-agreement invariant |
| PageSteps.ExposeEntry | kern/tlbex.c:72-80 | setting read and user bits leaves validity, address and write permission of a directory entry as they are |
| Pmap.Kernel.PageInit | kern/pmap.c:142-164 | frames below freemem are referenced for good, all others are free once, the last frame first; the invariant holds |
| Pmap.Kernel.PageAlloc | kern/pmap.c:179-196 | hands out the first free frame, zeroed and held by the caller, or changes nothing; no use of any frame changes |
| Pmap.Kernel.PageDecref | kern/pmap.c:335-342 | one reference less; at zero the frame becomes the head of the free list |
| Pmap.Kernel.PgdirWalk | kern/pmap.c:227-256 | finds the entry of va; with `create` a missing table is made and counted, and it fails only when no frame is left |
| Pmap.Kernel.PageLookup | kern/pmap.c:309-329 | the lookup of the page number in the page map, and the place of its entry; nothing changes |
| Pmap.Kernel.PageRemove | kern/pmap.c:346-362 | map removal at va; the invariant, broken between lines 356 and 359, holds again at the end |
| Pmap.Kernel.InstallLeaf | kern/pmap.c:289-301 | writes the entry with the whole 32-bit permission, counts the reference in 16 bits and drops the self-map |
| Pmap.Kernel.PageInsert | kern/pmap.c:270-302 | map update at va for every 32-bit permission, with exact failure condition; the invariant is kept if and only if it fails or the high permission bits fit the frame; every data frame that stays in use keeps its contents; on failure the whole state is the old one |
| Pmap.Kernel.EnvSetupVm | kern/env.c:196-227 | a directory that is empty below UTOP, with every word from UTOP on: the template's at the two places before the self-map, the kernel's after them; or nothing changed exactly when no frame is left |
| Pmap.Kernel.UnmapTable | kern/env.c:404-410 | the inner loop of env_free removes every page of one table and nothing else |
| Pmap.Kernel.EnvFree | kern/env.c:386-427 | every frame loses exactly its uses by the freed environment, frames used by it alone return to the free list, all other page maps stay |
| Pmap.Kernel.CopyFrameOf | kern/tlbex.c:62-71 | the frame of the directory copy is made on first use, counted once, and changes no page map |
| Pmap.Kernel.ExposeDir | kern/tlbex.c:72-80 | the copy loop: each valid entry becomes user-readable with the same address, all others stay |
| Pmap.Kernel.MapSelf | kern/tlbex.c:62-87 | after the fault branch for UVPT the copied directory agrees with the live one, and the directory points to the copy |
| Pmap.Kernel.AllocAt | kern/syscall_all.c:155-158 | page_alloc and page_insert: a fresh zeroed frame at va exactly when frames for page and table are left; otherwise no page map changes and the frame taken stays held |
| Pmap.Kernel.StoreIntoSelfMap | kern/tlbex.c:27-28 | a store to an unmapped place of the self-map: one frame, or two without a table there, are counted from then on and named by no entry, as page_insert takes the table away again (kern/pmap.c:298); all page maps stay |
| Pmap.Kernel.SelfLookup | kern/tlbex.c:43-43 | page_lookup in the region of the self-map reads the directory copy |
| Pmap.Kernel.PassiveAlloc | kern/tlbex.c:4-29 | for every address: below UTOP a zeroed readable and writable user page exactly under the stated condition, in the self-map region the stranded frames, elsewhere a panic |
| Pmap.Kernel.DoTlbMiss | kern/tlbex.c:37-90 | for every address and cause: where an entry is found nothing changes and the entry decides; an unmapped address is filled with a zeroed frame exactly under the stated condition, else panic; what the predicates decide is in the laws of Faults |
| Faults.UserFault | kern/tlbex.c:37-60 | below UTOP, by the access: a fault goes to the copy-on-write handler if and only if it is a store to a mapped page with bit 0x100; it gets a page if and only if the page is unmapped, its address in reach and frames are left; then a store or load at that address passes and finds zero |
| Faults.HandlerOnlyForCowStores | kern/tlbex.c:44-47 | an entry that is found leads to the handler if and only if the cause is a store and bit 8 of the entry is set |
| Faults.FillsExactly | kern/tlbex.c:4-29 | the addresses that get a page, by number: stores from UTEMP to UTOP but for the page above the stack, loads below the stack top |
| Faults.FilledPasses | kern/tlbex.c:25-28 | a page that was filled passes the loads and stores of its environment in the hardware walk |
| Faults.SelfFaultDecided | kern/tlbex.c:37-90 | what becomes of each fault in the region of the self-map, by cause, entry found and frames left |
| Faults.StrandedAreLost | kern/tlbex.c:27-28 | the frames of an answered store to the self-map: counted once more each, and named by no entry of any environment |
| Faults.AnsweredSelfLoadPasses | kern/tlbex.c:56-88 | a load of the self-map passes in the hardware walk once the kernel has answered its fault |
| Pmap.Kernel.SysMemAlloc | kern/syscall_all.c:140-159 | maps a fresh zeroed frame at va, which no page named before, with exact error codes and the legal addresses by number; the invariant is kept if and only if the call fails or the high bits of the caller's perm fit that frame; when the insert fails the frame stays held for good |
| Pmap.Kernel.SysMemMap | kern/syscall_all.c:175-204 | the source's frame also at the destination, with exact error codes, the legal addresses by number and the exact condition on perm; contents of data frames stay; on error nothing changes |
| Pmap.Kernel.SysMemUnmap | kern/syscall_all.c:216-230 | map removal, or the error exactly for the illegal addresses by number; contents of data frames stay |
| Pmap.FreedExactly | kern/env.c:386-427 | if all uses but those of one environment are the same, counts and free list differ by exactly its uses |
| Pmap.InitialCore | kern/pmap.c:142-164 | with no environment the boot references alone give exact counts and partition |
| Pmap.SelfMapMade | kern/tlbex.c:81-87 | filling the copy and pointing the directory at it establishes the self-map, changes no use and disturbs no other environment |
| SelfMap.SelfMapWalk | user/include/lib.h:11-12 | with a valid UVPT entry a user load at UVPT + 4 * vpn reads the word of the live table, writable only if the live directory entry is, or faults when no table exists |
| SelfMap.StoresReachDataFrames | kern/tlbex.c:72-81 | user stores below UTOP reach counted data frames only, never a directory, directory copy, table or free frame; of the self-map they reach at most pages of directory entries from UTOP on that have the write bit |
| SelfMap.SelfMapStoresExactly | kern/tlbex.c:72-82 | for every address of the self-map: a user store passes if and only if the live directory entry of that page is valid and has the write bit, and it is not the self-map's own |
| SelfMap.NoStoreIntoSelfMap | kern/env.c:210-222 | with pure pointers in the directory from UTOP on, no user store passes anywhere in the self-map |
| SelfMap.VptReadsLiveEntry | user/include/lib.h:11-11 | `vpt[vpn]` reads the very entry that pgdir_walk finds, for every page below UTOP whose table exists |
| SelfMap.VpdReadsLiveDirectory | user/include/lib.h:12-12 | `vpd[i]` reads entry i of the live directory, for every i |
| CowProof.StepRefines | user/lib/fork.c:16-149 | each system call of fork, duppage and cow_entry, and each user access, keeps the invariant and is one step or no step of a machine whose fork copies at once |
| CowProof.CowRefinesEager | user/lib/fork.c:16-149 | every run of any number of environments in any interleaving is a run of the eager-copy machine |
| CowProof.SameAccesses | user/lib/fork.c:16-149 | loads and stores of both runs are the same: environment, page, offset and byte |
| CowProof.PrivateWhenRunning | user/lib/fork.c:88-93 | a writable non-LIBRARY frame has no second mapping in a runnable environment, except the handler's work page |
| CowProof.WritersAlone | user/lib/fork.c:88-93 | a page that user code may write shares its frame with a visible page only if both are LIBRARY |
| CowProof.DupParentStep | user/lib/fork.c:88-94 | the last of the two map calls is the moment of the copy: the child sees the parent's bytes of that moment |
| CowProof.InitialInv | user/lib/fork.c:110-149 | the invariant holds before the first fork when private writable frames are not shared |
| CowFork.ForkIsOneCopy | user/lib/fork.c:110-149 | for every page that the parent leaves alone after handing it over: at the end of fork the child has exactly the parent's page there, whatever others do; with all pages left alone the child has the parent's pages below USTACKTOP |
| CowFork.ChildGetsPageOfThatMoment | user/lib/fork.c:88-94 | for every page and every run, also of a parent that goes on writing its stack: the child's page at the end of fork is the parent's page at the moment it was handed over |
| CowFork.FaultInTransitLeaks | user/lib/fork.c:83-92 | in every state with a COW page looked at: if a store faults before the first map call, the handler's four steps run, and then the parent's next store, of any byte at any offset, shows in the child |
| CowProgram.Machine.MapInChild | user/lib/fork.c:92-92 | the first map call of duppage is the DupChild step |
| CowProgram.Machine.MapInParent | user/lib/fork.c:93-93 | the second map call of duppage is the DupParent step |
| CowProgram.Machine.DupPage | user/lib/fork.c:75-97 | duppage is a run of the transition system that hands over one page |
| CowProgram.Machine.Fork | user/lib/fork.c:110-149 | fork is a run whose observable effect is a new runnable environment with a copy of the parent's pages below USTACKTOP |
| CowProgram.Machine.CowEntry | user/lib/fork.c:16-51 | the fault handler is a run that no environment can observe and leaves a private writable page with the same bytes |
| CowMemory.PermRoundTrip | include/mmu.h:34-59 | the permission fields of the copy-on-write machine and the low ten bits of an entry determine each other |
| CowMemory.PermSteps | user/lib/fork.c:88-92 | the bit operations of duppage, cow_entry and page_insert on permission words are the operations on the fields, and the test of duppage is that on bits 2, 8 and 9 |
| CowMemory.MapCall | kern/syscall_all.c:175-204 | on the page tables, sys_mem_map of a user permission is the map update of the copy-on-write machine: same frame, same fields, all other pages and their contents as before; it succeeds if and only if both pages are legal, the source is mapped and a table can be had |
| CowMemory.MapBoth | user/lib/fork.c:92-93 | the map calls of duppage and cow_entry on page tables and machine side by side: address spaces and byte contents agree before and after, and the call fails only for an illegal page or without a frame for a table |
| CowMemory.AllocBoth | user/lib/fork.c:34-34 | the work page of the fault handler on both sides: a zero page in a frame that no environment maps, as the machine's CowAlloc step needs it, exactly when frames for page and table are left |
| CowMemory.DropBoth | user/lib/fork.c:46-46 | dropping the work page on both sides keeps address spaces and contents in agreement |
| CowMemory.CowBitIsCow | kern/tlbex.c:45-46 | the kernel's test of an entry for the handler is, on all ten flag bits, the COW field of the copy-on-write machine |
| CowMemory.FaultBoth | kern/tlbex.c:37-60 | a fault of user code on page tables and machine side by side: it goes to the handler if and only if it is a store to a page whose COW field is set, and then the first step of the handler is enabled; a filled page is the machine's Alloc step, and address spaces and contents agree afterwards |
| CowMemory.MappedSurvives | kern/pmap.c:335-342 | a frame that a second page maps is not given back when one of its pages goes |
| FileServer.Server.ReadBlock | fs/fs.c:93-133 | after it the block is mapped; its contents have not changed |
| FileServer.Server.MapBlock | fs/fs.c:137-149 | maps a zero page exactly when the kernel grants one, but a block that is mapped already keeps its old contents and nothing is asked |
| FileServer.Server.BlockIsFree | fs/fs.c:180-190 | the bit of the block in the cached bitmap |
| FileServer.Server.FreeBlock | fs/fs.c:194-206 | exactly this block becomes free, in memory only; block 0 and blocks beyond the disk are ignored |
| FileServer.Server.AllocBlockNum | fs/fs.c:214-227 | the first free block from 3 on is used in memory, and its whole bitmap block is on disk as in memory; it fails exactly when none is free |
| FileServer.Server.AllocBlock | fs/fs.c:231-247 | fails for the disk if and only if no block from 3 on is free, for memory if and only if a page for the first free block is needed and refused; otherwise that block is taken; on failure the bits in memory are as before; disk bits never claim less than memory |
| FileServer.Server.FileBlockWalk | fs/fs.c:364-399 | finds the slot of the block, with the exact condition of each of the four errors; a missing indirect block is taken from the free blocks and moves no other pointer |
| FileServer.Server.FileMapBlock | fs/fs.c:412-436 | each error in exactly its case when one block is missing, and only with no free block left or a page refused when two are; block ownership is kept exactly unless an indirect block is made from a cached block whose old words do not all name different lost blocks; while no block is lost, exactly unless that block is not zero; what the pointers, entries and free blocks are in every case |
| FileServer.Server.FileClearBlock | fs/fs.c:440-454 | the block goes back once and its pointer is cleared, with the exact condition of each error; all other pointers stay |
| FileServer.Server.ClearBlocks | fs/fs.c:711-713 | the loop frees exactly the blocks of the range and clears exactly their pointers |
| FileServer.Server.FileTruncate | fs/fs.c:700-725 | frees exactly the blocks from new_nblocks on, and the indirect block when at most ten remain; every earlier slot stays; the disk bitmap stays conservative |
| FileServer.Server.FileSetSize | fs/fs.c:729-741 | truncation or growth; no pointer beyond the size appears |
| FileServer.Server.FsSync | fs/fs.c:771-778 | exactly the mapped dirty blocks are written; the disk bitmap stays conservative |
| FileServer.Server.ReadBitmap | fs/fs.c:285-308 | succeeds if and only if boot, super and bitmap blocks exist and are in use; afterwards memory and disk bitmap agree |
| FileServer.GrowthLeaksNothing | fs/fs.c:412-436 | a growing walk loses no block, whatever it returns: what is in use is held by a pointer |
| FileServer.TruncationInBytes | fs/fs.c:700-713 | which blocks a truncation keeps and frees, by the byte: a block stays if and only if it begins at the new size or before, and none does when the size is zero |
| FileServer.TruncationLeaksExactly | fs/fs.c:700-725 | truncation loses no block if and only if more than ten blocks remain, or no entry of the indirect block lies beyond the old size |
| FileServer.StrayEntryIsLost | fs/fs.c:710-718 | for every state and every such entry: its block stays in use, and no pointer of any file holds it any more |
| FileServer.NewIndirectIsEmpty | fs/fs.c:380-387 | a new indirect block shows no entry if and only if the first free block is not cached or cached as zero where entries are |
| FileServer.MadeIsOwnedExactly | fs/fs.c:137-149 | for every state: ownership survives the making of an indirect block if and only if each old word of that block names another block that is in use and held by no pointer; while no block is lost, if and only if the old words are zero |
| FileServer.StaleBlockIsShared | fs/fs.c:137-149 | an input for which that condition fails: two files name one block afterwards |
| FileServer.SyncStaysConservative | fs/fs.c:771-778 | writing back cached blocks never frees a block on disk that is used in memory |
| FileServer.FreeingStaysConservative | fs/fs.c:194-206 | freeing in memory only keeps used-in-memory blocks used on disk |
| FsModel.SetBitOf | fs/fs.c:194-206 | changing the bit of one block changes no other block's bit, across words and bitmap blocks |
| FsModel.BitmapOrder | fs/fs.c:180-206 | the bitmap is one string of bits from block 2 on in the order of the block numbers |
| FsModel.BlockNumberOf | fs/fs.c:364-399 | the number of file block i: in the file structure for the first ten, then in the indirect block at place i |
| FsFormat.Image.constructor | tools/fsformat.c:105-133 | after init_disk every block of the disk is marked free, nothing is linked, the root is an empty directory |
| FsFormat.Image.SaveBlockLink | tools/fsformat.c:172-184 | the slot that the file server walks to holds the number; only the indirect pointer may be set besides, from the next block |
| FsFormat.Image.MakeLinkBlock | tools/fsformat.c:187-192 | a directory gets one block with 16 empty file structures |
| FsFormat.Image.CreateFile | tools/fsformat.c:207-235 | the first unused file structure of the directory, or the first of a new block exactly when all are used; it lies in a block of that directory, and every other structure stays in its own |
| FsFormat.Image.CopyChunks | tools/fsformat.c:262-264 | the reading loop stores chunk i at file block i, in fresh blocks |
| FsFormat.Image.WriteFile | tools/fsformat.c:238-267 | every block of the file reads back, and its structure is in the directory; no pointer beyond its size; files and directories written before are unchanged, and every structure stays in its directory |
| FsFormat.Image.FlushBitmap | tools/fsformat.c:142-148 | exactly the blocks below nextbno are marked used; pointers and contents stay |
| FsFormat.BitmapSizesAgree | tools/fsformat.c:112-113 | builder and server agree on the number of bitmap blocks if and only if the disk size is not a multiple of BIT2BLK |
| FsFormat.ImagePassesChecks | fs/fs.c:289-305 | all assertions of read_bitmap hold of a finished image if and only if the sizes agree or a block was linked behind the bitmap |
| FsFormat.ImagePointersAreData | fs/fs.c:285-305 | all pointers of the image are data blocks for the server if and only if the sizes agree or none names the block behind the bitmap |
| FsFormat.Mount | fs/fs.c:285-308 | a server started on a finished image has the ownership invariant, the same pointers, the same directories and every stored block; free are exactly the blocks from nextbno on |
| VirtqModel.AtMostTen | kern/disk_driver.c:134-175 | at most ten three-long chains fit into 32 descriptors |
| VirtqModel.ShortQueues | kern/disk_driver.c:227-230 | at most ten heads wait in either ring, so that no entry still needed is overwritten |
| VirtqModel.WrappedIndex | kern/disk_driver.c:227-252 | 16-bit free-running indices show emptiness and slot correctly across the wrap |
| VirtqModel.FetchKeeps | kern/disk_driver.c:227-230 | a conforming device that reads the entry at its own wrapped index gets the oldest waiting head, fully built |
| VirtqModel.CompleteKeeps | kern/disk_driver.c:248-252 | an answer in any order overwrites no used-ring entry that the driver still has to read |
| VirtqModel.PublishKeeps | kern/disk_driver.c:192-230 | a built chain of three drafts becomes a waiting request and the partition of descriptors holds |
| VirtqModel.ReapKeeps | kern/disk_driver.c:248-252 | the entry at the driver's wrapped index is the oldest finished head; its three descriptors belong to no other chain |
| VirtqModel.AvailWritten | kern/disk_driver.c:227-228 | writing the ring entry before the index shows nothing to the device |
| Virtqueue.Driver.constructor | kern/disk_driver.c:111-111 | all 32 descriptors start free |
| Virtqueue.Driver.AllocDesc | kern/disk_driver.c:134-146 | the lowest free descriptor, or the error exactly when none is free; the panic is unreachable |
| Virtqueue.Driver.FreeDesc | kern/disk_driver.c:148-152 | the bit is set; both assertions hold of every caller |
| Virtqueue.Driver.Alloc3Desc | kern/disk_driver.c:155-165 | three different free descriptors exactly when three are free; otherwise the bitmap is restored exactly |
| Virtqueue.Driver.FreeChain | kern/disk_driver.c:167-175 | the walk along next terminates and frees exactly the three descriptors of the head |
| Virtqueue.Driver.BuildChain | kern/disk_driver.c:195-224 | header, buffer and status descriptor as the device has to see them, with the device running in between |
| Virtqueue.Driver.Publish | kern/disk_driver.c:227-230 | ring entry first, index second: the request joins the end of those that wait, exactly once, whatever the device does in between |
| Virtqueue.Driver.VirtioDiskReq | kern/disk_driver.c:184-241 | one new request with its data, behind all that wait, and exact error conditions; on error nothing changes; statuses stay honest |
| Virtqueue.Driver.VirtioDiskIntr | kern/disk_driver.c:243-256 | everything in the used ring is reaped once and nothing else, with the device running in between; it terminates |
| Virtqueue.Driver.DeviceFetch | kern/disk_driver.c:227-230 | a device step of VIRTIO 1.0, section 2.4.6: the next head of the available ring |
| Virtqueue.Driver.DeviceComplete | kern/disk_driver.c:248-252 | a device step of section 2.4.8: the descriptors lead to the request's status byte, the head goes into the used ring |
| Virtqueue.HonestComplete | kern/disk_driver.c:217-218 | a status changes from no-response exactly when the device has answered that request |
| PipeEnds.RefsAddUp | user/lib/pipe.c:238-243 | for every list of descriptors, open, closing or being duplicated: references to the data page and dups on their way together are the references to both Fd pages and the half-closed descriptors |
| PipeEnds.LooksClosedExactly | user/lib/pipe.c:95-118 | for every list: an end looks closed if and only if the references of the other end and the half-closed descriptors are as many as the dups on their way |
| PipeEnds.ClosedExactly | user/lib/pipe.c:95-118 | without a dup on its way the snapshot test reports closed if and only if the other end has no references and no close is unfinished |
| PipeEnds.AllCloseIsReported | user/lib/pipe.c:95-118 | once all closes of the other end are finished it is reported |
| PipeEnds.NoRefsNoOpen | user/lib/pipe.c:95-118 | an end without references has no open descriptor |
| PipeEnds.StepLowersRefs | user/lib/pipe.c:238-243 | a close step lowers exactly the counts of its own end, so that a closed end stays closed |
| PipeEnds.DupBreaksTheTest | user/lib/fd.c:130-147 | dup maps the Fd page first: from any list, with n of them on their way the end looks closed exactly when n is the number of the other end's references and half-closed descriptors, all still there |
| PipeEnds.TestIsRight | user/lib/pipe.c:95-118 | the test answers rightly if and only if no dup is on its way, or the dups are not matched in number by open and half-closed descriptors and these are not none |
| PipeEnds.SnapshotIsNeeded | user/lib/pipe.c:109-115 | without the env_runs retry two counts from different moments are equal with a writer open |
| PipeFifo.Pipe.Store | user/lib/pipe.c:198-198 | moving a byte in overwrites none that is still to be read |
| PipeFifo.Pipe.BumpWrite | user/lib/pipe.c:198-198 | the byte counts as written |
| PipeFifo.Pipe.Load | user/lib/pipe.c:157-157 | the byte at the read position is the next one in order |
| PipeFifo.Pipe.BumpRead | user/lib/pipe.c:157-157 | the bytes read stay a prefix of the bytes written |
| PipeFifo.Pipe.IsClosed | user/lib/pipe.c:95-118 | with preemption anywhere the answer is exact at return: other end without references and no close unfinished |
| PipeFifo.Pipe.PipeRead | user/lib/pipe.c:133-160 | what it returns are the next bytes in order under any interleaving; with a byte there it returns one; nothing read means the other end is closed; a short read means drained, and so does a read of nothing when no writer was left before the call; without a result it ends only with the buffer empty and a writer open or closing |
| PipeFifo.Pipe.WaitForByte | user/lib/pipe.c:145-155 | the waiting loop: with a byte there it neither waits nor gives up; when it gives up after some bytes the buffer is empty; when it gives up without any the other end is closed, and the buffer empty if no writer was left before; the run ends in it only with the buffer empty and a writer open or closing |
| PipeFifo.Pipe.PipeWrite | user/lib/pipe.c:173-201 | exactly the first r bytes are appended in order, at least one if there was room; fewer than asked means the read end is closed, or that the run ended with the buffer full and a reader open or closing |
| PipeFifo.Pipe.WaitForRoom | user/lib/pipe.c:190-197 | the waiting loop of the writer: with room it neither waits nor gives up; it gives up only with the read end closed; the run ends in it only with the buffer full and a reader open or closing |
| PipeFifo.Pipe.PipeClose | user/lib/pipe.c:238-243 | both steps with others in between, and the second fd_close of close(); the end has one reference less |
| PipeFifo.ClosedButNotDrained | user/lib/pipe.c:145-154 | from every state that looks empty with a writer open, the steps of the others lead to a state that is reported closed with a byte left |
| PipeFifo.BumpFirstReadsWrong | user/lib/pipe.c:157-157 | with the position bumped before the byte is loaded a full buffer gives a wrong byte |
| SchedProof.StepKeeps | kern/env.c:16-17 | after every call the run queue holds each runnable environment once and nothing else, the free list each free one, ids and ASIDs are unique, receivers are blocked |
| SchedProof.ScheduleKeeps | kern/sched.c:18-57 | schedule keeps the invariant, and the environment it runs is runnable unless it panics |
| SchedProof.SetStatusKeepsExactly | kern/syscall_all.c:281-307 | the call keeps the invariant if and only if it does not set an environment runnable that waits for a message |
| SchedProof.WokenReceiverIsQueuedTwice | kern/syscall_all.c:426-427 | after that mistake the next send queues the environment twice |
| SchedProof.DeliverKeeps | kern/syscall_all.c:417-427 | a delivery keeps the invariant; exactly the receiver becomes runnable, which was not queued and has read all earlier messages |
| SchedProof.BornKeeps | kern/env.c:248-289 | making an environment keeps the free list, the ids, the ASIDs and the receivers in order, also when it fails for want of an ASID |
| SchedRuns.NewbornIsFresh | kern/env.c:248-289 | a new environment was free, has an id that was never given out and that leads back to it, an ASID that no living one uses, and no messages |
| SchedRuns.NothingTaken | kern/env.c:248-289 | it fails if and only if no environment is free or all 64 ASIDs are used, and then nothing is taken and no living environment changes |
| SchedModel.FirstAsid | kern/env.c:31-42 | the ASID found is unused and all smaller ones are used |
| SchedProof.NewIdIs | kern/env.c:93-96 | decoding an id: the slot of its environment, and the number of the call until the counter wraps |
| SchedProof.FreeKeeps | kern/env.c:425-430 | freeing a queued environment returns it and its ASID once |
| SchedProof.BornAsids | kern/env.c:31-57 | living environments have different ASIDs, and the bitmap marks exactly theirs |
| SchedRuns.DeliveredExactlyOnce | kern/syscall_all.c:354-442 | over any run from its birth on, the messages a program has read are the accepted sends in order, but for at most one not read yet |
| SchedRuns.HistoryStep | user/lib/ipc.c:24-39 | no call but an accepted send adds a message, and no call but reading it removes one |
| SchedRuns.SendOutcome | kern/syscall_all.c:395-442 | a send that is not accepted changes nothing; an accepted one delivers, whatever its result is; result zero exactly without a page error |
| SchedLaws.RefusedSend | kern/syscall_all.c:399-415 | the result of each refused send: illegal page, no environment of that id, a living environment that does not wait; nothing changes |
| SchedLaws.AcceptedSend | kern/syscall_all.c:417-442 | an accepted send: value, sender and permission bits in the receiver, which stands last in the queue; no other environment changes; the result by the page |
| SchedLaws.MessagePerm | kern/syscall_all.c:424-437 | bit by bit the permission that a message carries: the sender's, valid and user, readable if writable |
| SchedLaws.LivingIsFound | kern/env.c:111-145 | the id of a living environment leads to it, and with the permission check only from itself and from its parent |
| SchedLaws.FoundIsRight | kern/env.c:111-145 | what envid2env finds is living and has that id; with the check on it is the caller or a child of it |
| SchedLaws.GoneIsNotFound | kern/env.c:111-145 | an id that no living environment has is an error |
| SchedLaws.YieldRunsAnother | kern/sched.c:44-56 | a yield, or a slice that is used up: the first of the queue other than the caller runs with a new slice, and the caller is last in the queue |
| SchedLaws.YieldGivesWay | kern/sched.c:9-11 | the post-condition of schedule: after a yield the caller does not run while another environment is runnable |
| SchedLaws.SliceGoesOn | kern/sched.c:55-56 | inside a slice the same environment goes on, with one call less and nothing else changed |
| SchedLaws.NobodyWasRunning | kern/sched.c:44-56 | without a running environment the first of the queue runs, or the kernel panics if there is none |
| SchedLaws.ReceiveBlocks | kern/syscall_all.c:354-377 | the caller waits, out of the queue, and the first other environment runs; an illegal address is refused |
| SchedLaws.StatusIsSet | kern/syscall_all.c:281-307 | on itself and on a child: the status is stored, and the environment leaves the queue for NOT_RUNNABLE and joins its end for RUNNABLE |
| SchedLaws.StatusOfOthers | kern/syscall_all.c:281-307 | an environment that is neither the caller nor its child, or gone, is refused, and nothing changes |
| SchedLaws.FirstFreeIsTaken | kern/env.c:248-289 | env_alloc takes the first free environment, numbers it by the call, marks one ASID, and changes no other environment |
| SchedLaws.ChildIsMade | kern/syscall_all.c:246-267 | the child of a fork: not runnable, not queued, with the caller's priority; the caller gets its id |
| SchedLaws.FirstProgram | kern/env.c:352-372 | an environment of the start: runnable, first in the queue, without a parent |
| SchedLaws.ChildIsDestroyed | kern/syscall_all.c:77-84 | destroying a child frees it, its ASID and its place in the queue, and nothing else; the caller goes on |
| SchedLaws.SelfIsDestroyed | kern/syscall_all.c:77-84 | destroying itself: the first other environment of the queue runs, or the kernel panics |
| SchedRuns.FailedSendDelivers | kern/syscall_all.c:432-438 | a send whose page is not mapped returns an error and has delivered its value |
| SchedRuns.LivingIdsDiffer | kern/env.c:93-96 | different living environments have different ids, also after the counter has wrapped |
| SchedRuns.GoneForever | kern/env.c:93-145 | an id that was given out and is gone names no environment in the rest of any run, until the counter wraps |
| SchedWait.BoundedWaiting | kern/sched.c:44-56 | in any run a queued environment is run within count + 1 + the priorities of the others ahead of it calls of schedule |
| SchedWait.ScheduleBringsNearer | kern/sched.c:44-56 | one call of schedule runs the environment or lowers its bound by one |
| SchedWait.WaitsAtMost | kern/sched.c:44-56 | in numbers: behind i others with at most p slices each it is run within p * (i + 1) calls of schedule; when the run consists of interrupts and yields these are all its steps |
| SchedWait.WaitStep | kern/sched.c:44-56 | no other call raises the bound |
| SchedWait.PriorityZeroStarves | kern/sched.c:52-55 | a priority of zero makes count skip past zero: timer interrupts never switch again |
| SchedWait.PositivePriorityEnds | kern/sched.c:52-55 | a priority p of at least one ends the slice after exactly p calls |
| Envs.Kernel.constructor | kern/env.c:154-171 | all environments are free, in the order of the array, and the invariant holds |
| Envs.Kernel.AsidAlloc | kern/env.c:31-42 | the smallest unused ASID is marked and no other one changes, or the error exactly when all are used |
| Envs.Kernel.AsidFree | kern/env.c:53-57 | exactly this ASID becomes unused: every other one is used as before, across both words of the bitmap |
| Envs.Kernel.Mkenvid | kern/env.c:93-96 | the id decodes to the slot by ENVX, and to the number of the call, and is not zero, until the counter wraps in 32 bits |
| Envs.Kernel.Envid2EnvCall | kern/env.c:111-145 | the slot of a living id with the permission check, or the error |
| Envs.Kernel.EnvAlloc | kern/env.c:248-289 | the first free environment with new id and ASID; failing for want of an ASID it leaves it in the list with a new id |
| Envs.Kernel.EnvRun | kern/env.c:484-502 | the environment becomes the current one and its count of runs grows |
| Envs.Kernel.EnvFree | kern/env.c:425-430 | the environment leaves the run queue and heads the free list |
| Envs.Kernel.ScheduleCall | kern/sched.c:18-57 | rotation, choice of the head and the new slice, and the panic for an empty queue, as the function whose laws are YieldRunsAnother, SliceGoesOn and NobodyWasRunning |
| Envs.Kernel.SysEnvDestroy | kern/syscall_all.c:77-84 | the target is freed; destroying itself schedules another environment |
| Envs.Kernel.SysIpcRecv | kern/syscall_all.c:354-377 | the caller is blocked and another environment is scheduled; an illegal address changes nothing |
| Envs.Kernel.SysIpcTrySend | kern/syscall_all.c:395-442 | the message is put into a receiver, with the results of all branches, as the function whose laws are RefusedSend and AcceptedSend |
| Envs.Kernel.SysSetEnvStatus | kern/syscall_all.c:281-307 | status and run queue change together, with the error codes, for every target; the invariant is kept if and only if no environment is woken that waits for a message |
| Envs.Kernel.SysExofork | kern/syscall_all.c:246-267 | a child that is not runnable, with the parent's priority |
| Envs.Kernel.EnvCreate | kern/env.c:352-372 | a runnable environment at the head of the queue while the kernel starts |
| Envs.Kernel.Do | kern/syscall_all.c:354-442 | the calls in place are the steps of the state machine that the run theorems are about |
| Envs.Kernel.IpcRecv | user/lib/ipc.c:24-39 | it returns exactly when the caller runs again, with one message that was not read before, and all sent messages have then been read, with others running while it waits |
| Envs.Kernel.IpcSend | user/lib/ipc.c:12-18 | with others running between the tries: it ends with a bad id only if no environment has it then, with an illegal page only for one; otherwise exactly one try was accepted, the message is the last that some environment was sent, and the result is that of its page; it goes on trying as often as it has patience |
| ElfLoad.AddressSpace.MapPage | kern/env.c:303-322 | a fresh zero page with the bytes copied to the offset exactly when the kernel grants it, or nothing changed |
| ElfLoad.AddressSpace.ElfLoadSeg | lib/elfloader.c:25-65 | it succeeds if and only if each of its calls of the mapper is granted; under the condition every byte of file part and zero fill is in place with the right permissions and every page is mapped once; otherwise the pages from the first on hold zeros only, the first is mapped twice, and no other page changes |
| ElfLoad.PermOfFlags | lib/elfloader.c:29-38 | which permission bit each segment flag gives, by number |
| ElfLoad.PagesTouched | lib/elfloader.c:43-63 | the pages of a segment are those with an address of it, each once, in rising order |
| ElfLoad.AddressSpace.FilePart | lib/elfloader.c:43-55 | the file part page by page, from the middle of the first page on |
| ElfLoad.AddressSpace.ZeroPart | lib/elfloader.c:57-63 | the zero fill up to the size in memory |
| ElfLoad.AddressSpace.ZeroPartAgain | lib/elfloader.c:57-63 | when the file part ends inside the first page, that page is mapped again, and as many more zero pages as fit the rest from there |
| ElfLoad.BlankImageIsRightExactly | lib/elfloader.c:43-63 | the image is then right if and only if the file part was all zeros and the steps reach the last page: otherwise file bytes are lost or the last page is missing |
| ElfLoad.PageAdded | lib/elfloader.c:51-55 | a page with the right bytes extends the loaded part of the segment to its end |
| Queues.Memory.ListInsertHead | include/queue.h:143-149 | insertion in front of the sequence; pointers in order, other lists untouched |
| Queues.Memory.ListInsertAfter | include/queue.h:115-123 | insertion behind an element |
| Queues.Memory.InsertBefore | include/queue.h:131-137 | insertion before an element without knowing the head, through the address in its prev-field, for lists and tail queues (also lines 221-227) |
| Queues.Memory.ListRemove | include/queue.h:157-162 | the element is cut out of the sequence without knowing the head |
| Queues.Memory.TailqInit | include/queue.h:187-191 | the empty tail queue |
| Queues.Memory.TailqInsertHead | include/queue.h:193-201 | insertion in front; the last cell moves exactly when the queue was empty |
| Queues.Memory.TailqInsertTail | include/queue.h:203-209 | insertion at the end |
| Queues.Memory.TailqInsertAfter | include/queue.h:211-219 | insertion behind an element, also at the end |
| Queues.Memory.TailqRemove | include/queue.h:229-236 | the writes of the macro for any element with links; an element of the queue is cut out, and the last cell moves exactly when it was the last |
| Queues.Memory.TailqConcat | include/queue.h:245-253 | one queue gets both sequences, the other is empty |
| Queues.InsertIsRight | include/queue.h:115-149 | the four pointer writes of an insertion give the longer sequence at any place and keep every other list |
| Queues.RemoveIsRight | include/queue.h:157-162 | the pointer writes of a removal give the shorter sequence and keep every other list |
| Queues.ConcatIsRight | include/queue.h:245-253 | the pointer writes of a concatenation, for queues of any length |
| Queues.RemoveCuts | include/queue.h:229-236 | the removal that the scheduler model uses is the removal of the macro |
| Queues.LinksStay | include/queue.h:229-236 | a removed element keeps its links into the queue |
| Queues.RemovedAgainExactly | kern/env.c:430-430 | removing an element that is not in the queue leaves the queue as it is if and only if its two old links lead to the same place of it, or both outside: why env_free and sys_ipc_recv need an environment that is queued |
| Queues.RemovedAgain | include/queue.h:229-236 | with links that lead into the queue in order, what stands between them is cut off |
| Queues.RemovedAgainLoops | include/queue.h:229-236 | with the former predecessor moved behind the former successor, as round robin does, the pointers become a loop and are no list any more |
| PrintNum.PrintedReadsBack | lib/print.c:201-274 | what is printed has the wanted length and reads back as the signed number, for every base from 2 to 16, sign, width, adjustment and padding |
| PrintNum.Layout | lib/print.c:230-271 | where every character stands: sign and digits first and only spaces behind when left adjusted; otherwise the digits last, with the sign before the zeros of a zero padding and behind any other padding |
| PrintNum.DigitChars | lib/print.c:219-226 | the digits of every base, with capital letters exactly when asked for |
| PrintNum.PrintNumber | lib/print.c:201-274 | the in-place algorithm writes the formatted number and stays inside its buffer of length + 70 characters |
| PrintNum.WriteDigits | lib/print.c:219-229 | the digit loop writes the digits last one first, at most 32 of them |
| PrintNum.PadText | lib/print.c:231-252 | padding behind the reversed digits; zeros push the sign behind them |
| PrintNum.Reverse | lib/print.c:254-271 | the loop reverses the places 0 to end and nothing else |
| PrintNum.DigitsRead | lib/print.c:219-229 | the digits read back as the number in every base |
| PrintNum.FewDigits | lib/print.c:214-215 | a number of n bits has at most n digits |

## Left out

- Assembly entry and exit, trap frames, CSR access, TLB flushes and SBI calls: hardware effects; translation is taken to follow the current tables at once.
- Access and dirty bits, megapages and supervisor permissions of Sv32: not set or used by the kernel's user mappings.
- Virtio device initialisation, MMIO registers and the notify write: the model starts from the initialised ring.
- Sector transfer and status polling (fs/ide.c) and the request loop with its open table (fs/serv.c): thin wrappers around the block layer.
- Path walking, directory search, file_flush, file_close and file_remove in fs/fs.c: they would add easy members.
- User programs, shell, console device, fsipc and system call stubs; tests under tests/.
- Host file reading, endianness and the recursion of write_directory in tools/fsformat.c: the data read is a parameter of WriteFile; a directory is made by NewFile with size zero.
- vprintfmt, print_char and print_str in lib/print.c: scanning and calls; print_num is the part with an algorithm in place.
- TAILQ_FOREACH_REVERSE, TAILQ_LAST and TAILQ_PREV in include/queue.h: they read a head through a cast; unused by the kernel.
- Pmap.Kernel.PageInsert: needs fewer than 65535 references to the frame (pp_ref is 16 bits wide) and an address below UTOP; addresses of the self-map are in StoreIntoSelfMap. What follows a call with high permission bits that do not fit is not modelled further.
- Pmap.Kernel.EnvSetupVm: env_alloc ignores its error (kern/env.c:260) and strands the directory frame when no ASID is left (kern/env.c:274); frame accounting is kept at the level of pmap and env_free with a set of frames held by a caller.
- Pmap.Kernel.SysMemAlloc: environments are named by slot; envid2env is modelled with the scheduler.
- Pmap.Kernel.DoTlbMiss: the trap frame that do_tlb_mod builds for the user handler is left out; what page_lookup finds in the tables that all environments share, from UTOP on and outside the self-map, is a parameter.
- CowProof.CowRefinesEager: the parent does not fault on a page between reading vpt and the first map call for it; sharing of pages by system calls of user code other than fork and cow_entry is not an action; failing system calls inside fork and cow_entry, where the program panics, end the modelled run.
- SelfMap.NoStoreIntoSelfMap: that directory entries from UTOP on are pure pointers is a hypothesis; they come from the template and the kernel directory, whose making (map_segment, riscv_create_mapping) is not modelled.
- CowMemory.MapBoth: the calls of fork and cow_entry that change page tables; loads, stores and the memcpy of the handler are steps of the machine only, and what `vpt` reads is SelfMap.VptReadsLiveEntry. Permissions are those of valid user entries, as `vpt` gives them.
- FileServer.Server.MapBlock: whether the kernel grants a page is a parameter of the server, one answer for each time it asks.
- FileServer.Server.FileMapBlock: what later calls do with a file system whose ownership is lost is not modelled.
- FileServer.Server.FileSetSize: without the flush of the directory; File structures are values named by number and not words of a directory block.
- FileServer.Server.FsSync: which blocks are dirty is a set; setting the dirty bit through page permissions is not modelled.
- FsFormat.Image.constructor: NBLOCK is a parameter, a multiple of 8 as memset works on bytes; memset is modelled on 32-bit little-endian words; block types, used only to swap bytes, are not kept.
- FsFormat.Image.WriteFile: needs room on the disk, which the builder does not check.
- Virtqueue.Driver.VirtioDiskReq: honest status bytes need that the same request is not outstanding twice; request buffers are named by address and their bytes are not modelled; the check of used->flags belongs to the notify write.
- PipeFifo.Pipe.PipeRead: positions do not wrap, so fewer than 2^32 - 32 bytes in total; a run ends with `waiting` when the finite number of preemptions is used up while the buffer is empty, or full for a writer; dup and fork of an open pipe are excluded from closing; moving the byte and bumping the position are two steps in this order.
- PipeFifo.Pipe.IsClosed: env_runs does not wrap during one test; pageref reads the count of the mapped page.
- SchedWait.BoundedWaiting: after start-up, as env_create inserts at the head of the queue; priorities are at least one.
- SchedRuns.GoneForever: the counter of mkenvid stays below 2^21, after which ids are used again.
- Envs.Kernel.SysEnvDestroy: the target is runnable, as env_free removes it from the run queue without asking (kern/env.c:430); what the removal does to the queue otherwise is Queues.RemovedAgain.
- Envs.Kernel.SysIpcRecv: the caller is in the run queue, as it is taken out without asking, and has read its previous message, as the library does.
- Envs.Kernel.Do: an environment that has set itself not runnable and goes on running until the next schedule makes no further calls in this model.
- Envs.Kernel.SysIpcTrySend: what page_lookup and page_insert answer are parameters; the page itself is not moved here.
- Envs.Kernel.IpcSend: a run ends with `stuck` when its patience or the schedule is used up or the sender is destroyed; receiving from and sending to several environments at once is covered by the run theorems.
- Envs.Kernel.SysExofork: trap frames, page tables and the TLB handler entry of the child are not modelled here.
- ElfLoad.AddressSpace.ElfLoadSeg: file size at most memory size, addresses below 2^31; a second segment on the same page replaces it, as page_insert does; which calls of the mapper the kernel grants is a parameter, one answer for each call. ElfLoad.BlankImageIsRightExactly takes the last page of the segment as not mapped before.
- Queues.Memory.TailqRemove: pointers of C are elements and cells of a map; the caller's list is a parameter of the proof only.
- PrintNum.PrintNumber: the width is not negative and the buffer size does not overflow; the output callback gets the whole text at once, as in the code.
