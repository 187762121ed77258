# Verified model of the pi0-os kernel core

Dafny models of the parts of the kernel whose correctness is least obvious, written in the form of the
code: objects with fields that methods update, loops over buffers and tables, intrusive links. Beside each
of them stands what it computes as a function or state machine on values, and the properties of that are
proved for all inputs and all runs.

- **Page frames** (`PhysicalAlloc`): the 1/4/16 KB splitting allocator with its three intrusive free lists
  and reference counts.
- **Address spaces** (`Descriptors`, `Translation`, `References`, `Lifetimes`, `Mapping`, `Creation`,
  `Forking`, `Accounts`, `VectorPage`, `AddressSpaces`, `Interleavings`): the two-level tables of the ARM
  short-descriptor format (section B3.5 of ARM DDI 0406), read as flat maps from virtual pages to frames with permissions; the
  kernel half that address spaces share and copy on demand; creating, mapping, unmapping, forking and
  freeing with every reference accounted for.
- **Calendar** (`Calendar`): the two conversions between seconds and broken-down time, against a reference
  Gregorian calendar (section 4.16 of IEEE Std 1003.1-2017).
- **Storage** (`BlockDevice`, `Fat32`): byte requests made from whole sectors, and FAT32 cluster chains
  read through a cache of one FAT sector (section "FAT Data Structure" of the Microsoft FAT32 File System
  Specification v1.03).
- **File names** (`Paths`, `PathBuffers`): in-place canonicalisation of paths, from characters to components.
- **Virtual file system** (`IntrusiveList`, `Mounts`, `VfsRefs`): the linked list, the mount list, the inode
  cache and reference counts.
- **tempfs** (`TempFs`): growing files, capacity accounting, seeking, directories.
- **Terminal** (`Ring`, `Tty`): the canonical-mode line discipline (section 11.1.6 of IEEE Std 1003.1-2017,
  Base Definitions) and its ring buffer.
- **exec and drawing** (`ExecStack`, `Line`): the argument image on a new process's stack, and the
  all-octant line stepper.

Inputs from outside the modelled code are parameters or nondeterministic choices: whether malloc finds
memory, whether a driver or a file system fails, what a file system answers to a lookup. A kassert or panic
is either proved not to fire or an outcome of the model with the exact condition for it.

Where the code does not do what one would expect, the code is modelled and the difference is stated, with
the exact condition: `PageAllocator.ReturnPage` (merging is dead code), `UnmapIsGood` (an emptied 1 KB table
is freed as 16 KB; `MapAndUnmapFreesTable` gets there), `ForkForgets` (what the child of a fork held before
is never freed), `KassertCondition` (unaligned short requests), `NextCluster` (a FAT sector past the end of
the device), `KeptIsResolved` (repeated ".."), `MountKeepsSorted` (mounting the root late), `SeekFromEnd`
and `SeekMeaning` (sign and wrap-around of seeks), `ShrinkKeepsStale`, `FiresExactly` (switching ICANON),
`CompareOrdersLikeSeconds` (years far apart), `SecsToTm` (int overflow short of the range check),
`ClosedIsHandedOut` (inodes that stay in the cache after their close hook; `ClosedFileReopens` gets there).
The comment on canonicalize_path says that there is no leading separator; the code keeps one, as a leading
NUL, and so does the model. Signed overflow is taken to wrap around where its result is used.

## Model

| member | source | states |
|---|---|---|
| `PhysicalAlloc.EveryRunTiles` | kernel/memory/physicalalloc.cpp:118-272 | in every run of allocations, added references and frees (each at its own order), the free lists and the live blocks together are size-aligned, disjoint and cover the managed memory exactly, and exactly the live blocks are referenced |
| `PhysicalAlloc.ServedIsSound` | kernel/memory/physicalalloc.cpp:167-272 | each single request keeps that tiling and the agreement of references and live blocks |
| `PhysicalAlloc.AllocatedIsNew` | kernel/memory/physicalalloc.cpp:201-208 | an allocated block is aligned, lies in the managed memory, was unreferenced and overlaps no live block |
| `PhysicalAlloc.SplitKeepsPartition` | kernel/memory/physicalalloc.cpp:147-165 | replacing a taken block by its four quarters on the next smaller list keeps the tiling, with no page listed twice |
| `PhysicalAlloc.TakeKeepsPartition` | kernel/memory/physicalalloc.cpp:167-199 | taking a block, through up to two splits, moves exactly one block of the tiling from free to taken |
| `PhysicalAlloc.OnlyItsOwnOrderFits` | kernel/memory/physicalalloc.cpp:210-259 | putting a block back at another order keeps the tiling if and only if the orders are equal |
| `PhysicalAlloc.FreeNeedsItsOrder` | kernel/memory/physicalalloc.cpp:261-272 | freeing a live page that is aligned to the order it is freed at, or at 16 KB, keeps tiling and counts if and only if it is the order of its allocation or other references are left |
| `PhysicalAlloc.LinkedPush` | kernel/memory/physicalalloc.cpp:69-76 | pushing an unlisted page on an intrusive list keeps all three lists acyclic, disjoint and rooted at their heads |
| `PhysicalAlloc.LinkedPop` | kernel/memory/physicalalloc.cpp:78-89 | popping does the same and leaves the popped page pointing nowhere, as the kasserts of the next push demand |
| `PhysicalAlloc.PageAllocator.constructor` | kernel/memory/physicalalloc.cpp:118-145 | initialisation lists every 16 KB block from the first free page on, and nothing else |
| `PhysicalAlloc.PageAllocator.Split` | kernel/memory/physicalalloc.cpp:147-165 | the four quarters end up on the smaller list, last one first |
| `PhysicalAlloc.PageAllocator.Alloc` | kernel/memory/physicalalloc.cpp:167-208 | the in-place allocator serves an allocation as the pool model does; it fails exactly when the list of the order and every larger one are empty |
| `PhysicalAlloc.PageAllocator.Free` | kernel/memory/physicalalloc.cpp:261-272 | the kassert on the count holds for live pages, and the last reference returns the block |
| `PhysicalAlloc.PageAllocator.ReturnPage` | kernel/memory/physicalalloc.cpp:210-259 | the merge branch is never reached, because the test also looks at the page being freed, whose link is null |
| `Descriptors.IndicesSplitAddress` | kernel/arch/arm/armv6mmu.h:8-9 | an address is its first-level index, its second-level index and its page offset |
| `Descriptors.FirstLevelRoundTrip` | kernel/arch/arm/armv6mmu.h:60-126 | every first-level entry is read back from its word as it was made, and only the empty one is the zero word |
| `Descriptors.SecondLevelRoundTrip` | kernel/arch/arm/armv6mmu.h:128-158 | the same for small-page entries, with their permissions |
| `Descriptors.OrJoinsOffset` | kernel/memory/vm.cpp:196-201 | joining an aligned base and an offset with a bitwise or adds them, for pages and for sections |
| `Translation.PutCellChangesOnePage` | kernel/memory/vm.cpp:253-300 | writing one cell of a second-level table changes exactly one page of the flat map: of one address space in the user area, of all of them in the kernel area |
| `Translation.NewTableChangesNothing` | kernel/memory/vm.cpp:262-288 | hanging a new table, in the kernel area also in the kernel's slot, changes no flat map and keeps the kernel's slots shared |
| `Translation.CopySlotChangesNothing` | kernel/memory/vm.cpp:263-269 | copying the kernel's slot changes no flat map and makes the hardware agree with it there |
| `Mapping.MapResults` | kernel/memory/vm.cpp:253-300 | mapping panics exactly on a section, on a mapped page, or when a table is needed and there is no memory |
| `Mapping.MapAddsOneEntry` | kernel/memory/vm.cpp:253-300 | mapping adds exactly the entry asked for, visible to the hardware in that address space; nothing else changes anywhere |
| `Mapping.UnmapRemovesOneEntry` | kernel/memory/vm.cpp:324-376 | on the flat maps, unmapping removes exactly that entry and reports its frame, or zero; kernel pages are unmapped for every address space; a user table is taken out exactly if the entry was its last |
| `Mapping.UnmapIsGood` | kernel/memory/vm.cpp:346-362 | unmapping keeps the whole invariant, tiling of memory included, if and only if it does not free a user table, which the code frees as 16 KB |
| `Creation.MapAndUnmapFreesTable` | kernel/memory/vm.cpp:253-362 | such a free is reached by mapping one page into an empty user slot and unmapping it: both succeed, and the invariant is lost |
| `Mapping.FreedTableComesBack` | kernel/memory/vm.cpp:346-362 | otherwise the page of that 1 KB table is the next that is handed out as 16 KB, as the next address space's first-level table |
| `Mapping.UnmapUndoesMap` | kernel/memory/vm.cpp:253-376 | mapping a page and unmapping it reports its frame and restores the flat map of every address space |
| `Mapping.FaultRepaired` | kernel/memory/vm.cpp:508-550 | a fault is fixed exactly when kernel code missed a slot that only the kernel's table serves; then the hardware sees the kernel's translations there, and no flat map and no other slot changes |
| `Mapping.KernelAreaIsKernelSlots` | kernel/memory/areas.h:11-16 | the range test and the slot test agree on every address but the last byte of memory, which the range does not contain |
| `References.PutCellRefs` | kernel/memory/vm.cpp:289-296 | writing a cell exchanges the reference it holds, in the one address space that owns its table |
| `References.HangTableRefs` | kernel/memory/vm.cpp:271-276 | a new user table adds one reference to its address space, a kernel table to none |
| `References.FreeKeepsOwned` | kernel/memory/vm.cpp:420-453 | giving back one reference leaves the rest of an address space freeable |
| `Lifetimes.ClearCellBalances` | kernel/memory/vm.cpp:437-444 | freeing a mapped page and clearing its cell takes exactly that reference from the address space and from the counts |
| `Lifetimes.DropTableBalances` | kernel/memory/vm.cpp:446-448 | the same for an emptied second-level table |
| `Lifetimes.DroppedAll` | kernel/memory/vm.cpp:420-453 | after all slots, freeing the first-level table gives back every reference the address space held |
| `Creation.CreateMakesSpace` | kernel/memory/vm.cpp:207-251 | a new address space maps the vector page at zero and nothing else below the kernel, shares the kernel's slots, accounts for every reference and disturbs no other; if memory runs out no count and no table has changed |
| `Creation.MapNewBalances` | kernel/memory/vm.cpp:253-312 | allocating a page and mapping it hands its reference, and that of a new table, to the address space |
| `Creation.ProcessLeavesNoTrace` | kernel/memory/vm.cpp:207-453 | creating an address space, mapping any pages and freeing it restores every reference count, shared vector page included, and every other flat map |
| `Creation.BootIsGood` | kernel/memory/physicalalloc.cpp:118-145 | with a kernel table of sections only and every block free, as after boot, the invariant that all the operations keep holds |
| `Creation.VectorMapped` | kernel/arch/arm/armirq.cpp:140-149 | once the kernel has mapped a page of its own at address zero, address spaces can be created from it |
| `Forking.ForkCopies` | kernel/memory/vm.cpp:455-500 | after a fork, parent and child map the same user pages with equal permissions and bytes, the child in frames that nothing referred to before, and the parent is unchanged |
| `Forking.ForkSeparates` | kernel/memory/vm.cpp:479-495 | no user frame is mapped by both |
| `Forking.ForkIsolates` | kernel/memory/vm.cpp:455-500 | for every sequence of writes through parent and child, each sees exactly its own writes |
| `Forking.CopyCell` | kernel/memory/vm.cpp:479-495 | one round of the inner loop adds one faithful copy and keeps all earlier ones, the frames in use and the other address spaces |
| `Accounts.MapKeeps` | kernel/memory/vm.cpp:253-312 | mapping a page for a process moves exactly one reference from the kernel's share to the process, mapping one for the kernel adds exactly the table it needs to that share; every process stays in possession of its pages |
| `Accounts.UnmapKeeps` | kernel/memory/vm.cpp:324-382 | unmapping one moves exactly that reference back |
| `Accounts.ReleaseKeeps` | kernel/memory/vm.cpp:420-453 | freeing a process leaves every other one in possession of its pages, shared ones included, and the kernel's share as it was |
| `Accounts.ForkKeeps` | kernel/memory/vm.cpp:455-506 | so does forking, whether it succeeds or not; the kernel's share grows by exactly what hung in the child's slots that were overwritten, which nobody frees |
| `Forking.ForkForgets` | kernel/memory/vm.cpp:478-500 | after a fork all references that the child held before are still counted, and its first-level table is the only one of them that it still holds |
| `VectorPage.MapKeepsVector` | kernel/memory/vm.cpp:253-312 | mapping, at whatever address, keeps the kernel's page zero mapped and the kernel's reference to it, if that is not the one given to a process |
| `VectorPage.UnmapKeepsVector` | kernel/memory/vm.cpp:324-376 | unmapping keeps the vector page mapped and referenced for the kernel if and only if it is not the kernel's page zero that is unmapped |
| `VectorPage.VectorKeptAtFirst` | kernel/arch/arm/armirq.cpp:140-149 | once the kernel has mapped it, while there are no processes, the reference to the vector page is the kernel's own |
| `Interleavings.EveryRunSharesTheKernel` | kernel/memory/vm.cpp:167-550 | in every interleaving of create, map, unmap, switch, fault repair, fork and free in which no unmap frees a user table, each kernel slot of each address space is empty or the kernel's own, and the memory stays tiled |
| `Interleavings.EveryRunKeepsOthers` | kernel/memory/vm.cpp:167-550 | an address space that no call is aimed at keeps its user pages through every such run |
| `Interleavings.MissedPagesAreRepaired` | kernel/memory/vm.cpp:508-550 | after every such run, when kernel code misses a mapped kernel page, the fault is fixed and the hardware then finds the page |
| `Interleavings.EveryRunOwns` | kernel/memory/vm.cpp:167-550 | in every run in which processes are mapped pages with a reference of their own and no user table is emptied, every process owns all its pages at their orders, so that each call's demands on fork and free hold by themselves |
| `Interleavings.StepOwns` | kernel/memory/vm.cpp:167-550 | the single step of it: the kernel's share loses exactly what a process is given and gains exactly what a process gives back, a table for a kernel page, or what a fork overwrites |
| `Interleavings.StepKeepsVector` | kernel/memory/vm.cpp:207-550 | each operation keeps the vector page mapped by the kernel and one reference to it with the kernel, creation needing nothing more than that |
| `Interleavings.EveryRunKeepsVector` | kernel/memory/vm.cpp:207-550 | in every run that neither unmaps the kernel's page zero nor gives its last reference away, address spaces can be created at any time and all that is said of runs holds |
| `Interleavings.EveryRunConserves` | kernel/memory/vm.cpp:167-550 | in every run, forks and kernel mappings included, the references that no process holds are exactly those there were, less those given to processes, plus those given back, the kernel's new tables and what forks overwrote |
| `Interleavings.ProcessesLeaveNoTrace` | kernel/memory/vm.cpp:207-506 | from a machine without processes to one without, through any interleaving of their lives, every count differs by exactly these |
| `AddressSpaces.VirtualMemory.constructor` | kernel/memory/vm.cpp:37-59 | vm_init takes over the boot tables and clears exactly the slots of the identity map of RAM |
| `AddressSpaces.VirtualMemory.Virt2Phys` | kernel/memory/vm.cpp:188-205 | the physical address at every offset of a section or page; zero without a table; the bare page offset where a table has no entry |
| `AddressSpaces.VirtualMemory.CreateAddressSpace` | kernel/memory/vm.cpp:207-251 | in place, what the creation step says |
| `AddressSpaces.VirtualMemory.MapPage` | kernel/memory/vm.cpp:253-300 | in place, what the mapping step says; the kassert at the new kernel table is asserted where the code has it, and follows from the copy just before |
| `AddressSpaces.VirtualMemory.UnmapPage` | kernel/memory/vm.cpp:324-376 | in place, what the unmapping step says, the free at the wrong order included; the state stays valid if and only if that does not free a user table |
| `AddressSpaces.VirtualMemory.TableIsEmpty` | kernel/memory/vm.cpp:350-357 | true exactly if every cell of the table is free |
| `AddressSpaces.VirtualMemory.TryFixPageFault` | kernel/memory/vm.cpp:508-550 | in place, what the repair step says |
| `AddressSpaces.VirtualMemory.FreeSpace` | kernel/memory/vm.cpp:420-453 | every reference is given back, and no other address space changes |
| `AddressSpaces.VirtualMemory.Fork` | kernel/memory/vm.cpp:455-506 | the child becomes a copy, or memory ran out and the child is freed with nothing else changed, or the parent has a section below the kernel |
| `Calendar.SecsToTm` | kernel/lib/more_time.cpp:31-101 | for every t: rejected if and only if out of the range that the code tests, a date if and only if every int on the way fits, and an int overflow in between; the date is a valid Gregorian one whose weekday, day of year and seconds since the Epoch are those of t |
| `Calendar.SplitDays` | kernel/lib/more_time.cpp:55-72 | the cycle counts are in range and add up to the days; day 365 of a year occurs only at the end of four years, and of the last four of a century only in a fourth century |
| `Calendar.MonthLoop` | kernel/lib/more_time.cpp:80-81 | the loop stops inside its table at the month that holds the day |
| `Calendar.YearToSecsFast` | kernel/lib/more_time.cpp:116-128 | without overflow, the seconds before the year and its leap flag |
| `Calendar.YearToSecsGeneral` | kernel/lib/more_time.cpp:130-163 | the 400-year branch gives the seconds before the year and the same leap flag |
| `Calendar.TmToSecs` | kernel/lib/more_time.cpp:165-186 | seconds since the Epoch of any fields, months outside the year carried into it |
| `Calendar.SecsRoundTrip` | kernel/lib/more_time.cpp:31-186 | tm_to_secs of secs_to_tm of t is t, for exactly the t that are converted without overflow |
| `Calendar.DateRoundTrip` | kernel/lib/more_time.cpp:31-186 | secs_to_tm of tm_to_secs of a valid date with an int year is that date, weekday and day of year included, if and only if it is not before the first of March of the year field -2147483500; else an int overflows |
| `Calendar.CompareOrdersLikeSeconds` | include/api/syscalls.h:198-213 | on valid dates datetime_compare has the sign of the difference in seconds if and only if the difference of the years fits an int, and is zero only for equal dates |
| `Calendar.CompareFarYearsFails` | include/api/syscalls.h:198-202 | it does not for the years 2000000000 and -2000000000 |
| `Calendar.PosixFormula` | kernel/lib/more_time.cpp:165-186 | seconds agree with the formula of section 4.16 of IEEE Std 1003.1-2017 |
| `Calendar.SecondsInjective` | kernel/lib/more_time.cpp:165-186 | different valid dates have different seconds |
| `BlockDevice.SimpleBlockDevice.Read` | kernel/drivers/device.cpp:23-91 | a successful read delivers exactly the clamped bytes; it fails only if the driver or malloc does and panics only if the request ends in the sector it starts in |
| `BlockDevice.SimpleBlockDevice.Write` | kernel/drivers/device.cpp:93-174 | a successful write changes exactly those bytes; a failed one only sectors that the request touches; a read-only device nothing |
| `BlockDevice.KassertCondition` | kernel/drivers/device.cpp:52-52 | the kassert behind an unaligned first sector holds if and only if the request reaches the end of that sector |
| `BlockDevice.SpliceRead` | kernel/drivers/device.cpp:93-174 | what was written is what is read back, and every other byte is the old one |
| `BlockDevice.SpliceInSector` | kernel/drivers/device.cpp:109-131 | changing bytes inside a sector and writing the sector back changes only those bytes |
| `BlockDevice.DivisionBySectors` | kernel/drivers/device.cpp:31-50 | the recursive quotient, remainder and product of the model are the operators of the code |
| `Fat32.FileSystem.NextCluster` | kernel/vfs/fat32/fat32.cpp:102-124 | after any lookups and failed reads, the cached lookup gives the entry on the device if the FAT sector lies on it; past its end, whatever the buffer held |
| `Fat32.FileSystem.StepClusterChain` | kernel/vfs/fat32/fat32.cpp:126-146 | if the links on the way lie on the device, the cluster that many links down the chain, or the first invalid one that ends it |
| `Fat32.FileSystem.Read` | kernel/vfs/fat32/fat32.cpp:324-370 | for a chain with enough good clusters, exactly the requested slice, cut at the file size, of the concatenated clusters; errors and panics only as the device has them |
| `Fat32.ConcatByte` | kernel/vfs/fat32/fat32.cpp:343-348 | byte p of the concatenated clusters lies in cluster p / size at p % size |
| `Fat32.ClusterToSectorOfValid` | kernel/vfs/fat32/fat32.cpp:85-88 | the model's sector of a valid cluster is the 32-bit expression of the code |
| `Fat32.PanicCause` | kernel/drivers/device.cpp:52-52 | a piece of a file makes the device panic only if the whole request ends in the sector it starts in |
| `Paths.KeptIsResolved` | kernel/vfs/fs.cpp:219-239 | removing only the name directly before each ".." resolves a path if and only if every ".." directly follows a name or nothing is left to go back from |
| `Paths.DotDotTwiceFails` | kernel/vfs/fs.cpp:219-239 | "/a/b/../.." is resolved to "/a" by the code |
| `Paths.FirstPass` | kernel/vfs/fs.cpp:219-239 | the character loop for ".." erases exactly the segment before it |
| `Paths.PassTwo` | kernel/vfs/fs.cpp:241-250 | the "/." loop turns exactly the single dots and the remains of ".." into separators |
| `Paths.PassThree` | kernel/vfs/fs.cpp:252-281 | collapsing leaves one separator before each name and one for a tail without a name |
| `Paths.CleanedIsKept` | kernel/vfs/fs.cpp:193-281 | the three passes together leave the kept names |
| `Paths.TraversalResolves` | kernel/vfs/vfs.cpp:175-197 | stepping through the canonical path looks up the resolved components if and only if the ".." fit |
| `Paths.DecanonicalizedIsNormal` | kernel/vfs/fs.cpp:297-311 | decanonicalize_path gives the normal form of the kept names, "/" if there are none |
| `Paths.GoingBackTwice` | kernel/vfs/fs.cpp:193-311 | canonicalizing the normal form again changes nothing |
| `Paths.AbsolutePath` | kernel/vfs/fs.cpp:193-311 | both statements for every absolute path whose segments are names, "", "." or ".." |
| `PathBuffers.CanonicalizePath` | kernel/vfs/fs.cpp:193-292 | for every string the in-place passes end, stay inside the buffer of length plus two and leave the canonical path |
| `PathBuffers.EraseDotDotsPass` | kernel/vfs/fs.cpp:219-239 | the memset loop refines the function on characters |
| `PathBuffers.CollapsePass` | kernel/vfs/fs.cpp:252-281 | the memmove loop refines the function on characters |
| `PathBuffers.DecanonicalizePath` | kernel/vfs/fs.cpp:297-311 | in place, separators up to the first two NULs |
| `PathBuffers.CanonicalizedPathStrlen` | kernel/vfs/fs.cpp:159-165 | the position of the first two NULs in a row |
| `PathBuffers.CanonicalizedPathStartsWith` | kernel/vfs/fs.cpp:167-174 | true exactly when the path before its first two NULs begins with the prefix before its own |
| `IntrusiveList.List.AppendBefore` | kernel/lib/intrusivelinkedlist.h:100-110 | the node is inserted before the given one, in both directions of links |
| `IntrusiveList.List.Remove` | kernel/lib/intrusivelinkedlist.h:58-77 | exactly that node leaves the list, at either end or inside |
| `IntrusiveList.List.Find` | kernel/lib/intrusivelinkedlist.h:38-49 | the first node that passes the filter |
| `Mounts.MountKeepsSorted` | kernel/vfs/vfs.cpp:405-415 | mounting keeps the list sorted if and only if a shorter path is mounted or no longer one is |
| `Mounts.EveryRunSorted` | kernel/vfs/vfs.cpp:388-428 | with the root mounted first, every run of mounts keeps the list sorted and complete |
| `Mounts.EveryRunFindsLongest` | kernel/vfs/vfs.cpp:225-234 | then every path is given to the longest mounted byte prefix |
| `Mounts.RootLaterFails` | kernel/vfs/vfs.cpp:405-415 | mounting "/" after "/dev" puts it first |
| `Mounts.MountTable.Mount` | kernel/vfs/vfs.cpp:388-415 | the linked list holds what the insertion on sequences says, or is unchanged if memory runs out |
| `Mounts.MountTable.FindMount` | kernel/vfs/vfs.cpp:225-229 | the first mount point whose path is a prefix |
| `VfsRefs.EveryRunIsGood` | kernel/vfs/vfs.cpp:35-587 | in every run of mounts, opens, closes, duplicates, pipes and stats, each count is exactly its custodies plus the references given up for good, no close hook has run while a custody pointed at its inode, and no identifier is cached twice |
| `VfsRefs.CountCoversCustodies` | kernel/vfs/vfs.cpp:58-70 | hence a count is at least the number of live custodies |
| `VfsRefs.CloseIsGood` | kernel/vfs/vfs.cpp:58-70 | the kassert on the count holds, and the hook runs only for the one reference left |
| `VfsRefs.LookupIsGood` | kernel/vfs/vfs.cpp:94-133 | a lookup gains exactly one reference or none, also when memory runs out halfway |
| `VfsRefs.TraverseIsGood` | kernel/vfs/vfs.cpp:157-214 | a traversal of any length gives back every reference but those it hands over |
| `VfsRefs.TraverseReaches` | kernel/vfs/vfs.cpp:157-214 | a traversal that succeeds ends at the inode, of the same file system, whose identifier the answer for the last component carried |
| `VfsRefs.OpenCallIsGood` | kernel/vfs/vfs.cpp:330-369 | vfs_open adds exactly the custody it returns; on every error path no reference stays in flight; it panics if and only if it creates a file under an identifier that is cached |
| `VfsRefs.OpenReaches` | kernel/vfs/vfs.cpp:330-369 | an open that succeeds without creating returns the inode of the last component, or the root for an empty path |
| `VfsRefs.ReleaseIsGood` | kernel/vfs/vfs.cpp:508-512 | closing removes one custody; if the hook runs, no custody of that inode is left |
| `VfsRefs.PipeIsGood` | kernel/vfs/vfs.cpp:556-587 | a pipe has two custodies of one inode, or none; it panics exactly as the open does |
| `VfsRefs.MountIsGood` | kernel/vfs/vfs.cpp:417-421 | mounting keeps the accounting, whether or not the root got its cache entry, and panics if and only if the file system will not open the root or the root is already cached |
| `VfsRefs.ClosedIsHandedOut` | kernel/vfs/vfs.cpp:12-22 | after the close hook has run for an inode, a lookup hands it out again, with a count of two and no new open, if and only if the cache still has its entry, against what the comment promises |
| `VfsRefs.ClosedFileReopens` | kernel/vfs/vfs.cpp:58-70 | the run that shows it: mount, open, close, open again; the second open succeeds with the inode whose hook has run, though the file system will not open it |
| `VfsRefs.VirtualFileSystem.CloseInode` | kernel/vfs/vfs.cpp:58-70 | in place, what the closing step says |
| `VfsRefs.VirtualFileSystem.TraverseInFs` | kernel/vfs/vfs.cpp:157-214 | the loop refines the recursive traversal |
| `VfsRefs.VirtualFileSystem.VfsOpen` | kernel/vfs/vfs.cpp:330-369 | in place, what the opening step says |
| `VfsRefs.VirtualFileSystem.VfsClose` | kernel/vfs/vfs.cpp:508-512 | in place; a hook runs only if no custody of the inode is left |
| `VfsRefs.VirtualFileSystem.VfsCreatePipe` | kernel/vfs/vfs.cpp:556-587 | two custodies more of one inode, or none |
| `TempFs.WriteIsGood` | kernel/vfs/tempfs/tempfs.cpp:392-409 | a write fails exactly if the grown file exceeds the capacity or memory, and then changes nothing; else the content is overwritten as it should, with blocks, zero fill and accounting kept |
| `TempFs.EveryRunIsGood` | kernel/vfs/tempfs/tempfs.cpp:84-414 | in every run: buffers are whole blocks, zero past the end, used is their sum and within the capacity, and no custody is past the end of its file |
| `TempFs.EveryRunRefines` | kernel/vfs/tempfs/tempfs.cpp:375-409 | in every run the files and custodies are those of plain byte sequences, and every read is answered with their bytes |
| `TempFs.StepRefines` | kernel/vfs/vfs.cpp:430-506 | every call acts on contents and custodies as on plain byte sequences, without blocks, buffers or capacity |
| `TempFs.ReadRefines` | kernel/vfs/vfs.cpp:453-460 | a read delivers the slice of the plain content at the custody's offset |
| `TempFs.OverwriteReads` | kernel/vfs/tempfs/tempfs.cpp:392-409 | what was written is read back, what was there stays, gaps are zero |
| `TempFs.ShrinkKeepsStale` | kernel/vfs/tempfs/tempfs.cpp:109-118 | shrinking keeps the zero fill if and only if the bytes cut off in the last block were zero |
| `TempFs.SeekMeaning` | kernel/vfs/fs.cpp:61-77 | from the start or the current offset, a seek inside the file goes there and any other goes to the end |
| `TempFs.SeekFromEnd` | kernel/vfs/fs.cpp:61-77 | from the end the offset counts backwards, which is right only for zero |
| `TempFs.TempFileSystem.Ftruncate` | kernel/vfs/tempfs/tempfs.cpp:84-128 | in place, what resizing says, or ERR_NOMEM with nothing changed |
| `TempFs.TempFileSystem.WriteFile` | kernel/vfs/tempfs/tempfs.cpp:392-409 | in place, what the write step says |
| `TempFs.TempFileSystem.ReadFile` | kernel/vfs/tempfs/tempfs.cpp:375-390 | the bytes from the offset on, cut at the end of the file |
| `TempFs.TempFileSystem.VfsRead` | kernel/vfs/vfs.cpp:453-460 | delivers and moves the custody as the step says |
| `TempFs.TempFileSystem.VfsWrite` | kernel/vfs/vfs.cpp:480-485 | writes and moves the custody as the step says |
| `TempFs.TempDirectory.CreateChild` | kernel/vfs/tempfs/tempfs.cpp:184-254 | names stay unique; the errors in their order; else exactly one free slot is taken |
| `TempFs.TempDirectory.Lookup` | kernel/vfs/tempfs/tempfs.cpp:166-182 | finds a child exactly if there is one of that name |
| `TempFs.CreatedIsFound` | kernel/vfs/tempfs/tempfs.cpp:166-254 | after a creation a lookup finds the new child, and other names as before |
| `Ring.RingBuffer.Push` | kernel/lib/ringbuffer.h:25-36 | the queue is the newest elements, as many as fit |
| `Ring.RingBuffer.Pop` | kernel/lib/ringbuffer.h:38-47 | the oldest element, if there is one |
| `Tty.CanonicalRuns` | kernel/drivers/device.cpp:196-316 | while ICANON stays set and the ring has not overflowed, what was read and what is queued is the completed lines of the edited input, the counter counts the queued newlines, poll is exact; the kassert never fires, overflow or not |
| `Tty.EditedShape` | kernel/drivers/device.cpp:196-238 | a line being edited has no newline and at most 256 bytes, and completed lines end with one |
| `Tty.FiresExactly` | kernel/drivers/device.cpp:240-256 | after any run, with any flags, some further events with ICANON set make the kassert in read fire if and only if there are more newlines queued than lines counted |
| `Tty.SwitchingIcanonFires` | kernel/drivers/device.cpp:196-256 | which a newline typed with ICANON off brings about |
| `Tty.Tty.Emit` | kernel/drivers/device.cpp:196-238 | in place, the typing step, with exactly the echo it prescribes |
| `Tty.Tty.FlushLine` | kernel/drivers/device.cpp:308-316 | the line moves to the queue and is counted |
| `Tty.Tty.Read` | kernel/drivers/device.cpp:240-256 | one line or the part of it that fits, in order, and nothing behind it in the buffer changes |
| `Tty.Tty.Poll` | kernel/drivers/device.cpp:287-306 | by the line counter with ICANON, by the queue without |
| `ExecStack.PushStringArray` | kernel/scheduler.cpp:217-241 | the strings and the table of pointers to them lie where the returned pointers say, and nothing above the old stack pointer changes |
| `ExecStack.PushProcessArgs` | kernel/scheduler.cpp:243-265 | following the returned stack pointer reads back exactly the argument and environment strings; the last rounding is a no-op |
| `Line.RoundedIsNearest` | userland/bsp/libgfx/libgfx.c:97-143 | the minor coordinate of the model is the only integer within half a pixel, ties towards zero |
| `Line.CentresFollowTheLine` | userland/bsp/libgfx/libgfx.c:97-143 | the walk starts and ends at the endpoints, never overshoots, and every centre is within half a pixel of the ideal line on the minor axis |
| `Line.WalkStep` | userland/bsp/libgfx/libgfx.c:128-140 | one step of the error-term loop goes from one such centre to the next |
| `Line.ShortLinesFit` | userland/bsp/libgfx/libgfx.c:119-140 | the error term of any line of up to 715827882 steps fits an int all the way |
| `Line.StraightLinesFit` | userland/bsp/libgfx/libgfx.c:119-140 | along an axis it fits if and only if the length is at most half of the ints, and on a diagonal always |
| `Line.Display.DrawLine` | userland/bsp/libgfx/libgfx.c:97-143 | paints exactly the brushes around the centres that are on the screen, and no other pixel, whenever each int computed on the way fits |

## Left out

- PhysicalAlloc: merging of buddies, since no free at the order of the allocation gets there.
- PhysicalAlloc.PageAllocator.Free: in place only at the order of the allocation; what a free at another order does is stated on the pool, by `FreeNeedsItsOrder`.
- PhysicalAlloc.FreeNeedsItsOrder: a 1 KB page whose index is no multiple of 4, freed as 4 KB, is not among the four buddies that the code tests, which might then merge them or panic; the model lists the page, as it does for aligned ones. No code of the kernel frees at 4 KB what it allocated as 1 KB.
- AddressSpaces: page frames are served by the pool of `PhysicalAlloc` as a value, through the requests that `PageAllocator` is proved to serve; the two objects are not linked in memory. ioremap, copies to and from user memory, TLB and cache maintenance are not modelled. The last byte of memory, 0xffffffff, is no address for map and unmap, because the kernel area does not contain it.
- Forking.ForkCopies: states content, permissions and isolation; what becomes of tables in overwritten slots of the child is stated by `ForkForgets` and `ForkKeeps`.
- Forking: frames are compared whole, by their base addresses; bytes of page tables are not part of the frames.
- BlockDevice.SimpleBlockDevice.ReadSector: a driver reports success by 0 and failure by a negative number.
- Fat32: directories and writing; the device's sectors have 512 bytes, as the file system itself demands.
- Paths: names that start with a dot or contain "..". The buffers are proved safe for them, their meaning is not stated.
- Mounts: paths are compared as the strings before their two NULs; `PathBuffers` proves that the code on buffers does so.
- Mounts: byte prefixes, as in the code; whether a prefix ends at a component is not asked.
- VfsRefs: a custody is represented by its inode; flags, offsets and poll loops are not part of the reference counts. vfs_stat fills its result only where the lookup failed, possibly from a null parent; only its references are modelled.
- TempFs: unlink and directory listing; the modes and poll loops of vfs_read and vfs_write.
- Tty: signals, the PTY devices and the hardware below the terminal.
- Line.Display.DrawLine: the frame buffer is a two-dimensional array; lines for which an int overflows on the way are excluded, and only these.
- Process and thread teardown, scheduling, drivers, the C library and user programs.
