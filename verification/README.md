# A model of the kernel's memory stack, its scheduler and IPC, and the boot-loader installer

The project models three parts of the repository and proves properties that span their functions.

**Memory stack** (`Words`, `PhysMem`, `Pmm`, `PageTable`, `Pmap`, `Mappings`, `Zalloc`, `VmList`,
`VmUnmap`, `VmWire`, `VmMap`, `VmFault`, `Teardown`, `Lifecycle`, `Ownership`, `Boot`).  Physical memory is an
array of frames of 512 words.  The allocator's bitmap, the page tables and the zone slots all live in
that one store, seen through the direct map, so every store of one layer has to be shown harmless to
the others.  Beside the memory runs a ghost ledger that names the one owner of each frame: reserved,
free, held by a caller, a table of one tree at one path, a table of the kernel at one path, the data
frame of one page of one address space, or a page of one zone.  The invariants say that the ledger is
exactly what the bitmap, the trees, the leaf entries, the map entries and the zones say.  `Ownership.Spaces.Run` is the global
theorem: any run of `vm_map_enter`, `vm_map_remove` and `vm_fault` calls on any of many address spaces keeps
all of it, `Ownership.Spaces.Step` says that no call affects another address space, and
`Ownership.PagesConserved` that the counters, the trees, the mapped pages and the zone always add up to
the tracked memory.  `Boot.Live` starts from the boot loader's memory map and mixes the creation of
address spaces with calls on those there are by then.

**Installer** (`BlockDevice`, `Journal`, `Uninstall`, `UninstallFile`, `InstallCycle`, `Signature`,
`Chs`, `Offsets`).  The one-block write-back cache of `limine/limine.c`, its undo journal, the file the journal is
kept in, the search for the checksum, and the CHS encoding.  Every read and write of a block may fail; a
failed read leaves rubbish in the cache buffer and a failed write may leave rubbish in its block.

**Scheduler and IPC** (`Sched`, `IpcKmsg`, `IpcPort`, `IpcSpace`, `IpcWait`, `IpcMsg`, `IpcRun`,
`ContextSwitch`).  The run queue on the thread structures themselves, the ring buffer of a port, the
block and wake-up handshake as a system of steps, message delivery and conservation while ports come and
go under the names of tasks, and the switch between kernel stacks.  `IpcRun.Kernel.Run` is the theorem
about whole runs.  One kernel call between two switch points is one atomic step, as the
scheduler's own comment (`kern/sched.c:2`) says.

Where the code does not do what its callers or comments expect, the model follows the code and a
theorem says exactly when the expectation holds:

- `vm_map_remove` of a range that cuts an entry drops the whole entry but unmaps only the
  intersection.  The map stays valid if and only if no page of a dropped entry outside the range is
  mapped (`VmMap.Map.Remove`); removing the first page of a wired two-page entry breaks it
  (`Boot.CutEntry`).
- `vm_map_remove` of an empty range strictly inside an entry drops that entry (`VmMap.Map.Remove`,
  `VmList.DroppedNodes`).
- `pmap_destroy` walks all 512 slots of the PML4, including the upper half copied from the kernel, and
  frees the tables behind them: only its own tables are freed if and only if the upper half is empty
  (`Teardown.SharedTablesAreFreed`).  The upper halves of all other address spaces survive if and only
  if they share no table with it (`Lifecycle.DestroyAddressSpace`), which for a copy of the kernel's
  slots means that there are none (`Lifecycle.CopySharesAll`).
- `pmap_walk` takes a large page for a page table: it stays in the tables if and only if no entry on its
  path maps one (`PageTable.LargePageTakenForTable`, `Boot.LargePageWalked`).
- `pmm_free_page` keeps the allocator in order if and only if the page is neither free already nor part
  of the bitmap (`Pmm.PageAllocator.FreePage`).
- `pmm_init` steps through the kernel image from its first byte, so it reserves every page of the image
  if and only if the offsets of the first and the last byte in their pages are in order
  (`Pmm.SteppedCoversRange`).
- A write that fails after its first chunk changes bytes the journal never saved
  (`Journal.SplitWriteUndone`, `Uninstall.WriteAndRollBack`).  A failed installation whose roll-back
  answers true has restored the device if and only if the device differed, when it failed, only where
  the journal had saved something (`Uninstall.Install`).
- A journal with an empty entry cannot be stored or loaded (`UninstallFile.DecodeExactly`).
- The checksum search stops short of occurrences near the end of the file (`Signature.FoundIffEarly`).
- A current thread at the head of the run queue never hands the processor over; after boot that is the
  idle thread (`Sched.SwitchesIffNotHead`, `Sched.BootNeverSwitches`).
- A receive on an empty port keeps the wake-up protocol if and only if nobody is registered at the port
  (`IpcWait.Waits.Register`), and taking a message if and only if another woken receiver is left one
  (`IpcWait.Waits.Pop`, `IpcWait.WokenForNothing`).  With two receivers the first stays blocked whatever is
  sent (`IpcWait.Waits.SecondReceiver`).  One receiver per port is a discipline that avoids both.
- Freeing a port keeps the protocol if and only if no thread is inside a receive on it
  (`IpcWait.Waits.Retire`, `IpcWait.FreedUnderReceiver`).
- `ipc_space_insert` takes no reference, so removing one name of a port frees it; a task's other names
  stay valid if and only if none of them stands for it (`IpcMsg.Ipc.RemoveName`, `IpcRun.DanglingName`).
- A new thread's first call happens with a stack pointer that is 8 bytes off the 16-byte alignment of
  the System V AMD64 ABI, section 3.2.2 (`ContextSwitch.Machine.FirstRun`).

The contracts of the operations say what they do in addresses, pages, bytes, bits and answer codes written
out as numbers, independently of the functions their bodies compute with.

`Arith`, `Seqs` and `KernReturn` hold what several modules share.  `dafny verify dfyconfig.toml` checks the whole
project.

## Model

| member | source | states |
|---|---|---|
| Words.SetBitTest | vm/pmm.c:32-35 | setting a bit changes the test of that bit alone |
| Words.TestBitIs | vm/pmm.c:42-45 | the test of a bit is the parity of the word divided by the bit's worth |
| Words.AddrMaskIsFrame | hal/x86_64/pmap.h:24 | the address mask of an entry selects its frame number times the page size, for all 64-bit words |
| Words.EntryBits | hal/x86_64/pmap.c:197 | the three masks of a leaf entry yield a present word with the frame of the address and the flags of the caller |
| Words.FlagBits | hal/x86_64/pmap.h:13-22 | the flags P, W, U, PS and NX are worth 1, 2, 4, 128 and 2 to the power 63, for all 64-bit words |
| Words.LinkBits | hal/x86_64/pmap.c:76 | the three flag bits of a table link are a plain addition to an aligned address |
| Words.IndexBits | hal/x86_64/pmap.h:32-36 | the four index macros are the base-512 digits of the page number |
| Pmm.PageAllocator.Init | vm/pmm.c:47-121 | page q is free exactly when all its 4096 bytes lie in one usable region and it is neither page 0, nor one of the bitmap's 32 pages, nor the page of an address kernel start + 4096 k below the kernel's end; the bitmap is at the least page from the region's base and 1 MB on that leaves 0x20000 bytes, in the first usable region with room; the counters equal the set sizes; does nothing exactly when no region has room |
| Pmm.BitmapBits | vm/pmm.c:19-45 | page p is free exactly when bit p % 64 of word p / 64 of the bitmap is clear |
| Pmm.SteppedCoversRange | vm/pmm.c:110-116 | the page stepping meets every page of a byte range exactly when the first byte's offset in its page does not exceed the last byte's |
| Pmm.SecondPageMissed | vm/pmm.c:110-116 | a two-byte image that straddles a page boundary loses its second page |
| Pmm.PageAllocator.AllocPage | vm/pmm.c:123-137 | returns the lowest free page, never page 0, and null if and only if none is free; only the bitmap is written |
| Pmm.PageAllocator.FreePage | vm/pmm.c:139-146 | frees exactly the page given, ignoring page 0 and pages out of range; bitmap, ledger and count stay in step if and only if the page was not free already and is not part of the bitmap |
| PageTable.TreeFrame | hal/x86_64/pmap.c:67-99 | a tree none of whose tables is written keeps its shape and every translation |
| PageTable.LinkTable | hal/x86_64/pmap.c:71-95 | linking a zeroed table adds one empty table at its path and changes no translation |
| PageTable.SetLeaf | hal/x86_64/pmap.c:192-200 | storing one leaf entry changes the translation of its page alone |
| Pmap.AddressSpace.Walk | hal/x86_64/pmap.c:67-99 | finds the leaf slot of an address; creating tables on the way changes no translation of any address space, writes only entries with bit 0 clear and makes them links with the low bits 7 (present, writable, user), and fails only when no page is free |
| Pmap.AddressSpace.Map | hal/x86_64/pmap.c:192-200 | changes exactly one page's translation; a failure for lack of memory changes none; no other address space is affected |
| Pmap.AddressSpace.Unmap | hal/x86_64/pmap.c:206-214 | removes exactly one page's translation, answers whether it was there, writes only page tables of this tree |
| Pmap.AddressSpace.Protect | hal/x86_64/pmap.c:221-229 | keeps the frame and replaces the flags of exactly one page |
| Pmap.AddressSpace.Query | hal/x86_64/pmap.c:235-241 | the physical address the flat map gives, in either half, or zero for an unmapped page; also in numbers, from the four 9-bit fields of the address and bits 0 and 12-51 of the entries |
| Pmap.LeafIsTranslation | hal/x86_64/pmap.c:67-99 | the flat map that all contracts speak of is the entry found by following bits 47-39, 38-30, 29-21 and 20-12 of the address through entries with bit 0 set |
| Pmap.AddressSpace.Find | hal/x86_64/pmap.c:67-99 | without creating tables, finds the leaf slot of an address of either half |
| PageTable.LargePageTakenForTable | hal/x86_64/pmap.c:67-99 | the walk arrives at the table of its path if and only if no entry on the way maps a large page |
| Mappings.AddMapping | vm/vm_fault.c:50-61 | mapping a held frame at an unmapped page makes that page its one owner |
| Mappings.DropMapping | vm/vm_map.c:236-242 | unmapping a page gives up the frame it owned |
| Mappings.NoFrameMappedTwice | vm/vm_map.c:165-177 | no frame is mapped at two pages, in one address space or in two |
| Mappings.OverwriteOrphans | hal/x86_64/pmap.c:192-200 | mapping over a present page leaves its old frame mapped nowhere |
| Zalloc.Zone.Grow | vm/zalloc.c:46-66 | threads the 4096 / size slots of one new page onto the list, or changes nothing; fails exactly when the zone is full or memory has run out |
| Zalloc.Zone.Alloc | vm/zalloc.c:68-80 | returns the address, direct-map offset + 4096 page + k size, of a zeroed element of a page of the zone that was not live, or null exactly when the list is empty and the zone cannot grow; live contents are kept |
| Zalloc.Zone.Free | vm/zalloc.c:82-88 | puts a live element back at the head of the list, whose first word becomes the old head, and writes no other word |
| Zalloc.SlotsApart | vm/zalloc.c:58-63 | two different slots of a zone do not overlap |
| Zalloc.LiveWritesKeepChain | vm/zalloc.c:68-88 | whatever is written to a live element, the list threaded through the free ones is undamaged |
| Zalloc.ZonesApart | vm/zalloc.c:46-66 | elements of two zones never share a word |
| VmList.ListInsertAfter | vm/vm_map.c:35-42 | splices a node into the ring at its position |
| VmList.ListRemove | vm/vm_map.c:44-48 | unlinks one node and leaves a ring of the others |
| VmMap.Map.LookupEntry | vm/vm_map.c:117-126 | returns an entry with start <= address < end, and null if and only if there is none |
| VmFault.OnlyCover | vm/vm_map.c:117-126 | at most one entry covers an address |
| VmMap.Map.MapFreshPage | vm/vm_map.c:166-176 | maps one fresh zeroed frame at an unmapped page, or leaves every translation as it was and the frame free; fails only when at most that page is left free |
| VmUnmap.UncutRangeHasNoStray | vm/vm_map.c:219-252 | a range that cuts no entry leaves no stray mapping |
| VmUnmap.CutEntryLeavesStray | vm/vm_map.c:233-246 | every mapped page of a cut entry outside the range removed is a stray mapping |
| Boot.CutEntry | vm/vm_map.c:219-252 | in every empty map with room for two pages: entering two wired pages and removing the first leaves a mapped page no entry covers, unless memory runs out |
| VmUnmap.CoverageAfter | vm/vm_map.c:219-252 | after a removal every mapped page lies in an entry if and only if there was no stray mapping |
| VmMap.Map.Remove | vm/vm_map.c:219-252 | drops exactly the entries with start < e.end and e.start < end, for start < end those that share an address with the range; unmaps exactly the pages that lie in a dropped entry and in the range and frees their frames; stays valid if and only if no stray mapping is left |
| VmList.DroppedNodes | vm/vm_map.c:228-231 | an entry of an ordered list is dropped if and only if it shares an address with the range, for a range that is not empty; an empty range drops the entry it lies strictly inside of |
| VmWire.RolledBack | vm/vm_map.c:165-177 | removing what the wired loop had mapped restores every translation; only table and zone pages stay taken |
| VmMap.Map.Enter | vm/vm_map.c:128-181 | inserts one entry in order and, if bit 0 of the flags is set, maps every page of it to a zeroed frame, writable exactly with bit 1 of the protection, no-execute exactly without bit 2, all other flag bits but presence clear; or fails with entries and translations as before and only table and zone pages taken; argument errors (4) exactly for empty, wrapping or out-of-bounds ranges; no space (3) whenever an entry shares an address with the range, and without one only when the zone is exhausted or no more pages are left free than the wired range has |
| VmWire.WordRights | vm/vm_map.c:50-58 | the leaf word for a protection has bit 0 set, bit 1 exactly as protection bit 1, bit 63 exactly without protection bit 2, and bits 2-11 and 52-62 clear |
| VmFault.VmFault | vm/vm_fault.c:33-62 | succeeds at once when the query finds a page; otherwise answers bad address exactly when no entry has start <= address < end, protection exactly for a write (1) without bit 1 of the protection or an execute (2) without bit 2 (a read is admitted whatever the rights, even none), and else pages in one zeroed frame, writable and no-execute by the same bits; out of memory only when at most one page is left free, with no translation changed |
| Ownership.PagesConserved | vm/pmm.c:123-146 | in every state of a run the free counter, the tables on all paths of all trees, the mapped pages of all address spaces, the size of the entry zone in pages and the pages of the other classes add up to the tracked memory |
| Ownership.Spaces.Step | vm/vm_map.c:128-252 | one operation on one of many maps keeps every map valid, moves pages only between the free set, that address space and the entry zone, and changes no other address space's translations |
| Ownership.Spaces.Run | vm/vm_map.c:128-252 | any run of operations on any of the maps, with any outcomes, keeps every page with exactly one owner and all layers in agreement; reserved and held pages, tables and zone pages stay what they are, and another address space can be added afterwards |
| Teardown.FreeTables | hal/x86_64/pmap.c:105-128 | frees the listed tables in order, reading every entry only while its table is still in use; in numbers, exactly the PML4 and what entries with bit 0 set lead to, from the second level on only over entries with bit 7 clear, so a page to which only entries with bit 7 set point below the PML4 keeps its owner |
| Teardown.TornDownLinked | hal/x86_64/pmap.c:105-128 | the list of pages torn down, told by bits 0, 7 and 12-51 of the entries alone |
| Teardown.TornDownIsTheTree | hal/x86_64/pmap.c:105-128 | over all 512 slots the pages freed are exactly the tables of the tree and the kernel tables its upper half leads to, each once: no leaf frame and no large page |
| Teardown.SharedTablesAreFreed | hal/x86_64/pmap.c:105-128 | the teardown frees nothing but its own tables if and only if the upper half is empty |
| Lifecycle.CreateAddressSpace | hal/x86_64/pmap.c:144-164 | 256 zero slots below the kernel's upper 256 and no translation in the lower half, or everything as before with at most one page free |
| Lifecycle.CopySharesAll | hal/x86_64/pmap.c:150-154 | a PML4 with the kernel's upper slots shares no table with others if and only if these slots are empty |
| Lifecycle.DestroyAddressSpace | hal/x86_64/pmap.c:171-180 | the last reference frees exactly the tables of the tree and the kernel tables its upper half leads to, told by the bits of the entries as in FreeTables; every other tree stays well formed if and only if none shares one of those |
| Lifecycle.DestroyMap | vm/vm_map.c:93-115 | the last reference gives back every frame and every entry element the map owned; with the last reference to the page table also every table, and the kernel tables its upper half leads to, else the page table stays and maps nothing; other lower halves, their frames and the zone stay valid, the other upper halves if and only if they share no table |
| Boot.Start | main.c:118-121 | from the boot memory map and the tables the kernel runs on to a consistent system without address spaces, whose free pages are told byte by byte as for Init; fails exactly when no region has room for the bitmap |
| Boot.NewSpace | kern/exec.c:22-31 | a consistent system takes one more empty address space and stays consistent, or fewer than two pages are free |
| Boot.BootWith | main.c:118-121 | any number of user address spaces after boot, or as many as memory has room for, in a consistent state |
| Boot.Live | main.c:118-133 | from power-on any script of new address spaces and calls on those there are by then keeps the system consistent and able to take another |
| Boot.LargePageWalked | hal/x86_64/pmap.c:67-99 | where an entry of the second level maps a large page the walk takes that page for a page table |
| BlockDevice.OpenDevice | limine/limine.c:233-264 | tries the block sizes in order; without a read error a device of at least 512 bytes gets 512 |
| BlockDevice.Device.FlushCache | limine/limine.c:266-285 | never changes the logical image, whatever fails; on success the device equals it |
| BlockDevice.Device.CacheBlock | limine/limine.c:287-312 | never changes the logical image, whatever fails; fails without an error only outside the device |
| BlockDevice.Device.Read | limine/limine.c:441-461 | returns the logical bytes loc to loc + count, over any number of blocks; without an error fails exactly when the last block of the run does not end on the device |
| BlockDevice.Device.Write | limine/limine.c:463-518 | replaces exactly the bytes given and saves the old bytes loc to loc + length; a failure writes a prefix that ends at a block boundary and leaves the journal alone; without an error it fails only when the last block does not end on the device or 256 entries are there |
| Journal.ReplayRestores | limine/limine.c:328-334 | replaying a faithful journal backwards restores the image if and only if the image differs from it only where something was saved |
| Journal.RecordWrite | limine/limine.c:463-518 | a completed write keeps the journal faithful, on the device and behind the cache |
| Journal.SplitWriteUndone | limine/limine.c:492-511 | after a write that failed half-way the roll-back restores the image if and only if each byte written was saved earlier or was rewritten with its old value |
| Uninstall.WriteAndRollBack | limine/limine.c:463-570 | a first write that completed is undone; one that failed half-way and reached the device stays there although the roll-back answers true |
| Journal.OneBlockIsAtomic | limine/limine.c:492-511 | a write can fail after its first chunk only if it spans two blocks |
| Journal.ReverseJournal | limine/limine.c:328-334 | the loop reverses the journal |
| Uninstall.UninstallAll | limine/limine.c:520-570 | if it answers true the device holds exactly the in-order application of all entries, whatever failed on the way; without errors it answers true |
| Uninstall.Install | limine/limine.c:1167-1210 | success leaves the writes on the device and a journal of the same runs that undoes them; after a failure whose roll-back answers true the device is what it was if and only if it had changed only where the journal had saved something, which a torn block or a split multi-block write alone can prevent; without faults every doable run of at most 256 writes succeeds |
| UninstallFile.Store | limine/limine.c:342-380 | writes a prefix of the encoding; on success the file is the count in eight bytes, the lowest first, and for each entry its place and its length in eight bytes each and its data, one behind the other; without an error fails exactly for a journal with an empty entry |
| UninstallFile.HoldsExactly | limine/limine.c:353-368 | the encoding of a storable journal begins a file if and only if the file holds count, places, lengths and data at the offsets and in the byte order given in numbers |
| UninstallFile.DecodeExactly | limine/limine.c:342-439 | a file decodes to a journal if and only if the journal can be stored and its encoding begins the file |
| UninstallFile.Load | limine/limine.c:382-439 | returns a journal that the file holds at these offsets and in this byte order, at most 256 entries and none empty; without an error fails exactly when the file holds none |
| InstallCycle.InstallThenUninstall | limine/limine.c:738-753 | installing, storing the journal and uninstalling from the file restores every byte, for every run of operations and every failure, if all three report success; without faults they do, for all runs that fit a device of at least 512 bytes |
| Signature.FindChecksum | limine/limine.c:1304-1322 | finds the byte after the least occurrence that ends by size - length - 128, or nothing exactly when there is none; terminates although its index moves backwards, and leaves room for the 128 digits of the checksum |
| Signature.FoundIffEarly | limine/limine.c:1285-1322 | of first occurrences with room for the checksum it finds exactly those with room for the signature once more, less one byte |
| Signature.SmallestFileFails | limine/limine.c:1285-1322 | in a file of the smallest accepted size the checksum is never found |
| Offsets.OverflowIsExact | limine/limine.c:49-57 | the overflow tests are exact: they say no if and only if the wrapped result is the true one |
| Offsets.SetPos | limine/limine.c:63-83 | seeking in jumps ends at the offset asked for, and no jump is longer than `long` allows |
| Chs.Lba2Chs | limine/limine.c:151-172 | the three fields name, over 255 heads, 63 sectors and 1024 cylinders, the sector asked for or the last one, 16450559 |
| Chs.HighByteBits | limine/limine.c:169-170 | the shifts and masks of the middle byte put the high cylinder bits above the sector |
| Chs.DecodeEncode | limine/limine.c:151-172 | decoding gives the sector number back or the largest one, with head, sector and cylinder in range |
| Chs.EncodeDecode | limine/limine.c:151-172 | every valid triple is the encoding of the sector it names |
| Sched.FullRound | kern/sched.c:115-159 | with the current thread not at the head, as many yields as threads run each once in queue order and restore the order |
| Sched.SwitchesIffNotHead | kern/sched.c:111-119 | along any run of yields and enqueues the processor is handed over if and only if the run yields and the current thread was not at the head |
| Sched.BootNeverSwitches | kern/sched.c:121-133 | after boot the idle thread keeps the processor for ever |
| Sched.Scheduler.Enqueue | kern/sched.c:21-38 | appends a thread to the doubly-linked queue |
| Sched.Scheduler.Dequeue | kern/sched.c:40-60 | removes one thread from anywhere in the queue |
| Sched.Scheduler.LooksQueuedExactly | kern/sched.c:149-150 | the link test recognises queued threads exactly |
| Sched.Scheduler.Run | kern/sched.c:135-159 | switches to the head and rotates the queue, or changes nothing; only the current thread is running |
| Sched.Scheduler.ThreadYield | kern/sched.c:111-119 | takes one step of the rotation |
| Sched.Scheduler.CreateIdle | kern/sched.c:167-181 | the idle thread joins the queue, is current and running |
| IpcKmsg.CopyIn | kern/ipc_kmsg.c:51-69 | the kernel copy is the message, byte for byte |
| IpcKmsg.CopyOut | kern/ipc_kmsg.c:71-89 | the buffer is the kernel copy, byte for byte, or untouched when it is too small |
| IpcPort.Port.Enqueue | kern/ipc_port.c:56-75 | appends to the queue of at most 32 and makes a waiting thread runnable |
| IpcPort.Port.Dequeue | kern/ipc_port.c:77-88 | removes the oldest message |
| IpcPort.Port.Release | kern/ipc_port.c:39-54 | the last reference frees exactly the queued messages |
| IpcSpace.Space.Insert | kern/ipc_space.c:48-65 | hands out a name never used before, up to 1024 |
| IpcSpace.Space.Lookup | kern/ipc_space.c:67-82 | finds the port of a name, and fails exactly for names that stand for none |
| IpcSpace.Space.Remove | kern/ipc_space.c:84-100 | empties the name and drops one reference |
| IpcWait.Waits.BlockedWaitsOnce | kern/ipc_msg.c:72-79 | every blocked thread is off the run queue and the waiter of exactly one port |
| IpcWait.Waits.WokenFinds | kern/ipc_msg.c:78-80 | a thread that runs again inside its receive finds a message |
| IpcWait.Waits.Register | kern/ipc_msg.c:72-77 | registering, blocking and switching keep the wake-up protocol if and only if nobody is registered at the port; a thread that was is lost, and lost threads stay lost |
| IpcWait.Waits.ReceiveBegin | kern/ipc_msg.c:72-77 | with one receiver per port nobody is registered, so the protocol is kept |
| IpcWait.Waits.Push | kern/ipc_port.c:56-75 | queueing a message and waking the waiter keep the protocol |
| IpcWait.Waits.Pop | kern/ipc_port.c:77-88 | taking a message keeps the protocol if and only if it is not the last one while another woken thread is on its way to the port, and always under one receiver per port |
| IpcWait.WokenForNothing | kern/ipc_msg.c:72-83 | kernel calls alone reach a state in which a woken receiver finds no message |
| IpcWait.Waits.Retire | kern/ipc_port.c:39-54 | a port that is freed leaves the protocol intact if and only if no thread is inside a receive on it; a registered thread is lost |
| IpcWait.FreedUnderReceiver | kern/ipc_port.c:39-54 | kernel calls alone reach a state in which freeing a port loses a thread |
| IpcWait.Waits.SecondReceiver | kern/ipc_msg.c:72-79 | after a second registration the first thread stays blocked, off the run queue and registered nowhere, along any run of sends, receives and yields |
| IpcWait.LostReceiver | kern/ipc_msg.c:72-79 | kernel calls alone reach such a state, and no number of messages to the port wakes the first thread |
| IpcWait.BlockedReceiver | kern/ipc_msg.c:72-77 | kernel calls alone reach a state in which a thread is blocked in a receive |
| IpcMsg.Ipc.Send | kern/ipc_msg.c:15-52 | success (0) makes the message, 48 header bytes and the rest, the last one sent to the port its header names; a failure leaves no trace; argument errors (4) exactly for messages below 48 bytes and names that stand for no port, no space (3) exactly for messages over 512 bytes, 32 messages queued and refused allocations |
| IpcMsg.Ipc.Receive | kern/ipc_msg.c:54-89 | blocks exactly on a known port with an empty queue, fails exactly for names that stand for no port, else delivers the next message in the order of sending, byte for byte, or drops it when the buffer is too small |
| IpcMsg.Ipc.Resume | kern/ipc_msg.c:78-89 | the woken receiver never fails for lack of a message and gets the next one sent |
| IpcMsg.Ipc.RemoveName | kern/ipc_space.c:84-100 | with the last reference the port goes and exactly its queued messages with it, and every other message is conserved; exact conditions for the wake-up protocol and for the other names in the space |
| IpcMsg.Ipc.MessagesConserved | kern/ipc_kmsg.c:22-49 | the live kernel messages are as many as the live ports together count |
| IpcRun.Kernel.Run | kern/ipc_msg.c:15-89 | any run of yields, new threads, new tasks, new ports with names, sends and receives by name, and removed names keeps the wake-up protocol, the message invariants and the names |
| IpcRun.DanglingName | kern/ipc_space.c:48-100 | a port with two names: removing the first leaves the second standing for a freed port |
| ContextSwitch.Machine.Create | kern/thread.c:72-82 | the eight words from which the first switch enters the trampoline with entry and argument in r15 and r14 |
| ContextSwitch.Machine.Switch | hal/x86_64/thread_switch.S:26-44 | the new thread goes on with its own context, the old one's six registers lie below its stack pointer, rbp first, and all other contexts are unchanged |
| ContextSwitch.Machine.AwayAndBack | hal/x86_64/thread_switch.S:26-44 | a thread switched away from and back to, after any run of other threads, has its callee-saved registers, stack pointer and return address |
| ContextSwitch.Machine.FirstRun | hal/x86_64/thread_switch.S:46-49 | the first switch to a thread enters its function with its argument, with the stack pointer 8 modulo 16 at the call |

## Left out

- Lifecycle.DestroyAddressSpace: the descriptor page, whose address the code computes from a physical pointer with the direct-map offset, stays allocated in the model.
- Teardown.TornDownIsTheTree: the kernel's own tables lie within the 4 GB the bitmap tracks.
- Boot.Start: the boot loader's page tables lie outside usable memory, and their upper half is a tree; the console, the descriptor tables and the clock set up around these calls are not modelled.
- VmMap.Map.Enter: alignment of the range is assumed, nothing in the repository calls vm_map_enter; an unaligned wired range would map a page that its entry covers only in part.
- Ownership.Spaces.Step: vm_map_remove is called on ranges that leave no stray mapping, and faults are at addresses whose walk meets no large page; `Ownership.Spaces.Run` skips calls whose callers do not promise that.
- IpcRun.Kernel.Run: a port is received from only by the thread that allocated it, the idle thread never receives, a port gets one name, and a name is not removed while a thread is inside a receive on its port; `IpcWait.Waits.Register`, `IpcWait.Waits.Pop` and `IpcMsg.Ipc.RemoveName` say exactly what goes wrong otherwise.
- Uninstall.Install: speaks of the sequence of device operations bios_install issues, for every such sequence; partition tables, GPT conversion and the choice of what to write are not modelled.
- ContextSwitch.Machine.Create: stands for the stack part of thread_create; the stack page and the thread structure come from the allocators modelled elsewhere.
- The kernel's own address space, the pmap_kernel shortcuts, CR3, invlpg and other processor state.
- Pmap.AddressSpace.Walk: lower-half addresses; the upper half belongs to the kernel and is shared.
- Pmap.AddressSpace.Map: lower-half addresses, likewise.
- Pmap.AddressSpace.Unmap: lower-half addresses, likewise.
- Pmap.AddressSpace.Protect: lower-half addresses, likewise.
- Pmap.AddressSpace.Query: addresses whose walk meets no large page; behind one the code reads the words of a data page as page-table entries, as `PageTable.LargePageTakenForTable` shows.
- VmFault.VmFault: faults at addresses whose walk meets no large page, likewise.
- Pmm.PageAllocator.Init: usable regions are disjoint and do not wrap, as the boot protocol promises, and the frame array spans the 4 GB the bitmap tracks, whether or not there is memory behind every frame.
- Zalloc.Zone.Free: of a live element, as every caller in the kernel does; likewise sched_dequeue of a queued thread and sched_unblock of one that is not.
- vm_map entries keep their fields in objects; only the element a map entry occupies in the zone, not the words inside it, is part of the store.  The zone element of the map itself and the table of 32 zones are left out.
- vm_map_page_range and the Mach-O loader, which map pages that no entry covers.
- Malloc, fopen and stdio are operations that succeed or fail; fread and fwrite of a block are whole-block operations with the damage described above.
- mach_msg, which is a send followed by a receive.
- Timer preemption (hal/x86_64/idt.c:150-156), thread_destroy, ipc_space_destroy, task lists and reference counts of threads.
- Threads, ports, spaces and kernel messages are objects whose allocation may fail, not slots of the zone model; `struct ipc_space` is larger than a page and could not be one.
- GUID table lookups, byte-order swaps, command-line handling, console, serial and video drivers.
