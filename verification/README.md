# QTRACE core models

QTRACE is QEMU 1.7.1 with tracing added. This project models, in Dafny, the hand-written index, cache, allocator and
protocol cores of the emulator, and proves what each of them promises over all inputs, all runs or all interleavings.
`dafny verify dfyconfig.toml` checks everything.

| file | models |
|---|---|
| `PhysMap.dfy` | the radix tree from page numbers to sections (exec.c) |
| `Dispatch.dfy` | building the dispatch table from sections, subpages, lookup and translation (exec.c) |
| `CopyOnRead.dfy` | tracked requests and copy-on-read as a protocol between coroutines (block.c) |
| `MultiWrite.dfy` | merging a batch of writes, and reporting its completion (block.c, util/iov.c) |
| `ByteIo.dfy` | byte-granular I/O over sectors (block.c) |
| `BackingChain.dfy` | allocation lookup along a backing chain (block.c) |
| `MigrationStream.dfy` | the RAM section of the migration stream, byte by byte, and its receiver (arch_init.c) |
| `RamMigration.dfy` | the sender: dirty bitmap, counter, scan, whole migrations (arch_init.c) |
| `SoftTlb.dfy` | the software TLB with its large-page region (cputlb.c) |
| `KvmSlots.dfy` | KVM memory slots (kvm-all.c) |
| `MemoryMapping.dfy`, `GuestDump.dfy` | block and mapping lists, and the layout of guest dumps (memory_mapping.c, dump.c) |
| `AioLog.dfy`, `BottomHalves.dfy`, `FdHandlers.dfy` | re-entrant walks with deferred freeing (async.c, aio-posix.c) |
| `RamBlocks.dfy` | the RAM block allocator and its lookup cache (exec.c) |
| `Icount.dfy` | instruction budgets (cpus.c, cpu-exec.c) |
| `GdbPackets.dfy` | GDB packet framing, encodings and chunked transfer (gdbstub.c) |
| `Arith.dfy`, `Options.dfy`, `Bytes.dfy` | shared facts about products and quotients, and shared types |

Conventions. Where the source aborts for want of a resource, a method returns `ok == false` (or `None`), and its contract
says exactly or boundedly when. Object state that the source updates in place is a class; each method is proved against a
value-level specification. Constants such as the number of levels, page sizes, table sizes and slot counts stay symbolic.

Four promises turn out not to hold of the code on all inputs, and each is settled in both directions:

- `ram_save_block` drops the mark of a dirty page in one state: when the bulk scan stands on the last page of the last block,
  that block has more than one page, that page is marked again and no other page is. `RamSave.SaveBlock` states this state
  exactly (`Dropped`). `Migrate` carries it to whole migrations: the receiver ends equal to the source if and only if a small
  reference, which is a function of the inputs (`Predicted`), does not lose the last page or has its contents anyway. No page
  is lost if the guest does not write that page (`UnwrittenKept`) or once the bulk stage is over (`Run`); `DroppedPage` is a
  migration that loses one.
- `multiwrite_merge` loses data when a request that is joined to its predecessors ends before one of them does and no later
  request covers the rest. `MultiwriteExact` shows that it is right for all contents of a batch if and only if no address is
  lost in this way, `ThirdSectorLost` is the smallest example, and `OrderedEnds` the condition that is easy to check.
- An answer of "not allocated" from `bdrv_is_allocated_above` does not mean that the guest reads the base's data in all the
  sectors that it is for. The first one does read as the base has it; a later one does so unless an image above the base ends
  before it, and then reads as zero. `IsAllocatedAbove` states both, and `ShortMiddle` runs into the second case: three
  images, an answer of 0 for two sectors, and a second sector that reads differently.
- `kvm_set_phys_mem` does not handle all whole pages of a section. It ignores a section, whatever pages it has, unless its
  start and its size leave the same rest in a page. `IntentIs` shows that otherwise the range is that of all whole pages, and
  that nothing else is ignored but kinds of memory without slots; `WholePageIgnored` is an example for pages of any even size.

## Model

| member | source | states |
|---|---|---|
| PhysMap.PhysPageMap.Reserve | exec.c:143-150 | after a reservation the node array has room for that many more nodes; when it grows, it at least doubles |
| PhysMap.PhysPageMap.NewNode | exec.c:152-186 | a new node for an entry that has none: the table means the same afterwards, and the assertion on the node number fails only when 16-bit numbers run out |
| PhysMap.PhysPageMap.NodeBehind | exec.c:167-186 | an entry gets a node if it has none, and otherwise keeps its own; the table means the same afterwards |
| PhysMap.PhysPageMap.SetLevel | exec.c:167-200 | one level of the recursive setter: writes exactly the part of the range under this entry, moves the in/out cursor past it, changes no other page and no other entry, and uses at most `Need` nodes |
| PhysMap.PhysPageMap.FillNode | exec.c:187-199 | the loop over one node's entries, with the cursor tied to the entry pointer |
| PhysMap.PhysPageMap.Set | exec.c:202-210 | the flat page map with the range overwritten; at most 2 * P_L2_LEVELS - 1 new nodes, so the reservation of 3 * P_L2_LEVELS always suffices |
| PhysMap.PhysPageMap.Find | exec.c:212-227 | the walk returns the flat map's entry for the page |
| PhysMap.Run | exec.c:143-227 | after any run of calls from the empty map whose ranges fit and enter no leaf above level 0, every page leads to the section last written over it, or to the unassigned one |
| PhysMap.ReplayIsLastLeaf | exec.c:202-210 | replaying writes on the flat map gives, for each page, the last write that covers it |
| Dispatch.AddressSpaceDispatch.SectionAdd | exec.c:769-786 | sections get consecutive numbers, and the assertion fails exactly when the table is as large as a page |
| Dispatch.AddressSpaceDispatch.constructor | exec.c:1656-1674 | the four dummy sections and an empty map, in which nobody owns an address |
| Dispatch.AddressSpaceDispatch.SubpageRegister | exec.c:1587-1605 | exactly the byte range of the subpage is given to the section; -1 exactly for ranges outside the page |
| Dispatch.AddressSpaceDispatch.NewSubpage | exec.c:809-831 | an unassigned page is given to a new subpage, in which every byte is unassigned; no other page changes |
| Dispatch.AddressSpaceDispatch.SubpageAt | exec.c:809-831 | a page with an unowned byte is unassigned or has a subpage, so the assertion holds, and gets its subpage |
| Dispatch.AddressSpaceDispatch.RegisterSubpage | exec.c:809-836 | the bytes of the section within the page change hands, and no others |
| Dispatch.AddressSpaceDispatch.RegisterMultipage | exec.c:839-849 | whole unowned pages change hands, and no others |
| Dispatch.AddressSpaceDispatch.MemAdd | exec.c:851-882 | head, whole pages and tail together give every byte of the section, and no other, to it, with at most 5 sections and 3 runs of the setter |
| Dispatch.AddressSpaceDispatch.Translate | exec.c:235-267 | the covering section's region and addr - section start + region offset; unassigned for an uncovered address |
| Dispatch.Build | exec.c:851-882 | for any list of disjoint non-empty sections, in any order: every address resolves to its covering section, or to unassigned; bounds on when the tables overflow |
| Dispatch.Lookup | exec.c:250-267 | from any disjoint list of sections, an address leads to the region of the section that covers it, at that section's offset plus the distance from its start, or to the unassigned region |
| CopyOnRead.OverlapIsCommonCluster | block.c:2007-2036 | testing a tracked range against one's own rounded range is the same as asking for a common cluster, for empty ranges too |
| CopyOnRead.BlockDevice.FindOverlap | block.c:2057-2070 | the search finds an overlapping tracked request, never oneself, or there is none |
| CopyOnRead.BlockDevice.Begin | block.c:1986-2002 | a request that shares no cluster where it must not becomes tracked, and the invariant is kept |
| CopyOnRead.BlockDevice.Enter | block.c:2038-2072 | one pass of the wait loop: wait for an overlapping tracked request, or become tracked in the same step |
| CopyOnRead.BlockDevice.Start | block.c:2629-2645 | a new request is counted if it copies on read, and then waits or is tracked |
| CopyOnRead.BlockDevice.Decide | block.c:2647-2662 | a plain read if all sectors are allocated and reported at once, else a copy of whole clusters |
| CopyOnRead.BlockDevice.ReadSector | block.c:2567-2580 | a sector as the guest sees it goes into the buffer |
| CopyOnRead.BlockDevice.WriteSector | block.c:2582-2600 | a write by the guest changes that sector; the write of a copy changes nothing the guest sees |
| CopyOnRead.BlockDevice.Leave | block.c:1977-1981 | the request leaves the list and the counter, and exactly its waiters are woken |
| CopyOnRead.BlockDevice.End | block.c:2602-2609 | a read of either kind returns its own range, each sector as it read it; for copy-on-read that is what the guest sees at that moment, and the range is allocated; a write request has written all its sectors |
| CopyOnRead.BlockDevice.Step | block.c:2545-2699 | every step of every request keeps the invariant, lowers the rank, changes what the guest sees only if it is the guest's own write, and moves its request on and no other, but for waking waiters |
| CopyOnRead.BlockDevice.Progress | block.c:2055-2071 | no deadlock: while a request has not ended, some request has a next step other than failing; with the falling rank, every run comes to an end |
| CopyOnRead.Exclusive | block.c:2046-2053 | no other tracked request touches a cluster that a tracked copy-on-read request touches |
| CopyOnRead.Run | block.c:2545-2809 | for every schedule the guest sees its own writes, in order, and nothing else; each sector that a read of either kind returns is what the guest saw there at some moment between its start and its end, and each write of a request falls between its start and its end; a write that ends well has written each of its sectors with its own data, and what a copy-on-read that ends well covers stays allocated |
| CopyOnRead.SeenUndisturbed | block.c:2545-2699 | a sector that is not written while a read is under way is returned as it was when the read started |
| CopyOnRead.ReadAfterWrite | block.c:2545-2809 | a read that starts after a write has ended returns what was written, if nothing else is written there from the start of the write to the end of the read |
| MultiWrite.Concat | util/iov.c:305-343 | the parts that hold the first bytes of the source are appended |
| MultiWrite.FlatJoin | block.c:3658-3676 | the vector built for a joined request holds the first request's bytes up to the second one, then all of the second |
| MultiWrite.MergeRequests | block.c:3634-3688 | in place, the requests left stand for the merged writes of the sorted batch |
| MultiWrite.MergedByte | block.c:3644-3685 | joined requests hand each address to the last of them that starts at or before it |
| MultiWrite.MergeExact | block.c:3644-3685 | merging is right for all contents of these addresses and lengths if and only if no address is lost |
| MultiWrite.JoinsByShape | block.c:3646-3656 | which requests are joined depends on addresses, lengths and vector shapes alone |
| MultiWrite.JoinsWhenTouching | block.c:3646-3656 | a request is joined exactly if it starts no later than the one before it ends and the vectors together are short enough |
| MultiWrite.MultiwriteExact | block.c:3634-3688 | the same for requests with their vectors and the limit IOV_MAX |
| MultiWrite.OrderedEnds | block.c:3634-3688 | a sorted batch in which no request ends before an earlier one, such as any without overlaps, is merged rightly |
| MultiWrite.ThirdSectorLost | block.c:3664-3667 | an example: the third sector of the first request is never written |
| MultiWrite.MultiwriteCallbacks.UserCallbacks | block.c:3583-3594 | each callback is called once, with the error |
| MultiWrite.MultiwriteCallbacks.Completed | block.c:3596-3611 | the first error is kept, and callbacks are called exactly on the last completion |
| MultiWrite.CompleteAll | block.c:3583-3611 | for every order of completion each callback is called once, after the last completion, with the first error |
| MultiWrite.FirstErrorIs | block.c:3602-3604 | the error kept is the first negative result, or 0 if there is none |
| ByteIo.Device.Pread | block.c:2406-2449 | exactly the addressed bytes, or an error; without failing transfers an error only beyond the end |
| ByteIo.Device.Pwritev | block.c:2451-2506 | on success exactly the addressed bytes change; on error no other byte changes, and each of these is old or new |
| ByteIo.Device.ChangeSector | block.c:2465-2471 | read, modify, write of one sector changes just the part |
| ByteIo.WriteThenRead | block.c:2406-2506 | reading back what has been written is the identity, for every offset and length |
| BackingChain.IsAllocated | block.c:3130-3253 | for one image: 1 exactly if the sector is its own or lies past its backing file, and the same holds of all pnum sectors; 0 only if none of them is its own; negative exactly on the driver's errors; pnum is the whole run of sectors of one kind, as far as the driver looks and the image goes |
| BackingChain.IsAllocatedAbove | block.c:3255-3304 | an error or an answer of 1 is that of the first image above the base that fails or provides the sector, with its error or its whole run of sectors; 0 only if no image does, and all pnum sectors are absent from every image above the base; then the first reads as the base has it, and each of them does so or, if an image above the base ends before it, reads as zero; the end of an image below the top does not cut pnum short |
| BackingChain.AbsentReads | block.c:3255-3304 | what the guest reads of a sector that is absent above the base: the base's data, or zero if an image in between ends before it |
| BackingChain.UnprovidedReads | block.c:3267-3304 | a sector that no image above the base provides reads as the base has it, for every chain |
| BackingChain.ShortMiddle | block.c:3267-3304 | an example: for a chain with a short image in the middle the answer is 0 for two sectors, and the second does not read as the base has it |
| MigrationStream.BeRoundTrip | arch_init.c:255-270 | a 64-bit big-endian number is read back as it was written |
| MigrationStream.BeDigits | arch_init.c:255-270 | the most significant byte comes first |
| MigrationStream.PageRoundTrip | arch_init.c:255-270 | one page record, with or without the same-block flag and in zero-page or full form, is stored where it came from, provided both sides agree on the previous block |
| MigrationStream.PageExact | arch_init.c:815-961 | what a receiver with any blocks makes of a page record: an error if it has no block of that name, if the record is for the same block as before and there was none, or if the page lies outside; otherwise exactly that page of its own block changes |
| MigrationStream.RamLoad | arch_init.c:856-961 | the receive loop stores what its specification says and fails exactly when that does; `SetupExact`, `PageExact` and `LoadCut` say when that is |
| MigrationStream.RunRoundTrip | arch_init.c:815-961 | any run of page records is stored in order |
| MigrationStream.SectionRoundTrip | arch_init.c:815-961 | a whole section is accepted, consumed to its end, and leaves both sides agreeing on the last block |
| MigrationStream.SetupExact | arch_init.c:870-915 | a receiver with any blocks accepts the block list if and only if it has, for each of the sender's blocks, one of that name, and the first of that name has the same length |
| MigrationStream.LoadCut | arch_init.c:856-961 | for every stream: cut short anywhere it is an error, and what is made of a section does not depend on what follows |
| MigrationStream.SetupAccepted | arch_init.c:642-655 | a receiver with the same blocks accepts the block list, and is not changed by it |
| RamMigration.RamSave.SetDirty | arch_init.c:362-374 | the bit is set, the old value returned, and the counter still counts the set bits |
| RamMigration.RamSave.Sync | arch_init.c:378-409 | the log of every block moves into the bitmap, nothing is forgotten, and nothing outside the blocks changes |
| RamMigration.RamSave.FindAndReset | arch_init.c:339-360 | the next dirty page, or the next page in the bulk stage, which is always dirty; it is unmarked and the counter keeps up |
| RamMigration.BulkFinds | arch_init.c:339-360 | in the bulk stage the scan finds the next page, or the first page of a block again if it is marked again |
| RamMigration.RamSave.Scanning | arch_init.c:451-482 | the round-robin scan terminates and finds the dirty page that comes first from the cursor on, unless none is left or the one is dropped |
| RamMigration.RamSave.SaveBlock | arch_init.c:451-533 | the dirty page that comes first from the cursor on, going round, is sent and unmarked; nothing is sent only if no RAM page is dirty afterwards; a mark is dropped in exactly one state; the counter equals the number of set bits; each page stays equal at the destination, marked in the log, or marked in the bitmap |
| RamMigration.RamSave.SaveNext | arch_init.c:451-533 | what gets lost, and what the receiver then has of it, is what the reference says, in every state |
| RamMigration.RamSave.Iterate | arch_init.c:660-727 | a section of page records and its end mark, with guest writes at any point between the pages; as many pages as asked for, or all that are marked; what gets lost is what the reference says |
| RamMigration.RamSave.SendAll | arch_init.c:738-750 | the last loop terminates with nothing marked; what gets lost is what the reference loses with its first page |
| RamMigration.RamSave.Complete | arch_init.c:729-757 | it terminates, and afterwards every RAM page that is not lost is equal on both sides; what is lost is what the reference says, for any log |
| RamMigration.Run | arch_init.c:451-757 | from any state with the receiver in step, after any interleaving of guest writes, also within sections, syncs and sections, and completion: the receiver accepts everything and ends equal to the source, but for the last page exactly if the reference loses it; after the bulk stage nothing is lost |
| RamMigration.Migrate | arch_init.c:609-757 | for a whole migration from setup: the receiver ends equal to the source if and only if the reference, computed from the inputs, does not lose the last page or has its contents anyway; it does so in particular if the guest never writes that page |
| RamMigration.UnwrittenKept | arch_init.c:451-533 | a migration in which the last page of the last block is not written loses nothing |
| RamMigration.DroppedPage | arch_init.c:339-360 | an example from setup to completion: a two-page guest writes its second page after both have been sent; the receiver accepts everything and ends with the old contents |
| SoftTlb.CpuTlb.Flush | cputlb.c:55-80 | every entry is empty and serves no address; no large page is remembered, and the region is reset |
| SoftTlb.CpuTlb.FlushSmall | cputlb.c:82-92 | exactly the entries that serve the page are emptied, in every MMU mode, although only one slot of each is looked at |
| SoftTlb.CpuTlb.FlushPage | cputlb.c:94-124 | afterwards no entry in any MMU mode serves any part of a guest page, small or large, that holds the address; everything is emptied exactly if the flush region holds the address, and otherwise exactly what serves its page, with all large pages still remembered |
| SoftTlb.CpuTlb.AddLargePage | cputlb.c:215-234 | the region grows to cover the new large page and keeps covering every earlier one |
| SoftTlb.WidenMask | cputlb.c:228-231 | the widening loop terminates with the least mask, from the given one on, under which both addresses agree |
| SoftTlb.GrownIsLeast | cputlb.c:215-234 | the new region is the least one that takes in the page and the region before; without one it is the page |
| SoftTlb.NewEntrySlow | cputlb.c:275-306 | the fast path is exactly for RAM and ROM reads without watchpoints, writes to writable RAM that is dirty already, and code in RAM and ROM; exactly writes to clean RAM are marked for dirty tracking |
| SoftTlb.NextSlot | cputlb.c:281 | pages that follow each other have slots that follow each other, going round |
| SoftTlb.CpuTlb.SetPage | cputlb.c:239-310 | the slot serves exactly that page for the accesses allowed, with the slow-path flags the memory calls for; no other slot changes |
| SoftTlb.Step | cputlb.c:55-310 | in any state in which each serving slot comes from a guest page that is small or remembered, any operation keeps that, and afterwards no slot serves any part of a guest page that it flushes; each slot and the flush region become what the reference says |
| SoftTlb.Run | cputlb.c:55-310 | after any run from an empty TLB each slot holds what a reference, computed from the operations alone, says; a slot that serves an address holds the entry that a call of tlb_set_page made for its page, and since that call there has been no full flush, no flush of any address of its guest page, small or large, and no other call for the slot |
| SoftTlb.Stays | cputlb.c:55-310 | in the reference an entry stays until its slot is filled again, everything is flushed, or an address is flushed that it serves or that lies in the flush region of that moment |
| KvmSlots.KvmState.AllocSlot | kvm-all.c:124-136 | a free slot, and none exactly if all are used |
| KvmSlots.KvmState.LookupOverlapping | kvm-all.c:159-181 | the overlapping slot that starts lowest, or none overlaps |
| KvmSlots.DeltaIsLeast | kvm-all.c:646 | the least number of bytes that makes the size a multiple of the page size |
| KvmSlots.IntentIs | kvm-all.c:637-667 | for every section: ignored exactly if its kind has no slots, it has no whole page, or its start and size leave different rests in a page; otherwise mapped if added and RAM or a ROM device in ROMD mode, and unmapped if not; the range is all whole pages of the section, with its guest-to-host distance |
| KvmSlots.AlignedIntent | kvm-all.c:637-667 | a section of whole pages is handled as it is |
| KvmSlots.WholePageIgnored | kvm-all.c:646-655 | an example: one and a half pages of RAM from a page boundary on are ignored |
| KvmSlots.KvmState.Carve | kvm-all.c:684-766 | the overlapping slot gives up exactly the range; its prefix and suffix keep their translations |
| KvmSlots.KvmState.SetPhysMem | kvm-all.c:630-788 | it terminates, slots stay apart, and the address map is the old one with exactly the range overwritten or erased; two free slots always suffice, and nothing is done if one slot maps the range already |
| KvmSlots.Run | kvm-all.c:630-788 | after any run of calls on an empty array the address map is what the last call on each address wrote, and two slots for each call always suffice |
| MemoryMapping.GuestPhysBlockList.RegionAdd | memory_mapping.c:196-257 | exactly the section's memory is added; blocks stay ascending and apart, and no two neighbours could be joined |
| MemoryMapping.GuestPhysBlockList.Append | memory_mapping.c:259-267 | the list covers exactly the RAM sections of a flat view, at their host addresses |
| MemoryMapping.MemoryMappingList.Add | memory_mapping.c:24-52 | one mapping is inserted, and the list stays sorted |
| MemoryMapping.MemoryMappingList.Filter | memory_mapping.c:326-351 | exactly the filter's range stays mapped, at the same virtual addresses, and the list stays sorted |
| MemoryMapping.SimpleMapping | memory_mapping.c:315-324 | one mapping for each block; exactly the addresses of the blocks are mapped, at virtual address 0 |
| GuestDump.GetOffsetRange | dump.c:420-479 | the place in the file that the sizes of the dumped parts of earlier blocks give, clamped to the block, or none exactly if the address is not dumped |
| GuestDump.OffsetsAgree | dump.c:420-479 | a header made from that place points at the guest memory it describes, in the file that the writer produces |
| GuestDump.DumpState.WriteMemory | dump.c:394-417 | pages and the rest are written as one piece |
| GuestDump.DumpState.GetStartBlock | dump.c:689-715 | the first block with something to dump, and none exactly if the filter leaves nothing |
| GuestDump.DumpState.GetNextBlock | dump.c:615-640 | the next block with something to dump, and where in it to start |
| GuestDump.DumpState.Iterate | dump.c:643-670 | exactly the dumped parts of all blocks, in order |
| GuestDump.DumpState.Layout | dump.c:789-829 | one header for each mapping up to the 32-bit limit, and where memory starts |
| GuestDump.DumpState.WriteLoads | dump.c:481-517 | exactly that many headers are written, each with the place of its mapping |
| GuestDump.DumpState.Begin | dump.c:520-606 | what is written before memory is as long as the layout said |
| GuestDump.DumpState.Create | dump.c:672-687 | every program header's file range is exactly the guest memory that it describes; it fails exactly if the filter leaves nothing |
| GuestDump.DumpSimple | dump.c:672-687 | a dump without paging is complete: every byte that the filter lets through is in the file, and a program header says where |
| AioLog.NeverAgain | async.c:60-146 | in a log that is in order, nobody is invoked after being deleted, and nobody is freed twice |
| AioLog.ServedInvoked | async.c:60-104 | whoever was due at the start of a walk, and has not been withdrawn or deleted in it, has been invoked in it |
| BottomHalves.AioContext.New | async.c:43-57 | a new bottom half goes to the head, and the rest of the list stays |
| BottomHalves.AioContext.Schedule | async.c:106-129 | it becomes due unless it already was, and the log says so |
| BottomHalves.AioContext.Cancel | async.c:134-137 | it is no longer due |
| BottomHalves.AioContext.Delete | async.c:142-146 | it is marked, and no longer due |
| BottomHalves.AioContext.Sweep | async.c:87-101 | with no walk under way, exactly the deleted ones are unlinked and freed; the others keep their flags |
| BottomHalves.AioContext.Visit | async.c:68-83 | a bottom half that is due is invoked, in the state in which its schedule has been taken back and nothing else has changed, and what its callback does then happens; for one that is not due nothing happens; the list that is being walked stays intact |
| BottomHalves.OncePerSchedule | async.c:60-129 | in every run the last that happened to a bottom half before it is invoked is that it was scheduled: one invocation for each schedule |
| BottomHalves.SparedInvoked | async.c:60-104 | with the turns of a walk and the causes of withdrawals, a bottom half that was due and is spared is invoked |
| BottomHalves.AioContext.Walk | async.c:64-83 | everybody has a turn, which begins with the invocation or is empty; whoever was due at the start is invoked in its turn unless invoked, withdrawn or deleted before it; progress is reported exactly if some turn invoked one that was not scheduled only on idle |
| BottomHalves.AioContext.Poll | async.c:60-104 | the same for the whole call; whoever was due at the start and is not cancelled or deleted by a callback, at any depth, is invoked in it; nested calls free nothing; the outermost leaves no deleted one behind |
| BottomHalves.AioContext.RunOps | async.c:43-146 | any run of operations, polling again from callbacks at any depth, does each of them in order, keeps the log in order and touches no freed bottom half; nobody is withdrawn or deleted unless the run cancels or deletes it at some depth |
| FdHandlers.AioContext.Find | aio-posix.c:32-43 | the handler of the descriptor that is not deleted, if there is one |
| FdHandlers.AioContext.SetHandler | aio-posix.c:45-93 | the new state: a new handler at the head, the old one with other callbacks and the same pending conditions, or the old one marked as deleted while a walk is under way and removed otherwise; it is withdrawn exactly if it was due and is so no longer |
| FdHandlers.SetMeans | aio-posix.c:45-93 | afterwards the descriptor has exactly the handler asked for, or none, and handlers of other descriptors stay |
| FdHandlers.AioContext.Take | aio-posix.c:132-143 | the conditions are taken, and a handler that is due, and no other, is invoked |
| FdHandlers.AioContext.Visit | aio-posix.c:138-156 | a handler that is due is invoked, in the state in which its conditions have been taken and nothing else has changed; for one that is not due only that happens; the callback for writing follows that for reading exactly if it is due and that one has left the handler with it and not deleted, in particular if callbacks do not touch the descriptor |
| FdHandlers.AioContext.Turn | aio-posix.c:132-167 | the turn begins with the invocation exactly if the handler is due; the walk goes on to the right next handler, and a deleted one is freed only by the outermost walk, after it has been left |
| FdHandlers.AioContext.Dispatch | aio-posix.c:122-173 | whoever was due at the start is invoked in its turn, unless before it it has been invoked, deleted, or registered or polled anew so as not to be due; whoever's descriptor no callback touches, at any depth, is invoked |
| FdHandlers.UntouchedInvoked | aio-posix.c:122-173 | with the turns of a walk and the descriptors touched, a handler that was due and is not touched is invoked |
| FdHandlers.AioContext.RunOps | aio-posix.c:45-173 | any run of operations, dispatching again from callbacks and timers at any depth, does each of them in order, keeps the log in order and touches no freed handler; only handlers of descriptors that the run names are withdrawn, deleted or changed in more than their conditions |
| RamBlocks.FoundIsHas | exec.c:655-660 | the unsigned range test is the range test, for blocks within the address space |
| RamBlocks.PageAlignedIs | exec.c:1125 | sizes are rounded up to the next multiple of the page size |
| RamBlocks.GapIsFreeBehind | exec.c:1024-1032 | the gap behind a block is the free space there: no block has any of it, and behind it a block starts or the address space ends |
| RamBlocks.RamList.FindRamOffset | exec.c:1013-1046 | the end of the first block with the smallest gap that is large enough; none exactly if no gap is |
| RamBlocks.RamList.Alloc | exec.c:1120-1198 | the new block goes into that gap, apart from all others, and into the list so that it stays sorted, and the cache is emptied; it aborts exactly for size 0 or for want of a gap |
| RamBlocks.RamList.Free | exec.c:1223-1252 | the block at that offset leaves, if there is one, and the cache is emptied |
| RamBlocks.RamList.GetRamBlock | exec.c:649-670 | the one block that has the address, whether or not the cache hits; none exactly if no block has it; the cache then holds it |
| RamBlocks.Act | exec.c:649-1252 | each operation does what it says to the list, an allocation by best fit, or aborts, and exactly when it aborts |
| RamBlocks.Run | exec.c:649-1252 | in every run of allocations, frees and lookups each step does what it says until one aborts, every allocation going to the first of the smallest gaps that it fits into; blocks stay apart and sorted all the way, and every lookup returns a block that has the address |
| Icount.RoundIsLeast | cpus.c:305-308 | the least number of instructions whose time reaches the deadline; it overshoots by less than one instruction's time |
| Icount.CpuState.Clock | cpus.c:135-149 | virtual time is the time of the instructions executed |
| Icount.CpuState.Grant | cpus.c:1231-1253 | the budget is that number for the deadline, or for INT32_MAX if there is none or it is later, split so that the decrementer fits 16 bits |
| Icount.CpuState.RunBlock | include/exec/gen-icount.h:29-35 | a block runs whole and is counted, or does not start; it does not start when an interrupt is flagged |
| Icount.CpuState.HandleExpired | cpu-exec.c:687-713 | a refill moves budget without changing it; otherwise the instructions that are left are run, as many as fit into one block, or none for an interrupt |
| Icount.CpuState.Finish | cpus.c:1259-1266 | what has not been run is taken back, so that the counter is the number of instructions executed |
| Icount.Next | cpu-exec.c:674-713 | one block or interrupt: what is run is taken off the budget; a block is run whole exactly if it fits into the budget and no interrupt is flagged, after a refill if need be, and otherwise the loop is left, after what is left of the budget, as far as it fits into one block, has been run |
| Icount.Course | cpu-exec.c:669-713 | for every course of events: blocks that fit into the budget are all run, through as many refills as it takes; after an interrupt none is, and the next one ends the loop |
| Icount.Slice | cpus.c:1230-1267 | for every course of blocks and interrupts: no more than the budget is run, all of it is counted, and virtual time passes the deadline by less than one instruction; blocks that fit into the budget are all run, and none after an interrupt |
| GdbPackets.MemToHex | gdbstub.c:417-428 | two digits for each byte |
| GdbPackets.HexToMem | gdbstub.c:430-438 | it undoes memtohex |
| GdbPackets.PutPacketBinary | gdbstub.c:441-473 | the frame with its checksum, within last_packet |
| GdbPackets.SumIsPlainSum | gdbstub.c:451-457 | the checksum is the sum of the bytes modulo 256, although char is signed |
| GdbPackets.GdbState.ReadByte | gdbstub.c:1335-1409 | acknowledgements and retransmission while a response is awaited; otherwise one step of the line state machine, whose index stays within the buffer |
| GdbPackets.GdbState.Receive | gdbstub.c:1367-1408 | any payload without '#' of at most 4095 bytes, framed and read byte by byte, is handled intact and acknowledged |
| GdbPackets.EscapedIsClean | gdbstub.c:486-504 | escaped data has no '#', '$' or '*', and is at most twice as long |
| GdbPackets.FlipIs | gdbstub.c:493-498 | the escape inverts bit 5 and keeps all others |
| GdbPackets.EscapeRoundTrip | gdbstub.c:486-504 | escaped data decodes to what it was |
| GdbPackets.ReadFeatures | gdbstub.c:1144-1167 | each chunk decodes to its part of the document, fits a packet, and says truly whether it is the last |
| GdbPackets.FetchFeatures | gdbstub.c:1144-1167 | chunks of any sizes together are the document |

## Left out

- XBZRLE, RDMA hooks and changes of the RAM list during a migration: the encoder and page cache are not part of this model, and list changes restart the scan.
- RamLoad: the error codes of `ram_load` are one.
- The receiver's checks: a page outside its block or outside memory counts as an error in `HostFrom` and `LoadPage`, where the source relies on the sender.
- SaveBlock: the XBZRLE and RDMA branches of `ram_save_block` are not modelled.
- Iterate: the rate limit and the 50 ms limit of `ram_save_iterate` are one choice of how many pages a section has; a guest write falls before or after the reading of a page, never into it.
- Translate: the length `plen` is not modelled, nor are IOMMU regions; addresses lie below the limit of the page table.
- SetPage: the I/O TLB entry and the assertion on the translated size are left out.
- SoftTlb: power-of-two masks are represented by their exponents; victim entries, the I/O TLB and code-dirty tracking are left out.
- SetPhysMem: the join-slots workaround for older kernels, slot flags, dirty-log ioctls and failing ioctls are left out.
- MultiWrite: `qsort` is not modelled; the batch is taken as it leaves it, so requests with equal start may come in either order. Freeing of merged vectors and the no-medium path are left out.
- Concat: only from the start of the source vector (`soffset` 0), as `multiwrite_merge` calls it.
- ByteIo: a vector stands for its bytes, whatever its parts.
- Pwritev: a growable device, which a write past the end extends, is not modelled.
- IsAllocated: pass-through formats (BDRV_BLOCK_RAW) and the extra zero information taken from the protocol layer are left out; `bdrv_getlength` and `total_sectors` are taken to agree.
- CopyOnRead: throttling, zero-writes, flushes, dirty bitmaps and reads beyond the end of a growable device are left out; drivers transfer sector by sector in any order, and may fail at any point.
- GuestDump: contents of ELF headers and notes, byte order, and the cut of 32-bit header fields are left out; notes are taken to be note_size bytes. `mapping_merge` and page-table walks are left out, so mapping lists with paging are arbitrary lists.
- RunBlock: exceptions inside a block, which return the instructions not executed, are left out.
- Slice: adaptive shifts (`icount_adjust`, `icount_warp_rt`) are left out.
- ReadByte: `gdb_handle_packet` is taken to end in the idle state.
- Receive: `gdb_handle_packet` is taken to end in the idle state; system-call states are left out.
- FdHandlers: what `aio_dispatch` returns, and which of a handler's two callbacks an event in the log stands for, are left out; locks and memory barriers are left out throughout.
- RamBlocks: host memory, dirty flags and Xen paths of allocation are left out.
- Integer widths: addresses and sizes are unbounded except where stated (ram_addr_t wrap-around in `RamBlocks`, 16-bit node numbers in `PhysMap`, the 64-bit words of the migration stream, the 16-bit decrementer).
