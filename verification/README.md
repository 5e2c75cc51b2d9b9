# HfO2 in Dafny

A verified model of the core of HfO2, the Rust hypervisor: stage-2 page tables over a page allocator,
the memory-sharing calls built on them, mailboxes and notifications, vCPU scheduling and locks, and the
boot data. Everything is stated for all inputs, all page-table shapes, all runs. The command for the whole
project is `dafny verify dfyconfig.toml`.

## How the parts fit

**Page tables.** `Geometry` is the address arithmetic, `Entries` a page table as a tree, with the meaning
of a tree (a map from addresses to attributes), the number of pages a change needs and what committing it
does. `PageTable` is the engine itself, working in place on table pages in memory; `Footprint`, `Layout`,
`Passes` and `Roots` relate memory to trees step by step. `Rollback`, `Undo` and `Defragment` are about
merging tables and about why an update can always be undone. `Stores` logs every store and invalidation and
replays them, `Breaks` is about break-before-make over whole updates, `Tlb` about what a TLB may hold.
`Attributes` reads attributes back, `Encoding` is the 64-bit descriptor format (section D5.3 of Arm DDI
0487) over the machine words of `Words`, `Lifecycle` creates and drops tables, and `Limits` and
`Scenarios` say exactly when the engine does less than its comments promise. `SList`, `Pool` and `MPool`
are the allocator.

**Ownership.** `Ownership` is the sharing protocol as interleaved steps of many CPUs, `Transitions` the
transition tables. `Transfer`, `Sharing` and `MailboxSetup` carry the calls out on real page tables, with
rollback, while other CPUs drain the allocator. `Refinement` shows that each half of a call (the sender's
update, the recipient's, the rollback) is a step of the protocol on real page tables while other calls are
under way, and `Calls` makes any sequence of calls on the tables of all VMs.

**Communication.** `Links` is the circular list of `list.rs`, `Mail` the mailbox and notification protocol
on values, `Mailboxes` the calls on intrusive lists. `Scheduling` runs vCPUs on pCPUs, `Interrupts`
keeps the virtual interrupts of a vCPU in 32-bit registers, `Locks` orders the VM locks.

**Boot.** `FdtFormat` and `Fdt` read device trees (sections 5.3 and 5.4 of the Devicetree Specification
v0.3), `FdtReserve` inserts memory reservations, `Boot` carves out the memory of secondary VMs and
`BootTables` moves it from the primary VM's page table to theirs. `Operation` is boot followed by calls.

## Conventions

- Addresses and sizes are unbounded naturals; sums of addresses are assumed not to overflow 64 bits. A page
  of the allocator is named by its frame number, and frame 0 is never free.
- A leaf keeps its raw attributes, `None` standing for the all-zero descriptor. All modes that are invalid
  and unowned mean the same ("unrelated", `Norm`), as the comment on the mode bits says.
- Preconditions are those of the code: an update does not begin beyond the address space; waited-for VM ids
  are below the number of wait entries; reading a device tree does not meet a word that is no token, or a
  property name outside the strings block, on which the code panics; boot memory lies inside the address
  space, below its very top.
- The results of steps outside the model (clearing memory through the hypervisor's own table, copying a
  kernel, what other CPUs allocate meanwhile) are parameters, so every statement holds for all of them.

Where code and documentation disagree, the model follows the code:

- An update that maps a range with valid attributes over a whole table does not return the table's pages
  (`Limits.UpdateLosesIff`, `Scenarios.BlockOverTable`).
- A table whose entries are all absent is not collapsed by defragmentation, except for last-level tables of
  equal descriptors that are not all zero (`Limits.EmptyTableCollapses`).
- Breaking a block that the updated range enters in the middle does not invalidate the start of the block
  (`Breaks.SpansInvalidatedIff`, `Scenarios.SecondPageOfBlock`). A TLB still agrees with the table when the update
  returns (`Roots.TlbAgrees`).
- A run that passed its abort test may still start after another vCPU of its VM has aborted
  (`Scheduling.RunMayOutliveAbort`), exactly if it had passed the test before (`Scheduling.RunAfterAbortIff`).
- A boot memory range that does not reach its last page boundary ends before it begins once its end is
  rounded down, and then looks almost endless; regions cut from it are not memory (`Boot.InsideIff`).

## Model

| member | source | states |
|---|---|---|
| `Geometry.SizeIsShift` | hfo2/src/mm.rs:189-191 | the recursive entry size is the power of two the code shifts to |
| `Geometry.IndexInTable` | hfo2/src/mm.rs:202-212 | in an aligned table, `index` is the position of an address's entry and `level_end` the end of the table |
| `Geometry.NextBlock` | hfo2/src/mm.rs:196-198 | from anywhere in an entry, the next block starts where the next entry does |
| `Geometry.ZipVisitsOverlap` | hfo2/src/mm.rs:534-561 | zipping entries with the block iterator visits exactly the overlapping entries, each with the first address of the range inside it |
| `Entries.SplitPreservesView` | hfo2/src/mm.rs:433-476 | splitting blocks into tables, at any depth, changes the meaning of no address |
| `Entries.CommitUpdates` | hfo2/src/mm.rs:601-670 | committing a prepared entry rewrites exactly the requested range and nothing else |
| `Entries.CommitWF` | hfo2/src/mm.rs:601-670 | committing keeps entries well formed: blocks only where allowed, full tables |
| `Rollback.DefragPreservesView` | hfo2/src/mm.rs:480-525 | merging subtables changes the meaning of no address |
| `Rollback.UndoNeedsWhatDefragFreed` | hfo2/src/mm.rs:480-525 | after merging, mapping a range again needs at most the pages that merging freed, if all its boundary tables existed |
| `Rollback.PreparedIsSolid` | hfo2/src/mm.rs:601-670 | a range prepared for attributes it does not have yet has all its boundary tables |
| `Rollback.CommitKeepsSolid` | hfo2/src/mm.rs:601-670 | committing this range or a disjoint one keeps the boundary tables |
| `Rollback.UniformNeedsNothing` | hfo2/src/mm.rs:624-631 | mapping a range that already has the attributes needs no page |
| `Layout.Populated` | hfo2/src/mm.rs:449-475 | linking a filled page in place of a leaf leaves memory spelling out the split tree, every page accounted for |
| `Layout.WholeTest` | hfo2/src/mm.rs:634-636 | the size and alignment test in the loop accepts exactly the entries that lie wholly in the range and may be blocks |
| `Roots.OutcomeView` | hfo2/src/mm.rs:914-937 | an update rewrites exactly the rounded, clamped range, or changes the meaning of no address |
| `Roots.RootPreparedLost` | hfo2/src/mm.rs:623-658 | the first pass splits only entries that the range crosses, so which pages the COMMIT pass will lose is already decided by the table before the update |
| `Breaks.LogReplays` | hfo2/src/mm.rs:914-937 | replaying an update's logged stores on the table before it gives the table after it |
| `Breaks.BreakBeforeMake` | hfo2/src/mm.rs:410-427 | no store of an update overwrites the descriptor that stands in its slot, if that is valid, by a valid one |
| `Breaks.InvalidatedBetween` | hfo2/src/mm.rs:419-426 | between breaking a valid descriptor and any later valid store to its slot, an entry's size is invalidated from where the update enters the slot |
| `Breaks.SpansInvalidatedIff` | hfo2/src/mm.rs:419-426 | the whole span of every broken and remade descriptor is invalidated in between, exactly unless the range begins strictly inside a valid leaf that has to be split and the pool is not empty |
| `Roots.TlbAgrees` | hfo2/src/mm.rs:914-937 | a TLB that may cache any valid translation at any step agrees with the table when a successful update returns |
| `Roots.TlbAgreesOnFailure` | hfo2/src/mm.rs:927-930 | and also when the update fails |
| `Scenarios.SecondPageOfBlock` | hfo2/src/mm.rs:419-426 | a concrete history: remapping the second page of a 2 MB block remakes the block's descriptor without invalidating its first page |
| `Undo.UndoNeedsNothing` | hfo2/src/hypervisor.rs:861-877 | mapping the old attributes back right after a successful map of a uniform range needs no page |
| `Undo.UndoAlwaysFits` | hfo2/src/hypervisor.rs:879-894 | after defragmentation it needs at most the pages that defragmentation freed |
| `Undo.OutcomeKeepsSolid` | hfo2/src/vm.rs:290-321 | updating one range keeps the boundary tables of every disjoint one, whether it succeeds or not |
| `Undo.RootDefragView` | hfo2/src/mm.rs:950-960 | defragmenting a whole page table changes the meaning of no address |
| `Limits.UpdateLosesIff` | hfo2/src/mm.rs:410-427 | an update loses pages exactly when it has the pages it needs and maps valid attributes over a table of the old tree that lies wholly inside the range |
| `Scenarios.BlockOverTable` | hfo2/src/mm.rs:410-427 | a concrete history: mapping a page and then the 2 MB block around it leaves the page's table neither free nor in use |
| `Limits.EmptyTableCollapses` | hfo2/src/mm.rs:483-505 | exactly which tables without present entries defragmentation collapses |
| `Attributes.GetAttrsCorrect` | hfo2/src/mm.rs:989-1010 | `get_attrs` returns attributes exactly when the rounded range is not empty, inside the address space, and has them everywhere |
| `Attributes.LevelAttrsCorrect` | hfo2/src/mm.rs:680-704 | the same for one table and everything below it |
| `Encoding.ModeRoundTrip` | src/arch/aarch64/mm.c:420-505 | mode to attribute bits and back loses only the device flag; the all-zero descriptor reads back as unrelated |
| `Encoding.AttrBitsInjective` | src/arch/aarch64/mm.c:420-473 | different attributes have different bits, which are never zero and stay inside the attribute mask |
| `Encoding.LeafBits` | src/arch/aarch64/mm.c:153-256 | a leaf descriptor is classified, and its address and attributes extracted, as the abstract leaf says at every level |
| `Encoding.TableFields` | src/arch/aarch64/mm.c:141-256 | a table descriptor is a present table, yields its address, and contributes no attributes to a merged block |
| `Encoding.SplitNoCarry` | hfo2/src/mm.rs:452-461 | adding a child's offset to the raw parent descriptor gives exactly the descriptor of the child's address and attributes |
| `Encoding.SplitAddress` | hfo2/src/mm.rs:452-461 | block address plus offset does not carry and fits the address field |
| `Encoding.ClassifiersAgree` | src/arch/aarch64/mm.c:126-212 | every test of the page-table engine on a descriptor gives the answer of the mask test on its 64 bits |
| `Encoding.DecodesOnce` | src/arch/aarch64/mm.c:126-252 | 64 bits stand for at most one descriptor at a level |
| `Encoding.MergeAddress` | hfo2/src/mm.rs:512-524 | the merged block built from child 0 is the block's own descriptor |
| `Encoding.SplitEncodes` | hfo2/src/mm.rs:452-461 | for an aligned block at levels 1 and 2, raw descriptor plus child offset, with the block's attribute bits, encodes the child's block at its own address |
| `Encoding.SplitTableEncodes` | hfo2/src/mm.rs:449-466 | the words written into a new table encode exactly the descriptors the engine fills it with |
| `Encoding.MergeEncodes` | hfo2/src/mm.rs:512-524 | child 0's address with the combined attributes encodes the merged block |
| `Encoding.EveryBlockEncodes` | src/arch/aarch64/mm.c:153-162 | every page-aligned 48-bit address has a block descriptor |
| `Encoding.EveryTableEncodes` | src/arch/aarch64/mm.c:141-146 | so has every page below 2^48 as a table, at every level that has tables |
| `SList.List.Push` | hfo2/src/slist.rs:147-149 | puts an element in front |
| `SList.List.Pop` | hfo2/src/slist.rs:151-160 | takes the first element, failing only on the empty list |
| `SList.List.PopIf` | hfo2/src/slist.rs:162-180 | unlinks the first element that satisfies the condition and leaves the rest in order |
| `Pool.Lists.Alloc` | hfo2/src/mpool.rs:94-114 | takes one free page, failing only when none is free |
| `Pool.Lists.AllocPages` | hfo2/src/mpool.rs:117-159 | takes contiguous, aligned pages out of the first chunk that fits, returns exactly the leftovers, and fails only when no chunk fits |
| `Pool.Lists.ReturnLeftovers` | hfo2/src/mpool.rs:144-156 | what remains before and after the pages taken becomes free again, and nothing else |
| `Pool.Lists.Free` | hfo2/src/mpool.rs:165-169 | the page joins the free set |
| `Pool.Lists.FreePages` | hfo2/src/mpool.rs:172-177 | all pages of a chunk join the free set |
| `Pool.Lists.MergeInto` | hfo2/src/mpool.rs:285-295 | moves every entry and chunk to another pool, which then has exactly the union |
| `Pool.StartIsRoundUp` | hfo2/src/mpool.rs:129-133 | the aligned start is the rounded-up chunk address |
| `MPool.MPool.New` | hfo2/src/mpool.rs:196-201 | an empty pool without fallback |
| `MPool.MPool.WithFallback` | hfo2/src/mpool.rs:218-222 | a pool with no pages of its own on top of a fallback |
| `MPool.MPool.Alloc` | hfo2/src/mpool.rs:226-236 | fails only when the whole fallback chain is empty, and uses the pool's own pages first |
| `MPool.MPool.AllocPages` | hfo2/src/mpool.rs:246-256 | fails only when no pool of the chain has a chunk that fits |
| `MPool.MPool.Free` | hfo2/src/mpool.rs:262-264 | a freed page stays with this pool |
| `MPool.MPool.FreePages` | hfo2/src/mpool.rs:273-275 | freed contiguous pages stay with this pool |
| `MPool.MPool.Drop` | hfo2/src/mpool.rs:278-302 | hands exactly the pool's free pages to the fallback |
| `PageTable.PageTable.New` | hfo2/src/mm.rs:827-843 | allocates contiguous, aligned root tables that map nothing, or fails with the pool unchanged exactly when there are none |
| `PageTable.PageTable.Drop` | hfo2/src/mm.rs:846-859 | returns every page of the table, subtables and roots, to the pool |
| `PageTable.PageTable.DropPte` | hfo2/src/mm.rs:399-403 | frees exactly the tables below a descriptor |
| `PageTable.PageTable.DropTable` | hfo2/src/mm.rs:777-785 | frees a table and everything below it |
| `PageTable.PageTable.DropKids` | hfo2/src/mm.rs:739-745 | frees everything below a table but keeps the table |
| `PageTable.PageTable.Replace` | hfo2/src/mm.rs:410-427 | overwrites one descriptor with break-before-make, logging each store it makes, and frees the old table unless both descriptors are valid |
| `PageTable.PageTable.NewTable` | hfo2/src/mm.rs:449-465 | fills a page with descriptors that mean the same as the one being split |
| `PageTable.PageTable.PopulateTable` | hfo2/src/mm.rs:433-476 | makes a descriptor point to an equivalent table, or fails with nothing changed only when the pool is empty |
| `PageTable.PageTable.IsEmpty` | hfo2/src/mm.rs:591-593 | true exactly if no entry is present |
| `PageTable.PageTable.MapWhole` | hfo2/src/mm.rs:633-648 | writes an entry that lies wholly in the range, on commit only |
| `PageTable.PageTable.MapEntry` | hfo2/src/mm.rs:623-667 | one turn of the loop: skip, write or descend; which pages move, which are lost, what the hardware sees |
| `PageTable.PageTable.MapBelow` | hfo2/src/mm.rs:650-666 | descends into a crossed entry, and drops its table again if unmapping has emptied it |
| `PageTable.PageTable.MapLevel` | hfo2/src/mm.rs:601-670 | one pass over a table: the first pass only splits what the range crosses and fails exactly for lack of pages, the COMMIT pass cannot fail |
| `PageTable.PageTable.MapRoot` | hfo2/src/mm.rs:891-910 | one pass over all root tables, with the same guarantees |
| `PageTable.PageTable.IdentityUpdate` | hfo2/src/mm.rs:914-937 | succeeds exactly when the pool has the pages it needs; new tree, conservation of pages, and the log of stores and invalidations |
| `PageTable.PageTable.MakeRequest` | hfo2/src/mm.rs:922-925 | rounds the range out to pages and clamps it to the address space |
| `PageTable.PageTable.IdentityMap` | hfo2/src/mm.rs:962-970 | the update for a mode |
| `PageTable.PageTable.Unmap` | hfo2/src/mm.rs:974-982 | the update that cuts every connection to the VM |
| `PageTable.PageTable.DefragPte` | hfo2/src/mm.rs:480-525 | merges the tables below a descriptor in place, frees their pages, and returns the common attributes |
| `PageTable.PageTable.MergePte` | hfo2/src/mm.rs:498-524 | replaces a table of equal leaves by that leaf, pointing where the first child pointed |
| `PageTable.PageTable.DefragKids` | hfo2/src/mm.rs:489-496 | merges below every entry of a table and reduces the results to a common one |
| `PageTable.PageTable.Defrag` | hfo2/src/mm.rs:950-960 | merges the whole page table; every page freed joins the pool's own pages |
| `PageTable.PageTable.GetMode` | hfo2/src/mm.rs:1016-1019 | the mode of a range, exactly when all of the range has the same attributes |
| `Ownership.StepKeepsInv` | hfo2/src/spci_architected_message.rs:335-393 | every step of every call keeps every page in a proper use, whatever other calls are under way |
| `Ownership.EveryPageHasOneUse` | hfo2/src/mm.rs:93-116 | in every run, a page no call works on is unrelated to all VMs, owned by one, shared with one borrower, lent to one, or a mailbox page |
| `Ownership.NoSecondOwner` | hfo2/src/mm.rs:93-116 | in every reachable state, even in the middle of transfers, a page has at most one owner and exclusive access is exclusive |
| `Ownership.NoThirdParty` | hfo2/src/mm.rs:93-116 | in every reachable state at most two VMs have access to a page |
| `Transitions.TablesMatchPurpose` | hfo2/src/spci_architected_message.rs:169-311 | the transition tables accept exactly the intended pairs of states and only make legal transfers; sender keeps its rights, recipient gets those asked for |
| `Transitions.RecipientNotChecked` | hfo2/src/hypervisor.rs:842-856 | the share call's own test does not look at the recipient when the sender is the exclusive owner |
| `Transfer.OutcomeMeaning` | hfo2/src/mm.rs:914-937 | an update rewrites the whole address space as asked or leaves its meaning alone |
| `Transfer.GiveBack` | hfo2/src/spci_architected_message.rs:381-390 | after defragmenting, writing the old attributes back always succeeds and restores the address space |
| `Transfer.GiveBackAtOnce` | hfo2/src/hypervisor.rs:866-877 | so does writing them back at once |
| `Sharing.CheckTransition` | hfo2/src/spci_architected_message.rs:205-311 | accepts exactly page-aligned ranges with one mode in each VM that the tables allow to move |
| `Sharing.Recover` | hfo2/src/spci_architected_message.rs:381-390 | the rollback's `unwrap` cannot fail even if other CPUs empty the fallback, and restores the sender |
| `Sharing.MoveRange` | hfo2/src/spci_architected_message.rs:365-393 | sender and recipient both change as planned, or neither changes |
| `Sharing.SpciShareMemory` | hfo2/src/spci_architected_message.rs:322-394 | donate, lend and relinquish are all-or-nothing over both address spaces; invalid exactly for unlawful requests |
| `Sharing.CheckShare` | hfo2/src/hypervisor.rs:809-856 | the share call goes on exactly for ranges and modes it allows |
| `Sharing.MoveCleared` | hfo2/src/hypervisor.rs:858-896 | the same with clearing the memory in between, which may fail and use up the local pool |
| `Sharing.ShareMemory` | hfo2/src/hypervisor.rs:788-897 | give, lend and share are all-or-nothing over both address spaces |
| `MailboxSetup.Vm.constructor` | hfo2/src/vm.rs:95-102 | no mailbox pages at first |
| `MailboxSetup.Vm.RestoreSend` | hfo2/src/vm.rs:298-315 | if the receive page cannot be taken, giving the send page back cannot fail |
| `MailboxSetup.Vm.RestoreBoth` | hfo2/src/vm.rs:298-330 | if the hypervisor's table cannot be updated, giving both pages back cannot fail |
| `MailboxSetup.Vm.ConfigurePages` | hfo2/src/vm.rs:273-334 | exactly the two pages change hands, or nothing changes |
| `MailboxSetup.Vm.Configure` | hfo2/src/vm.rs:342-393 | the mailbox is set up at most once, only with exclusively owned pages, all or nothing |
| `Refinement.CheckedGuards` | hfo2/src/spci_architected_message.rs:335-363 | what the calls check about two ranges is, for each page, the guard of the protocol's transfer |
| `Refinement.StageKeepsInv` | hfo2/src/spci_architected_message.rs:365-393 | the sender's update, the recipient's, the rollback, each half of a mailbox setup and a defragmentation each keep every page in a proper use, whatever other calls are in flight |
| `Refinement.StageAnywhere` | hfo2/src/spinlock.rs:52-60 | such a stage can be taken in the middle of any other calls that leave its VMs alone, with the same effect |
| `Refinement.TablesAgreeOnOwnership` | hfo2/src/mm.rs:93-116 | in every interleaving of such stages over real page tables, from exclusive ownership on, the tables of all VMs agree on one use of each page that no call is working on |
| `Refinement.TablesNeverOwnTwice` | hfo2/src/mm.rs:93-116 | and even in the middle of calls no page has two owners, and exclusive access is exclusive |
| `Calls.ShareMessage` | hfo2/src/spci_architected_message.rs:322-394 | made on the tables of all VMs while others are in flight: exactly a lawful request is carried out, on two tables and no other, or no table changes its meaning; the call is a run of protocol stages; no page table shares a page with another or with the pool, before or after |
| `Calls.ShareOld` | hfo2/src/hypervisor.rs:788-897 | the same for the older call |
| `Calls.SetUpMailbox` | hfo2/src/vm.rs:342-393 | the same for mailbox setup |
| `Calls.MakeAll` | hfo2/src/hypervisor.rs:788-897 | any sequence of the three calls is one run of protocol stages and keeps all page tables apart from each other and from the pool |
| `Links.Lists.Init` | hfo2/src/list.rs:41-44 | a node becomes a ring of its own |
| `Links.Lists.Append` | hfo2/src/list.rs:47-53 | a free entry goes to the end of a ring; every other ring is as before |
| `Links.Lists.Empty` | hfo2/src/list.rs:65-67 | true exactly for the head of an empty list or an entry in no list |
| `Links.Lists.Remove` | hfo2/src/list.rs:70-74 | an entry leaves its ring, which keeps its order, and becomes free |
| `Links.Lists.PopFront` | hfo2/src/list.rs:77-81 | the first entry leaves the ring |
| `Mail.ExactlyOnce` | hfo2/src/hypervisor.rs:554-572 | in every interleaving of sends, receives, resumptions and clears, the messages read are a prefix of those sent, with at most one outstanding |
| `Mail.NotOverwritten` | hfo2/src/hypervisor.rs:483-506 | a delivered message stays in the buffer until the mailbox is cleared |
| `Mail.UnreadStays` | hfo2/src/hypervisor.rs:670-681 | a message nobody tries to read stays as it is, whatever is sent or cleared meanwhile |
| `Mail.ReadIffTried` | hfo2/src/hypervisor.rs:579-623 | in every run a delivered message is read exactly if its receiver ever tries, and until then the mailbox does not become free |
| `Mail.NeverLost` | hfo2/src/hypervisor.rs:631-658 | in every run a VM that has registered stays due to be told until it is told |
| `Mail.NeverDuplicated` | hfo2/src/hypervisor.rs:631-658 | in every run a VM is told at most as often as it has registered |
| `Mail.NoteKeeps` | hfo2/src/vm.rs:405-449 | every step keeps each VM in each list at most once and every registration accounted for |
| `Mailboxes.Mailboxes.constructor` | hfo2/src/vm.rs:224-239 | all mailboxes empty, all lists empty, all wait entries free |
| `Mailboxes.Mailboxes.WaitFor` | hfo2/src/vm.rs:437-449 | registers a waiter at the end of the list unless it is there already |
| `Mailboxes.Mailboxes.FetchWaiter` | hfo2/src/vm.rs:106-121 | a registration leaves the waiter list only while the mailbox is writable, first come first served |
| `Mailboxes.Mailboxes.EnqueueReady` | hfo2/src/hypervisor.rs:649-655 | a fetched entry is in the ready list afterwards, once |
| `Mailboxes.Mailboxes.WritableGet` | hfo2/src/vm.rs:405-416 | returns the id of the VM waited for, in order |
| `Mailboxes.Mailboxes.WaiterGet` | hfo2/src/hypervisor.rs:638-658 | for the primary only: moves the first waiter of a writable mailbox to its ready list and names it |
| `Mailboxes.Mailboxes.Send` | hfo2/src/hypervisor.rs:434-572 | delivers exactly to a free, configured mailbox; otherwise busy, with a registration if asked for |
| `Mailboxes.Mailboxes.TryToRead` | hfo2/src/vm.rs:130-137 | marks a received message read and hands it out, once |
| `Mailboxes.Mailboxes.Recv` | hfo2/src/hypervisor.rs:579-623 | the result of receiving, and when the vCPU blocks |
| `Mailboxes.Mailboxes.ClearMailbox` | hfo2/src/hypervisor.rs:670-681 | frees a read mailbox, refuses an unread one, and reports waiters |
| `Mailboxes.Mailboxes.SetConfigured` | hfo2/src/hypervisor.rs:399-427 | a mailbox becomes usable, and waiters are reported |
| `Mailboxes.Mailboxes.WaiterResult` | hfo2/src/hypervisor.rs:367-389 | 1 or a switch to the primary exactly when there are waiters |
| `Scheduling.OnePCpu` | hfo2/src/hypervisor.rs:240-314 | in every reachable state a vCPU is worked on by at most one pCPU, and its lock is held exactly while one does |
| `Scheduling.ReturnsToOwnPrimary` | hfo2/src/hypervisor.rs:64-102 | the primary vCPU that control returns to is that of the pCPU that executed the secondary |
| `Scheduling.AbortedForever` | hfo2/src/hypervisor.rs:161-176 | the aborted state is never left, nor is the decision to abort a VM |
| `Scheduling.NoNewCheck` | hfo2/src/hypervisor.rs:255-268 | once a VM is aborting, no pCPU passes the test for any of its vCPUs |
| `Scheduling.RunAfterAbortIff` | hfo2/src/hypervisor.rs:255-313 | from a reachable state of an aborting VM, a pCPU can still begin to execute a vCPU of it exactly if it has already passed the test for it |
| `Scheduling.RunMayOutliveAbort` | hfo2/src/hypervisor.rs:255-313 | a concrete run in which a vCPU that had passed the abort flag before the abort starts after it |
| `Interrupts.TrailingZeros` | hfo2/src/cpu.rs:194 | the position of the lowest bit of a non-zero 32-bit word |
| `Interrupts.FieldTests` | hfo2/src/cpu.rs:141-166 | the masked tests on a pair of 32-bit registers say whether an id is in both sets, or in one and not the other |
| `Interrupts.SetId` | hfo2/src/cpu.rs:131-170 | setting or clearing a mask in its register adds or removes exactly one id |
| `Interrupts.Interrupts.Inject` | hfo2/src/cpu.rs:126-153 | makes an interrupt pending; reports Ok exactly when the enabled and pending set becomes non-empty |
| `Interrupts.Interrupts.Enable` | hfo2/src/cpu.rs:156-174 | enables or disables an interrupt; the count stays the size of the enabled and pending set |
| `Interrupts.Interrupts.Get` | hfo2/src/cpu.rs:188-204 | takes exactly the smallest enabled and pending interrupt |
| `Interrupts.Interrupts.InterruptedIff` | hfo2/src/cpu.rs:179-183 | the count is positive exactly if some interrupt is enabled and pending |
| `Locks.NoDeadlock` | hfo2/src/spinlock.rs:52-60 | in every reachable state no cycle of pCPUs waits for VM locks, given that callers reject the reflexive case |
| `Locks.ReflexiveBlocks` | hfo2/src/spinlock.rs:52-60 | taking the same lock twice makes a pCPU wait for itself |
| `FdtFormat.BodyHere` | hfo2/src/fdt.rs:160-289 | every tree, written with any number of NOPs before any token, is found again in the bytes |
| `Fdt.RoundTrip` | hfo2/src/fdt.rs:160-289 | written bytes can be read as the written tree and as no other |
| `Fdt.OneTree` | hfo2/src/fdt.rs:160-289 | the bytes of a node determine its properties, children and end |
| `Fdt.Tokenizer.Bytes` | hfo2/src/fdt.rs:173-183 | takes the bytes and skips to the next word, or nothing if there are too few |
| `Fdt.Tokenizer.U32` | hfo2/src/fdt.rs:185-188 | the next big-endian word |
| `Fdt.Tokenizer.Token` | hfo2/src/fdt.rs:190-199 | the next token that is not a NOP |
| `Fdt.Tokenizer.TokenExpect` | hfo2/src/fdt.rs:201-219 | takes the expected token, or stops right in front of another one |
| `Fdt.Tokenizer.Str` | hfo2/src/fdt.rs:221-229 | takes a string up to its NUL, and the padding |
| `Fdt.Tokenizer.NextProperty` | hfo2/src/fdt.rs:236-252 | on any bytes: the next property if there is one; one that does not fit ends the reading |
| `Fdt.Tokenizer.NextSubnode` | hfo2/src/fdt.rs:254-263 | on any bytes: the name of the next child if there is one; one without end ends the reading |
| `Fdt.Tokenizer.SkipProperties` | hfo2/src/fdt.rs:265-267 | on any bytes on which the code does not panic: ends, never moves back, and stops where the properties do |
| `Fdt.Tokenizer.SkipNode` | hfo2/src/fdt.rs:269-288 | on any such bytes: ends, never moves back, and either succeeds or gives up at the end of the data |
| `Fdt.NodeSkipped` | hfo2/src/fdt.rs:269-288 | in a well-formed node it succeeds just past the matching end token, at any nesting |
| `Fdt.Node.ReadProperty` | hfo2/src/fdt.rs:322-331 | on any such bytes: the first property found under that name, or none |
| `Fdt.PropertyOf` | hfo2/src/fdt.rs:322-331 | in a well-formed node: the value of the first property of that name, if any |
| `Fdt.Node.FirstChild` | hfo2/src/fdt.rs:333-342 | on any such bytes: moves to the child found after the properties, or stays |
| `Fdt.FirstChildOf` | hfo2/src/fdt.rs:333-342 | in a well-formed node: its first child, if any |
| `Fdt.Node.NextSibling` | hfo2/src/fdt.rs:344-352 | on any such bytes: moves to the node found after this one, or stays, also if this one cannot be skipped |
| `Fdt.NextSiblingOf` | hfo2/src/fdt.rs:344-352 | in a well-formed node: its next sibling, if any |
| `Fdt.Node.FindChild` | hfo2/src/fdt.rs:354-368 | on any such bytes: moves to the first child found with the name, or stays |
| `Fdt.FindChildOf` | hfo2/src/fdt.rs:354-368 | in a well-formed node: succeeds exactly if a child has the name, with the first such child |
| `FdtReserve.MoveUp` | hfo2/src/fdt.rs:451-455 | overlapping bytes move up unharmed |
| `FdtReserve.UpdateHeader` | hfo2/src/fdt.rs:444-449 | total size and both block offsets grow by one entry, all else stays |
| `FdtReserve.AddMemReservation` | hfo2/src/fdt.rs:436-459 | structure and strings blocks are byte-identical at their new offsets and the entry comes first in the list |
| `FdtReserve.AddAll` | hfo2/src/fdt_handler.rs:376-395 | the same for any number of insertions |
| `Boot.CarveOut` | hfo2/src/load.rs:144-162 | cuts the size off the end of the first range whose wrapping length is large enough, failing exactly if there is none |
| `Boot.CutInsideIff` | hfo2/src/load.rs:151-157 | what is cut off lies inside its range exactly if the range does not end before it begins |
| `Boot.InsideIff` | hfo2/src/load.rs:224-264 | whatever the manifest, all regions lie inside the boot memory exactly if every range reaches its last page boundary |
| `Boot.RangeInsidePage` | hfo2/src/load.rs:224-264 | a concrete range inside one page from which a VM gets a page that is not memory |
| `Boot.UpdateReserved` | hfo2/src/load.rs:169-201 | adds exactly the differences, failing exactly if they are too many |
| `Boot.GapsAre` | hfo2/src/load.rs:176-198 | the differences contain exactly the bytes taken away |
| `Boot.FindRoom` | hfo2/src/load.rs:246-264 | a VM gets memory exactly if it has a kernel that fits and a range has room |
| `Boot.RoomCarves` | hfo2/src/load.rs:252-264 | from ranges that reach their last page boundary, that memory is page-aligned, of the rounded size and disjoint from all other regions |
| `Boot.ReservedExactly` | hfo2/src/load.rs:321-330 | reserved ranges cover every carved byte and no byte that is left |
| `Boot.InsideMemory` | hfo2/src/load.rs:144-162 | all regions lie inside the memory found at boot |
| `BootTables.Deny` | hfo2/src/load.rs:273-283 | the primary VM's table loses exactly the region, or keeps its meaning |
| `BootTables.Create` | hfo2/src/load.rs:285-305 | a new table maps exactly the region, or nothing; no table shares a page with another or with the pool |
| `BootTables.Assign` | hfo2/src/load.rs:266-305 | a region goes from the primary VM to the new one as far as each step succeeds, keeping ownership exclusive throughout |
| `BootTables.LoadSecondary` | hfo2/src/load.rs:205-331 | whatever the ranges: the regions are those of the plan in order, "too many reserved ranges" cannot happen, page tables stay apart; from ranges that reach their last page boundary and do not overlap, regions are disjoint parts of memory and every page has at most one, exclusive, owner over all real tables |
| `BootTables.FromBootOn` | hfo2/src/load.rs:205-331 | from boot on, at every point of every interleaving of sharing calls and mailbox setups, no page has two owners and all tables agree on one use of each page no call is working on |
| `Operation.FleetIsTeam` | hfo2/src/load.rs:285-305 | the tables boot leaves behind, with the pool, are ready for calls: no page belongs to two of them |
| `Operation.BootAndServe` | hfo2/src/load.rs:205-331 | boot followed by any calls: page tables and pool stay apart to the end, and from orderly memory the whole is a run from exclusive ownership on |

## Left out

- Stage 1: its attribute encoding, and the hypervisor's own page table; `clear_memory` and `configure_stage1` appear as steps that take pages of the local pool and may fail.
- The fake architecture's shifted descriptor encoding.
- TLB instructions, barriers, cache maintenance, timers, registers and context switching; invalidations are logged events.
- Freed pages coming back to the fallback from other CPUs while a sharing call runs; they only take pages.
- Memory contents: clearing, copying payloads of architected messages, message headers beyond source, target and payload; parsing a memory-sharing message and comparing its length with its region count.
- PSCI calls, turning CPUs on and off, page-fault handling, injecting interrupts across VMs, logging and debug output.
- `Fdt.Tokenizer.SkipNode`: not stated for bytes on which the code panics; nor are the other walkers.
- `BootTables.LoadSecondary`: memory lies inside the primary VM's address space; loading ends where a region wraps around the top of the address space, which cannot happen if all ranges reach their last page boundary and do not overlap; finding and copying kernels are represented by their results.
- `Calls.MakeAll`: calls made one after the other; calls of other CPUs in between are in `Refinement`'s interleavings of stages, not in the method.
- The boot parameter, manifest, archive and device-tree lookup code above the tokenizer, and the C entry points.
- Liveness: that a notified VM is eventually run, or that a spinning CPU eventually gets its lock.
