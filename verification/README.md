# DuskOS in Dafny

A model of the parts of the DuskOS microkernel that have to be right for anything else to be: page tables over
physical frames, the frame allocator, capability system calls, the scheduler with its mailboxes, kernel stacks, and
the loading of the first programs. The model follows the code branch by branch; what the code changes in place is a
class with updated fields, what it computes is a function.

The layers, from the bottom up:

- **Frames.** `FrameBitmap.FrameAllocator` packs two bits per frame and refines `Frames.Pool`, one state per frame and a
  search hint. Everything above is stated over that value. `FrameBitmap.BuildAndOperate` is any run of an allocator
  from the memory map on: allocations, returns and reclaiming in any order, each of them done.
- **Page tables.** `PageTables.Machine` holds memory as decoded table entries. Its invariant says that memory is a forest
  (`Forest.Tree`) of tables, each in a frame of its own, and that a flat view (`Forest.View`) says exactly which frame
  and permissions each page has. `map`, `unmap`, creating and destroying address spaces are each proved to change the
  flat view by one step; `Walks.ReadsSeeView` says that the reads see the flat view and nothing else. `WordTables` shows
  that memory of 64-bit words, decoded word by word, takes the same writes and gives the same reads. `RawEntries` says
  what `map` and `unmap` do to every single entry. Both paging modes, 4-level and 5-level, are covered throughout.
- **Address spaces and stacks.** Ranges and stacks are all or nothing, and each failure has its cause; `Budgets` counts
  exactly how many frames a list of pages takes. Live kernel stacks stand in different slots, and nothing else is mapped
  in their region.
- **Scheduling.** `Sched.Step` is the scheduler and its mailboxes as a state machine of atomic steps, justified because
  system calls are not interrupted and tasks change only at a switch. `Scheduler.RunQueue` is the code over a ring
  buffer; each of its operations is one step, and the page table and kernel stack in use are the current task's.
  `SchedRuns` has the theorems about all runs.
- **System calls.** `Kernel.Kernel` composes all of this. `Inv` is one inductive invariant; every system call keeps it,
  and every `panic!`, `expect`, `unwrap`, `assert!` and `unreachable!` on the modelled paths is an assertion that holds
  or a precondition that is met. `Calls.Answered` says for each call what it does, as a relation between the moment
  before and the moment after. `Serving` is any sequence of calls, and of stores by the tasks' own code between them:
  each is answered in turn, and the theorems about runs apply. `KernelTheorems` says what `Inv` means for memory.
- **Loading and booting.** Two ELF parsers and two loaders, proved to agree, and the search in a cpio archive. `Booting`
  starts from memory in which no table exists: the kernel's own space, its stacks, the reclaiming of boot memory, and
  the first task with archive, stack and executable. It says when that succeeds, establishes `Inv`, and `BootAndServe`
  joins it to `Serving`.

`dafny verify dfyconfig.toml` checks the project.

What is assumed of the environment, as preconditions: tracked memory regions do not overlap; all frames lie below the
highest address an entry can hold and can be reached through the direct map; the kernel's own ranges include its image
at the linked address, whose page stays mapped in the root entry that also serves the kernel stacks (so the entry copied
into every user root never changes), and stay clear of the stack region; the archive lies in frames that the allocator
never hands out and that are not reclaimed.

Three places where the code does less than one might expect, and the model follows the code; each time the exact
condition is proved:

- A kernel stack that cannot be built leaves the lowest clear slot marked as taken (`KernelStackPool.Allocate`). No call
  clears a slot that was marked before it (`Calls.SlotsFill`), so that once all 64 are taken no task can be created any
  more, however many frames are free (`Calls.NoTaskAgain`).
- A failed task creation leaves frames, pages and handles as they were exactly unless its arguments were right, a stack
  could be had, and the task table was full; then the new stack stays, and nothing else does. It leaves the slots as
  they were exactly when its arguments were wrong, all slots were taken, or only the caller's handle table was full
  (`Kernel.Kernel.SysTaskCreate`).
- `unmap` leaves the user bit on links that survive it. After `map` and `unmap` of a page, pages, tables, frames and
  effective permissions are as before, and the raw entries are so exactly when the page was no user page or every link
  on its way was user-accessible already, which the deepest one decides (`PagingTheorems.MapThenUnmap`).

## Model

| member | source | states |
|---|---|---|
| `Frames.FindFree` | src/memory/frame.rs:241-248 | whatever the hint, a frame is found exactly when one is free |
| `Frames.GiveUndoesTake` | src/memory/frame.rs:278-327 | giving back a frame just taken restores every frame's state |
| `FrameBitmap.PackedUpdate` | src/memory/frame.rs:78-105 | writing two bits of a byte keeps the other three positions |
| `FrameBitmap.RangeIsWholeFrames` | src/memory/frame.rs:329-345 | a frame is in a region's range exactly when all its bytes are in the region |
| `FrameBitmap.FrameAllocator.State` | src/memory/frame.rs:78-91 | the unpacked state of one frame |
| `FrameBitmap.FrameAllocator.SetState` | src/memory/frame.rs:93-105 | exactly one frame's state changes in the packed bitmap |
| `FrameBitmap.FrameAllocator.FindFreeFrom` | src/memory/frame.rs:241-243 | the first free frame of a range, none if there is none |
| `FrameBitmap.FrameAllocator.FindFreeFrame` | src/memory/frame.rs:245-248 | the search over the packed bitmap is `Frames.FindFree` |
| `FrameBitmap.FrameAllocator.AllocNozero` | src/memory/frame.rs:278-290 | refines taking a frame of the pool, counters included; never a frame that holds the bitmap |
| `FrameBitmap.FrameAllocator.Dealloc` | src/memory/frame.rs:313-327 | refines giving a frame back; the hint only moves down |
| `FrameBitmap.FrameAllocator.constructor` | src/memory/frame.rs:184-195 | a zeroed bitmap reserves every frame |
| `FrameBitmap.FrameAllocator.Release` | src/memory/frame.rs:197-213 | frees a usable range except the frames of the bitmap, and counts what it frees |
| `FrameBitmap.FrameAllocator.ReclaimFrame` | src/memory/frame.rs:264-273 | a reserved frame becomes free, any other keeps its state; the counters stay right |
| `FrameBitmap.FrameAllocator.ReclaimRange` | src/memory/frame.rs:264-273 | reclaiming frees exactly the reserved frames of a range |
| `FrameBitmap.FrameAllocator.ReclaimRegions` | src/memory/frame.rs:250-276 | reclaiming, repeated or not, never frees an allocated frame; other kinds are ignored |
| `FrameBitmap.HighestFrame` | src/memory/frame.rs:130-145 | the frame count is the highest end of a tracked region, or the exact error |
| `FrameBitmap.FindStorage` | src/memory/frame.rs:153-177 | the first usable region with room for the bitmap, or none has room |
| `FrameBitmap.BitmapFits` | src/memory/frame.rs:147-151 | the bitmap's size never overflows |
| `FrameBitmap.NewAllocator` | src/memory/frame.rs:126-222 | a new allocator in which exactly the whole usable frames outside the bitmap are free, counters agree, and each error exactly when its cause holds |
| `FrameBitmap.StoreNotReclaimed` | src/memory/frame.rs:250-276 | where regions do not overlap, reclaiming never reaches the frames of the bitmap |
| `FrameBitmap.Operate` | src/memory/frame.rs:250-327 | in any run of allocations, returns and reclaiming every operation does what it should to the state left by the one before, and no frame is handed out while it is held, nor ever one of the bitmap |
| `FrameBitmap.BuildAndOperate` | src/memory/frame.rs:126-327 | the same from the memory map on, assuming only that regions do not overlap; at first exactly the whole usable frames outside the bitmap are free |
| `Addresses.IndexIsDigit` | src/arch/x86_64/paging.rs:88-98 | each table index is one base-512 digit of the page number |
| `Addresses.IndicesAreInjective` | src/arch/x86_64/paging.rs:88-98 | canonical pages that agree on all indices are the same page |
| `Addresses.PageDeterminesAddress` | src/arch/x86_64/paging.rs:338-343 | a canonical page address is determined by its translated bits |
| `Entries.NewEntryDecodes` | src/arch/x86_64/paging.rs:118-171 | a leaf word decodes to the frame, permissions and flags it was made from |
| `Entries.NewTableDecodes` | src/arch/x86_64/paging.rs:173-188 | a table word decodes to a writable, executable link |
| `Entries.UpgradeDecodes` | src/arch/x86_64/paging.rs:452-463 | setting the user bit changes only the decoded user permission |
| `Entries.ZeroDecodes` | src/arch/x86_64/paging.rs:190-200 | a zeroed word is the null entry |
| `Entries.AddressBitsGiveLimit` | src/arch/x86_64/paging.rs:36-42 | 12 to 52 address bits give a limit for which encoding works |
| `WordTables.WriteDecodes` | src/arch/x86_64/paging.rs:118-200 | writing a word for an entry, setting a user bit, zeroing a table or copying an upper half, as words, is writing the same entries |
| `WordTables.WritesDecode` | src/arch/x86_64/paging.rs:452-628 | the same for any sequence of writes |
| `WordTables.LeafWritable` | src/arch/x86_64/paging.rs:118-171 | the words the code makes for leaves are such writes |
| `WordTables.LinkWritable` | src/arch/x86_64/paging.rs:173-188 | so are the words it makes for links |
| `WordTables.ToPhysical` | src/arch/x86_64/paging.rs:345-376 | a walk over words finds what the decoded memory says |
| `Forest.LinkTable` | src/arch/x86_64/paging.rs:573-618 | linking an empty private table keeps the forest and changes no page |
| `Forest.UpgradeLink` | src/arch/x86_64/paging.rs:452-463 | making a link user-accessible changes no page and no permission of a page |
| `Forest.SetLeaf` | src/arch/x86_64/paging.rs:542-555 | writing a last-level entry changes exactly one page |
| `Forest.UnlinkTable` | src/arch/x86_64/paging.rs:674-695 | removing a table without tables below it keeps the forest |
| `Walks.SameDomain` | src/arch/x86_64/paging.rs:345-426 | in any memory an address translates exactly when it has permissions |
| `Walks.ReadsSeeView` | src/arch/x86_64/paging.rs:345-426 | the reads see the mapped frame and the leaf's own permissions, whatever the links above say |
| `Grafts.OccupiedBelow` | src/arch/x86_64/paging.rs:669-701 | with no empty table, every table leads to a mapped page |
| `Grafts.SameMapsSameTables` | src/arch/x86_64/paging.rs:669-701 | the tables are determined by the roots and the pages |
| `PageTables.NewKernelTable` | src/arch/x86_64/paging.rs:296-314 | a new kernel root is a well-formed forest; each error exactly when its cause holds |
| `PageTables.Machine.Alloc` | src/memory/frame.rs:292-307 | a taken frame is zeroed; none only when none is free |
| `PageTables.Machine.ToPhysical` | src/arch/x86_64/paging.rs:345-376 | the walk computes the translation, large pages included |
| `PageTables.Machine.Mapping` | src/arch/x86_64/paging.rs:382-426 | the walk computes the effective permissions |
| `PageTables.Machine.FindMissing` | src/arch/x86_64/paging.rs:496-540 | stops at the first missing table and remembers the links to upgrade; a large page or an invalid entry is never met |
| `PageTables.Machine.AllocTables` | src/arch/x86_64/paging.rs:557-613 | allocates exactly the missing tables, or gives every one back |
| `PageTables.Machine.Map` | src/arch/x86_64/paging.rs:465-628 | one more page with the given frame and permissions and exactly the missing tables, or nothing changes; each error has its cause, and three of them none |
| `PageTables.Machine.ApplyUpgrades` | src/arch/x86_64/paging.rs:452-463 | sets the user bit of the remembered links and nothing else |
| `PageTables.Machine.FillTables` | src/arch/x86_64/paging.rs:573-595 | each private table gets its one entry |
| `PageTables.Machine.Commit` | src/arch/x86_64/paging.rs:573-623 | filling, upgrading and publishing adds the page and its tables to the forest |
| `PageTables.Machine.FindTables` | src/arch/x86_64/paging.rs:649-658 | the tables on the way to a page, or the page is not mapped; no other error is possible |
| `PageTables.Machine.Prune` | src/arch/x86_64/paging.rs:669-701 | unlinks exactly the tables that became empty; none is left empty |
| `PageTables.Machine.Unmap` | src/arch/x86_64/paging.rs:635-704 | one page less, its frame returned, emptied tables freed; each error has its cause, and three of them none |
| `PageTables.Machine.AllocFrame` | src/memory/frame.rs:292-307 | taking a frame for something else leaves the forest alone |
| `PageTables.Machine.FreeFrame` | src/memory/frame.rs:313-327 | giving back a frame that is no table leaves the forest alone |
| `PageTables.Machine.Reclaim` | src/memory/frame.rs:250-276 | exactly the reserved ones of the given frames become free, and no table is among them |
| `PageTables.Machine.NewUser` | src/memory/address_space.rs:292-301 | a new root with an empty lower half and the caller's upper half, or nothing changes |
| `PageTables.Machine.DropChild` | src/arch/x86_64/paging.rs:742-766 | one entry's subtree is freed, each table once |
| `PageTables.Machine.DestroyChildren` | src/arch/x86_64/paging.rs:742-766 | all tables below a table are freed, and nothing of other spaces |
| `PageTables.Machine.DestroyUser` | src/arch/x86_64/paging.rs:776-798 | frees exactly the tables of a space that is not loaded, each once, and no page it maps; other spaces keep their tables and pages |
| `PagingTheorems.UnmapUndoesMap` | src/arch/x86_64/paging.rs:465-704 | `unmap` after `map` restores every page, every table and every frame's state |
| `PagingTheorems.MapThenUnmap` | src/arch/x86_64/paging.rs:465-704 | every raw entry of every table is restored exactly when the page was no user page or the links on its way were user-accessible already |
| `RawEntries.RawRestored` | src/arch/x86_64/paging.rs:452-704 | the same of what `map` and `unmap` do to single entries |
| `RawEntries.DeepestDecides` | src/arch/x86_64/paging.rs:452-463 | all links on the way to a page are user-accessible exactly when the deepest one is |
| `PagingTheorems.MapChangesOnePage` | src/arch/x86_64/paging.rs:465-628 | after `map` one page reads as given and every other address of every space as before |
| `PagingTheorems.UnmapChangesOnePage` | src/arch/x86_64/paging.rs:635-704 | after `unmap` one page does not translate and every other address reads as before |
| `PagingTheorems.DestroyKeepsOthers` | src/arch/x86_64/paging.rs:776-798 | destroying a user space changes no translation of any other space |
| `PagingTheorems.UpperHalfIsKernel` | src/arch/x86_64/paging.rs:706-715 | every space translates the upper half as the kernel does |
| `AddressSpaces.Map` | src/memory/address_space.rs:303-339 | a user space maps only user pages below the end of user space; otherwise as the page table, with the kernel's half still shared |
| `AddressSpaces.Unmap` | src/memory/address_space.rs:420-430 | succeeds exactly for a mapped, aligned page of the space and returns its frame |
| `AddressSpaces.MapRange` | src/memory/address_space.rs:341-414 | maps every page of a range as specified, leaving exactly the frames left over, or restores all pages, tables and frames and has a cause; in a user space every page then reads as given, or every address as before |
| `AddressSpaces.RangeSeen` | src/memory/address_space.rs:341-414 | page i of a mapped range reads as the i-th frame with the given permissions |
| `AddressSpaces.SameViewReads` | src/memory/address_space.rs:385-408 | with the pages restored, every address of every space reads as before |
| `Budgets.MarginKept` | src/arch/x86_64/paging.rs:557-571 | mapping a page takes exactly the frames it was counted for |
| `Budgets.NeedBound` | src/arch/x86_64/paging.rs:557-571 | no list of pages takes more than all its tables and its own frames |
| `AddressSpaces.RollBack` | src/memory/address_space.rs:385-408 | undoing a partly mapped range never fails and restores everything, the shared half included |
| `Sessions.TearUndoes` | src/memory/stack.rs:107-143 | tearing down all that was added leaves what was there before |
| `Stacks.Allocate` | src/memory/stack.rs:37-105 | a stack of any size on frames of its own below an unmapped guard page, leaving exactly the frames left over, or nothing and a cause |
| `Stacks.Abandon` | src/memory/stack.rs:107-122 | rolling back a partly built stack restores pages, tables and frames |
| `Stacks.UnmapPages` | src/memory/stack.rs:128-143 | destroying a stack unmaps each page and frees each frame; no `expect` fires |
| `Stacks.GuardStaysClear` | src/memory/stack.rs:48-62 | building a stack maps nothing at its guard page |
| `StackPool.SlotsDisjoint` | src/memory/stack.rs:12-14 | guard and stack pages of different slots are all different |
| `StackPool.SlotOfTop` | src/memory/stack.rs:240-242 | the slot computed when freeing is the slot allocated |
| `StackPool.KernelStackPool.Allocate` | src/memory/stack.rs:222-238 | a stack in the lowest clear slot, the others untouched; a failure has one of three causes and changes only the bit of the slot |
| `StackPool.MarkedSame` | src/memory/stack.rs:222-238 | marking the lowest clear slot changes nothing exactly when all are taken |
| `StackPool.ClearSlot` | src/memory/stack.rs:222-238 | neither guard nor page of a slot without a live stack is mapped |
| `StackPool.KernelStackPool.Free` | src/memory/stack.rs:240-248 | the stack's pages and frames go, its bit is cleared, the others stand |
| `StackPool.OtherStackStands` | src/memory/stack.rs:222-238 | building a stack leaves standing stacks and their guards |
| `StackPool.OtherStackSurvives` | src/memory/stack.rs:240-248 | destroying a stack leaves the others standing |
| `UserAccess.PermissionsPerPage` | src/memory/user.rs:23-40 | all bytes of a page have the permissions of its first |
| `UserAccess.ValidateUserRange` | src/memory/user.rs:8-43 | succeeds exactly when the range is in bounds and every byte of it is on a page the user may access |
| `Rings.Ring.PushBack` | src/task/scheduler.rs:103-113 | appends, unless full; the same ring is the mailbox (`src/task/tcb.rs`) |
| `Rings.Ring.PopFront` | src/task/scheduler.rs:115-125 | takes the oldest element, none if empty |
| `Rings.Ring.Remove` | src/task/scheduler.rs:127-141 | removes the first occurrence and keeps the order of the rest |
| `Sched.RoomFor` | src/task/scheduler.rs:103-113 | a queue with a task missing has room for it |
| `Sched.FrontIsReady` | src/task/scheduler.rs:42-43 | the next task is never the current one |
| `Sched.StepKeeps` | src/task/scheduler.rs:151-372 | every step keeps: the queue lists exactly the ready tasks once, the current task is the only running one, blocked tasks have empty mailboxes, woken receivers have a message |
| `SchedRuns.ReachableOk` | src/task/scheduler.rs:151-372 | the invariant holds in every reachable state |
| `SchedRuns.NoLostWakeup` | src/syscall/table.rs:118-157 | in every reachable state a blocked task has no message and a resumed receive has one |
| `SchedRuns.DeadStaysDead` | src/task/scheduler.rs:347-372 | a dead task never runs again |
| `SchedRuns.WaitStep` | src/task/scheduler.rs:103-142 | each switch, and each removal ahead, moves a waiting task one place forward |
| `SchedRuns.StillWaiting` | src/task/scheduler.rs:303-345 | a task at position k is exactly that many places further on after the switches and removals so far |
| `SchedRuns.BoundedWaiting` | src/task/scheduler.rs:303-345 | a task at position k runs after exactly k + 1 switches, less one per removal ahead, whatever else happens |
| `SchedRuns.MessagesInOrder` | src/task/tcb.rs:63-83 | what was waiting and what was sent is what was taken and what still waits, in order |
| `SchedRuns.ReceivedIsPrefix` | src/syscall/table.rs:68-173 | the messages a task receives are a prefix of those sent to it |
| `SchedRuns.ArgumentsKept` | src/syscall/table.rs:118-173 | however long a receive blocks, it goes on with the arguments it was called with |
| `SchedRuns.RunFacts` | src/task/scheduler.rs:151-372 | in any run without discards dead tasks stay dead, messages arrive in order, and every ready task runs in its turn |
| `Scheduler.RunQueue.AddTask` | src/task/scheduler.rs:151-182 | the first empty slot, a handle to itself, queued; `push_back` succeeds |
| `Scheduler.RunQueue.Start` | src/task/scheduler.rs:184-214 | the front of the queue runs |
| `Scheduler.RunQueue.MakeSwitch` | src/task/scheduler.rs:42-61 | performed while the first task's page table is loaded, the switch leaves the second one's loaded, and reloads nothing if they are the same |
| `Scheduler.RunQueue.BlockCurrent` | src/task/scheduler.rs:273-301 | a `Wait` step; halts exactly when no task is ready |
| `Scheduler.RunQueue.Unblock` | src/task/scheduler.rs:303-315 | a blocked task becomes ready and is queued, any other is left alone |
| `Scheduler.RunQueue.YieldCurrent` | src/task/scheduler.rs:317-345 | a `Yield` step, or nothing when no task is ready |
| `Scheduler.RunQueue.ExitCurrent` | src/task/scheduler.rs:347-372 | an `Exit` step; halts exactly when no task is ready |
| `Scheduler.RunQueue.Deliver` | src/syscall/table.rs:90-106 | a `Send` step, or an error with its cause and no change |
| `Scheduler.RunQueue.TakeMessage` | src/task/tcb.rs:63-72 | a `Take` step that returns the oldest message |
| `Scheduler.RunQueue.TakeHandle` | src/task/tcb.rs:148-150 | the handle in the slot, which is then empty |
| `Scheduler.RunQueue.PutHandle` | src/task/tcb.rs:152-163 | fills an empty slot, and fails on any other |
| `Scheduler.RunQueue.PushHandle` | src/task/tcb.rs:133-142 | fills the first empty slot |
| `Scheduler.RunQueue.RemoveTask` | src/task/scheduler.rs:227-246 | a `Discard` step, refused for the current or a missing task |
| `Kernel.Kernel.Withdraw` | src/task/scheduler.rs:227-246 | removing a task just queued, together with its stack, restores what was there before |
| `Caps.TurnsKeeps` | src/syscall/table.rs:371-540 | changing one handle within the rules keeps the ownership invariant |
| `Caps.OneOwner` | src/syscall/table.rs:194-306 | every allocated frame has exactly one owner |
| `Caps.MappingsApart` | src/syscall/table.rs:371-459 | no two Mapping handles share a frame or an address in a space |
| `Caps.UserPagesSafe` | src/syscall/table.rs:371-540 | what a user space maps is no table, no stack page, not free, and has no Frame handle |
| `CapSteps.GainFrame` | src/syscall/table.rs:194-217 | a free frame may become a Frame handle |
| `CapSteps.LoseFrame` | src/syscall/table.rs:219-243 | a Frame handle's frame is allocated and used by nothing else, so freeing it is safe |
| `CapSteps.MapFrame` | src/syscall/table.rs:371-417 | a mapped frame's handle may become a Mapping handle |
| `CapSteps.UnmapFrame` | src/syscall/table.rs:492-513 | an unmapped page's handle may become a Frame handle |
| `CapSteps.GainSpace` | src/syscall/table.rs:263-285 | a new address space has no pages and a root of its own |
| `CapSteps.GainTask` | src/task/tcb.rs:196-222 | a new task holds no frames |
| `CapSteps.GainStack` | src/syscall/table.rs:606-616 | a new kernel stack takes only free frames |
| `KernelSteps.SpaceUndone` | src/syscall/table.rs:274-301 | destroying a space just made restores every page, table and frame |
| `KernelSteps.CreateDiscard` | src/syscall/table.rs:625-642 | creating a task and removing it at once changes nothing |
| `KernelSteps.StackUndoable` | src/syscall/table.rs:606-642 | however a new stack is torn down, what was there before is left |
| `Booting.ImagePins` | src/arch/x86_64/linker.ld:24-28 | the kernel image hangs off the same root entry as the kernel stacks, outside their region |
| `KernelSpaces.MapRanges` | src/memory/address_space.rs:221-287 | the kernel maps exactly the pages of its ranges; sound, disjoint ranges and four frames per page are enough |
| `KernelSpaces.NewKernel` | src/memory/address_space.rs:209-290 | a new kernel space with exactly those pages, and when that succeeds |
| `Spawning.Settle` | src/task/bootstrap.rs:26-42 | pages added on frames set aside, or never handed out, leave kernel stacks standing and no user page on a table or a free frame |
| `Spawning.MapArchive` | src/task/bootstrap.rs:29-38 | maps the archive, and when that succeeds |
| `Spawning.MapUserStack` | src/memory/stack.rs:184-198 | maps a stack for the first task above its guard page, and when that succeeds |
| `Spawning.LoadFirst` | src/task/bootstrap.rs:42-42 | loads the executable beside archive and stack, and when that succeeds |
| `Booting.KernelStack` | src/task/bootstrap.rs:19-20 | a kernel stack in the lowest free slot; forty free frames are enough |
| `Booting.BuildSpace` | src/task/bootstrap.rs:26-42 | a user space with archive, stack and executable, and when that succeeds |
| `Booting.ReclaimBoot` | src/main.rs:101-104 | reclaiming keeps every table, page and stack, and the frames not reclaimed |
| `Booting.Spawn` | src/task/bootstrap.rs:10-53 | the first task runs with the invariant established, its executable and stack in place; and when that succeeds |
| `Booting.BootKernel` | src/main.rs:30-134 | from memory without any table to the first task, everything the kernel consists of being new, boot memory reclaimed on the way; sound ranges, a sound executable and enough frames are enough |
| `Booting.StackReachable` | src/memory/stack.rs:184-198 | the first task can have words stored anywhere on its stack |
| `Booting.BootAndServe` | src/main.rs:30-134 | after booting, each of any sequence of calls is answered in turn, the invariant holds, and the run is one of the scheduler from its beginning; and when booting succeeds |
| `Kernel.Kernel.constructor` | src/task/bootstrap.rs:44-53 | with one task started over what `Spawn` has built the invariant holds |
| `Kernel.Kernel.SysYield` | src/syscall/table.rs:15-18 | keeps the invariant; one `Yield` or nothing |
| `Kernel.Kernel.SysExit` | src/syscall/table.rs:20-22 | keeps the invariant; one `Exit` or a halt |
| `Kernel.Kernel.SysSend` | src/syscall/table.rs:68-106 | succeeds exactly when the buffer is readable, fits and the mailbox has room; sends sender, length and zero-padded payload; a failure changes nothing |
| `Kernel.Kernel.SysReceive` | src/syscall/table.rs:108-173 | blocks exactly on an empty mailbox, otherwise hands over the oldest message cut to the buffer; never fails with `NoSuchTask` |
| `Kernel.Kernel.FinishReceive` | src/syscall/table.rs:118-173 | a resumed receive has a message; succeeds exactly when its buffers are writable, and a failure keeps the message |
| `Kernel.Kernel.SysFrameAlloc` | src/syscall/table.rs:175-217 | succeeds exactly when there is a frame, a slot and a place for the number; a failure, also after allocating, changes nothing |
| `Kernel.Kernel.SysFrameDealloc` | src/syscall/table.rs:219-243 | frees exactly the frame of a Frame handle; any other handle stays in its slot |
| `Kernel.Kernel.SysAsCreate` | src/syscall/table.rs:245-306 | a new space and its handle, or nothing changes, also after the space was made or entered |
| `Kernel.Kernel.CheckMap` | src/syscall/table.rs:315-366 | passes exactly for a writable space, a frame with enough rights, a user page and a place for the number |
| `Kernel.MapUser` | src/syscall/table.rs:384-396 | of all mapping errors only three are possible, each with its cause |
| `Kernel.Kernel.SysMap` | src/syscall/table.rs:308-459 | one page of the space maps the frame with the asked permissions and the handle becomes its Mapping handle; a failure changes nothing and has one of the listed causes |
| `Kernel.Kernel.SysUnmap` | src/syscall/table.rs:461-540 | succeeds exactly for Mapping handles, unmaps that page and gives the frame back as a Frame handle |
| `Kernel.Kernel.CheckTask` | src/syscall/table.rs:548-604 | passes exactly for an executable space, an executable entry, a writable stack byte and a place for the number |
| `Kernel.Kernel.AllocStack` | src/task/scheduler.rs:216-225 | a kernel stack exactly when a slot is clear, pages can be made non-executable and frames suffice; a failure changes nothing that is owned; either way the lowest clear slot is marked |
| `Kernel.Kernel.SysTaskCreate` | src/syscall/table.rs:542-647 | succeeds exactly when the arguments are right and there is a stack, a task and a slot; then a task in the caller's space on a stack of its own and a handle for it in the first empty slot; what a failure leaves behind, of frames and pages and of slots, and exactly when |
| `Kernel.Kernel.Store` | src/arch/x86_64/interrupts/exceptions.rs:82-94 | a store by a task changes the contents of one frame, which is no table, and no translation; one that is not allowed ends the task |
| `Kernel.Kernel.Serve` | src/syscall/mod.rs:55-92 | one call keeps the invariant and is answered: its events, the exact change of frames, pages, handles, spaces and slots, and when it halts; a blocked receive goes on with its own arguments |
| `Kernel.Kernel.Serving` | src/syscall/mod.rs:55-92 | any sequence of calls keeps the invariant, no assertion fails on the way, each call is answered in turn until the machine halts, and the theorems about runs hold of all their events |
| `Calls.MessagesServed` | src/syscall/table.rs:68-173 | over any run of calls, what waited for a task and what send calls then sent it is what its receive calls were handed and what still waits, in order |
| `Calls.SlotsFill` | src/memory/stack.rs:222-238 | no call makes a slot of the kernel stacks clear again |
| `Calls.NoTaskAgain` | src/syscall/table.rs:606-642 | once all slots are taken no call creates a task |
| `KernelTheorems.OneOwnerPerFrame` | src/syscall/table.rs:194-306 | between any two calls every allocated frame has exactly one owner |
| `KernelTheorems.OwnedIsAllocated` | src/memory/frame.rs:313-327 | what is owned is allocated, so giving it back never panics |
| `KernelTheorems.UserAddressReads` | src/arch/x86_64/paging.rs:345-426 | a user address of a live space reads as the flat view says |
| `KernelTheorems.MappingHandlesHold` | src/syscall/table.rs:371-540 | walking the tables from a Mapping handle's address ends at its frame |
| `KernelTheorems.UserMemoryIsSafe` | src/syscall/table.rs:371-540 | no user address leads to a page table, a kernel stack or a free frame |
| `KernelTheorems.PagesApart` | src/syscall/table.rs:371-540 | no two user pages share a frame, unless both were mapped at boot |
| `KernelTheorems.StacksAreGuarded` | src/memory/stack.rs:222-248 | every task has its own kernel stack above an unmapped page |
| `ElfFiles.ParseFinds` | src/format/elf.rs:25-55 | in any file put together from an entry and program headers the parser finds exactly those |
| `BootElf.PowersOfTwo` | src/format/elf.rs:57-85 | the test by halving finds exactly the powers of two |
| `BootElf.SegmentOf` | src/format/elf.rs:57-85 | accepted exactly when the data is no longer than the memory, lies in the file and is aligned; then data, address and permissions are those of the header |
| `OmegaElf.Reader.ReadArray` | userspace/omega3/src/elf.rs:380-389 | the next bytes, exactly when there are enough |
| `OmegaElf.Reader.ReadNumber` | userspace/omega3/src/elf.rs:391-417 | the next number in the reader's byte order |
| `OmegaElf.Reader.ReadWord` | userspace/omega3/src/elf.rs:419-424 | four or eight bytes, by class |
| `OmegaElf.ParseHeader` | userspace/omega3/src/elf.rs:125-179 | reading in order finds each field at its offset, for both classes and byte orders |
| `OmegaElf.ParseEntry` | userspace/omega3/src/elf.rs:228-264 | the same for program headers |
| `OmegaElf.ProgramHeaders.Next` | userspace/omega3/src/elf.rs:335-352 | yields the headers of the table one by one, none failing |
| `ElfParsers.ParsersAgree` | userspace/omega3/src/elf.rs:125-307 | what the kernel's parser accepts, the other accepts with the same entry and load headers |
| `Loading.FillFrame` | src/task/bootstrap.rs:97-117 | every byte of the page is the file's byte at its address, or zero |
| `Loading.FillScratch` | userspace/omega3/src/main.rs:75-91 | the same, starting from a zeroed page |
| `BootLoading.LoadPage` | src/task/bootstrap.rs:90-133 | one page on a frame of its own with its bytes and permissions, or nothing and a cause |
| `BootLoading.LoadSegment` | src/task/bootstrap.rs:84-133 | the pages of a segment, or the page at which it stopped and the cause |
| `BootLoading.LoadElf` | src/task/bootstrap.rs:63-140 | succeeds exactly on a sound executable that fits the space and the free frames, and then exactly its image is added, each page on a frame of its own |
| `Loading.LoadOmega` | userspace/omega3/src/main.rs:51-99 | completes exactly when the headers parse and their image fits, having built that image |
| `BootLoading.LoadBoth` | src/task/bootstrap.rs:63-140 | both loaders return the same entry and build identical pages, and when both complete |
| `Loading.ImageMeans` | src/task/bootstrap.rs:72-133 | the pages are exactly those the headers ask for, each from one header, file bytes at their addresses and zero elsewhere |
| `Cpio.ReadHeader` | src/format/cpio.rs:22-52 | the two sizes of a header, accepted only with its magic and two hexadecimal numbers |
| `Cpio.ReadEntry` | src/format/cpio.rs:45-70 | an entry read at an offset is the first entry of the rest |
| `Cpio.FindFile` | src/format/cpio.rs:37-80 | on any bytes the search ends and returns a slice inside the archive |
| `Cpio.RoundTrip` | src/format/cpio.rs:37-80 | in the archive of any list of files the first file with the name is found, none if there is none |

## Left out

- Kernel.Kernel.SysSend: the bytes found at the caller's address are a parameter, because contents of user pages are not part of the system calls' model.
- Kernel.Kernel.SysReceive: what reaches the caller's buffers is a result, because contents of user pages are not part of the system calls' model.
- Kernel.Kernel.FinishReceive: what reaches the caller's buffers is a result, because contents of user pages are not part of the system calls' model.
- Scheduler.RunQueue.RemoveTask: the kernel stack of the removed task is freed by its caller; `Kernel.Kernel.Withdraw` does both.
- Loading.LoadOmega: requires that file ranges of load headers lie in the file and that segment ends do not wrap around, because the root server copies through raw pointers without checking; images the kernel's loader completes on meet this. Its system calls for frames and its scratch mapping are a count of frames and a set of refused pages.
- StackPool.KernelStackPool.Allocate: the 64-bit mask is a sequence of 64 booleans, so shifts and masks are not modelled.
- Booting.BootKernel: ACPI and the interrupt controller are not in it; the archive's physical address is an input instead of a translation, and what is reclaimed is a list of frames instead of the memory map.
- KernelSpaces.NewKernel: a failure leaves the tables made so far, because the boot code panics on it after tearing them down.
- The page tables and system calls use the allocator, the mailboxes and the handle tables through their values; the packed bitmap, the ring buffer and the table words are proved to refine those values, and are not the objects inside `Machine` and `Tcb`. The words are shown for each kind of write and any list of them; that each operation of `Machine` is such a list is not stated.
- `sys_write`: two range checks and serial output.
- Cleanup after dead tasks, and of the stack when the task table is full: the code does none.
- `PageTable::destroy`: used only when building the kernel's space fails; `destroy_user` is the harder case of it.
- Exit codes and fault reasons: a dead task is only dead, and an unknown call number is an exit.
- Faults other than a store that is not allowed, and loads by user code: the first end the task in the same way, the second change nothing.
- Creating large pages: no code does; the reads handle them, and the forest has none.
- TLB flushes, `activate`, port, MSR and interrupt-controller code, register switching and inline assembly: hardware effects.
- ACPI tables, the boot protocol, printing, and the client and echo programs.
- The root server's own archive search: the same scan over a pointer without a length.
- More than one processor, and interrupts inside a system call.
