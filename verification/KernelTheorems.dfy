/** What the kernel's invariant, and so every run of system calls, guarantees about memory. */
module KernelTheorems {
  import opened Outcomes
  import opened Addresses
  import opened Frames
  import opened Forest
  import opened Walks
  import opened AddressSpaces
  import opened StackPool
  import opened Tasks
  import opened Caps
  import opened KernelSteps
  import Kernel

  /** Every allocated frame has exactly one owner: a table, the kernel stacks, boot memory or one
      handle of one task. */
  lemma OneOwnerPerFrame(k: Kernel.Kernel, f: nat) returns (o: Owner)
    requires k.Inv() && f < |k.vm.pool.states| && k.vm.pool.states[f] == Allocated
    ensures OwnedBy(k.Snapshot(), f, o) && forall o' :: OwnedBy(k.Snapshot(), f, o') ==> o' == o
  {
    o := OneOwner(k.Snapshot(), f);
  }

  /** Nothing owns a frame that is free or reserved, so giving back an owned frame never panics and
      no frame in use is handed out again. */
  lemma OwnedIsAllocated(k: Kernel.Kernel, f: nat, o: Owner)
    requires k.Inv() && OwnedBy(k.Snapshot(), f, o)
    ensures f < |k.vm.pool.states| && k.vm.pool.states[f] == Allocated
  {
    FreeUnowned(k.Snapshot(), f, o);
  }

  /** What the tables say about a user address of a live space. */
  lemma UserAddressReads(k: Kernel.Kernel, id: nat, addr: nat)
    requires k.Inv() && SpaceLives(k.Snapshot(), id) && addr < USER_SPACE_END
    ensures var root, l := k.spaces[id].value.root, PageIn(k.Snapshot(), id, addr);
            && root != k.vm.kernelRoot
            && Translate(k.vm.mem, k.vm.mode, root, addr)
               == (if l in k.vm.view.maps then Some(k.vm.view.maps[l].frame * PAGE_SIZE + addr % PAGE_SIZE) else None)
            && MappingAt(k.vm.mem, k.vm.mode, root, addr)
               == (if l in k.vm.view.maps then Some(k.vm.view.maps[l].perms) else None)
  {
    var root := k.spaces[id].value.root;
    assert SpaceOk(k.Snapshot(), id);
    UserAddress(k.vm.mode, addr);
    UserHome(k.vm.Sh(), k.vm.mode, root, addr);
    ReadsSeeView(k.vm.mode, k.vm.Sh(), k.vm.mem, k.vm.view, root, addr);
  }

  /** A Mapping handle tells the truth: a walk of the tables of its address space from its address
      ends at its frame. */
  lemma MappingHandlesHold(k: Kernel.Kernel, p: Pos, f: nat, id: nat, addr: nat)
    requires k.Inv() && ObjectAt(k.queue.tasks, p) == Some(MappingObject(f, id, addr))
    ensures SpaceLives(k.Snapshot(), id)
    ensures Translate(k.vm.mem, k.vm.mode, k.spaces[id].value.root, addr) == Some(f * PAGE_SIZE)
  {
    assert HandleOk(k.Snapshot(), p);
    UserAddressReads(k, id, addr);
  }

  /** Wherever a user address leads, there is no page table, no kernel stack, no free frame, and no
      Frame handle through which it could be freed or mapped again. */
  lemma UserMemoryIsSafe(k: Kernel.Kernel, id: nat, addr: nat, phys: nat)
    requires k.Inv() && SpaceLives(k.Snapshot(), id) && addr < USER_SPACE_END
    requires Translate(k.vm.mem, k.vm.mode, k.spaces[id].value.root, addr) == Some(phys)
    ensures var f := phys / PAGE_SIZE;
            && f !in k.vm.view.nodes.Values && f !in StackFrames(k.stacks.stacks)
            && (f < |k.vm.pool.states| ==> k.vm.pool.states[f] != FrameState.Free)
            && forall p :: ObjectAt(k.queue.tasks, p) != Some(FrameObject(f))
  {
    var l := PageIn(k.Snapshot(), id, addr);
    UserAddressReads(k, id, addr);
    FrameOfAddress(k.vm.view.maps[l].frame, addr);
    UserPagesSafe(k.Snapshot(), l);
  }

  /** No two user pages share a frame, unless both were mapped at boot: what a task stores reaches no other
      page, of its own space or another. */
  lemma PagesApart(k: Kernel.Kernel, l: Loc, l': Loc)
    requires k.Inv() && l in k.vm.view.maps && l' in k.vm.view.maps && l != l'
    requires l.root != k.vm.kernelRoot && l'.root != k.vm.kernelRoot
    requires !(l in k.bootPages && l' in k.bootPages)
    ensures k.vm.view.maps[l].frame != k.vm.view.maps[l'].frame
  {
    var c := k.Snapshot();
    assert PageOk(c, l);
    assert PageOk(c, l');
    if l !in c.bootPages {
      var p :| Covers(c, p, l);
      assert HandleOk(c, p);
      if l' !in c.bootPages {
        var q :| Covers(c, q, l');
        assert HandleOk(c, q);
        assert Apart(c.tasks, p, q);
      }
    } else {
      var q :| Covers(c, q, l');
      assert HandleOk(c, q);
    }
  }

  /** Every task has a kernel stack of its own, and the page below it is mapped in no task's view of
      the kernel's half. */
  lemma StacksAreGuarded(k: Kernel.Kernel, t: nat) returns (slot: nat)
    requires k.Inv() && t < |k.queue.tasks| && k.queue.tasks[t].Some?
    ensures slot in k.stacks.stacks && k.queue.tasks[t].value.stackTop == SlotTop(slot)
    ensures Translate(k.vm.mem, k.vm.mode, k.vm.kernelRoot, SlotGuard(slot)) == None
    ensures forall u :: 0 <= u < |k.queue.tasks| && k.queue.tasks[u].Some? && u != t ==>
      k.queue.tasks[u].value.stackTop != SlotTop(slot)
  {
    assert Stacked(k.queue.tasks, k.stacks.stacks.Keys, t);
    slot :| slot in k.stacks.stacks.Keys && k.queue.tasks[t].value.stackTop == SlotTop(slot);
    assert StackStands(k.vm, slot, k.stacks.stacks[slot], k.vm.view, k.vm.pool.states);
    ReadsSeeView(k.vm.mode, k.vm.Sh(), k.vm.mem, k.vm.view, k.vm.kernelRoot, SlotGuard(slot));
    assert Home(k.vm.Sh(), k.vm.kernelRoot, PageOf(k.vm.mode, SlotGuard(slot))) == k.vm.kernelRoot;
    forall u | 0 <= u < |k.queue.tasks| && k.queue.tasks[u].Some? && u != t
      ensures k.queue.tasks[u].value.stackTop != SlotTop(slot)
    {
      assert StacksApart(k.queue.tasks, t, u);
    }
  }
}
