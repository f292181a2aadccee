/** The system calls as steps of one kernel.  Every step keeps `Inv`, every place where the code
    panics on a case it calls impossible is an assertion that holds, and every step is a sequence
    of scheduler events. */
module Kernel {
  import opened Outcomes
  import opened Numbers
  import opened Addresses
  import opened Frames
  import opened Forest
  import opened Walks
  import opened Grafts
  import UnmapSteps
  import opened Tasks
  import opened Sched
  import opened SchedRuns
  import opened Scheduler
  import opened Sessions
  import opened AddressSpaces
  import opened Stacks
  import opened StackPool
  import opened UserAccess
  import opened Calls
  import opened Caps
  import opened CapSteps
  import opened KernelSteps
  import MapSteps
  import PageTables

  /** Maps an allocated frame at a user page: of all errors only three are possible. */
  method MapUser(m: PageTables.Machine, a: AddressSpace, frame: nat, addr: nat, perms: Perms)
    returns (r: Result<(), MapError>)
    requires m.Valid() && m.SharedHalf() && Live(m, a) && a.kind == User && perms.user
    requires addr % PAGE_SIZE == 0 && addr < USER_SPACE_END && frame < |m.pool.states| <= m.frameLimit
    modifies m
    ensures m.Valid() && m.SharedHalf()
    ensures r.Err? ==> m.view == old(m.view) && m.pool.states == old(m.pool).states
    ensures r.Err? ==>
      || (r.error == AlreadyMapped && Loc(a.root, PageOf(m.mode, addr)) in old(m.view).maps)
      || (r.error == UnsupportedPermissions && !perms.executable && !m.nxEnabled)
      || (r.error == MapError.OutOfMemory
          && NoRoom(m.mode, old(m.view), old(m.pool).states, Loc(a.root, PageOf(m.mode, addr))))
    ensures r.Ok? ==>
      && Loc(a.root, PageOf(m.mode, addr)) !in old(m.view).maps
      && PageTables.Added(old(m.view), old(m.pool).states, m.view, m.pool.states,
                          Loc(a.root, PageOf(m.mode, addr)), Entry(true, perms, false, false, false, frame))
  {
    UserAddress(m.mode, addr);
    r := MapFrameAt(m, a, frame, addr, perms, false, Loc(0, 0));
  }

  /** Adds the first task and starts it. */
  method StartQueue(queue: RunQueue, stackTop: nat)
    requires queue.Valid() && queue.Now() == Boot()
    modifies queue, queue.ready, queue.ready.entries
    ensures queue.Valid() && Legal(Boot(), FirstEvents(stackTop)) && queue.Now() == Run(Boot(), FirstEvents(stackTop))
  {
    FirstHandles(0, stackTop);
    FirstTaskEvents(stackTop);
    var _ := queue.AddTask(NewTask(0, stackTop));
    var _ := queue.Start();
  }

  class Kernel {
    const vm: PageTables.Machine
    const stacks: KernelStackPool
    const queue: RunQueue
    var spaces: seq<Option<AddressSpace>>
    ghost const boot: set<nat>
    ghost const bootPages: set<Loc>
    /** A page of the kernel image, in the root entry that also serves the kernel stacks. */
    ghost const pin: Loc

    ghost function Snapshot(): Caps
      reads this, vm, stacks, queue
    {
      Caps(vm.mode, vm.kernelRoot, vm.view, vm.pool.states, queue.tasks, spaces, StackFrames(stacks.stacks), boot,
           bootPages)
    }

    ghost predicate Pinned()
      reads this, vm
    {
      RegionPinned(vm, pin) && pin in vm.view.maps && |vm.pool.states| <= vm.frameLimit
    }

    ghost predicate Owned()
      reads this, vm, stacks, queue
    {
      CapsOk(Snapshot()) && TasksStacked(queue.tasks, stacks.stacks.Keys)
    }

    /** What every system call keeps. */
    ghost predicate Inv()
      reads this, vm, stacks, queue, queue.ready, queue.ready.entries
    {
      queue.Valid() && stacks.Valid(vm) && Owned() && Pinned()
    }

    /** The current task may make a system call. */
    ghost predicate Callable()
      reads this, vm, stacks, queue, queue.ready, queue.ready.entries
    {
      Inv() && Sched.Free(queue.Now())
    }

    /** The kernel when its first task starts: one address space, one task, and everything allocated
        until then is boot memory. */
    constructor (vm: PageTables.Machine, stacks: KernelStackPool, root: nat, stack: StackMapping, ghost slot: nat,
                 ghost pin: Loc)
      requires stacks.Valid(vm) && RegionPinned(vm, pin) && pin in vm.view.maps && |vm.pool.states| <= vm.frameLimit
      requires Key(root, 0, 0) in vm.view.nodes && root != vm.kernelRoot && slot in stacks.stacks
      requires stack.top == SlotTop(slot)
      requires UserPagesLoaded(vm.view, vm.pool.states, vm.kernelRoot, StackFrames(stacks.stacks))
      ensures Callable() && fresh(queue) && fresh(queue.ready) && fresh(queue.ready.entries)
      ensures this.vm == vm && this.stacks == stacks && |spaces| > 0 && spaces[0] == Some(AddressSpace(root, User))
      ensures Tracks(Boot(), FirstEvents(stack.top), queue.Now())
    {
      this.vm, this.stacks, this.pin := vm, stacks, pin;
      this.spaces := seq(MAX_ADDRESS_SPACES, i => None)[0 := Some(AddressSpace(root, User))];
      this.queue := new RunQueue();
      this.boot := BootFrames(vm.view, vm.pool.states, StackFrames(stacks.stacks));
      this.bootPages := BootPages(vm.view, vm.kernelRoot);
      new;
      ghost var c := Snapshot();
      StacksOwned(vm, stacks.stacks, vm.view, vm.pool.states);
      BootCaps(c, root);
      FirstTaskRuns(c, stacks.stacks.Keys, slot);
      StartQueue(queue, stack.top);
    }

    // ---- Scheduling ----

    method SysYield() returns (ghost es: seq<Event>)
      requires Callable()
      modifies queue, queue.ready, queue.ready.entries
      ensures Inv() && Tracks(old(queue.Now()), es, queue.Now())
      ensures es == if old(queue.Now()).ready == [] then [] else [Yield]
    {
      ghost var c, s := Snapshot(), queue.Now();
      queue.YieldCurrent();
      es := [];
      if s.ready != [] {
        es := [Yield];
        Scheduled(c, s, Yield);
      }
    }

    /** Ends the current task; the machine halts when no other task is ready. */
    method SysExit() returns (halted: bool, ghost es: seq<Event>)
      requires Callable()
      modifies queue, queue.ready
      ensures Inv() && Tracks(old(queue.Now()), es, queue.Now())
      ensures halted <==> old(queue.Now()).ready == []
      ensures es == if halted then [] else [Exit]
    {
      ghost var c, s := Snapshot(), queue.Now();
      halted := queue.ExitCurrent();
      es := [];
      if !halted {
        es := [Exit];
        Scheduled(c, s, Exit);
      }
    }

    // ---- Messages ----

    /** Sends `payload`, the bytes found at `ptr`, to a task.  A failed send changes nothing. */
    method SysSend(dest: nat, ptr: nat, len: nat, payload: seq<bv8>)
      returns (r: Result<(), Status>, ghost es: seq<Event>)
      requires Callable() && |payload| == len
      modifies queue, queue.ready, queue.ready.entries
      ensures Inv() && Tracks(old(queue.Now()), es, queue.Now())
      ensures r.Err? ==> es == []
      ensures r.Ok? <==>
        && len <= MAX_MSG_SIZE && old(Reachable(ptr, len, false))
        && Lives(old(queue.Now()), dest) && |old(queue.tasks)[dest].value.mailbox| < MAILBOX_CAPACITY
      ensures r.Ok? ==>
        && len <= MAX_MSG_SIZE
        && es == [Send(dest, Message(old(queue.Now()).current.value, len, ZeroPadded(payload)))]
      ensures r == Err(NoSuchTask) ==> !Lives(old(queue.Now()), dest)
    {
      es := [];
      if len > MAX_MSG_SIZE {
        return Err(InvalidArgument), [];
      }
      ghost var c, s := Snapshot(), queue.Now();
      var sender := queue.current.value;
      var valid := ValidateUserRange(vm, CurrentSpace(), ptr, len, false);
      if valid.Err? {
        return Err(valid.error), [];
      }
      assert CopyBounds(ptr, len).Ok?;
      var msg := Message(sender, len, ZeroPadded(payload));
      var sent := queue.Deliver(dest, msg);
      match sent {
        case Err(MailboxFull) => return Err(Status.OutOfMemory), [];
        case Err(NoTask) => return Err(NoSuchTask), [];
        case Ok(_) =>
          Scheduled(c, s, Send(dest, msg));
          return Ok(()), [Send(dest, msg)];
      }
    }

    /** The current task may access these bytes. */
    ghost predicate Reachable(addr: nat, len: nat, writable: bool)
      requires Inv() && HasCurrent(queue.Now())
      reads this, vm, stacks, queue, queue.ready, queue.ready.entries
    {
      RangeInBounds(addr, len) && (len > 0 ==>
        RangeOk(vm.mem, vm.mode, CurrentSpace().value.root, addr, addr + len, writable))
    }

    /** Checks one optional place for a word. */
    method CheckWord(addr: nat) returns (r: Result<(), Status>)
      requires Inv() && HasCurrent(queue.Now())
      ensures r.Ok? <==> Reachable(addr, WORD_BYTES, true) && addr % WORD_BYTES == 0
      ensures r.Ok? ==> CopyWord(addr).Ok?
      ensures r.Err? ==> r.error == InvalidArgument || r.error == BadAddress
    {
      if addr % WORD_BYTES != 0 {
        return Err(InvalidArgument);
      }
      r := ValidateUserRange(vm, CurrentSpace(), addr, WORD_BYTES, true);
    }

    ghost predicate CanReceive(out: nat, maxLen: nat, outLen: nat, outSender: nat)
      requires Inv() && HasCurrent(queue.Now())
      reads this, vm, stacks, queue, queue.ready, queue.ready.entries
    {
      && Reachable(out, maxLen, true)
      && (outLen != 0 ==> Reachable(outLen, WORD_BYTES, true) && outLen % WORD_BYTES == 0)
      && (outSender != 0 ==> Reachable(outSender, WORD_BYTES, true) && outSender % WORD_BYTES == 0)
    }

    /** The checks of a receive before it takes a message. */
    method CheckReceive(out: nat, maxLen: nat, outLen: nat, outSender: nat) returns (r: Result<(), Status>)
      requires Inv() && HasCurrent(queue.Now())
      ensures r.Ok? <==> CanReceive(out, maxLen, outLen, outSender)
      ensures r.Ok? ==> (outLen != 0 ==> CopyWord(outLen).Ok?) && (outSender != 0 ==> CopyWord(outSender).Ok?)
      ensures r.Err? ==> r.error == InvalidArgument || r.error == BadAddress
    {
      r := ValidateUserRange(vm, CurrentSpace(), out, maxLen, true);
      if r.Ok? && outLen != 0 {
        r := CheckWord(outLen);
      }
      if r.Ok? && outSender != 0 {
        r := CheckWord(outSender);
      }
    }

    /** A receive up to the point where it has a message to take: with an empty mailbox the task
        blocks, and goes on in `FinishReceive` when it runs again. */
    method SysReceive(out: nat, maxLen: nat, outLen: nat, outSender: nat)
      returns (r: Option<Result<Delivery, Status>>, halted: bool, ghost es: seq<Event>)
      requires Callable()
      modifies queue, queue.ready
      ensures Inv() && Tracks(old(queue.Now()), es, queue.Now())
      ensures out == 0 ==> r == Some(Err(InvalidArgument)) && es == []
      ensures r.None? <==> out != 0 && Current(old(queue.Now())).mailbox == []
      ensures r.None? ==> es == if halted then [] else [Wait(ReceiveArgs(out, maxLen, outLen, outSender))]
      ensures halted <==> out != 0 && Current(old(queue.Now())).mailbox == [] && old(queue.Now()).ready == []
      ensures r.Some? && out != 0 ==> (r.value.Ok? <==> old(CanReceive(out, maxLen, outLen, outSender)))
      ensures r.Some? && r.value.Err? ==>
        es == [] && (r.value.error == InvalidArgument || r.value.error == BadAddress)
      ensures r.Some? && r.value.Ok? ==>
        es == [Take] && r.value.value == Handed(Current(old(queue.Now())).mailbox[0], maxLen)
    {
      halted, es := false, [];
      if out == 0 {
        return Some(Err(InvalidArgument)), false, [];
      }
      ghost var c, s := Snapshot(), queue.Now();
      if queue.tasks[queue.current.value].value.mailbox == [] {
        var args := ReceiveArgs(out, maxLen, outLen, outSender);
        halted := queue.BlockCurrent(args);
        if !halted {
          es := [Wait(args)];
          Scheduled(c, s, Wait(args));
        }
        return None, halted, es;
      }
      var result;
      result, es := FinishReceive(out, maxLen, outLen, outSender);
      return Some(result), false, es;
    }

    /** A receive from the point where the mailbox cannot be empty any more. */
    method FinishReceive(out: nat, maxLen: nat, outLen: nat, outSender: nat)
      returns (r: Result<Delivery, Status>, ghost es: seq<Event>)
      requires Inv() && HasCurrent(queue.Now())
      requires Current(queue.Now()).receiving.Some? || Current(queue.Now()).mailbox != []
      modifies queue
      ensures Inv() && Tracks(old(queue.Now()), es, queue.Now())
      ensures Current(old(queue.Now())).mailbox != []
      ensures r.Ok? <==> old(CanReceive(out, maxLen, outLen, outSender))
      ensures r.Ok? ==> es == [Take] && r.value == Handed(Current(old(queue.Now())).mailbox[0], maxLen)
      ensures r.Err? ==>
        && (r.error == InvalidArgument || r.error == BadAddress)
        && es == if Current(old(queue.Now())).receiving.Some? then [GiveUp] else []
    {
      ghost var c, s := Snapshot(), queue.Now();
      assert TaskOk(s, s.current.value);
      var check := CheckReceive(out, maxLen, outLen, outSender);
      if check.Err? {
        es := GiveUpReceive();
        return Err(check.error), es;
      }
      var msg := queue.TakeMessage();
      assert msg.Some?;
      Scheduled(c, s, Take);
      assert MessageOk(msg.value);
      assert CopyBounds(out, Min(msg.value.length, maxLen)).Ok?;
      return Ok(Handed(msg.value, maxLen)), [Take];
    }

    /** Ends a receive that cannot deliver its message, which stays in the mailbox. */
    method GiveUpReceive() returns (ghost es: seq<Event>)
      requires Inv() && HasCurrent(queue.Now())
      modifies queue
      ensures Inv() && Tracks(old(queue.Now()), es, queue.Now())
      ensures es == if Current(old(queue.Now())).receiving.Some? then [GiveUp] else []
    {
      ghost var c, s := Snapshot(), queue.Now();
      queue.AbandonReceive();
      es := [];
      if Current(s).receiving.Some? {
        es := [GiveUp];
        Scheduled(c, s, GiveUp);
      }
    }

    // ---- Frames ----

    /** The current task may have a word stored there. */
    ghost predicate CanStore(out: nat)
      requires Inv() && HasCurrent(queue.Now())
      reads this, vm, stacks, queue, queue.ready, queue.ready.entries
    {
      out != 0 && out % WORD_BYTES == 0 && Reachable(out, WORD_BYTES, true)
    }

    /** The check of a place for a new handle's number. */
    method CheckOut(out: nat) returns (r: Result<(), Status>)
      requires Inv() && HasCurrent(queue.Now())
      ensures r.Ok? <==> CanStore(out)
      ensures r.Ok? ==> CopyWord(out).Ok?
    {
      if out == 0 {
        return Err(InvalidArgument);
      }
      r := CheckWord(out);
    }

    /** Allocates a frame and a handle for it, or neither. */
    method SysFrameAlloc(out: nat) returns (r: Result<nat, Status>, ghost f: nat, ghost es: seq<Event>)
      requires Callable()
      modifies vm, queue
      ensures Inv() && Tracks(old(queue.Now()), es, queue.Now())
      ensures r.Err? ==> Snapshot() == old(Snapshot()) && es == []
      ensures r.Ok? <==>
        old(CanStore(out)) && FreeSet(old(vm.pool).states) != {} && FirstNone(Current(old(queue.Now())).handles).Some?
      ensures r.Ok? ==>
        && ChangesHandles(es) && f < |old(vm.pool).states| && old(vm.pool).states[f] == FrameState.Free
        && FirstNone(Current(old(queue.Now())).handles) == Some(r.value)
        && HasSlot(old(queue.tasks), Here(old(queue.Now()), r.value))
        && Snapshot() == GainedFrame(old(Snapshot()), Here(old(queue.Now()), r.value), f)
    {
      f, es := 0, [];
      var check := CheckOut(out);
      if check.Err? {
        return Err(check.error), 0, [];
      }
      ghost var v, states := vm.view, vm.pool.states;
      var frame := vm.AllocFrame();
      QueueUntouched(queue);
      if frame.None? {
        return Err(Status.OutOfMemory), 0, [];
      }
      var slot;
      slot, es := PushFrame(frame.value, v, states);
      if slot.None? {
        return Err(Status.OutOfMemory), frame.value, [];
      }
      return Ok(slot.value), frame.value, es;
    }

    /** Everything but the state of one newly allocated frame is in order. */
    ghost predicate InvBefore(v: View, states: seq<FrameState>)
      reads this, vm, stacks, queue, queue.ready, queue.ready.entries
    {
      && queue.Valid() && vm.Valid() && vm.SharedHalf() && Pinned() && |stacks.slots| == MAX_STACKS
      && CapsOk(Snapshot().(view := v, states := states)) && TasksStacked(queue.tasks, stacks.stacks.Keys)
      && stacks.Apart(vm, v, states)
    }

    /** Pushes a handle into the caller's table, if a slot is free. */
    method PushHold(h: Handle) returns (slot: Option<nat>, ghost es: seq<Event>)
      requires queue.Valid() && Sched.Free(queue.Now())
      modifies queue`tasks
      ensures queue.Valid() && Tracks(old(queue.Now()), es, queue.Now())
      ensures slot == FirstNone(Current(old(queue.Now())).handles)
      ensures slot.None? ==> queue.Now() == old(queue.Now()) && es == []
      ensures slot.Some? ==>
        && ChangesHandles(es) && HasSlot(old(queue.tasks), Here(old(queue.Now()), slot.value))
        && queue.tasks == SetHandle(old(queue.tasks), Here(old(queue.Now()), slot.value), Some(h))
    {
      ghost var s := queue.Now();
      slot := queue.PushHandle(h);
      es := [];
      if slot.Some? {
        HoldSets(s, slot.value, Some(h));
        es := [Hold(Current(s).handles[slot.value := Some(h)])];
        TrackOne(s, es[0]);
      }
    }

    /** Puts a newly allocated frame into a handle, or gives it back. */
    method PushFrame(f: nat, ghost v: View, ghost states: seq<FrameState>)
      returns (slot: Option<nat>, ghost es: seq<Event>)
      requires InvBefore(v, states) && Sched.Free(queue.Now())
      requires vm.view == v && f < |states| && states[f] == FrameState.Free && vm.pool.states == states[f := Allocated]
      modifies vm, queue
      ensures Inv() && Tracks(old(queue.Now()), es, queue.Now())
      ensures slot == FirstNone(Current(old(queue.Now())).handles)
      ensures slot.None? ==> vm.view == v && vm.pool.states == states && queue.Now() == old(queue.Now()) && es == []
      ensures slot.Some? ==>
        && ChangesHandles(es) && HasSlot(old(queue.tasks), Here(old(queue.Now()), slot.value))
        && Snapshot() == GainedFrame(old(Snapshot()).(states := states), Here(old(queue.Now()), slot.value), f)
    {
      ghost var c, s := Snapshot().(states := states), queue.Now();
      var h := Handle(FrameObject(f), FRAME_RIGHTS);
      slot, es := PushHold(h);
      if slot.None? {
        NotHeldAsTable(v, states, vm.pool.states, f);
        vm.FreeFrame(f);
        return;
      }
      GainFrame(c, Here(s, slot.value), f);
      assert Snapshot() == GainedFrame(c, Here(s, slot.value), f);
      SetHandleStacked(s.tasks, Here(s, slot.value), Some(h), stacks.stacks.Keys);
      StacksStay(vm, stacks.stacks, v, states, vm.view, vm.pool.states);
    }

    /** Frees the frame of a Frame handle; any other handle stays where it is. */
    method SysFrameDealloc(slot: nat) returns (r: Result<(), Status>, ghost es: seq<Event>)
      requires Callable()
      modifies vm, queue
      ensures Inv() && Tracks(old(queue.Now()), es, queue.Now())
      ensures r == match HandleIn(Current(old(queue.Now())).handles, slot)
                   case None => Err(BadHandle)
                   case Some(h) => if h.target.FrameObject? then Ok(()) else Err(InvalidArgument)
      ensures r.Err? ==> Snapshot() == old(Snapshot()) && es == []
      ensures r.Ok? ==>
        var p, f := Here(old(queue.Now()), slot), HandleIn(Current(old(queue.Now())).handles, slot).value.target.frame;
        && ChangesHandles(es) && HasSlot(old(queue.tasks), p) && f < |old(vm.pool).states|
        && Snapshot() == LostFrame(old(Snapshot()), p, f)
    {
      es := [];
      ghost var c, s, v, states := Snapshot(), queue.Now(), vm.view, vm.pool.states;
      var h := queue.TakeHandle(slot);
      if h.None? {
        return Err(BadHandle), [];
      }
      HoldAgain(s, slot, h);
      if !h.value.target.FrameObject? {
        var put := queue.PutHandle(slot, h.value);
        assert put;
        return Err(InvalidArgument), [];
      }
      HoldSets(s, slot, None);
      LoseFrame(c, Here(s, slot), h.value.target.frame);
      vm.FreeFrame(h.value.target.frame);
      SetHandleStacked(s.tasks, Here(s, slot), None, stacks.stacks.Keys);
      StacksStay(vm, stacks.stacks, v, states, vm.view, vm.pool.states);
      es := [Hold(Current(s).handles[slot := None])];
      TrackOne(s, es[0]);
      return Ok(()), es;
    }

    // ---- Mappings ----

    /** Unmaps the page of a Mapping handle and turns it back into a Frame handle; any other handle
        stays where it is.  No other error is possible. */
    method SysUnmap(slot: nat) returns (r: Result<(), Status>, ghost es: seq<Event>)
      requires Callable()
      modifies vm, queue
      ensures Inv() && Tracks(old(queue.Now()), es, queue.Now())
      ensures r == match HandleIn(Current(old(queue.Now())).handles, slot)
                   case None => Err(BadHandle)
                   case Some(h) => if h.target.MappingObject? then Ok(()) else Err(InvalidArgument)
      ensures r.Err? ==> Snapshot() == old(Snapshot()) && es == []
      ensures r.Ok? ==>
        var p, h := Here(old(queue.Now()), slot), HandleIn(Current(old(queue.Now())).handles, slot).value;
        && ChangesHandles(es) && HasSlot(old(queue.tasks), p) && SpaceLives(old(Snapshot()), h.target.id)
        && PageTables.Removed(old(vm.view), old(vm.pool).states, vm.view, vm.pool.states,
                              PageIn(old(Snapshot()), h.target.id, h.target.addr))
        && Snapshot() == UnmappedFrame(old(Snapshot()), p, h.target.frame, h.rights, vm.view, vm.pool.states)
    {
      es := [];
      ghost var s := queue.Now();
      var h := queue.TakeHandle(slot);
      if h.None? {
        return Err(BadHandle), [];
      }
      HoldAgain(s, slot, h);
      if !h.value.target.MappingObject? {
        var put := queue.PutHandle(slot, h.value);
        assert put;
        return Err(InvalidArgument), [];
      }
      es := UnmapTaken(slot, h.value, s);
      return Ok(()), es;
    }

    /** Unmaps for a Mapping handle that has been taken out of its slot. */
    method UnmapTaken(slot: nat, h: Handle, ghost s: State) returns (ghost es: seq<Event>)
      requires Taken(slot, h, s) && h.target.MappingObject?
      modifies vm, queue
      ensures Inv() && Tracks(s, es, queue.Now()) && ChangesHandles(es)
      ensures
        var c, p := old(Snapshot()).(tasks := s.tasks), Here(s, slot);
        && HasSlot(s.tasks, p) && SpaceLives(c, h.target.id)
        && PageTables.Removed(old(vm.view), old(vm.pool).states, vm.view, vm.pool.states,
                              PageIn(c, h.target.id, h.target.addr))
        && Snapshot() == UnmappedFrame(c, p, h.target.frame, h.rights, vm.view, vm.pool.states)
    {
      ghost var c := Snapshot().(tasks := s.tasks);
      var frame := UnmapPage(slot, h, s);
      QueueUntouched(queue);
      assert frame == h.target.frame;
      var back := Handle(FrameObject(frame), h.rights);
      es := PutBack(slot, h, back, s);
      SetHandleStacked(s.tasks, Here(s, slot), Some(back), stacks.stacks.Keys);
      assert Snapshot() == UnmappedFrame(c, Here(s, slot), frame, h.rights, vm.view, vm.pool.states);
    }

    /** Puts a handle into the slot another was taken out of, which cannot be occupied. */
    method PutBack(slot: nat, h: Handle, back: Handle, ghost s: State) returns (ghost es: seq<Event>)
      requires queue.Valid() && SchedOk(s) && Sched.Free(s) && HandleIn(Current(s).handles, slot) == Some(h)
      requires queue.Now() == Step(s, Hold(Current(s).handles[slot := None]))
      modifies queue
      ensures queue.Valid() && Tracks(s, es, queue.Now())
      ensures HasSlot(s.tasks, Here(s, slot)) && queue.tasks == SetHandle(s.tasks, Here(s, slot), Some(back))
      ensures if back == h then es == [] && queue.Now() == s else ChangesHandles(es)
    {
      HoldAgain(s, slot, Some(back));
      HoldSets(s, slot, Some(back));
      var put := queue.PutHandle(slot, back);
      assert put;
      es := [];
      if back != h {
        es := [Hold(Current(s).handles[slot := Some(back)])];
        TrackOne(s, es[0]);
      }
    }

    /** Unmaps the page of a handle that has been taken out of its slot; its frame is found there. */
    method UnmapPage(ghost slot: nat, h: Handle, ghost s: State) returns (frame: nat)
      requires Taken(slot, h, s) && h.target.MappingObject?
      modifies vm
      ensures stacks.Valid(vm) && Pinned() && frame == h.target.frame
      ensures
        var c, p := old(Snapshot()).(tasks := s.tasks), Here(s, slot);
        && HasSlot(s.tasks, p) && SpaceLives(c, h.target.id)
        && PageTables.Removed(old(vm.view), old(vm.pool).states, vm.view, vm.pool.states,
                              PageIn(c, h.target.id, h.target.addr))
        && CapsOk(UnmappedFrame(c, p, h.target.frame, h.rights, vm.view, vm.pool.states))
    {
      var id, addr := h.target.id, h.target.addr;
      ghost var c, v, states := Snapshot().(tasks := s.tasks), vm.view, vm.pool.states;
      assert HandleOk(c, Here(s, slot));
      assert SpaceOk(c, id);
      UserAddress(vm.mode, addr);
      var result := AddressSpaces.Unmap(vm, spaces[id].value, addr, pin);
      assert result.Ok?;
      UnmapFrame(c, Here(s, slot), h.target.frame, h.rights, id, addr, vm.view, vm.pool.states);
      StacksStay(vm, stacks.stacks, v, states, vm.view, vm.pool.states);
      return result.value;
    }

    /** The checks of `sys_map` before anything changes; finds the address space to map into. */
    method CheckMap(asHandle: nat, frameHandle: nat, addr: nat, perms: nat, out: nat) returns (r: Result<nat, Status>)
      requires Callable()
      ensures r.Ok? <==> CanStore(out) && MayMap(Current(queue.Now()).handles, asHandle, frameHandle, addr, perms)
      ensures r.Ok? ==>
        && CopyWord(out).Ok?
        && r.value == HandleIn(Current(queue.Now()).handles, asHandle).value.target.id
        && SpaceLives(Snapshot(), r.value)
    {
      if out == 0 || out % WORD_BYTES != 0 {
        return Err(InvalidArgument);
      }
      if addr % PAGE_SIZE != 0 || perms >= 4 {
        return Err(InvalidArgument);
      }
      if addr + PAGE_SIZE >= WORD || addr + PAGE_SIZE > USER_SPACE_END {
        return Err(InvalidArgument);
      }
      var valid := ValidateUserRange(vm, CurrentSpace(), out, WORD_BYTES, true);
      if valid.Err? {
        return Err(valid.error);
      }
      var handles := queue.tasks[queue.current.value].value.handles;
      var a, f := HandleIn(handles, asHandle), HandleIn(handles, frameHandle);
      if a.None? {
        return Err(BadHandle);
      }
      if !a.value.target.AddressSpaceObject? || WriteRight !in a.value.rights {
        return Err(InvalidArgument);
      }
      if f.None? {
        return Err(BadHandle);
      }
      if !f.value.target.FrameObject? || !(RequiredRights(perms) <= f.value.rights) {
        return Err(InvalidArgument);
      }
      assert HandleOk(Snapshot(), Here(queue.Now(), asHandle));
      return Ok(a.value.target.id);
    }

    /** Maps the frame of a Frame handle and turns it into a Mapping handle, or changes nothing. */
    method SysMap(asHandle: nat, frameHandle: nat, addr: nat, perms: nat, out: nat)
      returns (r: Result<nat, Status>, ghost es: seq<Event>)
      requires Callable()
      modifies vm, queue
      ensures Inv() && Tracks(old(queue.Now()), es, queue.Now())
      ensures r.Err? ==> Snapshot() == old(Snapshot()) && es == []
      ensures r.Err? ==>
        || !old(CanStore(out)) || !MayMap(Current(old(queue.Now())).handles, asHandle, frameHandle, addr, perms)
        || var id := HandleIn(Current(old(queue.Now())).handles, asHandle).value.target.id;
           && SpaceLives(old(Snapshot()), id)
           && Refused(old(Snapshot()), id, addr, PermsOf(perms), vm.nxEnabled, r.error == Status.OutOfMemory)
      ensures r.Ok? ==> ChangesHandles(es) && old(CanStore(out))
      ensures r.Ok? ==>
        && r.value == frameHandle && MayMap(Current(old(queue.Now())).handles, asHandle, frameHandle, addr, perms)
        && var id, h := HandleIn(Current(old(queue.Now())).handles, asHandle).value.target.id,
                        HandleIn(Current(old(queue.Now())).handles, frameHandle).value;
           Maps(old(Snapshot()), Here(old(queue.Now()), frameHandle), h, id, addr, PermsOf(perms), Snapshot())
    {
      es := [];
      var check := CheckMap(asHandle, frameHandle, addr, perms, out);
      if check.Err? {
        return Err(check.error), [];
      }
      ghost var s := queue.Now();
      var h := queue.TakeHandle(frameHandle);
      assert h.Some? && h.value.target.FrameObject?;
      var result;
      result, es := MapTaken(frameHandle, h.value, check.value, addr, PermsOf(perms), s);
      if result.Ok? {
        return Ok(frameHandle), es;
      }
      if result.error == AlreadyMapped || result.error == UnsupportedPermissions {
        return Err(InvalidArgument), es;
      }
      assert result.error == MapError.OutOfMemory;
      return Err(Status.OutOfMemory), es;
    }

    /** Maps the frame of a handle that has been taken out of its slot; the handle goes back. */
    method MapTaken(slot: nat, h: Handle, id: nat, addr: nat, perms: Perms, ghost s: State)
      returns (r: Result<(), MapError>, ghost es: seq<Event>)
      requires Taken(slot, h, s) && h.target.FrameObject? && Target(id, addr, perms)
      modifies vm, queue
      ensures Inv() && Tracks(s, es, queue.Now())
      ensures r.Err? ==>
        r.error == AlreadyMapped || r.error == UnsupportedPermissions || r.error == MapError.OutOfMemory
      ensures r.Err? ==> Refused(old(Snapshot()), id, addr, perms, vm.nxEnabled, r.error == MapError.OutOfMemory)
      ensures r.Err? ==> Snapshot() == old(Snapshot()).(tasks := s.tasks) && es == [] && queue.Now() == s
      ensures r.Ok? ==>
        ChangesHandles(es) && Maps(old(Snapshot()).(tasks := s.tasks), Here(s, slot), h, id, addr, perms, Snapshot())
    {
      ghost var c := Snapshot().(tasks := s.tasks);
      r := MapFramePage(slot, h, id, addr, perms, s);
      var back := if r.Ok? then h.(target := MappingObject(h.target.frame, id, addr)) else h;
      es := PutBack(slot, h, back, s);
      SetHandleStacked(s.tasks, Here(s, slot), Some(back), stacks.stacks.Keys);
    }

    method MapFramePage(ghost slot: nat, h: Handle, id: nat, addr: nat, perms: Perms, ghost s: State)
      returns (r: Result<(), MapError>)
      requires Taken(slot, h, s) && h.target.FrameObject? && Target(id, addr, perms)
      modifies vm
      ensures stacks.Valid(vm) && Pinned()
      ensures r.Err? ==>
        r.error == AlreadyMapped || r.error == UnsupportedPermissions || r.error == MapError.OutOfMemory
      ensures r.Err? ==> Refused(old(Snapshot()), id, addr, perms, vm.nxEnabled, r.error == MapError.OutOfMemory)
      ensures r.Err? ==> vm.view == old(vm.view) && vm.pool.states == old(vm.pool).states
      ensures r.Ok? ==>
        var c, p := old(Snapshot()).(tasks := s.tasks), Here(s, slot);
        && HasSlot(s.tasks, p)
        && var c' := MappedFrame(c, p, h.target.frame, h.rights, id, addr, vm.view, vm.pool.states);
           CapsOk(c') && Maps(c, p, h, id, addr, perms, c')
    {
      var frame := h.target.frame;
      ghost var c, v, states := Snapshot().(tasks := s.tasks), vm.view, vm.pool.states;
      assert HandleOk(c, Here(s, slot));
      assert SpaceOk(c, id);
      r := MapUser(vm, spaces[id].value, frame, addr, perms);
      if r.Ok? {
        MapFrame(c, Here(s, slot), frame, h.rights, id, addr, Entry(true, perms, false, false, false, frame), vm.view,
                 vm.pool.states);
        StacksStay(vm, stacks.stacks, v, states, vm.view, vm.pool.states);
      }
    }

    /** A live user space and an address and permissions it accepts. */
    ghost predicate Target(id: nat, addr: nat, perms: Perms)
      reads this, vm, stacks, queue
    {
      SpaceLives(Snapshot(), id) && addr % PAGE_SIZE == 0 && addr < USER_SPACE_END && perms.user
    }

    /** Everything is as in s, except that the current task's handle h is out of its slot. */
    ghost predicate Taken(slot: nat, h: Handle, s: State)
      reads this, vm, stacks, queue, queue.ready, queue.ready.entries
    {
      && queue.Valid() && stacks.Valid(vm) && Pinned() && SchedOk(s) && Sched.Free(s)
      && HandleIn(Current(s).handles, slot) == Some(h)
      && queue.Now() == Step(s, Hold(Current(s).handles[slot := None]))
      && CapsOk(Snapshot().(tasks := s.tasks)) && TasksStacked(s.tasks, stacks.stacks.Keys)
    }

    // ---- Address spaces ----

    /** Makes an address space and a handle for it, or neither. */
    method SysAsCreate(out: nat) returns (r: Result<nat, Status>, ghost id: nat, ghost root: nat, ghost es: seq<Event>)
      requires Callable()
      modifies this`spaces, vm, queue
      ensures Inv() && Tracks(old(queue.Now()), es, queue.Now())
      ensures r.Err? ==> Snapshot() == old(Snapshot()) && es == []
      ensures r.Ok? <==>
        && old(CanStore(out)) && FreeSet(old(vm.pool).states) != {}
        && FirstNone(old(spaces)).Some? && FirstNone(Current(old(queue.Now())).handles).Some?
      ensures r.Ok? ==>
        && ChangesHandles(es) && FirstNone(old(spaces)) == Some(id)
        && FirstNone(Current(old(queue.Now())).handles) == Some(r.value)
      ensures r.Ok? ==> NewSpace(old(Snapshot()), Here(old(queue.Now()), r.value), id, root, Snapshot())
    {
      id, root, es := 0, 0, [];
      var check := CheckOut(out);
      if check.Err? {
        return Err(check.error), 0, 0, [];
      }
      ghost var v, states, mem := vm.view, vm.pool.states, vm.mem;
      var made := MakeRoot();
      if made.None? {
        return Err(Status.OutOfMemory), 0, 0, [];
      }
      var slot;
      slot, id, es := InsertSpace(made.value, v, states, mem);
      if slot.None? {
        return Err(Status.OutOfMemory), id, made.value, es;
      }
      return Ok(slot.value), id, made.value, es;
    }

    /** A root for a new address space, with the kernel's half taken from the caller's. */
    method MakeRoot() returns (r: Option<nat>)
      requires Callable()
      modifies vm
      ensures r.Some? <==> FreeSet(old(vm.pool).states) != {}
      ensures r.None? ==> Inv() && vm.view == old(vm.view) && vm.pool.states == old(vm.pool).states
      ensures r.Some? ==> RootMade(r.value, old(vm.view), old(vm.pool).states, old(vm.mem))
    {
      assert !MapSteps.FreeAbove(vm.pool.states, vm.frameLimit);
      var made := vm.NewUser(CurrentSpace().value.root);
      if made.Err? {
        assert made.error == PageTables.CreateTooLarge || made.error == PageTables.CreateOutOfFrames;
        return None;
      }
      return Some(made.value);
    }

    /** What holds after a root has been made for a new address space. */
    ghost predicate RootMade(f: nat, v: View, states: seq<FrameState>, mem: Memory)
      reads this, vm, stacks, queue, queue.ready, queue.ready.entries
    {
      && InvBefore(v, states) && Tree(vm.Sh(), mem, v) && Backed(v, states) && Key(f, 0, 0) !in v.nodes
      && Key(vm.kernelRoot, 0, 0) in v.nodes
      && f < |states| && states[f] == FrameState.Free && vm.pool.states == states[f := Allocated]
      && vm.view == RootView(v, f)
    }

    /** Enters a new address space and a handle for it, or destroys it again. */
    method InsertSpace(f: nat, ghost v: View, ghost states: seq<FrameState>, ghost mem: Memory)
      returns (slot: Option<nat>, ghost id: nat, ghost es: seq<Event>)
      requires RootMade(f, v, states, mem) && Sched.Free(queue.Now())
      modifies this`spaces, vm, queue
      ensures Inv() && Tracks(old(queue.Now()), es, queue.Now())
      ensures slot.Some? <==> FirstNone(old(spaces)).Some? && FirstNone(Current(old(queue.Now())).handles).Some?
      ensures slot.None? ==>
        vm.view == v && vm.pool.states == states && spaces == old(spaces) && queue.Now() == old(queue.Now()) && es == []
      ensures slot.Some? ==>
        && ChangesHandles(es) && FirstNone(old(spaces)) == Some(id)
        && FirstNone(Current(old(queue.Now())).handles) == slot
        && NewSpace(old(Snapshot()).(view := v, states := states), Here(old(queue.Now()), slot.value), id, f,
                    Snapshot())
    {
      id, es := 0, [];
      var entry := FirstNone(spaces);
      if entry.None? {
        DropSpace(f, v, states, mem);
        return None, 0, [];
      }
      slot, es := GiveSpace(entry.value, f, v, states, mem);
      if slot.None? {
        DropSpace(f, v, states, mem);
      }
      return slot, entry.value, es;
    }

    /** Enters a new address space and pushes a handle for it, or takes it out of the table again. */
    method GiveSpace(id: nat, f: nat, ghost v: View, ghost states: seq<FrameState>, ghost mem: Memory)
      returns (slot: Option<nat>, ghost es: seq<Event>)
      requires RootMade(f, v, states, mem) && Sched.Free(queue.Now()) && id < |spaces| && spaces[id].None?
      modifies this`spaces, queue
      ensures slot == FirstNone(Current(old(queue.Now())).handles)
      ensures slot.None? ==>
        RootMade(f, v, states, mem) && spaces == old(spaces) && queue.Now() == old(queue.Now()) && es == []
      ensures slot.Some? ==>
        && Inv() && Tracks(old(queue.Now()), es, queue.Now()) && ChangesHandles(es)
        && NewSpace(old(Snapshot()).(view := v, states := states), Here(old(queue.Now()), slot.value), id, f,
                    Snapshot())
    {
      ghost var s, c := queue.Now(), Snapshot().(view := v, states := states);
      spaces := spaces[id := Some(AddressSpace(f, User))];
      var h := Handle(AddressSpaceObject(id), BASIC_RIGHTS);
      slot, es := PushHold(h);
      if slot.None? {
        spaces := spaces[id := None];
        assert spaces == c.spaces;
        return;
      }
      SpaceGiven(c, s, slot.value, id, f, vm.Sh(), mem);
      SetHandleStacked(s.tasks, Here(s, slot.value), Some(h), stacks.stacks.Keys);
      StacksStay(vm, stacks.stacks, v, states, vm.view, vm.pool.states);
    }

    /** The page table in use, which is the current task's. */
    method LoadedRoot(ghost v: View, ghost states: seq<FrameState>) returns (root: nat)
      requires InvBefore(v, states) && HasCurrent(queue.Now())
      ensures Key(root, 0, 0) in v.nodes && root != vm.kernelRoot
    {
      ghost var c := Snapshot().(view := v, states := states);
      assert TcbOk(c, queue.current.value);
      assert SpaceOk(c, queue.active);
      return spaces[queue.active].value.root;
    }

    /** Destroys an address space that was just made. */
    method DropSpace(f: nat, ghost v: View, ghost states: seq<FrameState>, ghost mem: Memory)
      requires RootMade(f, v, states, mem) && HasCurrent(queue.Now())
      modifies vm
      ensures Inv() && vm.view == v && vm.pool.states == states
    {
      var active := LoadedRoot(v, states);
      ghost var mem1, s1 := vm.mem, vm.pool.states;
      UnmapSteps.RootsNamed(vm.Sh(), mem, v);
      assert v.nodes[Key(vm.kernelRoot, 0, 0)] == vm.kernelRoot;
      vm.DestroyUser(f, active);
      QueueUntouched(queue);
      SpaceUndone(vm.Sh(), mem, v, states, f, mem1, s1, vm.mem, vm.view, vm.pool.states);
    }

    // ---- Tasks ----

    /** What a caller needs in order to start a task: an address space to execute in, a mapped
        executable entry and a writable last byte of stack. */
    ghost predicate MayStart(asHandle: nat, entry: nat, userStack: nat)
      requires Inv() && HasCurrent(queue.Now())
      reads this, vm, stacks, queue, queue.ready, queue.ready.entries
    {
      var a := HandleIn(Current(queue.Now()).handles, asHandle);
      && entry != 0 && userStack != 0 && entry < USER_SPACE_END && userStack <= USER_SPACE_END
      && a.Some? && a.value.target.AddressSpaceObject? && ExecuteRight in a.value.rights
      && SpaceLives(Snapshot(), a.value.target.id)
      && var root := spaces[a.value.target.id].value.root;
         && ByteOk(vm.mem, vm.mode, root, userStack - 1, true)
         && var m := MappingAt(vm.mem, vm.mode, root, entry); m.Some? && m.value.user && m.value.executable
    }

    /** The checks of `sys_task_create`; finds the address space of the new task. */
    method CheckTask(asHandle: nat, entry: nat, userStack: nat, out: nat) returns (r: Result<nat, Status>)
      requires Callable()
      ensures r.Ok? <==> CanStore(out) && MayStart(asHandle, entry, userStack)
      ensures r.Ok? ==> ObjectAt(queue.tasks, Here(queue.Now(), asHandle)) == Some(AddressSpaceObject(r.value))
      ensures r.Ok? ==> SpaceLives(Snapshot(), r.value)
    {
      if entry == 0 || userStack == 0 || out == 0 {
        return Err(InvalidArgument);
      }
      if entry >= USER_SPACE_END || userStack > USER_SPACE_END {
        return Err(BadAddress);
      }
      var word := CheckWord(out);
      if word.Err? {
        return Err(word.error);
      }
      var a := HandleIn(queue.tasks[queue.current.value].value.handles, asHandle);
      if a.None? {
        return Err(BadHandle);
      }
      if !a.value.target.AddressSpaceObject? || ExecuteRight !in a.value.rights {
        return Err(InvalidArgument);
      }
      assert HandleOk(Snapshot(), Here(queue.Now(), asHandle));
      r := CheckStart(a.value.target.id, entry, userStack);
    }

    method CheckStart(id: nat, entry: nat, userStack: nat) returns (r: Result<nat, Status>)
      requires id < |spaces| && spaces[id].Some? && 0 < userStack <= USER_SPACE_END
      ensures r.Ok? ==> r.value == id
      ensures r.Ok? <==>
        && ByteOk(vm.mem, vm.mode, spaces[id].value.root, userStack - 1, true)
        && var m := MappingAt(vm.mem, vm.mode, spaces[id].value.root,
                              entry); m.Some? && m.value.user && m.value.executable
    {
      var root := spaces[id].value.root;
      assert RangeOk(vm.mem, vm.mode, root, userStack - 1, userStack, true) <==>
        ByteOk(vm.mem, vm.mode, root, userStack - 1, true);
      var probe := ValidateUserRange(vm, spaces[id], userStack - 1, 1, true);
      if probe.Err? {
        return Err(probe.error);
      }
      var mapping := vm.Mapping(root, entry);
      if mapping.None? || !mapping.value.user || !mapping.value.executable {
        return Err(BadAddress);
      }
      return Ok(id);
    }

    /** A kernel stack can be had: some slot is clear, pages can be made non-executable, and there are
        frames enough for the pages of the lowest clear slot and their tables. */
    ghost predicate CanStack()
      reads this, vm, stacks
    {
      vm.nxEnabled && exists slot: nat, left: nat :: SlotAffords(slot, left)
    }

    ghost predicate SlotAffords(slot: nat, left: int)
      reads this, vm, stacks
    {
      && slot < |stacks.slots| && !stacks.slots[slot] && (forall t :: 0 <= t < slot ==> stacks.slots[t])
      && Affords(vm.mode, vm.view, vm.pool.states, vm.kernelRoot, SlotStart(slot), 0, KERNEL_STACK_PAGES, 1, left)
    }

    /** A stack can be had, but no task. */
    ghost predicate StackLeft()
      reads this, vm, stacks, queue
    {
      CanStack() && FirstNone(queue.tasks).None?
    }

    /** A stack and a task can be had, so that a failure after that undoes both. */
    ghost predicate StackUndone()
      reads this, vm, stacks, queue
    {
      CanStack() && FirstNone(queue.tasks).Some?
    }

    /** The arguments of a task creation are right. */
    ghost predicate RightTask(asHandle: nat, entry: nat, userStack: nat, out: nat)
      requires Inv() && HasCurrent(queue.Now())
      reads this, vm, stacks, queue, queue.ready, queue.ready.entries
    {
      CanStore(out) && MayStart(asHandle, entry, userStack)
    }

    /** Allocates a kernel stack; on failure nothing is owned that was not owned before, but the bit of the
        slot stays set. */
    method AllocStack() returns (r: Result<StackMapping, StackError>, ghost slot: nat)
      requires Callable()
      modifies vm, stacks
      ensures Inv()
      ensures r.Ok? <==> old(CanStack())
      ensures stacks.slots == Marked(old(stacks.slots))
      ensures r.Err? ==> Snapshot() == old(Snapshot())
      ensures r.Ok? ==>
        && Raised(old(vm.view), old(vm.pool).states, old(stacks.stacks), slot) && r.value.top == SlotTop(slot)
        && slot < |stacks.slots| && stacks.slots[slot := false] == old(stacks.slots)
        && vm.pool.states != old(vm.pool).states
      ensures r.Ok? ==> Snapshot() == WithStack(old(Snapshot()), vm.view, vm.pool.states, FramesOf(stacks.stacks[slot]))
    {
      ghost var c, before, mem := Snapshot(), stacks.stacks, vm.mem;
      ghost var left;
      r, slot, left := TryStack();
      QueueUntouched(queue);
      if r.Ok? {
        StackGained(vm, c, before, slot, stacks.stacks[slot], mem, vm.view, vm.pool.states, pin);
        MoreSlots(queue.tasks, before.Keys, stacks.stacks.Keys);
        assert Snapshot() == WithStack(c, vm.view, vm.pool.states, FramesOf(stacks.stacks[slot]));
      }
    }

    /** Asks the pool for a stack. */
    method TryStack() returns (r: Result<StackMapping, StackError>, ghost slot: nat, ghost left: int)
      requires stacks.Valid(vm) && Pinned()
      modifies vm, stacks
      ensures stacks.Valid(vm)
      ensures r.Ok? <==> old(CanStack())
      ensures stacks.slots == Marked(old(stacks.slots))
      ensures r.Err? ==>
        vm.view == old(vm.view) && vm.pool.states == old(vm.pool).states && stacks.stacks == old(stacks.stacks)
      ensures r.Ok? ==>
        && slot < MAX_STACKS && slot !in old(stacks.stacks) && stacks.Allocated(vm, r, slot, left)
        && slot < |stacks.slots| && stacks.slots[slot := false] == old(stacks.slots)
        && vm.pool.states != old(vm.pool).states
    {
      NotFreeAbove(vm.view, vm.pool.states, vm.kernelRoot, vm.frameLimit);
      r, slot, left := stacks.Allocate(vm, pin);
      if r.Ok? {
        ClearAgain(old(stacks.slots), slot);
        StackTakesFrames(old(vm.view), old(vm.pool).states, stacks.stacks[slot], vm.view, vm.pool.states,
                         vm.kernelRoot);
      }
      if r == Err(OutOfStacks) {
        MarkedTaken(old(stacks.slots));
      } else {
        MarkedLowest(old(stacks.slots), slot);
        assert old(SlotAffords(slot, left));
        forall t: nat, other: int | old(SlotAffords(t, other))
          ensures t == slot && other == left
        {
          AffordsUnique(vm.mode, old(vm.view), old(vm.pool).states, vm.kernelRoot, SlotStart(slot), 0,
                        KERNEL_STACK_PAGES, 1, left, other);
        }
      }
    }

    /** One more stack stands than before, in `slot`, and destroying it would bring back v and s. */
    ghost predicate Raised(v: View, s: seq<FrameState>, before: map<nat, seq<Item>>, slot: nat)
      reads this, vm, stacks
    {
      && slot !in before && slot in stacks.stacks && stacks.stacks == before[slot := stacks.stacks[slot]]
      && pin in v.maps && |s| == |vm.pool.states| && Undoable(vm, v, s, stacks.stacks[slot], vm.view, vm.pool.states)
    }

    /** Destroys a stack that has just been allocated. */
    method FreeStack(stack: StackMapping, ghost slot: nat, ghost v: View, ghost s: seq<FrameState>,
                     ghost before: map<nat, seq<Item>>)
      requires stacks.Valid(vm) && Pinned() && Raised(v, s, before, slot) && stack.top == SlotTop(slot)
      modifies vm, stacks
      ensures stacks.Valid(vm) && Pinned()
      ensures vm.view == v && vm.pool.states == s && stacks.stacks == before
      ensures slot < |old(stacks.slots)| && stacks.slots == old(stacks.slots)[slot := false]
    {
      stacks.Free(vm, stack, slot, pin);
      assert Tree(vm.Sh(), vm.mem, vm.view);
      assert stacks.stacks == before;
    }

    /** Puts a task on a stack that no task uses, and a handle for it into the caller's table.  When the
        task table is full the stack stays allocated; when the handle table is full all is undone. */
    method LaunchTask(id: nat, stack: StackMapping, ghost slot: nat, ghost c: Caps, ghost before: map<nat, seq<Item>>)
      returns (r: Result<nat, Status>, ghost es: seq<Event>)
      requires Callable() && Raised(c.view, c.states, before, slot) && stack.top == SlotTop(slot) && slot !in before
      requires SpaceLives(Snapshot(), id) && OwnedBefore(c, before) && c.tasks == queue.tasks
      modifies vm, stacks, queue, queue.ready, queue.ready.entries
      ensures Inv() && Tracks(old(queue.Now()), es, queue.Now())
      ensures r.Ok? <==> FirstNone(c.tasks).Some? && FirstNone(Current(old(queue.Now())).handles).Some?
      ensures r.Err? ==> queue.Now() == old(queue.Now()) && es == []
      ensures r.Ok? ==> MakesTask(es) && FirstNone(Current(old(queue.Now())).handles) == Some(r.value)
      ensures FirstNone(c.tasks).None? ==> r.Err? && Snapshot() == old(Snapshot())
      ensures FirstNone(c.tasks).Some? && r.Err? ==> Snapshot() == c
      ensures stacks.slots ==
        if slot < |old(stacks.slots)| && FirstNone(c.tasks).Some? && r.Err? then old(stacks.slots)[slot := false]
        else old(stacks.slots)
      ensures r.Ok? ==>
        && FirstNone(c.tasks).Some?
        && NewTaskRuns(old(Snapshot()), Here(old(queue.Now()), r.value), FirstNone(c.tasks).value, id, stack.top,
                       Snapshot())
    {
      ghost var s := queue.Now();
      var t := EnrolTask(id, stack, slot, before);
      if t.None? {
        return Err(Status.OutOfMemory), [];
      }
      ghost var x := QueuedTask(id, stack.top, t.value);
      assert Snapshot() == old(Snapshot()).(tasks := queue.tasks);
      r, es := OfferTask(t.value, stack, slot, c, before, s, x);
    }

    /** Gives the caller a handle for a task just queued, or takes the task and its stack away again. */
    method OfferTask(t: nat, stack: StackMapping, ghost slot: nat, ghost c: Caps, ghost before: map<nat, seq<Item>>,
                     ghost s: State, ghost x: Tcb)
      returns (r: Result<nat, Status>, ghost es: seq<Event>)
      requires Callable() && Enrolled(t, x, s)
      requires Raised(c.view, c.states, before, slot) && stack.top == SlotTop(slot)
      requires OwnedBefore(c, before) && c.tasks == s.tasks
      modifies vm, stacks, queue, queue.ready, queue.ready.entries
      ensures Inv() && Tracks(s, es, queue.Now())
      ensures r.Ok? <==> FirstNone(Current(old(queue.Now())).handles).Some?
      ensures r.Err? ==> queue.Now() == s && Snapshot() == c && es == []
      ensures stacks.slots ==
        if slot < |old(stacks.slots)| && r.Err? then old(stacks.slots)[slot := false] else old(stacks.slots)
      ensures r.Ok? ==>
        && MakesTask(es) && FirstNone(Current(old(queue.Now())).handles) == Some(r.value)
        && HasSlot(old(queue.tasks), Here(s, r.value))
        && Snapshot() == old(Snapshot()).(
             tasks := SetHandle(old(queue.tasks), Here(s, r.value), Some(Handle(ThreadObject(t), BASIC_RIGHTS))))
    {
      var handle;
      handle, es := GiveThread(t, s, x);
      if handle.None? {
        Withdraw(t, stack, slot, c, before, s, x);
        return Err(Status.OutOfMemory), [];
      }
      return Ok(handle.value), es;
    }

    /** What the kernel owned before a stack was allocated. */
    ghost predicate OwnedBefore(c: Caps, before: map<nat, seq<Item>>)
      reads this
    {
      && CapsOk(c) && TasksStacked(c.tasks, before.Keys)
      && c == Caps(vm.mode, vm.kernelRoot, c.view, c.states, c.tasks, spaces, StackFrames(before), boot, bootPages)
    }

    /** The new task x is queued in entry t, from state s. */
    ghost predicate Enrolled(t: nat, x: Tcb, s: State)
      reads queue, queue.ready, queue.ready.entries
    {
      && SchedOk(s) && Sched.Free(s) && Enabled(s, Create(x)) && FirstNone(s.tasks) == Some(t)
      && queue.ready.Valid() && queue.Now() == Step(s, Create(x))
    }

    /** Queues a new task, on the stack in `slot`. */
    method EnrolTask(id: nat, stack: StackMapping, ghost slot: nat, ghost before: map<nat, seq<Item>>)
      returns (t: Option<nat>)
      requires Callable() && SpaceLives(Snapshot(), id) && stack.top == SlotTop(slot)
      requires TasksStacked(queue.tasks, before.Keys) && slot !in before && stacks.stacks.Keys == before.Keys + {slot}
      modifies queue, queue.ready, queue.ready.entries
      ensures Callable() && t == FirstNone(old(queue.tasks))
      ensures t.None? ==> queue.Now() == old(queue.Now())
      ensures t.Some? ==>
        && Enrolled(t.value, QueuedTask(id, stack.top, t.value), old(queue.Now()))
        && queue.tasks == old(queue.tasks)[t.value := Some(QueuedTask(id, stack.top, t.value))]
        && Current(queue.Now()) == Current(old(queue.Now()))
    {
      ghost var s, c := queue.Now(), Snapshot();
      FirstHandles(id, stack.top);
      t := queue.AddTask(NewTask(id, stack.top));
      assert stacks.Valid(vm);
      if t.Some? {
        TaskEnrolled(c, s, before.Keys, QueuedTask(id, stack.top, t.value), slot);
        assert Snapshot() == c.(tasks := queue.tasks);
      }
    }

    /** Gives the caller a handle for a new task. */
    method GiveThread(t: nat, ghost s: State, ghost x: Tcb) returns (slot: Option<nat>, ghost es: seq<Event>)
      requires Callable() && Enrolled(t, x, s)
      modifies queue
      ensures Callable()
      ensures slot == FirstNone(Current(old(queue.Now())).handles)
      ensures slot.None? ==> queue.Now() == old(queue.Now())
      ensures slot.Some? ==>
        && Tracks(s, es, queue.Now()) && MakesTask(es) && HasSlot(old(queue.tasks), Here(s, slot.value))
        && Snapshot() == old(Snapshot()).(
             tasks := SetHandle(old(queue.tasks), Here(s, slot.value), Some(Handle(ThreadObject(t), BASIC_RIGHTS))))
    {
      ghost var s1, c := queue.Now(), Snapshot();
      var h := Handle(ThreadObject(t), BASIC_RIGHTS);
      slot := queue.PushHandle(h);
      es := [];
      if slot.Some? {
        HoldSets(s1, slot.value, Some(h));
        GiveHandle(c, Here(s1, slot.value), h);
        SetHandleStacked(s1.tasks, Here(s1, slot.value), Some(h), stacks.stacks.Keys);
        es := CreatedThenHeld(s, x, Current(s1).handles[slot.value := Some(h)]);
      }
    }

    method Unqueue(t: nat, ghost s: State, ghost x: Tcb)
      requires queue.Valid() && Enrolled(t, x, s)
      modifies queue, queue.ready, queue.ready.entries
      ensures queue.Valid() && queue.Now() == s
    {
      CreateDiscard(s, x);
      var _ := queue.RemoveTask(t);
    }

    /** Removes a task that has just been queued, and its stack. */
    method Withdraw(t: nat, stack: StackMapping, ghost slot: nat, ghost c: Caps, ghost before: map<nat, seq<Item>>,
                    ghost s: State, ghost x: Tcb)
      requires queue.Valid() && Enrolled(t, x, s)
      requires stacks.Valid(vm) && Pinned() && Raised(c.view, c.states, before, slot) && stack.top == SlotTop(slot)
      requires OwnedBefore(c, before) && c.tasks == s.tasks
      modifies vm, stacks, queue, queue.ready, queue.ready.entries
      ensures Inv() && queue.Now() == s && Snapshot() == c
      ensures slot < |old(stacks.slots)| && stacks.slots == old(stacks.slots)[slot := false]
    {
      Unqueue(t, s, x);
      FreeStack(stack, slot, c.view, c.states, before);
      assert Snapshot() == c;
    }

    /** Starts a task in an address space of the caller's, with a kernel stack of its own.  Two failures leave
        something behind: with a full task table the new stack stays, and when no stack can be built the
        bit of the lowest clear slot stays set. */
    method SysTaskCreate(asHandle: nat, entry: nat, userStack: nat, out: nat)
      returns (r: Result<nat, Status>, ghost id: nat, ghost held: set<nat>, ghost top: nat, ghost es: seq<Event>)
      requires Callable()
      modifies vm, stacks, queue, queue.ready, queue.ready.entries
      ensures Inv() && Tracks(old(queue.Now()), es, queue.Now())
      ensures r.Ok? <==>
        && old(CanStore(out)) && old(MayStart(asHandle, entry, userStack)) && old(CanStack())
        && FirstNone(old(queue.tasks)).Some? && FirstNone(Current(old(queue.Now())).handles).Some?
      ensures r.Err? ==> queue.Now() == old(queue.Now()) && es == []
      ensures r.Ok? ==> MakesTask(es) && FirstNone(Current(old(queue.Now())).handles) == Some(r.value)
      ensures r.Err? ==>
        (Snapshot() == old(Snapshot()) <==> !(old(RightTask(asHandle, entry, userStack, out)) && old(StackLeft())))
      ensures r.Err? && old(RightTask(asHandle, entry, userStack, out)) && old(StackLeft()) ==>
        Snapshot() == WithStack(old(Snapshot()), vm.view, vm.pool.states, held)
      ensures stacks.slots ==
        if !old(RightTask(asHandle, entry, userStack, out)) || (r.Err? && old(StackUndone())) then old(stacks.slots)
        else Marked(old(stacks.slots))
      ensures r.Err? ==>
        (stacks.slots == old(stacks.slots) <==>
           || !old(RightTask(asHandle, entry, userStack, out)) || AllTaken(old(stacks.slots)) || old(StackUndone()))
      ensures r.Ok? ==> ObjectAt(old(queue.tasks), Here(old(queue.Now()), asHandle)) == Some(AddressSpaceObject(id))
      ensures r.Ok? ==>
        NewTaskRuns(WithStack(old(Snapshot()), vm.view, vm.pool.states, held),
                    Here(old(queue.Now()), r.value), FirstNone(old(queue.tasks)).value, id, top, Snapshot())
    {
      id, held, top, es := 0, {}, 0, [];
      var check := CheckTask(asHandle, entry, userStack, out);
      if check.Err? {
        return Err(check.error), 0, {}, 0, [];
      }
      MarkedSame(stacks.slots);
      r, held, top, es := StartTask(check.value);
      return r, check.value, held, top, es;
    }

    /** Starts a task in a live address space. */
    method StartTask(id: nat)
      returns (r: Result<nat, Status>, ghost held: set<nat>, ghost top: nat, ghost es: seq<Event>)
      requires Callable() && SpaceLives(Snapshot(), id)
      modifies vm, stacks, queue, queue.ready, queue.ready.entries
      ensures Inv() && Tracks(old(queue.Now()), es, queue.Now())
      ensures r.Ok? <==>
        old(CanStack()) && FirstNone(old(queue.tasks)).Some? && FirstNone(Current(old(queue.Now())).handles).Some?
      ensures r.Err? ==> queue.Now() == old(queue.Now()) && es == []
      ensures r.Ok? ==> MakesTask(es) && FirstNone(Current(old(queue.Now())).handles) == Some(r.value)
      ensures r.Err? ==> (Snapshot() == old(Snapshot()) <==> !old(StackLeft()))
      ensures r.Err? && old(StackLeft()) ==>
        Snapshot() == WithStack(old(Snapshot()), vm.view, vm.pool.states, held)
      ensures stacks.slots == if r.Err? && old(StackUndone()) then old(stacks.slots) else Marked(old(stacks.slots))
      ensures r.Ok? ==>
        && FirstNone(old(queue.tasks)).Some?
        && NewTaskRuns(WithStack(old(Snapshot()), vm.view, vm.pool.states, held),
                       Here(old(queue.Now()), r.value), FirstNone(old(queue.tasks)).value, id, top, Snapshot())
    {
      ghost var c, before := Snapshot(), stacks.stacks;
      var stack, slot := AllocStack();
      if stack.Err? {
        return Err(Status.OutOfMemory), {}, 0, [];
      }
      held, top := FramesOf(stacks.stacks[slot]), stack.value.top;
      ghost var c1 := Snapshot();
      assert c1 != c;
      r, es := LaunchTask(id, stack.value, slot, c, before);
      assert r.Err? ==> Snapshot() == if FirstNone(c.tasks).None? then c1 else c;
    }

    // ---- Runs ----

    ghost function AtNow(): Moment
      reads this, vm, stacks, queue, queue.ready, queue.ready.entries
      requires queue.ready.Valid()
    {
      Moment(Snapshot(), queue.Now(), vm.mem, stacks.slots, vm.nxEnabled)
    }

    /** What the current task may access is part of the moment. */
    lemma AccessAgrees()
      requires Inv() && HasCurrent(queue.Now())
      ensures RootOf(AtNow()) == Some(CurrentSpace().value.root)
      ensures forall addr, len, writable {:trigger MayAccess(AtNow(), addr, len, writable)} ::
        MayAccess(AtNow(), addr, len, writable) <==> Reachable(addr, len, writable)
    {
      assert TcbOk(Snapshot(), queue.current.value);
    }

    lemma StoresAgree(out: nat)
      requires Inv() && HasCurrent(queue.Now())
      ensures MayStore(AtNow(), out) <==> CanStore(out)
    {
      AccessAgrees();
    }

    lemma ReceivesAgree(args: ReceiveArgs)
      requires Inv() && HasCurrent(queue.Now())
      ensures MayReceive(AtNow(), args) <==> CanReceive(args.out, args.maxLen, args.outLen, args.outSender)
    {
      AccessAgrees();
    }

    lemma TasksAgree(asHandle: nat, entry: nat, userStack: nat, out: nat)
      requires Inv() && HasCurrent(queue.Now())
      ensures MayStore(AtNow(), out) && MayBegin(AtNow(), asHandle, entry, userStack)
         <==> RightTask(asHandle, entry, userStack, out)
    {
      StoresAgree(out);
    }

    lemma StacksAgree()
      requires Inv() && HasCurrent(queue.Now())
      ensures StackFor(AtNow()) <==> CanStack()
    {
      forall slot: nat, left: nat
        ensures SlotPays(AtNow(), slot, left) <==> SlotAffords(slot, left)
      {
      }
    }

    /** One system call of the current task; a task that was blocked inside a receive goes on with that
        receive instead, with the arguments it was called with. */
    method Serve(call: Call) returns (halted: bool, ghost es: seq<Event>)
      requires Inv() && HasCurrent(queue.Now())
      modifies this`spaces, vm, stacks, queue, queue.ready, queue.ready.entries
      ensures Inv() && Answered(call, old(AtNow()), es, AtNow())
      ensures halted <==> Halts(call, old(AtNow()))
    {
      halted := false;
      var pending := queue.tasks[queue.current.value].value.receiving;
      if pending.Some? {
        es := ServePending(call, pending.value);
        return;
      }
      if call.UserStore? {
        halted, es := Store(call.addr, call.data);
      } else if call.CallYield? || call.CallExit? || call.CallSend? || call.CallReceive? {
        halted, es := ServeScheduling(call);
      } else {
        es := ServeMemory(call);
      }
    }

    /** A store by the current task's own code, through the translation that its page table gives: it reaches
        no table, and leaves every translation of every space as it was.  A store that is not allowed ends
        the task. */
    method Store(addr: nat, data: Table) returns (halted: bool, ghost es: seq<Event>)
      requires Callable()
      modifies vm, queue, queue.ready
      ensures Inv() && Answered(UserStore(addr, data), old(AtNow()), es, AtNow())
      ensures halted <==> Halts(UserStore(addr, data), old(AtNow()))
      ensures ReadsKept(vm.Sh(), vm.mode, old(vm.mem), vm.mem, vm.view)
    {
      ghost var mem := vm.mem;
      AccessAgrees();
      assert MayAccess(AtNow(), addr, 1, true) <==> Reachable(addr, 1, true);
      var allowed := ValidateUserRange(vm, CurrentSpace(), addr, 1, true);
      if allowed.Ok? {
        halted, es := false, [];
        StoreAt(CurrentSpace().value.root, addr, data);
      } else {
        halted, es := SysExit();
      }
      SameViewReads(vm.Sh(), vm.mode, mem, vm.mem, vm.view);
    }

    method StoreAt(root: nat, addr: nat, data: Table)
      requires Callable() && CurrentSpace().value.root == root && Reachable(addr, 1, true)
      modifies vm
      ensures Inv() && Snapshot() == old(Snapshot()) && queue.Now() == old(queue.Now())
      ensures vm.mem ==
        if Translate(old(vm.mem), vm.mode, root, addr).Some? && |data| == 512
           && Translate(old(vm.mem), vm.mode, root, addr).value / PAGE_SIZE in old(vm.mem)
        then old(vm.mem)[Translate(old(vm.mem), vm.mode, root, addr).value / PAGE_SIZE := data] else old(vm.mem)
    {
      var phys := vm.ToPhysical(root, addr);
      if phys.Some? && |data| == 512 {
        assert TcbOk(Snapshot(), queue.current.value);
        StoreOutsideTables(Snapshot(), vm.Sh(), vm.mem, Current(queue.Now()).space, addr, phys.value);
        WriteFrame(phys.value / PAGE_SIZE, data);
      }
    }

    method WriteFrame(f: nat, data: Table)
      requires Callable() && f !in vm.view.nodes.Values && |data| == 512
      modifies vm
      ensures Inv() && Snapshot() == old(Snapshot()) && queue.Now() == old(queue.Now())
      ensures vm.mem == if f in old(vm.mem) then old(vm.mem)[f := data] else old(vm.mem)
    {
      if f in vm.mem {
        vm.Overwrite(f, data);
        QueueUntouched(queue);
      }
    }

    method ServePending(call: Call, args: ReceiveArgs) returns (ghost es: seq<Event>)
      requires Inv() && HasCurrent(queue.Now()) && Current(queue.Now()).receiving == Some(args)
      modifies queue
      ensures Inv() && Answered(call, old(AtNow()), es, AtNow())
    {
      ReceivesAgree(args);
      var _, es' := FinishReceive(args.out, args.maxLen, args.outLen, args.outSender);
      es := es';
    }

    /** The calls about scheduling and messages. */
    method ServeScheduling(call: Call) returns (halted: bool, ghost es: seq<Event>)
      requires Callable() && (call.CallYield? || call.CallExit? || call.CallSend? || call.CallReceive?)
      modifies queue, queue.ready, queue.ready.entries
      ensures Inv() && Answered(call, old(AtNow()), es, AtNow())
      ensures halted <==> Halts(call, old(AtNow()))
    {
      halted := false;
      match call {
        case CallYield => es := SysYield();
        case CallExit => halted, es := SysExit();
        case CallSend(dest, ptr, payload) => es := ServeSend(dest, ptr, payload);
        case CallReceive(args) => halted, es := ServeReceive(args);
      }
    }

    method ServeSend(dest: nat, ptr: nat, payload: seq<bv8>) returns (ghost es: seq<Event>)
      requires Callable()
      modifies queue, queue.ready, queue.ready.entries
      ensures Inv() && Answered(CallSend(dest, ptr, payload), old(AtNow()), es, AtNow())
    {
      AccessAgrees();
      assert MayAccess(AtNow(), ptr, |payload|, false) <==> Reachable(ptr, |payload|, false);
      var _, es' := SysSend(dest, ptr, |payload|, payload);
      es := es';
    }

    method ServeReceive(args: ReceiveArgs) returns (halted: bool, ghost es: seq<Event>)
      requires Callable()
      modifies queue, queue.ready
      ensures Inv() && Answered(CallReceive(args), old(AtNow()), es, AtNow())
      ensures halted <==> Halts(CallReceive(args), old(AtNow()))
    {
      ReceivesAgree(args);
      var _, halted', es' := SysReceive(args.out, args.maxLen, args.outLen, args.outSender);
      halted, es := halted', es';
    }

    /** The calls about frames, mappings, address spaces and tasks. */
    method ServeMemory(call: Call) returns (ghost es: seq<Event>)
      requires Callable() && !call.UserStore?
      requires !(call.CallYield? || call.CallExit? || call.CallSend? || call.CallReceive?)
      modifies this`spaces, vm, stacks, queue, queue.ready, queue.ready.entries
      ensures Inv() && Answered(call, old(AtNow()), es, AtNow())
    {
      match call {
        case CallFrameAlloc(out) => es := ServeFrameAlloc(out);
        case CallFrameDealloc(slot) => var _, es' := SysFrameDealloc(slot); es := es';
        case CallAsCreate(out) => es := ServeAsCreate(out);
        case CallMap(a, f, addr, perms, out) => es := ServeMap(a, f, addr, perms, out);
        case CallUnmap(slot) => var _, es' := SysUnmap(slot); es := es';
        case CallTaskCreate(a, entry, stack, out) => es := ServeTaskCreate(a, entry, stack, out);
      }
    }

    method ServeFrameAlloc(out: nat) returns (ghost es: seq<Event>)
      requires Callable()
      modifies vm, queue
      ensures Inv() && Answered(CallFrameAlloc(out), old(AtNow()), es, AtNow())
    {
      ghost var m := AtNow();
      StoresAgree(out);
      var _, f, es' := SysFrameAlloc(out);
      es := es';
      if es != [] {
        assert GotFrame(m, EmptySlot(m).value, f, AtNow());
      }
    }

    method ServeAsCreate(out: nat) returns (ghost es: seq<Event>)
      requires Callable()
      modifies this`spaces, vm, queue
      ensures Inv() && Answered(CallAsCreate(out), old(AtNow()), es, AtNow())
    {
      ghost var m := AtNow();
      StoresAgree(out);
      var _, id, root, es' := SysAsCreate(out);
      es := es';
      if es != [] {
        assert GotSpace(m, EmptySlot(m).value, id, root, AtNow());
      }
    }

    method ServeMap(asHandle: nat, frameHandle: nat, addr: nat, perms: nat, out: nat) returns (ghost es: seq<Event>)
      requires Callable()
      modifies vm, queue
      ensures Inv() && Answered(CallMap(asHandle, frameHandle, addr, perms, out), old(AtNow()), es, AtNow())
    {
      ghost var m := AtNow();
      StoresAgree(out);
      var r, es' := SysMap(asHandle, frameHandle, addr, perms, out);
      es := es';
      if r.Err? && MayStore(m, out) && MayMap(Current(m.queue).handles, asHandle, frameHandle, addr, perms) {
        assert MapRefused(m, asHandle, addr, perms, r.error == Status.OutOfMemory);
      }
    }

    method ServeTaskCreate(asHandle: nat, entry: nat, userStack: nat, out: nat) returns (ghost es: seq<Event>)
      requires Callable()
      modifies vm, stacks, queue, queue.ready, queue.ready.entries
      ensures Inv() && Answered(CallTaskCreate(asHandle, entry, userStack, out), old(AtNow()), es, AtNow())
    {
      ghost var m, right, can := AtNow(), RightTask(asHandle, entry, userStack, out), CanStack();
      TasksAgree(asHandle, entry, userStack, out);
      StacksAgree();
      var r, id, held, top, es' := SysTaskCreate(asHandle, entry, userStack, out);
      es := es';
      TaskAnswered(m, asHandle, entry, userStack, out, right, can, r.Ok?, id, held, top, es, AtNow());
    }

    /** Any run of system calls.  No assertion on the way fails, the invariant holds throughout, and each call
        gets its answer, one after the other, until the calls end or the machine halts.  What the scheduler
        did is a run of its state machine in which no task is discarded, and so dead tasks stay dead,
        messages arrive in order, and every ready task runs in its turn. */
    method Serving(calls: seq<Call>) returns (halted: bool, ghost answers: seq<Answer>)
      requires Inv() && HasCurrent(queue.Now())
      modifies this`spaces, vm, stacks, queue, queue.ready, queue.ready.entries
      ensures Inv() && HasCurrent(queue.Now()) && InTurn(calls, answers, old(AtNow()), AtNow())
      ensures (halted <==> Halted(answers)) && (!halted ==> |answers| == |calls|)
      ensures RunHolds(old(queue.Now()), EventsOf(answers), queue.Now())
    {
      halted, answers := false, [];
      var n := 0;
      while n < |calls| && !halted
        invariant 0 <= n <= |calls| && |answers| == n
        invariant Inv() && HasCurrent(queue.Now())
        invariant InTurn(calls, answers, old(AtNow()), AtNow()) && (halted <==> Halted(answers))
      {
        ghost var es;
        halted, answers, es := ServeNext(calls, n, answers, old(AtNow()));
        n := n + 1;
      }
      TurnsTrack(calls, answers, old(AtNow()), AtNow());
      RunFacts(old(queue.Now()), EventsOf(answers));
    }

    method ServeNext(calls: seq<Call>, n: nat, ghost answers: seq<Answer>, ghost first: Moment)
      returns (halted: bool, ghost more: seq<Answer>, ghost es: seq<Event>)
      requires Inv() && HasCurrent(queue.Now()) && n < |calls| && |answers| == n
      requires InTurn(calls, answers, first, AtNow()) && !Halted(answers)
      modifies this`spaces, vm, stacks, queue, queue.ready, queue.ready.entries
      ensures Inv() && HasCurrent(queue.Now()) && |more| == n + 1
      ensures InTurn(calls, more, first, AtNow()) && (halted <==> Halted(more))
    {
      ghost var m := AtNow();
      halted, es := Serve(calls[n]);
      StaysCurrent(m.queue, es);
      ghost var a := Answer(calls[n], m, es, AtNow());
      TurnOn(calls, answers, first, m, a);
      more := answers + [a];
    }

    /** The address space of the current task. */
    function CurrentSpace(): (r: Option<AddressSpace>)
      requires Inv() && HasCurrent(queue.Now())
      reads this, vm, stacks, queue, queue.ready, queue.ready.entries
      ensures r.Some? && Live(vm, r.value)
    {
      var id := queue.tasks[queue.current.value].value.space;
      assert TcbOk(Snapshot(), queue.current.value);
      assert SpaceOk(Snapshot(), id);
      spaces[id]
    }
  }
}
