/** Facts about single steps of the kernel, used by the system calls. */
module KernelSteps {
  import opened Outcomes
  import opened Addresses
  import opened Frames
  import opened Forest
  import opened Walks
  import opened Grafts
  import opened UnmapSteps
  import opened Subtrees
  import opened Tasks
  import opened Sched
  import opened SchedRuns
  import opened Rings
  import opened Sessions
  import opened AddressSpaces
  import opened Stacks
  import opened StackPool
  import opened Caps
  import opened CapSteps
  import MapSteps
  import PageTables

  // ---- Runs of events ----

  /** The events are possible one after the other and lead from s to s'. */
  ghost predicate Tracks(s: State, es: seq<Event>, s': State) {
    Legal(s, es) && Run(s, es) == s'
  }

  lemma TrackOne(s: State, e: Event)
    requires Enabled(s, e)
    ensures Tracks(s, [e], Step(s, e))
  {
    OneEvent(s, e, 0);
  }

  lemma {:induction false} TrackThen(s: State, es: seq<Event>, s': State, fs: seq<Event>, s'': State)
    requires Tracks(s, es, s') && Tracks(s', fs, s'')
    ensures Tracks(s, es + fs, s'')
    decreases |es|
  {
    if es == [] {
      assert es + fs == fs;
    } else {
      assert (es + fs)[1..] == es[1..] + fs;
      TrackThen(Step(s, es[0]), es[1..], s', fs, s'');
    }
  }

  // ---- Handles of the current task ----

  function Here(s: State, slot: nat): Pos
    requires s.current.Some?
  {
    Pos(s.current.value, slot)
  }

  lemma HoldSets(s: State, slot: nat, h: Option<Handle>)
    requires Sched.Free(s) && slot < |Current(s).handles|
    ensures HasSlot(s.tasks, Here(s, slot))
    ensures Step(s, Hold(Current(s).handles[slot := h])).tasks == SetHandle(s.tasks, Here(s, slot), h)
  {
  }

  /** Taking a handle out and putting h in its place. */
  lemma HoldAgain(s: State, slot: nat, h: Option<Handle>)
    requires Sched.Free(s) && slot < |Current(s).handles|
    ensures var s1 := Step(s, Hold(Current(s).handles[slot := None]));
            && Sched.Free(s1) && Current(s1).handles == Current(s).handles[slot := None]
            && Step(s1, Hold(Current(s1).handles[slot := h])) == Step(s, Hold(Current(s).handles[slot := h]))
    ensures Current(s).handles[slot] == h ==> Step(s, Hold(Current(s).handles[slot := h])) == s
  {
    var hs := Current(s).handles;
    assert hs[slot := None][slot := h] == hs[slot := h];
    var t, x := s.current.value, Current(s);
    var y := x.(handles := hs[slot := None]);
    var z := x.(handles := hs[slot := h]);
    assert s.tasks[t := Some(y)][t := Some(z)] == s.tasks[t := Some(z)];
    if hs[slot] == h {
      assert hs[slot := h] == hs;
      assert s.tasks[t := Some(x)] == s.tasks;
    }
  }

  /** Scheduling steps and messages leave every task its handles, space and stack. */
  lemma StepHolders(s: State, e: Event)
    requires SchedOk(s) && Enabled(s, e) && !e.Hold? && !e.Create? && !e.Discard?
    ensures SameHolders(s.tasks, Step(s, e).tasks)
  {
    if s.ready != [] {
      FrontIsReady(s);
    }
    var tasks' := Step(s, e).tasks;
    forall t: nat
      ensures SameHolder(s.tasks, tasks', t)
    {
    }
  }

  // ---- Kernel stacks ----

  ghost function StackFrames(stacks: map<nat, seq<Item>>): set<nat> {
    set slot, f | slot in stacks && f in FramesOf(stacks[slot]) :: f
  }

  ghost predicate SameKernelPages(root: nat, v: View, v': View) {
    forall l: Loc :: l.root == root ==> (l in v'.maps <==> l in v.maps) && (l in v.maps ==> v'.maps[l] == v.maps[l])
  }

  lemma StackStays(m: PageTables.Machine, slot: nat, items: seq<Item>, v: View, s: seq<FrameState>, v': View,
                   s': seq<FrameState>)
    requires StackStands(m, slot, items, v, s) && SameKernelPages(m.kernelRoot, v, v')
    requires FramesOf(items) !! v'.nodes.Values && AllAllocated(FramesOf(items), s')
    ensures StackStands(m, slot, items, v', s')
  {
    forall i | 0 <= i < |items|
      ensures items[i].loc in v'.maps && v'.maps[items[i].loc].frame == items[i].leaf.frame
    {
      assert RunAt(m.mode, AddressSpace(m.kernelRoot, Kernel), SlotStart(slot), items, i);
    }
  }

  /** What user spaces map and which other frames are in use does not matter to kernel stacks. */
  lemma StacksStay(m: PageTables.Machine, stacks: map<nat, seq<Item>>, v: View, s: seq<FrameState>, v': View,
                   s': seq<FrameState>)
    requires AllStand(m, stacks, v, s) && SameKernelPages(m.kernelRoot, v, v')
    requires StackFrames(stacks) !! v'.nodes.Values && AllAllocated(StackFrames(stacks), s')
    ensures AllStand(m, stacks, v', s')
  {
    forall l: Loc
      ensures PageOfStack(m, stacks, v', l)
    {
      assert PageOfStack(m, stacks, v, l);
    }
    forall slot {:trigger stacks[slot]} | slot in stacks
      ensures StackStands(m, slot, stacks[slot], v', s')
    {
      assert FramesOf(stacks[slot]) <= StackFrames(stacks);
      StackStays(m, slot, stacks[slot], v, s, v', s');
    }
  }

  lemma StackFramesGrow(stacks: map<nat, seq<Item>>, slot: nat, items: seq<Item>)
    requires slot !in stacks
    ensures StackFrames(stacks[slot := items]) == StackFrames(stacks) + FramesOf(items)
  {
    var more := stacks[slot := items];
    forall f | f in StackFrames(stacks) + FramesOf(items)
      ensures f in StackFrames(more)
    {
      if f in FramesOf(items) {
        assert slot in more && f in FramesOf(more[slot]);
      } else {
        var t :| t in stacks && f in FramesOf(stacks[t]);
        assert t in more && f in FramesOf(more[t]);
      }
    }
  }

  // ---- Each task has its own kernel stack ----

  ghost predicate Stacked(tasks: seq<Option<Tcb>>, slots: set<nat>, t: nat) {
    t < |tasks| && tasks[t].Some? ==> exists slot :: slot in slots && tasks[t].value.stackTop == SlotTop(slot)
  }

  predicate StacksApart(tasks: seq<Option<Tcb>>, t: nat, u: nat) {
    && t < |tasks| && u < |tasks| && tasks[t].Some? && tasks[u].Some?
    && tasks[t].value.stackTop == tasks[u].value.stackTop
    ==> t == u
  }

  ghost predicate TasksStacked(tasks: seq<Option<Tcb>>, slots: set<nat>) {
    && (forall t: nat {:trigger Stacked(tasks, slots, t)} :: Stacked(tasks, slots, t))
    && (forall t: nat, u: nat {:trigger StacksApart(tasks, t, u)} :: StacksApart(tasks, t, u))
  }

  lemma HoldersStacked(tasks: seq<Option<Tcb>>, tasks': seq<Option<Tcb>>, slots: set<nat>)
    requires TasksStacked(tasks, slots) && |tasks'| == |tasks|
    requires forall t :: 0 <= t < |tasks| && tasks'[t].Some? ==>
      tasks[t].Some? && tasks'[t].value.stackTop == tasks[t].value.stackTop
    ensures TasksStacked(tasks', slots)
  {
    forall t: nat
      ensures Stacked(tasks', slots, t)
    {
      assert Stacked(tasks, slots, t);
    }
    forall t: nat, u: nat
      ensures StacksApart(tasks', t, u)
    {
      assert StacksApart(tasks, t, u);
    }
  }

  lemma SameHoldersStacked(tasks: seq<Option<Tcb>>, tasks': seq<Option<Tcb>>, slots: set<nat>)
    requires TasksStacked(tasks, slots) && SameHolders(tasks, tasks')
    ensures TasksStacked(tasks', slots)
  {
    forall t | 0 <= t < |tasks| && tasks'[t].Some?
      ensures tasks[t].Some? && tasks'[t].value.stackTop == tasks[t].value.stackTop
    {
      assert SameHolder(tasks, tasks', t);
    }
    HoldersStacked(tasks, tasks', slots);
  }

  lemma SetHandleStacked(tasks: seq<Option<Tcb>>, p: Pos, h: Option<Handle>, slots: set<nat>)
    requires TasksStacked(tasks, slots) && HasSlot(tasks, p)
    ensures TasksStacked(SetHandle(tasks, p, h), slots)
  {
    HoldersStacked(tasks, SetHandle(tasks, p, h), slots);
  }

  lemma MoreSlots(tasks: seq<Option<Tcb>>, slots: set<nat>, slots': set<nat>)
    requires TasksStacked(tasks, slots) && slots <= slots'
    ensures TasksStacked(tasks, slots')
  {
    forall t: nat
      ensures Stacked(tasks, slots', t)
    {
      assert Stacked(tasks, slots, t);
    }
  }

  /** A task on a stack in a new slot. */
  lemma TaskOnNewStack(tasks: seq<Option<Tcb>>, slots: set<nat>, t: nat, x: Tcb, slot: nat)
    requires TasksStacked(tasks, slots) && t < |tasks| && tasks[t].None? && slot !in slots
    requires x.stackTop == SlotTop(slot)
    ensures TasksStacked(tasks[t := Some(x)], slots + {slot})
  {
    var tasks' := tasks[t := Some(x)];
    forall u: nat
      ensures Stacked(tasks', slots + {slot}, u)
    {
      assert Stacked(tasks, slots, u);
      assert slot in slots + {slot};
    }
    forall u: nat, w: nat
      ensures StacksApart(tasks', u, w)
    {
      assert StacksApart(tasks, u, w);
      assert Stacked(tasks, slots, u);
      assert Stacked(tasks, slots, w);
    }
  }

  // ---- Destroying a new address space ----

  lemma {:induction false} RootOfKey(sh: Shape, mem: Memory, v: View, k: Key)
    requires Tree(sh, mem, v) && k in v.nodes
    ensures Key(k.root, 0, 0) in v.nodes
    decreases k.depth
  {
    assert NodeOk(sh, mem, v, k);
    if k.depth > 0 {
      RootOfKey(sh, mem, v, Parent(k));
    }
  }

  lemma NothingBelow(sh: Shape, mem: Memory, v: View, f: nat)
    requires Tree(sh, mem, v) && Key(f, 0, 0) !in v.nodes
    ensures forall k :: k in v.nodes ==> k.root != f
    ensures forall l :: l in v.maps ==> l.root != f
  {
    forall k | k in v.nodes
      ensures k.root != f
    {
      RootOfKey(sh, mem, v, k);
    }
    forall l | l in v.maps
      ensures l.root != f
    {
      assert LeafOk(sh, mem, v, l);
      RootOfKey(sh, mem, v, TableKey(sh, l));
    }
  }

  /** Destroying an address space that was just made leaves everything as it was before. */
  lemma SpaceUndone(
    sh: Shape, mem0: Memory, v0: View, s0: seq<FrameState>, f: nat, mem1: Memory, s1: seq<FrameState>,
    mem2: Memory, v2: View, s2: seq<FrameState>)
    requires Tree(sh, mem0, v0) && Backed(v0, s0) && Key(f, 0, 0) !in v0.nodes
    requires f < |s0| && s0[f] == Free && s1 == s0[f := Allocated]
    requires forall k :: k in v2.nodes <==> k in RootView(v0, f).nodes && k.root != f
    requires forall l :: l in v2.maps <==> l in v0.maps && l.root != f
    requires OthersKept(RootView(v0, f), mem1, v2, mem2, f)
    requires Exchanged(RootView(v0, f), s1, v2, s2)
    ensures v2 == v0 && s2 == s0
  {
    NothingBelow(sh, mem0, v0, f);
    assert v2.maps == v0.maps;
    forall k: Key
      ensures k in v2.nodes <==> k in v0.nodes
    {
    }
    assert v2.nodes == v0.nodes;
    RootValues(v0.nodes, Key(f, 0, 0), f);
    assert Exchanged(v0, s0, RootView(v0, f), s1);
    ExchangedTwice(v0, s0, RootView(v0, f), s1, v2, s2);
    ExchangedBack(v0, s0, v2, s2);
  }

  lemma FrameOfAddress(f: nat, addr: nat)
    ensures (f * PAGE_SIZE + addr % PAGE_SIZE) / PAGE_SIZE == f
  {
  }

  /** Where a user address leads there is no table. */
  lemma StoreOutsideTables(c: Caps, sh: Shape, mem: Memory, id: nat, addr: nat, phys: nat)
    requires CapsOk(c) && SpaceLives(c, id) && addr < USER_SPACE_END
    requires sh == Shape(Depth(c.mode), c.kernelRoot) && Tree(sh, mem, c.view) && Shared(sh, mem, c.view)
    requires Key(c.kernelRoot, 0, 0) in c.view.nodes
    requires Translate(mem, c.mode, c.spaces[id].value.root, addr) == Some(phys)
    ensures phys / PAGE_SIZE !in c.view.nodes.Values
  {
    var l := PageIn(c, id, addr);
    assert SpaceOk(c, id);
    UserAddress(c.mode, addr);
    UserHome(sh, c.mode, l.root, addr);
    ReadsSeeView(c.mode, sh, mem, c.view, l.root, addr);
    FrameOfAddress(c.view.maps[l].frame, addr);
    UserPagesSafe(c, l);
  }

  /** Only the scheduling state changed. */
  lemma Scheduled(c: Caps, s: State, e: Event)
    requires SchedOk(s) && Enabled(s, e) && !e.Hold? && !e.Create? && !e.Discard?
    requires CapsOk(c) && c.tasks == s.tasks
    ensures Tracks(s, [e], Step(s, e)) && CapsOk(c.(tasks := Step(s, e).tasks))
    ensures forall slots: set<nat> {:trigger TasksStacked(s.tasks, slots)} :: TasksStacked(s.tasks, slots) ==>
      TasksStacked(Step(s, e).tasks, slots)
  {
    TrackOne(s, e);
    StepHolders(s, e);
    HoldersKeep(c, Step(s, e).tasks);
    forall slots: set<nat> {:trigger TasksStacked(s.tasks, slots)} | TasksStacked(s.tasks, slots)
      ensures TasksStacked(Step(s, e).tasks, slots)
    {
      SameHoldersStacked(s.tasks, Step(s, e).tasks, slots);
    }
  }

  /** A new address space together with a handle in an empty slot of the current task. */
  lemma SpaceGiven(c: Caps, s: State, slot: nat, id: nat, f: nat, sh: Shape, mem: Memory)
    requires CapsOk(c) && c.tasks == s.tasks && Sched.Free(s)
    requires slot < |Current(s).handles| && Current(s).handles[slot].None?
    requires id < |c.spaces| && c.spaces[id].None? && f < |c.states| && c.states[f] == FrameState.Free
    requires Tree(sh, mem, c.view) && Key(f, 0, 0) !in c.view.nodes
    requires sh.kernelRoot == c.kernelRoot && Key(c.kernelRoot, 0, 0) in c.view.nodes
    ensures var h, p := Some(Handle(AddressSpaceObject(id), BASIC_RIGHTS)), Here(s, slot);
            && HasSlot(c.tasks, p) && Step(s, Hold(Current(s).handles[slot := h])).tasks == SetHandle(c.tasks, p, h)
            && CapsOk(WithSpace(c, id, f).(tasks := SetHandle(c.tasks, p, h)))
  {
    var h := Handle(AddressSpaceObject(id), BASIC_RIGHTS);
    RootsNamed(sh, mem, c.view);
    assert c.view.nodes[Key(c.kernelRoot, 0, 0)] in c.view.nodes.Values;
    GainSpace(c, id, f);
    HoldSets(s, slot, Some(h));
    GiveHandle(WithSpace(c, id, f), Here(s, slot), h);
  }

  /** When all frames lie below the limit, none lies above it. */
  lemma NotFreeAbove(v: View, s: seq<FrameState>, kernelRoot: nat, limit: nat)
    requires Backed(v, s) && Key(kernelRoot, 0, 0) in v.nodes && |s| <= limit
    ensures limit > 0 && !MapSteps.FreeAbove(s, limit)
  {
  }

  /** However the stack of these items is torn down, what is left is v0 and s0. */
  ghost predicate Undoable(m: PageTables.Machine, v0: View, s0: seq<FrameState>, items: seq<Item>, v: View,
                           s: seq<FrameState>)
  {
    forall mem', v', s' {:trigger Tearing(v, s, FramesOf(items), v', s', m.kernelRoot, Locs(items), {}),
                         Tree(m.Sh(), mem', v')} ::
      && Tearing(v, s, FramesOf(items), v', s', m.kernelRoot, Locs(items), {})
      && Tree(m.Sh(), mem', v') && NoEmpty(mem', v', {})
      ==> v' == v0 && s' == s0
  }

  lemma StackUndoable(
    m: PageTables.Machine, mem: Memory, v0: View, s0: seq<FrameState>, slot: nat, items: seq<Item>, v: View,
    s: seq<FrameState>)
    requires Backed(v0, s0) && Tree(m.Sh(), mem, v0) && NoEmpty(mem, v0, {})
    requires Building(m, AddressSpace(m.kernelRoot, Kernel), SlotStart(slot), STACK_PERMS, items, v0, s0, v, s)
    ensures Undoable(m, v0, s0, items, v, s)
  {
    forall mem', v', s' |
      && Tearing(v, s, FramesOf(items), v', s', m.kernelRoot, Locs(items), {})
      && Tree(m.Sh(), mem', v') && NoEmpty(mem', v', {})
      ensures v' == v0 && s' == s0
    {
      TearUndoes(v0, s0, v, s, m.kernelRoot, items, FramesOf(items), v', s');
      UndoEnd(m.mode, m.Sh(), mem, v0, s0, v, mem', v', s', m.kernelRoot);
    }
  }

  /** A kernel stack that has been built: the kernel owns its frames. */
  lemma StackGained(
    m: PageTables.Machine, c: Caps, stacks: map<nat, seq<Item>>, slot: nat, items: seq<Item>, mem: Memory, v: View,
    s: seq<FrameState>, pin: Loc)
    requires CapsOk(c) && c.stacks == StackFrames(stacks) && c.kernelRoot == m.kernelRoot && slot !in stacks
    requires pin in c.view.maps
    requires Building(m, AddressSpace(m.kernelRoot, Kernel), SlotStart(slot), STACK_PERMS, items, c.view, c.states, v,
                      s)
    requires Backed(c.view, c.states) && Tree(m.Sh(), mem, c.view) && NoEmpty(mem, c.view, {})
    ensures CapsOk(WithStack(c, v, s, FramesOf(items))) && pin in v.maps && |s| == |c.states|
    ensures Undoable(m, c.view, c.states, items, v, s)
    ensures StackFrames(stacks[slot := items]) == c.stacks + FramesOf(items)
  {
    StackFramesGrow(stacks, slot, items);
    StackUndoable(m, mem, c.view, c.states, slot, items, v, s);
    AddAllKeeps(c.view.maps, items, pin);
    forall l: Loc | l.root != c.kernelRoot
      ensures (l in v.maps <==> l in c.view.maps) && (l in c.view.maps ==> v.maps[l] == c.view.maps[l])
    {
      forall i | 0 <= i < |items|
        ensures items[i].loc != l
      {
        assert RunAt(m.mode, AddressSpace(m.kernelRoot, Kernel), SlotStart(slot), items, i);
      }
      AddAllOther(c.view.maps, items, l);
    }
    GainStack(c, v, s, FramesOf(items));
  }

  /** A new task in entry t: it holds its address space and itself. */
  function QueuedTask(space: nat, stackTop: nat, t: nat): Tcb {
    var x := NewTask(space, stackTop);
    x.(handles := x.handles[1 := Some(Handle(ThreadObject(t), BASIC_RIGHTS))])
  }

  /** A task that has just been made on a stack of its own. */
  lemma TaskGained(c: Caps, slots: set<nat>, t: nat, x: Tcb, slot: nat)
    requires CapsOk(c) && TasksStacked(c.tasks, slots) && t < |c.tasks| && c.tasks[t].None? && slot !in slots
    requires SpaceLives(c, x.space) && x == QueuedTask(x.space, SlotTop(slot), t)
    ensures CapsOk(c.(tasks := c.tasks[t := Some(x)])) && TasksStacked(c.tasks[t := Some(x)], slots + {slot})
  {
    GainTask(c, t, x);
    TaskOnNewStack(c.tasks, slots, t, x, slot);
  }

  /** The new task x of a step is owned, stacked and can be discarded. */
  lemma TaskEnrolled(c: Caps, s: State, slots: set<nat>, x: Tcb, slot: nat)
    requires CapsOk(c) && c.tasks == s.tasks && TasksStacked(c.tasks, slots) && slot !in slots && SpaceLives(c, x.space)
    requires SchedOk(s) && Sched.Free(s) && Enabled(s, Create(x))
    requires x == QueuedTask(x.space, SlotTop(slot), FirstNone(s.tasks).value)
    ensures var s1 := Step(s, Create(x));
            && CapsOk(c.(tasks := s1.tasks)) && TasksStacked(s1.tasks, slots + {slot})
            && Sched.Free(s1) && Current(s1) == Current(s)
            && s1.tasks == s.tasks[FirstNone(s.tasks).value := Some(x)]
  {
    TaskGained(c, slots, FirstNone(s.tasks).value, x, slot);
    CreateDiscard(s, x);
  }

  /** The frames of a new stack were free. */
  lemma StackTakesFrames(v0: View, s0: seq<FrameState>, items: seq<Item>, v: View, s: seq<FrameState>, root: nat)
    requires items != [] && Session(v0, s0, v, s, root, items, FramesOf(items))
    ensures s != s0
  {
    var f := items[0].leaf.frame;
    assert f in FramesOf(items);
    if f in v0.nodes.Values {
      GrownValues(v0, v, root);
    }
  }

  lemma CreatedThenHeld(s: State, x: Tcb, handles: HandleTable) returns (es: seq<Event>)
    requires Enabled(s, Create(x)) && Enabled(Step(s, Create(x)), Hold(handles))
    ensures es == [Create(x), Hold(handles)] && Tracks(s, es, Step(Step(s, Create(x)), Hold(handles)))
  {
    var s1 := Step(s, Create(x));
    TrackOne(s, Create(x));
    TrackOne(s1, Hold(handles));
    TrackThen(s, [Create(x)], s1, [Hold(handles)], Step(s1, Hold(handles)));
    es := [Create(x)] + [Hold(handles)];
  }

  /** Creating a task and discarding it at once changes nothing. */
  lemma CreateDiscard(s: State, x: Tcb)
    requires SchedOk(s) && Sched.Free(s) && Enabled(s, Create(x))
    ensures var t, s1 := FirstNone(s.tasks).value, Step(s, Create(x));
            Sched.Free(s1) && Enabled(s1, Discard(t)) && Step(s1, Discard(t)) == s && s1.tasks[t] == Some(x)
  {
    var t := FirstNone(s.tasks).value;
    assert TaskOk(s, t);
    WithoutAt(s.ready + [t], t, |s.ready|);
    assert (s.ready + [t])[..|s.ready|] == s.ready;
    assert s.tasks[t := Some(x)][t := None] == s.tasks;
  }

  // ---- The kernel when its first task starts ----

  /** No user page is on a table, on a kernel stack page or on a free frame. */
  ghost predicate UserPagesLoaded(v: View, s: seq<FrameState>, kernelRoot: nat, held: set<nat>) {
    forall l :: l in v.maps && l.root != kernelRoot ==>
      var f := v.maps[l].frame; f !in v.nodes.Values && f !in held && (f < |s| ==> s[f] != Free)
  }

  ghost function BootFrames(v: View, s: seq<FrameState>, held: set<nat>): set<nat> {
    set f: nat | f < |s| && s[f] == Allocated && f !in v.nodes.Values && f !in held
  }

  ghost function BootPages(v: View, kernelRoot: nat): set<Loc> {
    set l | l in v.maps && l.root != kernelRoot
  }

  function FirstTask(stackTop: nat): Tcb {
    QueuedTask(0, stackTop, 0)
  }

  lemma FirstHandles(space: nat, stackTop: nat)
    ensures FirstNone(NewTask(space, stackTop).handles) == Some(1)
  {
    var hs := NewTask(space, stackTop).handles;
    assert hs[0].Some? && hs[1].None?;
  }

  lemma StacksOwned(m: PageTables.Machine, stacks: map<nat, seq<Item>>, v: View, s: seq<FrameState>)
    requires AllStand(m, stacks, v, s)
    ensures StackFrames(stacks) !! v.nodes.Values && AllAllocated(StackFrames(stacks), s)
  {
    forall f | f in StackFrames(stacks)
      ensures f !in v.nodes.Values && f < |s| && s[f] == Allocated
    {
      var slot :| slot in stacks && f in FramesOf(stacks[slot]);
      assert StackStands(m, slot, stacks[slot], v, s);
    }
  }

  /** Before the first task is added, nothing has a handle. */
  lemma BootCaps(c: Caps, root: nat)
    requires |c.tasks| == MAX_TASKS && (forall t :: 0 <= t < MAX_TASKS ==> c.tasks[t].None?)
    requires c.spaces == seq(MAX_ADDRESS_SPACES, i => None)[0 := Some(AddressSpace(root, User))]
    requires Key(root, 0, 0) in c.view.nodes && root != c.kernelRoot && Backed(c.view, c.states)
    requires c.stacks !! c.view.nodes.Values && AllAllocated(c.stacks, c.states)
    requires UserPagesLoaded(c.view, c.states, c.kernelRoot, c.stacks)
    requires c.boot == BootFrames(c.view, c.states, c.stacks) && c.bootPages == BootPages(c.view, c.kernelRoot)
    ensures CapsOk(c)
  {
    assert forall p {:trigger HandleOk(c, p)} :: HandleOk(c, p);
    assert forall l {:trigger PageOk(c, l)} :: PageOk(c, l);
  }

  function FirstEvents(stackTop: nat): seq<Event> {
    [Create(FirstTask(stackTop)), Start]
  }

  lemma FirstTaskEvents(stackTop: nat)
    ensures Enabled(Boot(), Create(FirstTask(stackTop))) && FirstNone(Boot().tasks) == Some(0)
    ensures var s := Step(Boot(), Create(FirstTask(stackTop)));
            Enabled(s, Start) && Tracks(Boot(), FirstEvents(stackTop), Step(s, Start)) && Sched.Free(Step(s, Start))
  {
    assert Boot().tasks[0].None?;
    var e := Create(FirstTask(stackTop));
    var s := Step(Boot(), e);
    TrackOne(Boot(), e);
    TrackOne(s, Start);
    TrackThen(Boot(), [e], s, [Start], Step(s, Start));
    assert [e] + [Start] == FirstEvents(stackTop);
  }

  /** With its first task running, the kernel owns what it owned and that task has its stack. */
  lemma FirstTaskRuns(c: Caps, slots: set<nat>, slot: nat)
    requires CapsOk(c) && c.tasks == Boot().tasks && SpaceLives(c, 0) && slot in slots
    ensures Legal(Boot(), FirstEvents(SlotTop(slot)))
    ensures var s := Run(Boot(), FirstEvents(SlotTop(slot)));
            CapsOk(c.(tasks := s.tasks)) && TasksStacked(s.tasks, slots) && Sched.Free(s)
  {
    var x := FirstTask(SlotTop(slot));
    var s1 := Step(Boot(), Create(x));
    ReachableOk([]);
    StepKeeps(Boot(), Create(x));
    FirstTaskEvents(SlotTop(slot));
    GainTask(c, 0, x);
    forall t: nat
      ensures Stacked(s1.tasks, slots, t)
    {
    }
    assert TasksStacked(s1.tasks, slots);
    Scheduled(c.(tasks := s1.tasks), s1, Start);
  }
}
