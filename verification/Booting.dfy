/** From an empty machine to the first task: the kernel's invariant is established, and kept by whatever
    the tasks then call. */
module Booting {
  import opened Outcomes
  import opened Numbers
  import opened Addresses
  import opened Bytes
  import opened Frames
  import opened Forest
  import opened Walks
  import opened Grafts
  import opened Sessions
  import opened AddressSpaces
  import opened Stacks
  import opened StackPool
  import opened CapSteps
  import opened KernelSteps
  import opened KernelSpaces
  import opened BootLoading
  import opened Spawning
  import Cpio
  import MapSteps
  import PageTables
  import UserAccess
  import Calls
  import SchedRuns
  import Kernel

  /** Where the kernel image is mapped. */
  const IMAGE_BASE: nat := 0xFFFF_FFFF_8000_0000

  function ImagePage(mode: Mode): nat {
    match mode
    case FourLevel => 0xF_FFF8_0000
    case FiveLevel => 0x1FFF_FFF8_0000
  }

  /** The kernel image hangs off the same root entry as the kernel stacks, outside their region. */
  lemma ImagePins(mode: Mode)
    ensures IsCanonical(mode, IMAGE_BASE) && PageOf(mode, IMAGE_BASE) == ImagePage(mode) < PageCount(mode)
    ensures Digit(Depth(mode), ImagePage(mode), 0) == 511 && !InRegion(mode, ImagePage(mode))
  {
    var page := ImagePage(mode);
    assert Up(page, 1) == page / 512;
    assert Up(page, 2) == page / 512 / 512;
    assert Up(page, 3) == page / 512 / 512 / 512;
    assert Up(page, 4) == page / 512 / 512 / 512 / 512;
  }

  // ---- Kernel stacks before there are user spaces ----

  /** All pages are the kernel's. */
  ghost predicate NoUserPages(v: View, kernelRoot: nat) {
    forall l :: l in v.maps ==> l.root == kernelRoot
  }

  /** Building a kernel stack maps only kernel pages. */
  lemma StackIsKernels(
    m: PageTables.Machine, slot: nat, items: seq<Item>, v0: View, s0: seq<FrameState>, v: View, s: seq<FrameState>)
    requires NoUserPages(v0, m.kernelRoot) && Backed(v0, s0)
    requires Building(m, AddressSpace(m.kernelRoot, Kernel), SlotStart(slot), STACK_PERMS, items, v0, s0, v, s)
    ensures NoUserPages(v, m.kernelRoot) && UnusableStay(s0, s) && v0.maps.Keys <= v.maps.Keys
  {
    BackedAllocated(v0, s0);
    StaysUnusable(v0.nodes.Values, s0, v.nodes.Values + FramesOf(items), s);
    forall l | l in v.maps
      ensures l.root == m.kernelRoot
    {
      if l !in v0.maps {
        var i := NewIsItem(v0.maps, items, l);
        assert RunAt(m.mode, AddressSpace(m.kernelRoot, Kernel), SlotStart(slot), items, i);
      }
    }
    forall l | l in v0.maps
      ensures l in v.maps
    {
      AddAllKeeps(v0.maps, items, l);
    }
  }

  /** A kernel stack in the lowest free slot; forty free frames are enough for it. */
  method KernelStack(m: PageTables.Machine, stacks: KernelStackPool, ghost pin: Loc)
    returns (r: Option<StackMapping>, ghost slot: nat)
    requires stacks.Valid(m) && NoUserPages(m.view, m.kernelRoot) && RegionPinned(m, pin) && pin in m.view.maps
    requires |m.pool.states| <= m.frameLimit
    modifies m, stacks
    ensures r.Some? ==>
      && stacks.Valid(m) && slot in stacks.stacks && r.value.top == SlotTop(slot)
      && slot < MAX_STACKS && !old(stacks.slots)[slot] && (forall t :: 0 <= t < slot ==> old(stacks.slots)[t])
      && stacks.slots == old(stacks.slots)[slot := true]
      && NoUserPages(m.view, m.kernelRoot) && pin in m.view.maps
      && UnusableStay(old(m.pool).states, m.pool.states)
      && |FreeSet(m.pool.states)| + 40 >= |FreeSet(old(m.pool).states)|
    ensures
      && m.nxEnabled
      && !(forall t :: 0 <= t < MAX_STACKS ==> old(stacks.slots)[t])
      && |FreeSet(old(m.pool).states)| >= 40
      ==> r.Some?
  {
    ghost var v, s, left := m.view, m.pool.states, 0;
    NotFreeAbove(v, s, m.kernelRoot, m.frameLimit);
    var made;
    made, slot, left := stacks.Allocate(m, pin);
    if made != Err(OutOfStacks) {
      StackAffords(m.mode, v, s, m.kernelRoot, SlotStart(slot), KERNEL_STACK_PAGES, left);
    }
    if made.Err? {
      return None, slot;
    }
    StackIsKernels(m, slot, stacks.stacks[slot], v, s, m.view, m.pool.states);
    return Some(made.value), slot;
  }

  // ---- The first user space ----

  /** The frames it takes to build the first space: its root, and the tables and frames of its pages. */
  ghost function SpaceFrames(mode: Mode, length: nat, file: seq<byte>): nat {
    81 + 4 * ArchivePages(length) + 5 * PagesOfFile(mode, file)
  }

  /** A new root beside the kernel's stacks. */
  lemma RootStands(m: PageTables.Machine, stacks: map<nat, seq<Item>>, v: View, s: seq<FrameState>, f: nat)
    requires AllStand(m, stacks, v, s) && f < |s| && s[f] == FrameState.Free && Key(f, 0, 0) !in v.nodes
    ensures AllStand(m, stacks, RootView(v, f), s[f := Allocated])
  {
    StacksOwned(m, stacks, v, s);
    RootValues(v.nodes, Key(f, 0, 0), f);
    StacksStay(m, stacks, v, s, RootView(v, f), s[f := Allocated]);
  }

  /** Nothing is mapped in it. */
  lemma RootSettles(m: PageTables.Machine, stacks: map<nat, seq<Item>>, mem: Memory, v: View, s: seq<FrameState>,
                    f: nat)
    requires AllStand(m, stacks, v, s) && NoUserPages(v, m.kernelRoot) && Tree(m.Sh(), mem, v)
    requires f < |s| && s[f] == FrameState.Free && Key(f, 0, 0) !in v.nodes
    ensures Settled(m, stacks, RootView(v, f), s[f := Allocated], {}) && SpaceIs(RootView(v, f), f, 0, false)
  {
    RootStands(m, stacks, v, s, f);
    NothingBelow(m.Sh(), mem, v, f);
    var v', s' := RootView(v, f), s[f := Allocated];
    forall l: Loc
      ensures PageSettled(m.kernelRoot, v', s', {}, l)
    {
    }
  }

  lemma RootTaken(s: seq<FrameState>, f: nat)
    requires f < |s| && s[f] == FrameState.Free
    ensures UnusableStay(s, s[f := Allocated]) && |FreeSet(s[f := Allocated])| + 1 == |FreeSet(s)|
  {
    TakeFree(s, f);
  }

  method FirstRoot(m: PageTables.Machine, ghost stacks: map<nat, seq<Item>>) returns (r: Option<AddressSpace>)
    requires m.Valid() && m.SharedHalf() && AllStand(m, stacks, m.view, m.pool.states)
    requires NoUserPages(m.view, m.kernelRoot)
    requires |m.pool.states| <= m.frameLimit
    modifies m
    ensures r.Some? ==>
      && Ongoing(m, r.value, stacks, {}) && SpaceIs(m.view, r.value.root, 0, false) && m.view.maps == old(m.view).maps
      && UnusableStay(old(m.pool).states, m.pool.states)
      && |FreeSet(m.pool.states)| + 1 == |FreeSet(old(m.pool).states)|
    ensures |FreeSet(old(m.pool).states)| > 0 ==> r.Some?
  {
    ghost var v, s, mem := m.view, m.pool.states, m.mem;
    NotFreeAbove(v, s, m.kernelRoot, m.frameLimit);
    var made := m.NewUser(m.kernelRoot);
    if made.Err? {
      assert made.error.CreateTooLarge? || FreeSet(s) == {};
      return None;
    }
    RootSettles(m, stacks, mem, v, s, made.value);
    RootTaken(s, made.value);
    return Some(AddressSpace(made.value, User));
  }

  /** Builds the first user space: the archive, a stack and the executable. */
  method BuildSpace(m: PageTables.Machine, phys: nat, length: nat, file: seq<byte>, ghost stacks: map<nat, seq<Item>>)
    returns (r: Option<AddressSpace>, contents: Contents, ghost p: Progress, ghost mine: set<nat>)
    requires m.Valid() && m.SharedHalf() && AllStand(m, stacks, m.view, m.pool.states)
    requires NoUserPages(m.view, m.kernelRoot)
    requires |m.pool.states| <= m.frameLimit && AllUnusable(m.pool.states, phys / PAGE_SIZE, ArchivePages(length))
    modifies m
    ensures r.Some? ==>
      && Ongoing(m, r.value, stacks, mine) && old(m.view).maps.Keys <= m.view.maps.Keys
      && StackReady(m.view, r.value.root)
      && Reached(m.mode, r.value.root, p, m.view, m.pool.states) && p.contents == contents
      && ImageOf(file) == Some(p.image)
    ensures
      && m.nxEnabled && ArchiveFits(phys, length, m.frameLimit) && Executable(file, ArchivePages(length))
      && |FreeSet(old(m.pool).states)| >= SpaceFrames(m.mode, length, file)
      ==> r.Some?
  {
    contents, p, mine := map[], Progress(View(map[], map[]), [], [], map[], map[]), {};
    var a := FirstRoot(m, stacks);
    if a.None? {
      return None, contents, p, mine;
    }
    var ok := MapArchive(m, a.value, phys, length, stacks, {});
    if !ok {
      return None, contents, p, mine;
    }
    ok, mine := MapUserStack(m, a.value, ArchivePages(length), stacks, {});
    if !ok {
      return None, contents, p, mine;
    }
    var entry;
    entry, contents, p := LoadFirst(m, a.value, file, ArchivePages(length), stacks, mine);
    if entry.None? {
      return None, contents, p, mine;
    }
    return a, contents, p, mine + contents.Keys;
  }

  // ---- The first task ----

  /** The frames it takes to start the first task. */
  ghost function TaskFrames(mode: Mode, archive: seq<byte>, name: seq<byte>): nat {
    40 + SpaceFrames(mode, |archive|, FileIn(archive, name))
  }

  ghost function FileIn(archive: seq<byte>, name: seq<byte>): seq<byte> {
    if Cpio.Find(archive, name).Some? then Cpio.Find(archive, name).value else []
  }

  /** The archive can be mapped, and holds an executable of that name that can be loaded. */
  ghost predicate CanSpawn(nx: bool, limit: nat, archive: seq<byte>, phys: nat, name: seq<byte>) {
    && nx && ArchiveFits(phys, |archive|, limit)
    && Cpio.Find(archive, name).Some? && Executable(FileIn(archive, name), ArchivePages(|archive|))
  }

  /** What the first task finds: its executable and its stack. */
  ghost predicate Prepared(k: Kernel.Kernel, file: seq<byte>, contents: Contents, p: Progress)
    reads k, k.vm
  {
    && |k.spaces| > 0 && k.spaces[0].Some? && StackReady(k.vm.view, k.spaces[0].value.root)
    && ImageOf(file) == Some(p.image) && p.contents == contents
    && Reached(k.vm.mode, k.spaces[0].value.root, p, k.vm.view, k.vm.pool.states)
  }

  /** The kernel and its parts are all new. */
  twostate predicate AllFresh(new k: Kernel.Kernel)
    reads k, k.queue
  {
    fresh(k) && fresh(k.vm) && fresh(k.stacks) && fresh(k.queue) && fresh(k.queue.ready) && fresh(k.queue.ready.entries)
  }

  /** Starts the first task over a kernel that has nothing but itself. */
  method Spawn(m: PageTables.Machine, stacks: KernelStackPool, archive: seq<byte>, phys: nat, name: seq<byte>,
               ghost pin: Loc)
    returns (k: Option<Kernel.Kernel>, contents: Contents, ghost p: Progress, ghost stackTop: nat)
    requires stacks.Valid(m) && NoUserPages(m.view, m.kernelRoot) && RegionPinned(m, pin) && pin in m.view.maps
    requires |m.pool.states| <= m.frameLimit && AllUnusable(m.pool.states, phys / PAGE_SIZE, ArchivePages(|archive|))
    modifies m, stacks
    ensures k.Some? ==>
      && k.value.Callable() && k.value.vm == m && k.value.stacks == stacks
      && fresh(k.value) && fresh(k.value.queue) && fresh(k.value.queue.ready) && fresh(k.value.queue.ready.entries)
      && Prepared(k.value, FileIn(archive, name), contents, p)
      && Tracks(SchedRuns.Boot(), FirstEvents(stackTop), k.value.queue.Now())
    ensures
      && CanSpawn(m.nxEnabled, m.frameLimit, archive, phys, name)
      && !(forall t :: 0 <= t < MAX_STACKS ==> old(stacks.slots)[t])
      && |FreeSet(old(m.pool).states)| >= TaskFrames(m.mode, archive, name)
      ==> k.Some?
  {
    contents, p, stackTop := map[], Progress(View(map[], map[]), [], [], map[], map[]), 0;
    var file, _ := Cpio.FindFile(archive, name);
    if file.None? {
      return None, contents, p, 0;
    }
    var stack;
    ghost var slot, mine;
    stack, slot := KernelStack(m, stacks, pin);
    if stack.None? {
      return None, contents, p, 0;
    }
    var space;
    space, contents, p, mine := BuildSpace(m, phys, |archive|, file.value, stacks.stacks);
    if space.None? {
      return None, contents, p, 0;
    }
    SettledLoaded(m, stacks.stacks, m.view, m.pool.states, mine);
    var kernel := new Kernel.Kernel(m, stacks, space.value.root, stack.value, slot, pin);
    return Some(kernel), contents, p, stack.value.top;
  }

  // ---- Booting ----

  /** The kernel's ranges stay clear of the stack region, and one of them is the kernel image. */
  ghost predicate KernelLayout(mode: Mode, ranges: seq<KernelRange>) {
    && (forall r <- ranges, page: nat {:trigger OfRange(mode, r, page)} :: OfRange(mode, r, page) ==>
      !InRegion(mode, page))
    && (exists r <- ranges :: r.virt == IMAGE_BASE && Pages(r) > 0)
  }

  /** With such ranges, no stack stands yet and the image pins the region. */
  lemma LayoutMapped(m: PageTables.Machine, ranges: seq<KernelRange>, v: View, s: seq<FrameState>)
    requires KernelOnly(m.mode, m.kernelRoot, v, ranges) && KernelLayout(m.mode, ranges)
    ensures NoUserPages(v, m.kernelRoot) && AllStand(m, map[], v, s)
    ensures RegionPinned(m, Loc(m.kernelRoot, ImagePage(m.mode))) && Loc(m.kernelRoot, ImagePage(m.mode)) in v.maps
  {
    ImagePins(m.mode);
    var r :| r in ranges && r.virt == IMAGE_BASE && Pages(r) > 0;
    assert NthPage(m.mode, r, 0, ImagePage(m.mode));
    assert OnlyRanges(m.mode, m.kernelRoot, v, ranges, Loc(m.kernelRoot, ImagePage(m.mode)));
    forall l: Loc
      ensures PageOfStack(m, map[], v, l) && (l in v.maps ==> l.root == m.kernelRoot)
    {
      assert OnlyRanges(m.mode, m.kernelRoot, v, ranges, l);
    }
  }

  /** The frames it takes to boot. */
  ghost function BootFrames(mode: Mode, ranges: seq<KernelRange>, archive: seq<byte>, name: seq<byte>): nat {
    41 + 4 * PagesIn(ranges) + TaskFrames(mode, archive, name)
  }

  /** The stack the kernel boots on, and the frame through which it hands over to itself. */
  method BootStack(m: PageTables.Machine, stacks: KernelStackPool, ghost pin: Loc) returns (ok: bool)
    requires stacks.Valid(m) && NoUserPages(m.view, m.kernelRoot) && RegionPinned(m, pin) && pin in m.view.maps
    requires |m.pool.states| <= m.frameLimit && stacks.slots == seq(MAX_STACKS, i => false)
    modifies m, stacks
    ensures ok ==>
      && stacks.Valid(m) && NoUserPages(m.view, m.kernelRoot) && pin in m.view.maps && !stacks.slots[1]
      && UnusableStay(old(m.pool).states, m.pool.states)
      && |FreeSet(m.pool.states)| + 40 >= |FreeSet(old(m.pool).states)|
    ensures m.nxEnabled && |FreeSet(old(m.pool).states)| > 40 ==> ok
  {
    assert !stacks.slots[0] && !stacks.slots[1];
    var stack, _ := KernelStack(m, stacks, pin);
    if stack.None? {
      return false;
    }
    ok := HandOver(m, stacks);
  }

  /** Lets the frames of reclaimable regions be handed out from now on. */
  method ReclaimBoot(m: PageTables.Machine, stacks: KernelStackPool, frames: seq<nat>)
    requires stacks.Valid(m)
    modifies m
    ensures stacks.Valid(m) && m.view == old(m.view) && |m.pool.states| == |old(m.pool).states|
    ensures |FreeSet(m.pool.states)| >= |FreeSet(old(m.pool).states)|
    ensures forall f: nat {:trigger Unusable(m.pool.states, f)} ::
      f !in frames && Unusable(old(m.pool).states, f) ==> Unusable(m.pool.states, f)
  {
    ghost var s := m.pool.states;
    StacksOwned(m, stacks.stacks, m.view, s);
    m.Reclaim(frames);
    SubsetSize(FreeSet(s), FreeSet(m.pool.states));
    StacksStay(m, stacks.stacks, m.view, s, m.view, m.pool.states);
  }

  /** Takes a frame and gives it back. */
  method HandOver(m: PageTables.Machine, stacks: KernelStackPool) returns (ok: bool)
    requires stacks.Valid(m)
    modifies m
    ensures stacks.Valid(m) && m.view == old(m.view) && m.pool.states == old(m.pool).states
    ensures ok <==> FreeSet(m.pool.states) != {}
  {
    ghost var v, s := m.view, m.pool.states;
    var frame := m.AllocFrame();
    if frame.Some? {
      MapSteps.NotATable(v, s, frame.value);
      assert s[frame.value := Allocated][frame.value := FrameState.Free] == s;
      m.FreeFrame(frame.value);
    }
    ok := frame.Some?;
  }

  /** Boots a kernel: its address space, the stack it boots on, reclaiming, and the first task.  That task can make a
      system call with the invariant established, and everything the kernel consists of is new. */
  method BootKernel(mode: Mode, frameLimit: nat, nxEnabled: bool, globalPages: bool, mem: Memory, pool: Pool,
                    ranges: seq<KernelRange>, reclaimed: seq<nat>, archive: seq<byte>, phys: nat, name: seq<byte>)
    returns (k: Option<Kernel.Kernel>, contents: Contents, ghost p: Progress, ghost stackTop: nat)
    requires PoolOk(pool) && MapSteps.Sized(mem) && (forall f :: 0 <= f < |pool.states| ==> f in mem)
    requires |pool.states| <= frameLimit && KernelLayout(mode, ranges)
    requires AllUnusable(pool.states, phys / PAGE_SIZE, ArchivePages(|archive|))
    requires forall f <- reclaimed :: !(phys / PAGE_SIZE <= f < phys / PAGE_SIZE + ArchivePages(|archive|))
    ensures k.Some? ==>
      && k.value.Callable() && AllFresh(k.value) && Prepared(k.value, FileIn(archive, name), contents, p)
      && Tracks(SchedRuns.Boot(), FirstEvents(stackTop), k.value.queue.Now())
    ensures
      && RangesSound(mode, frameLimit, nxEnabled, ranges) && CanSpawn(nxEnabled, frameLimit, archive, phys, name)
      && |FreeSet(pool.states)| >= BootFrames(mode, ranges, archive, name)
      ==> k.Some?
  {
    contents, p, stackTop := map[], Progress(View(map[], map[]), [], [], map[], map[]), 0;
    var m, stacks := BootMachine(mode, frameLimit, nxEnabled, globalPages, mem, pool, ranges);
    if m.None? {
      return None, contents, p, 0;
    }
    ReclaimBoot(m.value, stacks, reclaimed);
    k, contents, p, stackTop := Spawn(m.value, stacks, archive, phys, name, Loc(m.value.kernelRoot, ImagePage(mode)));
  }

  /** The kernel's address space and the stack it boots on. */
  method BootMachine(mode: Mode, frameLimit: nat, nxEnabled: bool, globalPages: bool, mem: Memory, pool: Pool,
                     ranges: seq<KernelRange>)
    returns (r: Option<PageTables.Machine>, stacks: KernelStackPool)
    requires PoolOk(pool) && MapSteps.Sized(mem) && (forall f :: 0 <= f < |pool.states| ==> f in mem)
    requires |pool.states| <= frameLimit && KernelLayout(mode, ranges)
    ensures fresh(stacks)
    ensures r.Some? ==>
      var m, pin := r.value, Loc(r.value.kernelRoot, ImagePage(mode));
      && fresh(m) && m.mode == mode && m.frameLimit == frameLimit && m.nxEnabled == nxEnabled
      && stacks.Valid(m) && NoUserPages(m.view, m.kernelRoot) && RegionPinned(m, pin) && pin in m.view.maps
      && !stacks.slots[1] && UnusableStay(pool.states, m.pool.states)
      && |FreeSet(m.pool.states)| + 41 + 4 * PagesIn(ranges) >= |FreeSet(pool.states)|
    ensures
      && RangesSound(mode, frameLimit, nxEnabled, ranges) && nxEnabled
      && |FreeSet(pool.states)| > 41 + 4 * PagesIn(ranges)
      ==> r.Some?
  {
    stacks := new KernelStackPool();
    r := NewKernel(mode, frameLimit, nxEnabled, globalPages, mem, pool, ranges);
    if r.Some? {
      LayoutMapped(r.value, ranges, r.value.view, r.value.pool.states);
      var ok := BootStack(r.value, stacks, Loc(r.value.kernelRoot, ImagePage(mode)));
      if !ok {
        r := None;
      }
    }
  }

  /** The first task can have words stored anywhere on its stack, so that its calls can succeed. */
  lemma StackReachable(k: Kernel.Kernel, stackTop: nat, out: nat)
    requires k.Callable() && Tracks(SchedRuns.Boot(), FirstEvents(stackTop), k.queue.Now())
    requires |k.spaces| > 0 && k.spaces[0].Some? && StackReady(k.vm.view, k.spaces[0].value.root)
    requires USER_STACK.start <= out && out + 8 <= USER_STACK_TOP && out % 8 == 0
    ensures k.CanStore(out)
  {
    FirstTaskEvents(stackTop);
    assert k.CurrentSpace() == k.spaces[0];
    var vm, root := k.vm, k.spaces[0].value.root;
    forall x | out <= x < out + 8
      ensures UserAccess.ByteOk(vm.mem, vm.mode, root, x, true)
    {
      UserHome(vm.Sh(), vm.mode, root, x);
      UserAddress(vm.mode, x);
      UserPageNumber(vm.mode, x);
      ReadsSeeView(vm.mode, vm.Sh(), vm.mem, vm.view, root, x);
      assert StackPageReady(vm.view, root, x / PAGE_SIZE);
    }
  }

  /** From the moment the first task starts, the calls have been answered, and all that happened is a run
      of the scheduler from its beginning. */
  ghost predicate FromBoot(
    k: Kernel.Kernel, calls: seq<Calls.Call>, answers: seq<Calls.Answer>, first: Calls.Moment, stackTop: nat)
    reads k, k.vm, k.stacks, k.queue, k.queue.ready, k.queue.ready.entries
  {
    && k.queue.ready.Valid() && Calls.InTurn(calls, answers, first, k.AtNow())
    && Tracks(SchedRuns.Boot(), FirstEvents(stackTop), first.queue)
    && Tracks(SchedRuns.Boot(), FirstEvents(stackTop) + Calls.EventsOf(answers), k.queue.Now())
  }

  /** Boots and serves any system calls: whatever they are, each gets its answer, the invariant holds
      afterwards, and the run is one of the scheduler's from its beginning. */
  method BootAndServe(mode: Mode, frameLimit: nat, nxEnabled: bool, globalPages: bool, mem: Memory, pool: Pool,
                      ranges: seq<KernelRange>, reclaimed: seq<nat>, archive: seq<byte>, phys: nat, name: seq<byte>,
                      calls: seq<Calls.Call>)
    returns (k: Option<Kernel.Kernel>, halted: bool, ghost answers: seq<Calls.Answer>)
    requires PoolOk(pool) && MapSteps.Sized(mem) && (forall f :: 0 <= f < |pool.states| ==> f in mem)
    requires |pool.states| <= frameLimit && KernelLayout(mode, ranges)
    requires AllUnusable(pool.states, phys / PAGE_SIZE, ArchivePages(|archive|))
    requires forall f <- reclaimed :: !(phys / PAGE_SIZE <= f < phys / PAGE_SIZE + ArchivePages(|archive|))
    ensures k.Some? ==> k.value.Inv() && (halted <==> Calls.Halted(answers)) && (!halted ==> |answers| == |calls|)
    ensures k.Some? ==> exists first: Calls.Moment, stackTop: nat :: FromBoot(k.value, calls, answers, first, stackTop)
    ensures
      && RangesSound(mode, frameLimit, nxEnabled, ranges) && CanSpawn(nxEnabled, frameLimit, archive, phys, name)
      && |FreeSet(pool.states)| >= BootFrames(mode, ranges, archive, name)
      ==> k.Some?
  {
    var contents;
    ghost var p, stackTop;
    halted, answers := false, [];
    k, contents, p, stackTop :=
      BootKernel(mode, frameLimit, nxEnabled, globalPages, mem, pool, ranges, reclaimed, archive, phys, name);
    if k.Some? {
      ghost var first := k.value.AtNow();
      halted, answers := k.value.Serving(calls);
      Calls.TurnsTrack(calls, answers, first, k.value.AtNow());
      TrackThen(SchedRuns.Boot(), FirstEvents(stackTop), first.queue, Calls.EventsOf(answers), k.value.queue.Now());
      assert FromBoot(k.value, calls, answers, first, stackTop);
    }
  }
}
