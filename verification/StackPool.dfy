/** The pool of kernel stacks: fixed slots of guard page plus stack, tracked in one mask of 64 bits. */
module StackPool {
  import opened Outcomes
  import opened Addresses
  import opened Frames
  import opened Forest
  import opened Walks
  import opened Grafts
  import opened Sessions
  import opened AddressSpaces
  import opened Stacks
  import opened MapSteps
  import PageTables

  const SLOT_PAGES: nat := 9
  const SLOT_SIZE: nat := 36864
  const KERNEL_STACK_SIZE: nat := 32768
  const MAX_STACKS: nat := 64
  const STACK_BASE: nat := 0xFFFF_FFFE_0000_0000
  const STACK_PERMS := Perms(true, false, false)

  function SlotTop(slot: nat): nat {
    STACK_BASE + (slot + 1) * SLOT_SIZE
  }

  function SlotStart(slot: nat): nat {
    STACK_BASE + slot * SLOT_SIZE + PAGE_SIZE
  }

  function SlotGuard(slot: nat): nat {
    STACK_BASE + slot * SLOT_SIZE
  }

  /** The page of the first guard. */
  function BasePage(mode: Mode): nat {
    match mode
    case FourLevel => 0xF_FFE0_0000
    case FiveLevel => 0x1FFF_FFE0_0000
  }

  /** Pages of the stack region are numbered consecutively, and all hang off the last root entry. */
  lemma RegionPage(mode: Mode, addr: nat)
    requires STACK_BASE <= addr < STACK_BASE + MAX_STACKS * SLOT_SIZE
    ensures PageOf(mode, addr) == BasePage(mode) + (addr - STACK_BASE) / 4096
    ensures IsCanonical(mode, addr)
  {
    var d := addr - STACK_BASE;
    match mode
    case FourLevel =>
      assert addr == 0xFFFF * 0x1_0000_0000_0000 + (0xFFFE_0000_0000 + d);
      assert addr % 0x1_0000_0000_0000 == 0xFFFE_0000_0000 + d;
    case FiveLevel =>
      assert addr == 0x7F * 0x200_0000_0000_0000 + (0x1FF_FFFE_0000_0000 + d);
      assert addr % 0x200_0000_0000_0000 == 0x1FF_FFFE_0000_0000 + d;
  }

  /** Page i of slot `slot`, and its guard page, in that numbering. */
  lemma SlotPage(mode: Mode, slot: nat, i: nat)
    requires slot < MAX_STACKS && i < KERNEL_STACK_PAGES
    ensures PageOf(mode, AddressAt(SlotStart(slot), i)) == BasePage(mode) + SLOT_PAGES * slot + 1 + i
    ensures PageOf(mode, SlotGuard(slot)) == BasePage(mode) + SLOT_PAGES * slot
    ensures IsCanonical(mode, SlotGuard(slot))
  {
    AddressAtIs(SlotStart(slot), i);
    RegionPage(mode, SlotStart(slot) + i * PAGE_SIZE);
    RegionPage(mode, SlotGuard(slot));
  }

  /** Guard page and stack pages of different slots are all different pages. */
  lemma SlotsDisjoint(mode: Mode, s: nat, i: nat, t: nat, j: nat)
    requires s < MAX_STACKS && t < MAX_STACKS && i < KERNEL_STACK_PAGES && j < KERNEL_STACK_PAGES
    ensures s != t || i != j ==> PageOf(mode, AddressAt(SlotStart(s), i)) != PageOf(mode, AddressAt(SlotStart(t), j))
    ensures PageOf(mode, AddressAt(SlotStart(s), i)) != PageOf(mode, SlotGuard(t))
    ensures s != t ==> PageOf(mode, SlotGuard(s)) != PageOf(mode, SlotGuard(t))
  {
    SlotPage(mode, s, i);
    SlotPage(mode, t, j);
  }

  /** The slot recovered from a stack's top is the slot it was allocated in. */
  lemma SlotOfTop(slot: nat)
    ensures (SlotTop(slot) - STACK_BASE) / SLOT_SIZE - 1 == slot
    ensures SlotTop(slot) - KERNEL_STACK_SIZE == SlotStart(slot) && SlotStart(slot) - PAGE_SIZE == SlotGuard(slot)
    ensures SlotStart(slot) % PAGE_SIZE == 0
  {
  }

  // ---- The pool ----

  /** The live stack in a slot: eight mapped pages on frames of their own, and no guard page. */
  ghost predicate StackStands(m: PageTables.Machine, slot: nat, items: seq<Item>, v: View, s: seq<FrameState>) {
    && slot < MAX_STACKS && |items| == KERNEL_STACK_PAGES
    && Standing(m, AddressSpace(m.kernelRoot, Kernel), SlotStart(slot), items, v, s)
    && Loc(m.kernelRoot, PageOf(m.mode, SlotGuard(slot))) !in v.maps
  }

  /** `pin` is a kernel page outside the stack region below the same root entry. */
  ghost predicate RegionPinned(m: PageTables.Machine, pin: Loc) {
    && pin.root == m.kernelRoot && pin.page < PageCount(m.mode)
    && Digit(Depth(m.mode), pin.page, 0) == 511
    && !(BasePage(m.mode) <= pin.page < BasePage(m.mode) + SLOT_PAGES * MAX_STACKS)
  }

  lemma RegionDigit(mode: Mode, page: nat)
    requires BasePage(mode) <= page < BasePage(mode) + SLOT_PAGES * MAX_STACKS
    ensures Digit(Depth(mode), page, 0) == 511
  {
    match mode
    case FourLevel =>
      assert Up(page, 1) == page / 512;
      assert Up(page, 2) == page / 512 / 512;
      assert Up(page, 3) == page / 512 / 512 / 512;
    case FiveLevel =>
      assert Up(page, 1) == page / 512;
      assert Up(page, 2) == page / 512 / 512;
      assert Up(page, 3) == page / 512 / 512 / 512;
      assert Up(page, 4) == page / 512 / 512 / 512 / 512;
  }

  lemma SlotAnchored(m: PageTables.Machine, v: View, pin: Loc, slot: nat)
    requires RegionPinned(m, pin) && pin in v.maps && slot < MAX_STACKS
    ensures Anchored(m, v, pin, SlotStart(slot), KERNEL_STACK_PAGES)
  {
    forall i | 0 <= i < KERNEL_STACK_PAGES
      ensures AnchoredAt(m, v, pin, SlotStart(slot), i)
    {
      SlotPage(m.mode, slot, i);
      RegionDigit(m.mode, PageOf(m.mode, AddressAt(SlotStart(slot), i)));
    }
  }

  predicate InRegion(mode: Mode, page: nat) {
    BasePage(mode) <= page < BasePage(mode) + SLOT_PAGES * MAX_STACKS
  }

  /** A page mapped in the region belongs to a live stack. */
  ghost predicate PageOfStack(m: PageTables.Machine, stacks: map<nat, seq<Item>>, v: View, l: Loc) {
    l in v.maps && l.root == m.kernelRoot && InRegion(m.mode, l.page) ==>
      exists slot :: slot in stacks && l in Locs(stacks[slot])
  }

  /** All live stacks stand, and nothing else is mapped in their region. */
  ghost predicate AllStand(m: PageTables.Machine, stacks: map<nat, seq<Item>>, v: View, s: seq<FrameState>) {
    && (forall slot {:trigger stacks[slot]} :: slot in stacks ==> StackStands(m, slot, stacks[slot], v, s))
    && (forall l {:trigger PageOfStack(m, stacks, v, l)} :: PageOfStack(m, stacks, v, l))
  }

  /** Neither the guard nor a page of a slot without a live stack is mapped. */
  lemma ClearSlot(m: PageTables.Machine, stacks: map<nat, seq<Item>>, v: View, s: seq<FrameState>, slot: nat, i: nat)
    requires AllStand(m, stacks, v, s) && slot < MAX_STACKS && slot !in stacks && i < KERNEL_STACK_PAGES
    ensures Loc(m.kernelRoot, PageOf(m.mode, AddressAt(SlotStart(slot), i))) !in v.maps
    ensures Loc(m.kernelRoot, PageOf(m.mode, SlotGuard(slot))) !in v.maps
  {
    var page := PageAt(m.mode, m.kernelRoot, SlotStart(slot), i);
    var guard := Loc(m.kernelRoot, PageOf(m.mode, SlotGuard(slot)));
    SlotPage(m.mode, slot, i);
    assert PageOfStack(m, stacks, v, page);
    assert PageOfStack(m, stacks, v, guard);
    forall t | t in stacks
      ensures page !in Locs(stacks[t]) && guard !in Locs(stacks[t])
    {
      assert StackStands(m, t, stacks[t], v, s);
      forall j | 0 <= j < |stacks[t]|
        ensures stacks[t][j].loc != page && stacks[t][j].loc != guard
      {
        assert RunAt(m.mode, AddressSpace(m.kernelRoot, Kernel), SlotStart(t), stacks[t], j);
        SlotsDisjoint(m.mode, t, j, slot, i);
      }
    }
  }

  /** Why a stack cannot be built in a slot without a live stack: too few frames, no way to make its
      pages non-executable, or frames that no entry can hold. */
  ghost predicate SlotCause(m: PageTables.Machine, s: seq<FrameState>, left: int, e: StackError) {
    if e == OutOfStackFrames || e == StackMap(OutOfMemory) then left < 0
    else if e == StackMap(UnsupportedPermissions) then !m.nxEnabled
    else e == StackMap(PhysicalAddressTooLarge) && (m.frameLimit == 0 || FreeAbove(s, m.frameLimit))
  }

  /** No slot is clear. */
  predicate AllTaken(slots: seq<bool>) {
    forall t :: 0 <= t < |slots| ==> slots[t]
  }

  predicate LowestClear(slots: seq<bool>, slot: nat) {
    slot < |slots| && !slots[slot] && forall t :: 0 <= t < slot ==> slots[t]
  }

  /** The mask after an allocation, whether or not it succeeds. */
  function Marked(slots: seq<bool>): seq<bool> {
    if slots == [] then [] else [true] + if slots[0] then Marked(slots[1..]) else slots[1..]
  }

  /** Marking sets the lowest clear bit. */
  lemma {:induction false} MarkedLowest(slots: seq<bool>, slot: nat)
    requires LowestClear(slots, slot)
    ensures Marked(slots) == slots[slot := true] && Marked(slots) != slots
  {
    if slots[0] {
      MarkedLowest(slots[1..], slot - 1);
    }
    assert Marked(slots)[slot] != slots[slot];
  }

  lemma {:induction false} MarkedTaken(slots: seq<bool>)
    requires AllTaken(slots)
    ensures Marked(slots) == slots
  {
    if slots != [] {
      MarkedTaken(slots[1..]);
    }
  }

  lemma ClearAgain(slots: seq<bool>, slot: nat)
    requires slot < |slots| && !slots[slot]
    ensures slots[slot := true][slot := false] == slots
  {
  }

  lemma MarkedSame(slots: seq<bool>)
    ensures Marked(slots) == slots <==> AllTaken(slots)
  {
    if AllTaken(slots) {
      MarkedTaken(slots);
    } else {
      var slot := Lowest(slots);
      MarkedLowest(slots, slot);
    }
  }

  lemma {:induction false} Lowest(slots: seq<bool>) returns (slot: nat)
    requires !AllTaken(slots)
    ensures LowestClear(slots, slot)
  {
    slot := 0;
    if slots[0] {
      slot := Lowest(slots[1..]);
      slot := slot + 1;
    }
  }

  class KernelStackPool {
    /** The bits of the mask; a set bit means the slot is taken. */
    var slots: seq<bool>
    ghost var stacks: map<nat, seq<Item>>

    /** Every live stack stands in a slot whose bit is set, and no two share a frame. */
    ghost predicate Valid(m: PageTables.Machine)
      reads this, m
    {
      m.Valid() && m.SharedHalf() && |slots| == MAX_STACKS && Apart(m, m.view, m.pool.states)
    }

    ghost predicate Apart(m: PageTables.Machine, v: View, states: seq<FrameState>)
      reads this
      requires |slots| == MAX_STACKS
    {
      && AllStand(m, stacks, v, states)
      && (forall slot {:trigger stacks[slot]} :: slot in stacks ==> slot < MAX_STACKS && slots[slot])
      && (forall s, t {:trigger stacks[s], stacks[t]} :: s in stacks && t in stacks && s != t ==>
            FramesOf(stacks[s]) !! FramesOf(stacks[t]))
    }

    constructor ()
      ensures slots == seq(MAX_STACKS, i => false) && stacks == map[]
    {
      slots := seq(MAX_STACKS, i => false);
      stacks := map[];
    }

    /** The outcome of an allocation in `slot`. */
    twostate predicate Allocated(m: PageTables.Machine, new r: Result<StackMapping, StackError>, slot: nat, left: int)
      reads this, m
    {
      && slot < MAX_STACKS && |old(slots)| == MAX_STACKS && slots == old(slots)[slot := true]
      && Affords(m.mode, old(m.view), old(m.pool).states, m.kernelRoot, SlotStart(slot), 0, KERNEL_STACK_PAGES, 1, left)
      && (r.Err? ==> SlotCause(m, old(m.pool).states, left, r.error))
      && (r.Err? ==> m.view == old(m.view) && m.pool.states == old(m.pool).states && stacks == old(stacks))
      && (r.Ok? ==>
            && r.value.top == SlotTop(slot) && slot !in old(stacks) && left == |FreeSet(m.pool.states)| && m.nxEnabled
            && slot in stacks && stacks == old(stacks)[slot := stacks[slot]]
            && Building(m, AddressSpace(m.kernelRoot, Kernel), SlotStart(slot), STACK_PERMS, stacks[slot],
                        old(m.view), old(m.pool).states, m.view, m.pool.states))
    }

    /** Allocates a stack in the lowest slot whose bit is clear.  The bit is set even on failure. */
    method Allocate(m: PageTables.Machine, ghost pin: Loc)
      returns (r: Result<StackMapping, StackError>, ghost slot: nat, ghost left: int)
      requires Valid(m) && RegionPinned(m, pin) && pin in m.view.maps
      modifies this, m
      ensures Valid(m)
      ensures r == Err(OutOfStacks) <==> forall t :: 0 <= t < MAX_STACKS ==> old(slots)[t]
      ensures r == Err(OutOfStacks) ==>
        m.view == old(m.view) && m.pool.states == old(m.pool).states && stacks == old(stacks) && slots == old(slots)
      ensures r != Err(OutOfStacks) ==>
        && slot < MAX_STACKS && !old(slots)[slot] && (forall t :: 0 <= t < slot ==> old(slots)[t])
        && Allocated(m, r, slot, left)
    {
      var n := 0;
      while n < MAX_STACKS
        invariant 0 <= n <= MAX_STACKS
        invariant Valid(m) && slots == old(slots) && stacks == old(stacks)
        invariant m.view == old(m.view) && m.pool == old(m.pool) && m.mem == old(m.mem)
        invariant forall t :: 0 <= t < n ==> slots[t]
      {
        if !slots[n] {
          r, left := AllocateSlot(m, n, pin);
          return r, n, left;
        }
        n := n + 1;
      }
      return Err(OutOfStacks), 0, 0;
    }

    /** Destroys a live stack and clears its slot. */
    method Free(m: PageTables.Machine, stack: StackMapping, ghost slot: nat, ghost pin: Loc)
      requires Valid(m) && RegionPinned(m, pin) && pin in m.view.maps
      requires slot in stacks && stack.top == SlotTop(slot)
      modifies this, m
      ensures Valid(m)
      ensures stacks == old(stacks) - {slot} && slot < MAX_STACKS && slots == old(slots)[slot := false]
      ensures Tearing(old(m.view), old(m.pool).states, FramesOf(old(stacks)[slot]), m.view, m.pool.states,
                      m.kernelRoot, Locs(old(stacks)[slot]), {})
    {
      ghost var v0, s0, items := m.view, m.pool.states, stacks[slot];
      SlotOfTop(slot);
      SlotAnchored(m, m.view, pin, slot);
      var index := (stack.top - STACK_BASE) / SLOT_SIZE - 1;
      UnmapPages(m, AddressSpace(m.kernelRoot, Kernel), stack.top - KERNEL_STACK_SIZE, KERNEL_STACK_SIZE / PAGE_SIZE,
                 items, pin);
      PoolShrinks(m, stacks, slot, v0, s0, m.view, m.pool.states);
      slots := slots[index := false];
      stacks := stacks - {slot};
    }

    method AllocateSlot(m: PageTables.Machine, slot: nat, ghost pin: Loc)
      returns (r: Result<StackMapping, StackError>, ghost left: int)
      requires Valid(m) && RegionPinned(m, pin) && pin in m.view.maps
      requires slot < MAX_STACKS && !slots[slot]
      modifies this, m
      ensures Valid(m) && Allocated(m, r, slot, left)
    {
      slots := slots[slot := true];
      ghost var items;
      r, items, left := BuildSlot(m, slot, stacks, pin);
      if r.Ok? {
        stacks := stacks[slot := items];
      }
    }
  }

  /** Builds a stack in a slot beside the stacks that stand. */
  method BuildSlot(m: PageTables.Machine, slot: nat, ghost stacks: map<nat, seq<Item>>, ghost pin: Loc)
    returns (r: Result<StackMapping, StackError>, ghost items: seq<Item>, ghost left: int)
    requires m.Valid() && m.SharedHalf() && RegionPinned(m, pin) && pin in m.view.maps
    requires slot < MAX_STACKS && slot !in stacks && AllStand(m, stacks, m.view, m.pool.states)
    modifies m
    ensures m.Valid() && m.SharedHalf()
    ensures Affords(m.mode, old(m.view), old(m.pool).states, m.kernelRoot, SlotStart(slot), 0, KERNEL_STACK_PAGES, 1,
                    left)
    ensures r.Err? ==>
      m.view == old(m.view) && m.pool.states == old(m.pool).states && SlotCause(m, m.pool.states, left, r.error)
    ensures r.Ok? ==>
      && r.value.top == SlotTop(slot) && left == |FreeSet(m.pool.states)| && m.nxEnabled
      && AllStand(m, stacks[slot := items], m.view, m.pool.states)
      && Building(m, AddressSpace(m.kernelRoot, Kernel), SlotStart(slot), STACK_PERMS, items,
                  old(m.view), old(m.pool).states, m.view, m.pool.states)
      && forall t {:trigger stacks[t]} :: t in stacks ==> FramesOf(stacks[t]) !! FramesOf(items)
  {
    ghost var v0, s0, mem0 := m.view, m.pool.states, m.mem;
    SlotAnchored(m, m.view, pin, slot);
    r, items, left := AllocateAtTop(m, slot, pin);
    if r.Ok? {
      PoolGrows(m, stacks, slot, items, mem0, v0, s0, m.view, m.pool.states);
    } else {
      SlotRefused(m, stacks, mem0, v0, s0, slot, left, r.error);
    }
  }

  /** Of the causes a stack may fail for, only some can be found in a slot without a live stack. */
  lemma SlotRefused(
    m: PageTables.Machine, stacks: map<nat, seq<Item>>, mem: Memory, v: View, s: seq<FrameState>, slot: nat, left: int,
    e: StackError)
    requires AllStand(m, stacks, v, s) && slot < MAX_STACKS && slot !in stacks
    requires Tree(m.Sh(), mem, v) && Key(m.kernelRoot, 0, 0) in v.nodes
    requires e == GuardPageMapped ==> Translate(mem, m.mode, m.kernelRoot, SlotGuard(slot)).Some?
    requires e != GuardPageMapped ==>
      StackCause(m, AddressSpace(m.kernelRoot, Kernel), v, s, SlotStart(slot), KERNEL_STACK_PAGES, STACK_PERMS, left, e)
    ensures SlotCause(m, s, left, e)
  {
    ClearSlot(m, stacks, v, s, slot, 0);
    SlotPage(m.mode, slot, 0);
    ReadsSeeView(m.mode, m.Sh(), mem, v, m.kernelRoot, SlotGuard(slot));
    assert e != GuardPageMapped;
    if e.StackMap? && e.error != OutOfMemory {
      var i: nat :| i < KERNEL_STACK_PAGES &&
        StackCauseAt(m, AddressSpace(m.kernelRoot, Kernel), v, s, SlotStart(slot), STACK_PERMS, e.error, i);
      ClearSlot(m, stacks, v, s, slot, i);
      SlotPage(m.mode, slot, i);
      SlotAddress(m.mode, slot, i);
    }
  }

  lemma SlotAddress(mode: Mode, slot: nat, i: nat)
    requires slot < MAX_STACKS && i < KERNEL_STACK_PAGES
    ensures IsCanonical(mode, AddressAt(SlotStart(slot), i)) && AddressAt(SlotStart(slot), i) % PAGE_SIZE == 0
  {
    SlotOfTop(slot);
    AddressAtAligned(SlotStart(slot), i);
    AddressAtIs(SlotStart(slot), i);
    RegionPage(mode, SlotStart(slot) + i * PAGE_SIZE);
  }

  /** Allocates a kernel stack below the top of a slot. */
  method AllocateAtTop(m: PageTables.Machine, slot: nat, ghost pin: Loc)
    returns (r: Result<StackMapping, StackError>, ghost items: seq<Item>, ghost left: int)
    requires m.Valid() && m.SharedHalf() && Key(m.kernelRoot, 0, 0) in m.view.nodes
    requires Anchored(m, m.view, pin, SlotStart(slot), KERNEL_STACK_PAGES)
    modifies m
    ensures m.Valid() && m.SharedHalf()
    ensures Affords(m.mode, old(m.view), old(m.pool).states, m.kernelRoot, SlotStart(slot), 0, KERNEL_STACK_PAGES, 1,
                    left)
    ensures r.Err? ==> m.view == old(m.view) && m.pool.states == old(m.pool).states
    ensures r == Err(GuardPageMapped) <==> Translate(old(m.mem), m.mode, m.kernelRoot, SlotGuard(slot)).Some?
    ensures r.Err? && r.error != GuardPageMapped ==>
      StackCause(m, AddressSpace(m.kernelRoot, Kernel), old(m.view), old(m.pool).states, SlotStart(slot),
                 KERNEL_STACK_PAGES,
                 STACK_PERMS, left, r.error)
    ensures r.Ok? ==>
      && r.value.top == SlotTop(slot) && |items| == KERNEL_STACK_PAGES && left == |FreeSet(m.pool.states)|
      && m.nxEnabled
      && Building(m, AddressSpace(m.kernelRoot, Kernel), SlotStart(slot), STACK_PERMS, items,
                  old(m.view), old(m.pool).states, m.view, m.pool.states)
  {
    SlotRange(slot);
    var top := STACK_BASE + (slot + 1) * SLOT_SIZE;
    r, items, left := Stacks.Allocate(m, AddressSpace(m.kernelRoot, Kernel), KERNEL_STACK_SIZE, top, STACK_PERMS,
                                      StackRange(SlotGuard(slot), SlotStart(slot), KERNEL_STACK_PAGES), pin);
  }

  lemma SlotRange(slot: nat)
    ensures StackCheck(KERNEL_STACK_SIZE, SlotTop(slot)).None?
    ensures RangeOf(KERNEL_STACK_SIZE, SlotTop(slot))
         == StackRange(SlotGuard(slot), SlotStart(slot), KERNEL_STACK_PAGES)
  {
    SlotOfTop(slot);
  }

  /** Building another stack leaves a standing stack standing. */
  lemma OtherStackStands(
    m: PageTables.Machine, t: nat, other: seq<Item>, slot: nat, items: seq<Item>,
    v0: View, s0: seq<FrameState>, v: View, s: seq<FrameState>)
    requires slot < MAX_STACKS && slot != t && |items| == KERNEL_STACK_PAGES && StackStands(m, t, other, v0, s0)
    requires Building(m, AddressSpace(m.kernelRoot, Kernel), SlotStart(slot), STACK_PERMS, items, v0, s0, v, s)
    ensures StackStands(m, t, other, v, s) && FramesOf(other) !! FramesOf(items)
  {
    forall i | 0 <= i < |other|
      ensures other[i].loc in v.maps && v.maps[other[i].loc].frame == other[i].leaf.frame
    {
      AddAllKeeps(v0.maps, items, other[i].loc);
    }
    FramesKept(v0, s0, v, s, FramesOf(items), FramesOf(other));
    var l := Loc(m.kernelRoot, PageOf(m.mode, SlotGuard(t)));
    forall i | 0 <= i < |items|
      ensures items[i].loc != l
    {
      assert RunAt(m.mode, AddressSpace(m.kernelRoot, Kernel), SlotStart(slot), items, i);
      SlotsDisjoint(m.mode, slot, i, t, 0);
    }
    AddAllOther(v0.maps, items, l);
  }

  /** Allocated frames that are no tables stay so while others are taken. */
  lemma FramesKept(v0: View, s0: seq<FrameState>, v: View, s: seq<FrameState>, held: set<nat>, rest: set<nat>)
    requires Moved(v0.nodes.Values, s0, v.nodes.Values + held, s)
    requires rest !! v0.nodes.Values && AllAllocated(rest, s0)
    ensures rest !! v.nodes.Values && rest !! held && AllAllocated(rest, s)
  {
  }

  lemma PoolGrows(
    m: PageTables.Machine, stacks: map<nat, seq<Item>>, slot: nat, items: seq<Item>,
    mem0: Memory, v0: View, s0: seq<FrameState>, v: View, s: seq<FrameState>)
    requires slot < MAX_STACKS && slot !in stacks && |items| == KERNEL_STACK_PAGES
    requires AllStand(m, stacks, v0, s0)
    requires Building(m, AddressSpace(m.kernelRoot, Kernel), SlotStart(slot), STACK_PERMS, items, v0, s0, v, s)
    requires Tree(m.Sh(), mem0, v0) && Key(m.kernelRoot, 0, 0) in v0.nodes
    requires Translate(mem0, m.mode, m.kernelRoot, SlotGuard(slot)) == None
    ensures AllStand(m, stacks[slot := items], v, s)
    ensures forall t {:trigger stacks[t]} :: t in stacks ==> FramesOf(stacks[t]) !! FramesOf(items)
  {
    var kernel := AddressSpace(m.kernelRoot, Kernel);
    forall t {:trigger stacks[t]} | t in stacks
      ensures StackStands(m, t, stacks[t], v, s) && FramesOf(stacks[t]) !! FramesOf(items)
    {
      OtherStackStands(m, t, stacks[t], slot, items, v0, s0, v, s);
    }
    BuildingStands(m, kernel, SlotStart(slot), STACK_PERMS, items, v0, s0, v, s);
    NewGuardClear(m, slot, items, mem0, v0, s0, v, s);
    var more := stacks[slot := items];
    forall l
      ensures PageOfStack(m, more, v, l)
    {
      PageOfGrown(m, stacks, slot, items, v0, v, l);
    }
  }

  lemma PageOfGrown(m: PageTables.Machine, stacks: map<nat, seq<Item>>, slot: nat, items: seq<Item>, v0: View, v: View,
                    l: Loc)
    requires slot !in stacks && v.maps == AddAll(v0.maps, items) && PageOfStack(m, stacks, v0, l)
    ensures PageOfStack(m, stacks[slot := items], v, l)
  {
    var more := stacks[slot := items];
    if l in Locs(items) {
      assert slot in more && l in Locs(more[slot]);
    } else {
      AddAllOther(v0.maps, items, l);
      if t: nat :| t in stacks && l in Locs(stacks[t]) {
        assert t in more && l in Locs(more[t]);
      }
    }
  }

  lemma NewGuardClear(
    m: PageTables.Machine, slot: nat, items: seq<Item>, mem0: Memory, v0: View, s0: seq<FrameState>, v: View,
    s: seq<FrameState>)
    requires slot < MAX_STACKS
    requires Building(m, AddressSpace(m.kernelRoot, Kernel), SlotStart(slot), STACK_PERMS, items, v0, s0, v, s)
    requires Tree(m.Sh(), mem0, v0) && Key(m.kernelRoot, 0, 0) in v0.nodes
    requires Translate(mem0, m.mode, m.kernelRoot, SlotGuard(slot)) == None
    ensures Loc(m.kernelRoot, PageOf(m.mode, SlotGuard(slot))) !in v.maps
  {
    SlotPage(m.mode, slot, 0);
    SlotOfTop(slot);
    ReadsSeeView(m.mode, m.Sh(), mem0, v0, m.kernelRoot, SlotGuard(slot));
    GuardStaysClear(m, AddressSpace(m.kernelRoot, Kernel), SlotStart(slot), STACK_PERMS, items, v0, s0, v, s,
                    Loc(m.kernelRoot, PageOf(m.mode, SlotGuard(slot))));
  }

  lemma PoolShrinks(
    m: PageTables.Machine, stacks: map<nat, seq<Item>>, slot: nat, v0: View, s0: seq<FrameState>, v: View,
    s: seq<FrameState>)
    requires slot in stacks
    requires AllStand(m, stacks, v0, s0)
    requires forall t, u {:trigger stacks[t], stacks[u]} :: t in stacks && u in stacks && t != u ==>
      FramesOf(stacks[t]) !! FramesOf(stacks[u])
    requires Tearing(v0, s0, FramesOf(stacks[slot]), v, s, m.kernelRoot, Locs(stacks[slot]), {})
    ensures AllStand(m, stacks - {slot}, v, s)
  {
    forall t {:trigger stacks[t]} | t in stacks && t != slot
      ensures StackStands(m, t, stacks[t], v, s)
    {
      OtherStackSurvives(m, t, stacks[t], slot, stacks[slot], v0, s0, v, s);
    }
    var rest := stacks - {slot};
    forall l
      ensures PageOfStack(m, rest, v, l)
    {
      assert PageOfStack(m, stacks, v0, l);
      if t: nat :| t in stacks && l in Locs(stacks[t]) {
        assert t != slot ==> t in rest && l in Locs(rest[t]);
      }
    }
  }

  /** Destroying one stack leaves the others standing. */
  lemma OtherStackSurvives(
    m: PageTables.Machine, t: nat, other: seq<Item>, slot: nat, items: seq<Item>, v0: View, s0: seq<FrameState>,
    v: View, s: seq<FrameState>)
    requires t != slot && StackStands(m, t, other, v0, s0) && StackStands(m, slot, items, v0, s0)
    requires FramesOf(other) !! FramesOf(items)
    requires Tearing(v0, s0, FramesOf(items), v, s, m.kernelRoot, Locs(items), {})
    ensures StackStands(m, t, other, v, s)
  {
    var kernel := AddressSpace(m.kernelRoot, Kernel);
    forall i | 0 <= i < |other|
      ensures other[i].loc !in Locs(items)
    {
      assert RunAt(m.mode, kernel, SlotStart(t), other, i);
      forall j | 0 <= j < |items|
        ensures items[j].loc != other[i].loc
      {
        assert RunAt(m.mode, kernel, SlotStart(slot), items, j);
        SlotsDisjoint(m.mode, t, i, slot, j);
      }
    }
    assert v.nodes.Values <= v0.nodes.Values;
  }
}
