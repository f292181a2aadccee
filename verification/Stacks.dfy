/** Stacks with a guard page below them. */
module Stacks {
  import opened Outcomes
  import opened Addresses
  import opened Frames
  import opened Forest
  import opened Walks
  import opened Grafts
  import opened Sessions
  import opened AddressSpaces
  import opened Budgets
  import PageTables

  const KERNEL_STACK_PAGES: nat := 8

  datatype StackError =
    | StackAddressOverflow
    | UnalignedStackTop
    | OutOfStackFrames
    | OutOfStacks
    | GuardPageMapped
    | StackMap(error: MapError)

  datatype StackMapping = StackMapping(guard: nat, start: nat, size: nat, top: nat)

  ghost function FramesOf(items: seq<Item>): set<nat> {
    set i | 0 <= i < |items| :: items[i].leaf.frame
  }

  ghost predicate DistinctFrames(items: seq<Item>) {
    forall i, j :: 0 <= i < j < |items| ==> items[i].leaf.frame != items[j].leaf.frame
  }

  lemma FramesGrow(items: seq<Item>, item: Item)
    ensures FramesOf(items + [item]) == FramesOf(items) + {item.leaf.frame}
    ensures DistinctFrames(items) && item.leaf.frame !in FramesOf(items) ==> DistinctFrames(items + [item])
  {
    var more := items + [item];
    forall f
      ensures f in FramesOf(more) <==> f in FramesOf(items) + {item.leaf.frame}
    {
      if f in FramesOf(items) {
        var i :| 0 <= i < |items| && items[i].leaf.frame == f;
        assert more[i].leaf.frame == f;
      }
      assert more[|items|] == item;
    }
    if DistinctFrames(items) && item.leaf.frame !in FramesOf(items) {
      forall i, j | 0 <= i < j < |more|
        ensures more[i].leaf.frame != more[j].leaf.frame
      {
        assert more[i] == items[i] && items[i].leaf.frame in FramesOf(items);
      }
    }
  }

  /** All items have the stack's permissions. */
  ghost predicate StackPerms(items: seq<Item>, perms: Perms) {
    forall i :: 0 <= i < |items| ==> items[i].leaf.present && items[i].leaf.perms == perms
  }

  /** The run of pages from `start` stays clear of `pin` and below the same root entry. */
  ghost predicate Anchored(m: PageTables.Machine, v: View, pin: Loc, start: nat, n: nat) {
    pin in v.maps && forall i {:trigger AnchoredAt(m, v, pin, start, i)} :: 0 <= i < n ==>
      AnchoredAt(m, v, pin, start, i)
  }

  ghost predicate AnchoredAt(m: PageTables.Machine, v: View, pin: Loc, start: nat, i: nat) {
    Anchors(m, v, pin, AddressAt(start, i)) && PageOf(m.mode, AddressAt(start, i)) != pin.page
  }

  /** The items are mapped pages of a run, each on its own allocated frame that is no table. */
  ghost predicate Standing(m: PageTables.Machine, a: AddressSpace, start: nat, items: seq<Item>, v: View,
                           s: seq<FrameState>)
  {
    && RunItems(m.mode, a, start, items)
    && (forall i :: 0 <= i < |items| ==> items[i].loc in v.maps && v.maps[items[i].loc].frame == items[i].leaf.frame)
    && (forall i, j :: 0 <= i < j < |items| ==> items[i].loc != items[j].loc)
    && DistinctFrames(items)
    && FramesOf(items) !! v.nodes.Values && AllAllocated(FramesOf(items), s)
  }

  lemma LastItem(items: seq<Item>, n: nat)
    requires n < |items| && DistinctFrames(items)
    ensures FramesOf(items[..n + 1]) - {items[n].leaf.frame} == FramesOf(items[..n])
    ensures items[n].leaf.frame in FramesOf(items[..n + 1])
    ensures Locs(items[n..]) == Locs(items[n + 1..]) + {items[n].loc}
  {
    assert items[..n + 1] == items[..n] + [items[n]];
    FramesGrow(items[..n], items[n]);
    var rest, more := items[n + 1..], items[n..];
    forall l
      ensures l in Locs(more) <==> l in Locs(rest) + {items[n].loc}
    {
      if l in Locs(more) {
        var i :| 0 <= i < |more| && more[i].loc == l;
        assert i > 0 ==> rest[i - 1].loc == l;
      }
      if l in Locs(rest) {
        var i :| 0 <= i < |rest| && rest[i].loc == l;
        assert more[i + 1].loc == l;
      }
      assert more[0] == items[n];
    }
  }

  /** Unmaps the pages of a run from the top down and frees their frames; no `expect` fires. */
  method UnmapPages(m: PageTables.Machine, a: AddressSpace, start: nat, pages: nat, ghost items: seq<Item>,
                    ghost pin: Loc)
    requires m.Valid() && Live(m, a) && |items| == pages && (pages > 0 ==> start % PAGE_SIZE == 0)
    requires Standing(m, a, start, items, m.view, m.pool.states)
    modifies m
    ensures m.Valid() && Live(m, a)
    ensures Tearing(old(m.view), old(m.pool).states, FramesOf(items), m.view, m.pool.states, a.root, Locs(items), {})
    ensures old(m.SharedHalf()) && (a.kind == User || Anchored(m, old(m.view), pin, start, pages)) ==> m.SharedHalf()
  {
    ghost var v0, s0 := m.view, m.pool.states;
    TearAllStart(v0, s0, a.root, items);
    TearPages(m, a, start, pages, items, pin, a.kind == User || Anchored(m, v0, pin, start, |items|), v0, s0);
    assert items[0..] == items && FramesOf(items[..0]) == {};
  }

  lemma TearAllStart(v: View, s: seq<FrameState>, root: nat, items: seq<Item>)
    requires Backed(v, s) && FramesOf(items) !! v.nodes.Values && AllAllocated(FramesOf(items), s)
    ensures AllAllocated(v.nodes.Values, s) && Torn(v, s, v, s, root, items, |items|)
  {
    TearStart(v, s, root, FramesOf(items));
    BackedAllocated(v, s);
    assert items[..|items|] == items && Locs(items[|items|..]) == {};
  }

  /** All items from n on are gone. */
  ghost predicate Torn(v0: View, s0: seq<FrameState>, v: View, s: seq<FrameState>, root: nat, items: seq<Item>, n: nat)
    requires n <= |items|
  {
    Tearing(v0, s0, FramesOf(items), v, s, root, Locs(items[n..]), FramesOf(items[..n]))
  }

  method TearPages(m: PageTables.Machine, a: AddressSpace, start: nat, pages: nat, ghost items: seq<Item>,
                   ghost pin: Loc,
                   ghost safe: bool, ghost v0: View, ghost s0: seq<FrameState>)
    requires safe ==> a.kind == User || Anchored(m, v0, pin, start, |items|)
    requires m.Valid() && Live(m, a) && |items| == pages && (pages > 0 ==> start % PAGE_SIZE == 0)
    requires Standing(m, a, start, items, v0, s0) && AllAllocated(v0.nodes.Values, s0)
    requires Torn(v0, s0, m.view, m.pool.states, a.root, items, pages)
    modifies m
    ensures m.Valid() && Live(m, a) && Torn(v0, s0, m.view, m.pool.states, a.root, items, 0)
    ensures old(m.SharedHalf()) && safe ==> m.SharedHalf()
  {
    var n := pages;
    while n > 0
      invariant 0 <= n <= pages
      invariant m.Valid() && Live(m, a)
      invariant Torn(v0, s0, m.view, m.pool.states, a.root, items, n)
      invariant old(m.SharedHalf()) && safe ==> m.SharedHalf()
    {
      n := n - 1;
      TearPage(m, a, start, n, items, pin, safe, v0, s0);
    }
  }

  method TearPage(m: PageTables.Machine, a: AddressSpace, start: nat, n: nat, ghost items: seq<Item>, ghost pin: Loc,
                  ghost safe: bool, ghost v0: View, ghost s0: seq<FrameState>)
    requires safe ==> a.kind == User || Anchored(m, v0, pin, start, |items|)
    requires m.Valid() && Live(m, a) && n < |items| && start % PAGE_SIZE == 0
    requires Standing(m, a, start, items, v0, s0) && AllAllocated(v0.nodes.Values, s0)
    requires Torn(v0, s0, m.view, m.pool.states, a.root, items, n + 1)
    modifies m
    ensures m.Valid() && Live(m, a)
    ensures Torn(v0, s0, m.view, m.pool.states, a.root, items, n)
    ensures old(m.SharedHalf()) && safe ==> m.SharedHalf()
  {
    LastItem(items, n);
    StillMapped(items, n, v0.maps);
    assert RunAt(m.mode, a, start, items, n);
    var virtual := PageAddress(start, n);
    TearOne(m, a, virtual, items[n], FramesOf(items), Locs(items[n + 1..]), FramesOf(items[..n + 1]), pin, v0, s0);
    PinStays(m, a, pin, start, items, n, v0, m.view);
  }

  /** Unmaps one page and frees its frame. */
  method TearOne(m: PageTables.Machine, a: AddressSpace, addr: nat, ghost item: Item, ghost held0: set<nat>,
                 ghost gone: set<Loc>,
                 ghost held: set<nat>, ghost pin: Loc, ghost v0: View, ghost s0: seq<FrameState>)
    requires m.Valid() && Live(m, a) && addr % PAGE_SIZE == 0 && CanUnmap(m.mode, a, addr)
    requires item.loc == Loc(a.root, PageOf(m.mode, addr)) && item.leaf.frame in held
    requires item.loc in m.view.maps && m.view.maps[item.loc].frame == item.leaf.frame
    requires AllAllocated(v0.nodes.Values + held0, s0)
    requires Tearing(v0, s0, held0, m.view, m.pool.states, a.root, gone, held)
    modifies m
    ensures m.Valid() && Live(m, a)
    ensures Tearing(v0, s0, held0, m.view, m.pool.states, a.root, gone + {item.loc}, held - {item.leaf.frame})
    ensures old(m.SharedHalf()) && (a.kind == User || Anchors(m, m.view, pin, addr)) ==> m.SharedHalf()
  {
    ghost var v, s := m.view, m.pool.states;
    var result := Unmap(m, a, addr, pin);
    assert result.Ok?;
    TearStep(v0, s0, held0, v, s, a.root, gone, held, m.view, m.pool.states, item.loc);
    TearRelease(v0, s0, held0, m.view, m.pool.states, a.root, gone + {item.loc}, held, item.leaf.frame);
    m.FreeFrame(result.value);
  }

  lemma StillMapped(items: seq<Item>, n: nat, maps: map<Loc, Entry>)
    requires n < |items| && items[n].loc in maps
    requires forall i, j :: 0 <= i < j < |items| ==> items[i].loc != items[j].loc
    ensures items[n].loc in maps - Locs(items[n + 1..])
  {
    var rest := items[n + 1..];
    forall i | 0 <= i < |rest|
      ensures rest[i].loc != items[n].loc
    {
      assert rest[i] == items[n + 1 + i];
    }
  }

  /** The pin is not one of the pages of the run, so it survives their removal. */
  lemma PinStays(m: PageTables.Machine, a: AddressSpace, pin: Loc, start: nat, items: seq<Item>, n: nat, v0: View,
                 v: View)
    requires n < |items| && RunItems(m.mode, a, start, items)
    requires v.maps == v0.maps - (Locs(items[n + 1..]) + {items[n].loc})
    ensures Anchored(m, v0, pin, start, |items|) ==> Anchors(m, v, pin, AddressAt(start, n))
  {
    if Anchored(m, v0, pin, start, |items|) {
      forall i | n <= i < |items|
        ensures items[i].loc != pin
      {
        assert RunAt(m.mode, a, start, items, i);
        assert AnchoredAt(m, v0, pin, start, i);
      }
      assert pin !in Locs(items[n + 1..]);
      assert AnchoredAt(m, v0, pin, start, n);
    }
  }

  // ---- Allocating a stack ----

  /** The pages mapped so far, each on its own frame. */
  ghost predicate Building(
    m: PageTables.Machine, a: AddressSpace, start: nat, perms: Perms, items: seq<Item>,
    v0: View, s0: seq<FrameState>, v: View, s: seq<FrameState>)
  {
    Session(v0, s0, v, s, a.root, items, FramesOf(items)) && Laid(m, a, start, perms, items)
  }

  ghost predicate Laid(m: PageTables.Machine, a: AddressSpace, start: nat, perms: Perms, items: seq<Item>) {
    && RunItems(m.mode, a, start, items) && DistinctFrames(items) && StackPerms(items, perms)
    && (items != [] ==> start % PAGE_SIZE == 0 && (perms.executable || m.nxEnabled))
  }

  lemma BuildingStands(
    m: PageTables.Machine, a: AddressSpace, start: nat, perms: Perms, items: seq<Item>,
    v0: View, s0: seq<FrameState>, v: View, s: seq<FrameState>)
    requires Building(m, a, start, perms, items, v0, s0, v, s)
    ensures Standing(m, a, start, items, v, s)
  {
    forall i | 0 <= i < |items|
      ensures items[i].loc in v.maps && v.maps[items[i].loc].frame == items[i].leaf.frame
    {
      AddAllItem(v0.maps, items, i);
    }
    forall i, j | 0 <= i < j < |items|
      ensures items[i].loc != items[j].loc
    {
      ItemsDistinct(v0.maps, items, i, j);
    }
  }

  ghost predicate StackCauseAt(
    m: PageTables.Machine, a: AddressSpace, v: View, s: seq<FrameState>, start: nat, perms: Perms, e: MapError, i: nat)
  {
    e != OutOfMemory && FrameCause(m, a, v, s, 0, AddressAt(start, i), perms, e)
  }

  /** Why the pages of a stack may not be mapped: one of them may not, or fewer frames are free than
      the pages and their tables need, so that `left` is negative. */
  ghost predicate StackCause(
    m: PageTables.Machine, a: AddressSpace, v: View, s: seq<FrameState>, start: nat, n: nat, perms: Perms, left: int,
    e: StackError)
  {
    if e == OutOfStackFrames || e == StackMap(OutOfMemory) then left < 0
    else e.StackMap? && exists i: nat {:trigger StackCauseAt(m, a, v, s, start, perms, e.error, i)} ::
           i < n && StackCauseAt(m, a, v, s, start, perms, e.error, i)
  }

  /** Allocates and maps page n of a stack, or changes nothing. */
  method StackPage(m: PageTables.Machine, a: AddressSpace, start: nat, n: nat, perms: Perms, ghost total: nat,
                   ghost left: int,
                   ghost items: seq<Item>, ghost pin: Loc, ghost v0: View, ghost s0: seq<FrameState>)
    returns (err: Option<StackError>, ghost more: seq<Item>)
    requires m.Valid() && Live(m, a) && Backed(v0, s0) && |items| == n < total
    requires Building(m, a, start, perms, items, v0, s0, m.view, m.pool.states)
    requires Affords(m.mode, m.view, m.pool.states, a.root, start, n, total, 1, left)
    modifies m
    ensures m.Valid() && Live(m, a)
    ensures err.Some? ==> m.view == old(m.view) && m.pool.states == old(m.pool).states && more == items
    ensures err.Some? ==> PageRefused(m, a, v0, s0, start, n, perms, left, err.value)
    ensures err.None? ==>
      && |more| == n + 1 && Building(m, a, start, perms, more, v0, s0, m.view, m.pool.states)
      && Affords(m.mode, m.view, m.pool.states, a.root, start, n + 1, total, 1, left)
    ensures
      && old(m.SharedHalf())
      && (a.kind == User || (!perms.user && Anchors(m, old(m.view), pin, AddressAt(start, n))))
      ==> m.SharedHalf()
  {
    ghost var v, s := m.view, m.pool.states;
    var frame := m.AllocFrame();
    if frame.None? {
      AffordNone(m.mode, v, s, a.root, start, n, total, left);
      return Some(OutOfStackFrames), items;
    }
    SessionHold(v0, s0, v, s, a.root, items, FramesOf(items), frame.value);
    TakeFree(s, frame.value);
    ghost var s1 := m.pool.states;
    err, more := MapStackPage(m, a, start, n, perms, frame.value, total, left, items, pin, v0, s0, s);
    if err.Some? {
      NotHeldAsTable(v, s, s1, frame.value);
      m.FreeFrame(frame.value);
    }
  }

  /** What stopped page n of a stack. */
  ghost predicate PageRefused(
    m: PageTables.Machine, a: AddressSpace, v: View, s: seq<FrameState>, start: nat, n: nat, perms: Perms, left: int,
    e: StackError)
  {
    if e == OutOfStackFrames || e == StackMap(OutOfMemory) then left < 0
    else e.StackMap? && StackCauseAt(m, a, v, s, start, perms, e.error, n)
  }

  lemma AffordNone(mode: Mode, v: View, s: seq<FrameState>, root: nat, start: nat, i: nat, n: nat, left: int)
    requires i < n && Affords(mode, v, s, root, start, i, n, 1, left) && FreeSet(s) == {}
    ensures left < 0
  {
    assert Costs(mode, v, root, start, i, n, 1, Need(Depth(mode), v.nodes.Keys, root, RunPages(mode, start, i, n), 1));
  }

  /** Maps a frame just taken as page n of a stack. */
  method MapStackPage(m: PageTables.Machine, a: AddressSpace, start: nat, n: nat, perms: Perms, frame: nat,
                      ghost total: nat,
                      ghost left: int, ghost items: seq<Item>, ghost pin: Loc, ghost v0: View,
                      ghost s0: seq<FrameState>,
                      ghost s: seq<FrameState>)
    returns (err: Option<StackError>, ghost more: seq<Item>)
    requires m.Valid() && Live(m, a) && Backed(v0, s0) && |items| == n < total
    requires frame < |s| && s[frame] == Free && m.pool.states == s[frame := Allocated]
    requires |FreeSet(m.pool.states)| + 1 == |FreeSet(s)|
    requires AllAllocated(FramesOf(items), s) && Laid(m, a, start, perms, items)
    requires Session(v0, s0, m.view, s, a.root, items, FramesOf(items))
    requires Session(v0, s0, m.view, m.pool.states, a.root, items, FramesOf(items) + {frame})
    requires Affords(m.mode, m.view, s, a.root, start, n, total, 1, left)
    modifies m
    ensures m.Valid() && Live(m, a)
    ensures err.Some? ==> m.view == old(m.view) && m.pool.states == old(m.pool).states && more == items
    ensures err.Some? ==> PageRefused(m, a, v0, s0, start, n, perms, left, err.value)
    ensures err.None? ==>
      && |more| == n + 1 && Building(m, a, start, perms, more, v0, s0, m.view, m.pool.states)
      && Affords(m.mode, m.view, m.pool.states, a.root, start, n + 1, total, 1, left)
    ensures
      && old(m.SharedHalf())
      && (a.kind == User || (!perms.user && Anchors(m, old(m.view), pin, AddressAt(start, n))))
      ==> m.SharedHalf()
  {
    ghost var v, s1 := m.view, m.pool.states;
    var result;
    ghost var item;
    result, item := MapRunPage(m, a, frame, start, n, perms, false, items, FramesOf(items) + {frame}, v0, s0, pin);
    if result.Err? {
      StackRefused(m, a, start, n, perms, frame, total, left, items, v0, s0, v, s, s1, result.error);
      return Some(StackMap(result.error)), items;
    }
    AffordNext(m.mode, v, s, s1, m.view, m.pool.states, a.root, start, n, total, 1, left);
    BuildingGrows(m, a, start, perms, items, item, frame, v0, s0, s, m.view, m.pool.states);
    return None, items + [item];
  }

  lemma StackRefused(
    m: PageTables.Machine, a: AddressSpace, start: nat, n: nat, perms: Perms, frame: nat, total: nat, left: int,
    items: seq<Item>, v0: View, s0: seq<FrameState>, v: View, s: seq<FrameState>, s1: seq<FrameState>, e: MapError)
    requires |items| == n < total && frame < |s| && s[frame] == Free && |FreeSet(s1)| + 1 == |FreeSet(s)|
    requires Laid(m, a, start, perms, items) && Session(v0, s0, v, s, a.root, items, FramesOf(items))
    requires Session(v0, s0, v, s1, a.root, items, FramesOf(items) + {frame})
    requires Affords(m.mode, v, s, a.root, start, n, total, 1, left)
    requires FrameCause(m, a, v, s1, frame, AddressAt(start, n), perms, e)
    requires e == AlreadyMapped ==> IsCanonical(m.mode, AddressAt(start, n))
    requires e == OutOfMemory ==> NoRoom(m.mode, v, s1, PageAt(m.mode, a.root, start, n))
    ensures PageRefused(m, a, v0, s0, start, n, perms, left, StackMap(e))
  {
    if e == OutOfMemory {
      AffordShort(m.mode, v, s, s1, a.root, start, n, total, 1, left);
    } else {
      CauseBefore(m, a, v0, s0, v, s1, frame, start, perms, items, FramesOf(items) + {frame}, n, e);
      GrownValues(v0, v, a.root);
      FreeBefore(v0, s0, v, s, FramesOf(items), m.frameLimit);
      if frame >= m.frameLimit {
        assert frame in FreeSet(s);
      }
    }
  }

  lemma NotHeldAsTable(v: View, s: seq<FrameState>, s1: seq<FrameState>, f: nat)
    requires Backed(v, s) && f < |s| && s[f] == Free && s1 == s[f := Allocated]
    ensures f !in v.nodes.Values && s1[f := Free] == s
  {
  }

  lemma BuildingGrows(
    m: PageTables.Machine, a: AddressSpace, start: nat, perms: Perms, items: seq<Item>, item: Item, f: nat,
    v0: View, s0: seq<FrameState>, s: seq<FrameState>, v': View, s': seq<FrameState>)
    requires RunItems(m.mode, a, start, items) && DistinctFrames(items) && StackPerms(items, perms)
    requires AllAllocated(FramesOf(items), s) && f < |s| && s[f] == Free
    requires Session(v0, s0, v', s', a.root, items + [item], FramesOf(items) + {f})
    requires item.loc == PageAt(m.mode, a.root, start, |items|) && CanUnmap(m.mode, a, AddressAt(start, |items|))
    requires item.leaf.frame == f && item.leaf.perms == perms && item.leaf.present
    requires items != [] ==> start % PAGE_SIZE == 0
    requires AddressAt(start, |items|) % PAGE_SIZE == 0 && (perms.executable || m.nxEnabled)
    ensures Building(m, a, start, perms, items + [item], v0, s0, v', s')
  {
    FramesGrow(items, item);
    RunGrows(m.mode, a, start, items, item);
  }

  /** The checks before anything is mapped. */
  function StackCheck(size: nat, top: nat): Option<StackError> {
    if top % PAGE_SIZE != 0 then Some(UnalignedStackTop)
    else if top < size || top - size < PAGE_SIZE then Some(StackAddressOverflow)
    else None
  }

  /** Where a stack goes: its guard page, its first page and the number of its pages. */
  datatype StackRange = StackRange(guard: nat, start: nat, pages: nat)

  function RangeOf(size: nat, top: nat): StackRange
    requires StackCheck(size, top).None?
  {
    StackRange(top - size - PAGE_SIZE, top - size, size / PAGE_SIZE)
  }

  /** Maps a stack of any size below `top`, or nothing at all; the guard page stays unmapped. */
  method Allocate(m: PageTables.Machine, a: AddressSpace, size: nat, top: nat, perms: Perms, ghost range: StackRange,
                  ghost pin: Loc)
    returns (r: Result<StackMapping, StackError>, ghost items: seq<Item>, ghost left: int)
    requires m.Valid() && Live(m, a) && m.SharedHalf()
    requires StackCheck(size, top).None? ==> range == RangeOf(size, top)
    modifies m
    ensures m.Valid() && Live(m, a)
    ensures r.Err? ==> m.view == old(m.view) && m.pool.states == old(m.pool).states
    ensures StackCheck(size, top).Some? ==> r == Err(StackCheck(size, top).value) && m.SharedHalf()
    ensures StackCheck(size, top).None? ==>
      && Affords(m.mode, old(m.view), old(m.pool).states, a.root, range.start, 0, range.pages, 1, left)
      && (r == Err(GuardPageMapped) <==> Translate(old(m.mem), m.mode, a.root, range.guard).Some?)
      && (r.Err? && r.error != GuardPageMapped ==>
            StackCause(m, a, old(m.view), old(m.pool).states, range.start, range.pages, perms, left, r.error))
      && (r.Ok? ==>
            && r.value == StackMapping(range.guard, range.start, size, top) && |items| == range.pages
            && Building(m, a, range.start, perms, items, old(m.view), old(m.pool).states, m.view, m.pool.states)
            && left == |FreeSet(m.pool.states)|)
      && (a.kind == User || (!perms.user && Anchored(m, old(m.view), pin, range.start, range.pages)) ==> m.SharedHalf())
  {
    items, left := [], 0;
    var check := StackCheck(size, top);
    if check.Some? {
      return Err(check.value), [], 0;
    }
    var where := RangeOf(size, top);
    var err;
    err, items, left := AllocateAt(m, a, where.guard, where.start, where.pages, perms, pin);
    if err.Some? {
      return Err(err.value), [], left;
    }
    return Ok(StackMapping(where.guard, where.start, size, top)), items, left;
  }

  /** Maps the pages of a stack if its guard page is not mapped. */
  method AllocateAt(m: PageTables.Machine, a: AddressSpace, guard: nat, start: nat, pages: nat, perms: Perms,
                    ghost pin: Loc)
    returns (err: Option<StackError>, ghost items: seq<Item>, ghost left: int)
    requires m.Valid() && Live(m, a) && m.SharedHalf()
    modifies m
    ensures m.Valid() && Live(m, a)
    ensures Affords(m.mode, old(m.view), old(m.pool).states, a.root, start, 0, pages, 1, left)
    ensures err.Some? ==> m.view == old(m.view) && m.pool.states == old(m.pool).states
    ensures err == Some(GuardPageMapped) <==> Translate(old(m.mem), m.mode, a.root, guard).Some?
    ensures err.Some? && err.value != GuardPageMapped ==>
      StackCause(m, a, old(m.view), old(m.pool).states, start, pages, perms, left, err.value)
    ensures err.None? ==>
      && |items| == pages && Building(m, a, start, perms, items, old(m.view), old(m.pool).states, m.view, m.pool.states)
      && left == |FreeSet(m.pool.states)|
    ensures a.kind == User || (!perms.user && Anchored(m, old(m.view), pin, start, pages)) ==> m.SharedHalf()
  {
    left := Margin(Depth(m.mode), m.view, m.pool.states, a.root, RunPages(m.mode, start, 0, pages), 1);
    AffordStart(m.mode, m.view, m.pool.states, a.root, start, pages, 1);
    var mapped := m.ToPhysical(a.root, guard);
    if mapped.Some? {
      return Some(GuardPageMapped), [], left;
    }
    err, items := BuildPages(m, a, start, pages, perms, left, pin);
  }

  /** Maps the pages of a stack from the bottom up, or none of them. */
  method BuildPages(m: PageTables.Machine, a: AddressSpace, start: nat, pages: nat, perms: Perms, ghost left: int,
                    ghost pin: Loc)
    returns (err: Option<StackError>, ghost items: seq<Item>)
    requires m.Valid() && Live(m, a) && m.SharedHalf()
    requires Affords(m.mode, m.view, m.pool.states, a.root, start, 0, pages, 1, left)
    modifies m
    ensures m.Valid() && Live(m, a)
    ensures err.Some? ==> m.view == old(m.view) && m.pool.states == old(m.pool).states
    ensures err.Some? ==> StackCause(m, a, old(m.view), old(m.pool).states, start, pages, perms, left, err.value)
    ensures err.None? ==>
      && |items| == pages && Building(m, a, start, perms, items, old(m.view), old(m.pool).states, m.view, m.pool.states)
      && left == |FreeSet(m.pool.states)|
    ensures a.kind == User || (!perms.user && Anchored(m, old(m.view), pin, start, pages)) ==> m.SharedHalf()
  {
    ghost var v0, s0, mem0 := m.view, m.pool.states, m.mem;
    SessionStart(v0, s0, a.root);
    items := [];
    var n := 0;
    while n < pages
      invariant 0 <= n <= pages && |items| == n
      invariant m.Valid() && Live(m, a)
      invariant Building(m, a, start, perms, items, v0, s0, m.view, m.pool.states)
      invariant Affords(m.mode, m.view, m.pool.states, a.root, start, n, pages, 1, left)
      invariant a.kind == User || (!perms.user && Anchored(m, v0, pin, start, pages)) ==> m.SharedHalf()
    {
      StillAnchored(m, v0, items, m.view, pin, start, pages, n);
      err, items := StackPage(m, a, start, n, perms, pages, left, items, pin, v0, s0);
      if err.Some? {
        Abandon(m, a, start, n, perms, items, pin, pages, v0, s0, mem0);
        return err, [];
      }
      n := n + 1;
    }
    AffordEnd(m.mode, m.view, m.pool.states, a.root, start, pages, 1, left);
    return None, items;
  }

  /** Rolls a partly built stack back. */
  method Abandon(m: PageTables.Machine, a: AddressSpace, start: nat, n: nat, ghost perms: Perms, ghost items: seq<Item>,
                 ghost pin: Loc,
                 ghost pages: nat, ghost v0: View, ghost s0: seq<FrameState>, ghost mem0: Memory)
    requires m.Valid() && Live(m, a) && Backed(v0, s0) && |items| == n <= pages
    requires Building(m, a, start, perms, items, v0, s0, m.view, m.pool.states)
    requires Tree(m.Sh(), mem0, v0) && NoEmpty(mem0, v0, {})
    modifies m
    ensures m.Valid() && Live(m, a)
    ensures m.view == v0 && m.pool.states == s0
    ensures old(m.SharedHalf()) && (a.kind == User || Anchored(m, v0, pin, start, pages)) ==> m.SharedHalf()
  {
    ghost var v, s := m.view, m.pool.states;
    BuildingStands(m, a, start, perms, items, v0, s0, v, s);
    StillAnchoredAll(m, v0, items, v, pin, start, pages);
    UnmapPages(m, a, start, n, items, pin);
    TearUndoes(v0, s0, v, s, a.root, items, FramesOf(items), m.view, m.pool.states);
    UndoEnd(m.mode, m.Sh(), mem0, v0, s0, v, m.mem, m.view, m.pool.states, a.root);
  }

  lemma StillAnchoredAll(m: PageTables.Machine, v0: View, items: seq<Item>, v: View, pin: Loc, start: nat, pages: nat)
    requires v.maps == AddAll(v0.maps, items) && FreshItems(v0.maps, items) && |items| <= pages
    ensures Anchored(m, v0, pin, start, pages) ==> Anchored(m, v, pin, start, |items|)
  {
    if Anchored(m, v0, pin, start, pages) {
      AddAllKeeps(v0.maps, items, pin);
      forall i | 0 <= i < |items|
        ensures AnchoredAt(m, v, pin, start, i)
      {
        assert AnchoredAt(m, v0, pin, start, i);
      }
    }
  }

  lemma StillAnchored(m: PageTables.Machine, v0: View, items: seq<Item>, v: View, pin: Loc, start: nat, pages: nat,
                      n: nat)
    requires v.maps == AddAll(v0.maps, items) && FreshItems(v0.maps, items) && n < pages
    ensures Anchored(m, v0, pin, start, pages) ==> Anchors(m, v, pin, AddressAt(start, n))
  {
    if Anchored(m, v0, pin, start, pages) {
      assert AnchoredAt(m, v0, pin, start, n);
      AddAllKeeps(v0.maps, items, pin);
    }
  }

  lemma AlignedBelow(start: nat)
    requires start >= PAGE_SIZE && start % PAGE_SIZE == 0
    ensures (start - PAGE_SIZE) % PAGE_SIZE == 0
  {
  }

  /** The guard page below a run is none of its pages. */
  lemma GuardApart(mode: Mode, start: nat, i: nat)
    requires start >= PAGE_SIZE && start % PAGE_SIZE == 0
    requires IsCanonical(mode, start - PAGE_SIZE) && IsCanonical(mode, AddressAt(start, i))
    ensures PageOf(mode, AddressAt(start, i)) != PageOf(mode, start - PAGE_SIZE)
  {
    AddressAtAligned(start, i);
    AlignedBelow(start);
    PageDeterminesAddress(mode, AddressAt(start, i), start - PAGE_SIZE);
  }

  /** Building a stack maps nothing at the guard page below it. */
  lemma GuardStaysClear(
    m: PageTables.Machine, a: AddressSpace, start: nat, perms: Perms, items: seq<Item>,
    v0: View, s0: seq<FrameState>, v: View, s: seq<FrameState>, l: Loc)
    requires Building(m, a, start, perms, items, v0, s0, v, s) && start >= PAGE_SIZE
    requires l.page == PageOf(m.mode, start - PAGE_SIZE) && IsCanonical(m.mode, start - PAGE_SIZE)
    ensures l in v.maps <==> l in v0.maps
  {
    forall i | 0 <= i < |items|
      ensures items[i].loc != l
    {
      assert RunAt(m.mode, a, start, items, i);
      GuardApart(m.mode, start, i);
    }
    AddAllOther(v0.maps, items, l);
  }
}
