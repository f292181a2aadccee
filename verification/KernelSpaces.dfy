/** The kernel's own address space when it starts: a list of ranges, mapped before any other space exists. */
module KernelSpaces {
  import opened Outcomes
  import opened Addresses
  import opened Frames
  import opened Forest
  import opened Walks
  import opened Grafts
  import opened Sessions
  import opened AddressSpaces
  import opened Budgets
  import MapSteps
  import PageTables

  // ---- Frames that are never handed out ----

  /** A frame that the allocator never hands out. */
  ghost predicate Unusable(s: seq<FrameState>, f: nat) {
    f >= |s| || s[f] == Reserved
  }

  /** What never was handed out stays so. */
  ghost predicate UnusableStay(s: seq<FrameState>, s': seq<FrameState>) {
    |s'| == |s| && forall f: nat {:trigger Unusable(s', f)} :: Unusable(s, f) ==> Unusable(s', f)
  }

  lemma StaysUnusable(a: set<nat>, s: seq<FrameState>, b: set<nat>, s': seq<FrameState>)
    requires Moved(a, s, b, s') && AllAllocated(a, s)
    ensures UnusableStay(s, s')
  {
  }

  // ---- When a range can be mapped ----

  /** Page k of a range can be mapped. */
  ghost predicate Mappable(m: PageTables.Machine, a: AddressSpace, v: View, first: nat, virt: nat, k: nat) {
    && CanUnmap(m.mode, a, AddressAt(virt, k)) && first + k < m.frameLimit
    && PageAt(m.mode, a.root, virt, k) !in v.maps
  }

  /** All pages of a range can be mapped. */
  ghost predicate RangeFree(m: PageTables.Machine, a: AddressSpace, v: View, first: nat, virt: nat, n: nat,
                            perms: Perms)
  {
    && (perms.executable || m.nxEnabled) && (a.kind == User ==> perms.user)
    && forall k: nat {:trigger Mappable(m, a, v, first, virt, k)} :: k < n ==> Mappable(m, a, v, first, virt, k)
  }

  /** Then only a lack of frames can stop it. */
  lemma NoRangeCause(
    m: PageTables.Machine, a: AddressSpace, v: View, s: seq<FrameState>, first: nat, virt: nat, n: nat, perms: Perms,
    e: MapError)
    requires RangeFree(m, a, v, first, virt, n, perms) && virt % PAGE_SIZE == 0 && |s| <= m.frameLimit
    requires RangeCause(m, a, v, s, first, virt, n, perms, e)
    ensures Margin(Depth(m.mode), v, s, a.root, RunPages(m.mode, virt, 0, n), 0) < 0
  {
    if e != MapError.OutOfMemory {
      var k: nat :| k < n && CauseAt(m, a, v, s, first, virt, perms, e, k);
      assert Mappable(m, a, v, first, virt, k);
      AddressAtAligned(virt, k);
    }
  }

  lemma {:induction false} RunPagesShort(mode: Mode, start: nat, i: nat, n: nat)
    ensures forall page <- RunPages(mode, start, i, n) :: page < PageCount(mode)
    decreases n - i
  {
    if i < n {
      RunPagesShort(mode, start, i + 1, n);
    }
  }

  /** A page needs at most four tables. */
  lemma FewFrames(mode: Mode, v: View, root: nat, pages: seq<nat>, each: nat)
    requires Key(root, 0, 0) in v.nodes && (forall page <- pages :: page < PageCount(mode)) && each <= 1
    ensures Need(Depth(mode), v.nodes.Keys, root, pages, each) <= 5 * |pages|
    ensures each == 0 ==> Need(Depth(mode), v.nodes.Keys, root, pages, each) <= 4 * |pages|
  {
    forall page | page in pages
      ensures PathKey(Depth(mode), root, page, 0) in v.nodes.Keys
    {
      RootPrefix(mode, page);
    }
    NeedBound(Depth(mode), v.nodes.Keys, root, pages, each);
    Scaled(|pages|, Depth(mode) + each, 5);
    if each == 0 {
      Scaled(|pages|, Depth(mode), 4);
    }
  }

  lemma Scaled(n: nat, a: nat, b: nat)
    requires a <= b
    ensures n * a <= n * b
  {
  }

  /** Maps a range; that succeeds if all its pages are free and four frames are free for each. */
  method TryRange(m: PageTables.Machine, a: AddressSpace, phys: nat, virt: nat, length: nat, perms: Perms,
                  uncached: bool)
    returns (ok: bool, ghost items: seq<Item>)
    requires m.Valid() && Live(m, a) && |m.pool.states| <= m.frameLimit
    modifies m
    ensures m.Valid() && Live(m, a) && UnusableStay(old(m.pool).states, m.pool.states)
    ensures ok ==>
      && |items| == length / PAGE_SIZE && RunItems(m.mode, a, virt, items)
      && RangeItems(m, a, phys / PAGE_SIZE, perms, uncached, items)
      && Session(old(m.view), old(m.pool).states, m.view, m.pool.states, a.root, items, {})
      && |FreeSet(m.pool.states)| + 4 * (length / PAGE_SIZE) >= |FreeSet(old(m.pool).states)|
    ensures
      && (length > 0 ==> RangeCheck(phys, virt, length).None?)
      && RangeFree(m, a, old(m.view), phys / PAGE_SIZE, virt, length / PAGE_SIZE, perms)
      && 4 * (length / PAGE_SIZE) <= |FreeSet(old(m.pool).states)|
      ==> ok
    ensures ok && old(m.SharedHalf()) && a.kind == User ==> m.SharedHalf()
  {
    ghost var v, s, pages := m.view, m.pool.states, RunPages(m.mode, virt, 0, length / PAGE_SIZE);
    RunPagesShort(m.mode, virt, 0, length / PAGE_SIZE);
    FewFrames(m.mode, v, a.root, pages, 0);
    var result;
    result, items := MapRange(m, a, phys, virt, length, perms, uncached);
    ok := result.Ok?;
    BackedAllocated(v, s);
    if ok {
      StaysUnusable(v.nodes.Values, s, m.view.nodes.Values + {}, m.pool.states);
    }
    if result.Err? && length > 0 && RangeCheck(phys, virt, length).None?
       && RangeFree(m, a, v, phys / PAGE_SIZE, virt, length / PAGE_SIZE, perms) {
      NoRangeCause(m, a, v, s, phys / PAGE_SIZE, virt, length / PAGE_SIZE, perms, result.error);
    }
  }

  // ---- The kernel's ranges ----

  datatype KernelRange = KernelRange(phys: nat, virt: nat, length: nat, writable: bool, executable: bool,
                                     uncached: bool)

  function KernelPerms(r: KernelRange): Perms {
    Perms(r.writable, r.executable, false)
  }

  function Pages(r: KernelRange): nat {
    r.length / PAGE_SIZE
  }

  function PagesIn(ranges: seq<KernelRange>): nat {
    if ranges == [] then 0 else PagesIn(ranges[..|ranges| - 1]) + Pages(ranges[|ranges| - 1])
  }

  ghost predicate NthPage(mode: Mode, r: KernelRange, k: nat, page: nat) {
    k < Pages(r) && page == PageOf(mode, AddressAt(r.virt, k))
  }

  ghost predicate OfRange(mode: Mode, r: KernelRange, page: nat) {
    exists k: nat :: NthPage(mode, r, k, page)
  }

  ghost predicate OfRanges(mode: Mode, ranges: seq<KernelRange>, page: nat) {
    exists r <- ranges :: OfRange(mode, r, page)
  }

  /** A range of canonical pages and of frames that entries can hold. */
  ghost predicate RangeSound(mode: Mode, limit: nat, nx: bool, r: KernelRange) {
    && (r.length > 0 ==> RangeCheck(r.phys, r.virt, r.length).None?) && (r.executable || nx)
    && r.phys / PAGE_SIZE + Pages(r) <= limit
    && forall k: nat {:trigger AddressAt(r.virt, k)} :: k < Pages(r) ==> IsCanonical(mode, AddressAt(r.virt, k))
  }

  ghost predicate RangesApart(mode: Mode, ranges: seq<KernelRange>, i: nat, j: nat) {
    i < j < |ranges| ==> forall page: nat :: !(OfRange(mode, ranges[i], page) && OfRange(mode, ranges[j], page))
  }

  /** Sound ranges that share no page. */
  ghost predicate RangesSound(mode: Mode, limit: nat, nx: bool, ranges: seq<KernelRange>) {
    && (forall r <- ranges :: RangeSound(mode, limit, nx, r))
    && (forall i: nat, j: nat {:trigger RangesApart(mode, ranges, i, j)} :: RangesApart(mode, ranges, i, j))
  }

  /** The kernel's is the only root, and it maps exactly the pages of the ranges. */
  ghost predicate KernelOnly(mode: Mode, kernelRoot: nat, v: View, ranges: seq<KernelRange>) {
    && (forall r :: Key(r, 0, 0) in v.nodes ==> r == kernelRoot)
    && (forall l {:trigger OnlyRanges(mode, kernelRoot, v, ranges, l)} :: OnlyRanges(mode, kernelRoot, v, ranges, l))
  }

  ghost predicate OnlyRanges(mode: Mode, kernelRoot: nat, v: View, ranges: seq<KernelRange>, l: Loc) {
    l in v.maps <==> l.root == kernelRoot && OfRanges(mode, ranges, l.page)
  }

  /** While the kernel's is the only root, the upper half is shared trivially. */
  lemma OnlyKernelRoot(sh: Shape, mem: Memory, v: View)
    requires forall r :: Key(r, 0, 0) in v.nodes ==> r == sh.kernelRoot
    ensures Shared(sh, mem, v)
  {
  }

  /** A page that is new is one of the pages added. */
  lemma NewIsItem(maps: map<Loc, Entry>, items: seq<Item>, l: Loc) returns (i: nat)
    requires FreshItems(maps, items) && l in AddAll(maps, items) && l !in maps
    ensures i < |items| && items[i].loc == l && AddAll(maps, items)[l] == items[i].leaf
  {
    if forall i :: 0 <= i < |items| ==> items[i].loc != l {
      AddAllOther(maps, items, l);
    }
    i :| 0 <= i < |items| && items[i].loc == l;
    AddAllItem(maps, items, i);
  }

  lemma OfMore(mode: Mode, ranges: seq<KernelRange>, r: KernelRange, page: nat)
    ensures OfRanges(mode, ranges + [r], page) <==> OfRanges(mode, ranges, page) || OfRange(mode, r, page)
  {
    var more := ranges + [r];
    assert r in more;
    if x: KernelRange :| x in ranges && OfRange(mode, x, page) {
      assert x in more;
    }
  }

  /** One more range is mapped. */
  lemma KernelGrows(
    mode: Mode, kernelRoot: nat, v: View, s: seq<FrameState>, ranges: seq<KernelRange>, r: KernelRange,
    items: seq<Item>,
    v': View, s': seq<FrameState>)
    requires KernelOnly(mode, kernelRoot, v, ranges) && |items| == Pages(r)
    requires RunItems(mode, AddressSpace(kernelRoot, Kernel), r.virt, items)
    requires Session(v, s, v', s', kernelRoot, items, {})
    ensures KernelOnly(mode, kernelRoot, v', ranges + [r])
  {
    forall l: Loc
      ensures OnlyRanges(mode, kernelRoot, v', ranges + [r], l)
    {
      OfMore(mode, ranges, r, l.page);
      assert OnlyRanges(mode, kernelRoot, v, ranges, l);
      if l in v.maps {
        AddAllKeeps(v.maps, items, l);
      } else if l in v'.maps {
        var i := NewIsItem(v.maps, items, l);
        assert RunAt(mode, AddressSpace(kernelRoot, Kernel), r.virt, items, i);
        assert NthPage(mode, r, i, l.page);
      }
      if l.root == kernelRoot && OfRange(mode, r, l.page) {
        var k: nat :| NthPage(mode, r, k, l.page);
        assert RunAt(mode, AddressSpace(kernelRoot, Kernel), r.virt, items, k);
        AddAllItem(v.maps, items, k);
      }
    }
  }

  /** A sound range apart from those that are mapped can be mapped. */
  lemma RangeIsFree(
    m: PageTables.Machine, v: View, ranges: seq<KernelRange>, n: nat)
    requires RangesSound(m.mode, m.frameLimit, m.nxEnabled, ranges) && n < |ranges|
    requires KernelOnly(m.mode, m.kernelRoot, v, ranges[..n])
    ensures var r := ranges[n];
            && (r.length > 0 ==> RangeCheck(r.phys, r.virt, r.length).None?)
            && RangeFree(m, AddressSpace(m.kernelRoot, Kernel), v, r.phys / PAGE_SIZE, r.virt, Pages(r), KernelPerms(r))
  {
    var r, a := ranges[n], AddressSpace(m.kernelRoot, Kernel);
    assert RangeSound(m.mode, m.frameLimit, m.nxEnabled, r);
    forall k: nat | k < Pages(r)
      ensures Mappable(m, a, v, r.phys / PAGE_SIZE, r.virt, k)
    {
      var l := PageAt(m.mode, m.kernelRoot, r.virt, k);
      assert NthPage(m.mode, r, k, l.page);
      assert OnlyRanges(m.mode, m.kernelRoot, v, ranges[..n], l);
      forall x | x in ranges[..n]
        ensures !OfRange(m.mode, x, l.page)
      {
        var i :| 0 <= i < n && ranges[i] == x;
        assert RangesApart(m.mode, ranges, i, n);
      }
    }
  }

  /** Maps the kernel's ranges one after the other. */
  method MapRanges(m: PageTables.Machine, ranges: seq<KernelRange>) returns (ok: bool)
    requires m.Valid() && KernelOnly(m.mode, m.kernelRoot, m.view, []) && |m.pool.states| <= m.frameLimit
    modifies m
    ensures m.Valid() && UnusableStay(old(m.pool).states, m.pool.states)
    ensures ok ==>
      && KernelOnly(m.mode, m.kernelRoot, m.view, ranges)
      && |FreeSet(m.pool.states)| + 4 * PagesIn(ranges) >= |FreeSet(old(m.pool).states)|
    ensures
      && RangesSound(m.mode, m.frameLimit, m.nxEnabled, ranges)
      && 4 * PagesIn(ranges) <= |FreeSet(old(m.pool).states)|
      ==> ok
  {
    var n := 0;
    while n < |ranges|
      invariant 0 <= n <= |ranges|
      invariant m.Valid() && UnusableStay(old(m.pool).states, m.pool.states)
      invariant KernelOnly(m.mode, m.kernelRoot, m.view, ranges[..n])
      invariant |FreeSet(m.pool.states)| + 4 * PagesIn(ranges[..n]) >= |FreeSet(old(m.pool).states)|
    {
      PagesGrow(ranges, n);
      ok := MapNextRange(m, ranges, n);
      if !ok {
        return;
      }
      n := n + 1;
    }
    assert ranges[..n] == ranges;
    ok := true;
  }

  lemma PagesGrow(ranges: seq<KernelRange>, n: nat)
    requires n < |ranges|
    ensures PagesIn(ranges[..n + 1]) == PagesIn(ranges[..n]) + Pages(ranges[n])
    ensures PagesIn(ranges[..n + 1]) <= PagesIn(ranges)
    decreases |ranges| - n
  {
    assert ranges[..n + 1][..n] == ranges[..n];
    if n + 1 < |ranges| {
      PagesGrow(ranges, n + 1);
    } else {
      assert ranges[..n + 1] == ranges;
    }
  }

  method MapNextRange(m: PageTables.Machine, ranges: seq<KernelRange>, n: nat) returns (ok: bool)
    requires m.Valid() && n < |ranges| && KernelOnly(m.mode, m.kernelRoot, m.view, ranges[..n])
    requires |m.pool.states| <= m.frameLimit
    modifies m
    ensures m.Valid() && UnusableStay(old(m.pool).states, m.pool.states)
    ensures ok ==>
      && KernelOnly(m.mode, m.kernelRoot, m.view, ranges[..n + 1])
      && |FreeSet(m.pool.states)| + 4 * Pages(ranges[n]) >= |FreeSet(old(m.pool).states)|
    ensures
      && RangesSound(m.mode, m.frameLimit, m.nxEnabled, ranges)
      && 4 * Pages(ranges[n]) <= |FreeSet(old(m.pool).states)|
      ==> ok
  {
    ghost var v, s := m.view, m.pool.states;
    var r := ranges[n];
    if RangesSound(m.mode, m.frameLimit, m.nxEnabled, ranges) {
      RangeIsFree(m, v, ranges, n);
    }
    ghost var items;
    ok, items := TryRange(m, AddressSpace(m.kernelRoot, Kernel), r.phys, r.virt, r.length, KernelPerms(r), r.uncached);
    if ok {
      assert ranges[..n + 1] == ranges[..n] + [r];
      KernelGrows(m.mode, m.kernelRoot, v, s, ranges[..n], r, items, m.view, m.pool.states);
    }
  }

  /** The kernel's address space: its root, and everything it maps for itself. */
  method NewKernel(mode: Mode, frameLimit: nat, nxEnabled: bool, globalPages: bool, mem: Memory, pool: Pool,
                   ranges: seq<KernelRange>)
    returns (r: Option<PageTables.Machine>)
    requires PoolOk(pool) && MapSteps.Sized(mem) && (forall f :: 0 <= f < |pool.states| ==> f in mem)
    requires |pool.states| <= frameLimit
    ensures r.Some? ==>
      && fresh(r.value) && r.value.Valid() && r.value.SharedHalf()
      && r.value.mode == mode && r.value.frameLimit == frameLimit && r.value.nxEnabled == nxEnabled
      && KernelOnly(mode, r.value.kernelRoot, r.value.view, ranges)
      && UnusableStay(pool.states, r.value.pool.states)
      && |FreeSet(r.value.pool.states)| + 1 + 4 * PagesIn(ranges) >= |FreeSet(pool.states)|
    ensures RangesSound(mode, frameLimit, nxEnabled, ranges) && |FreeSet(pool.states)| >= 1 + 4 * PagesIn(ranges) ==>
      r.Some?
  {
    var made := PageTables.NewKernelTable(mode, frameLimit, nxEnabled, globalPages, mem, pool);
    if made.Err? {
      assert made.error.CreateTooLarge? || made == Err(PageTables.CreateOutOfFrames);
      return None;
    }
    var m := made.value;
    TakeFree(pool.states, m.kernelRoot);
    NothingMapped(m.mode, m.kernelRoot, m.view);
    var ok := MapRanges(m, ranges);
    if !ok {
      return None;
    }
    OnlyKernelRoot(m.Sh(), m.mem, m.view);
    return Some(m);
  }

  lemma NothingMapped(mode: Mode, kernelRoot: nat, v: View)
    requires v == View(map[Key(kernelRoot, 0, 0) := kernelRoot], map[])
    ensures KernelOnly(mode, kernelRoot, v, [])
  {
    forall l: Loc
      ensures OnlyRanges(mode, kernelRoot, v, [], l)
    {
    }
  }
}
