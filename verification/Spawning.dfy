/** Building the first user space: the archive, a stack and an executable, each on frames that no
    table, no kernel stack and no later allocation uses. */
module Spawning {
  import opened Outcomes
  import opened Numbers
  import opened Addresses
  import opened Bytes
  import opened Frames
  import opened Forest
  import opened Walks
  import opened Grafts
  import opened Sessions
  import opened AddressSpaces
  import opened Budgets
  import opened Stacks
  import opened StackPool
  import opened KernelSteps
  import opened KernelSpaces
  import opened Loading
  import opened BootLoading
  import PageTables
  import BootElf

  const ARCHIVE_BASE: nat := 0x4000_0000
  const ARCHIVE_PAGE: nat := 0x4_0000
  const USER_STACK_SIZE: nat := 65536
  const USER_STACK_PAGES: nat := 16
  const USER_STACK_TOP: nat := 0x7FFF_FFFF_F000
  const USER_STACK_PAGE: nat := 0x7_FFFF_FFEF
  const USER_DATA := Perms(true, false, true)

  lemma UserPageNumber(mode: Mode, addr: nat)
    requires addr < USER_SPACE_END
    ensures PageOf(mode, addr) == addr / PAGE_SIZE
  {
    match mode
    case FourLevel => assert addr % 0x1_0000_0000_0000 == addr;
    case FiveLevel => assert addr % 0x200_0000_0000_0000 == addr;
  }

  // ---- Frames under user pages ----

  /** A user page is on a frame set aside for it, or on one never handed out. */
  ghost predicate PageSettled(kernelRoot: nat, v: View, s: seq<FrameState>, mine: set<nat>, l: Loc) {
    l in v.maps && l.root != kernelRoot ==> v.maps[l].frame in mine || Unusable(s, v.maps[l].frame)
  }

  /** The kernel stacks stand, and user pages are on frames of their own. */
  ghost predicate Settled(m: PageTables.Machine, stacks: map<nat, seq<Item>>, v: View, s: seq<FrameState>,
                          mine: set<nat>)
  {
    && AllStand(m, stacks, v, s) && mine !! v.nodes.Values && mine !! StackFrames(stacks) && AllAllocated(mine, s)
    && forall l {:trigger PageSettled(m.kernelRoot, v, s, mine, l)} :: PageSettled(m.kernelRoot, v, s, mine, l)
  }

  lemma SettledLoaded(m: PageTables.Machine, stacks: map<nat, seq<Item>>, v: View, s: seq<FrameState>, mine: set<nat>)
    requires Settled(m, stacks, v, s, mine) && Backed(v, s)
    ensures UserPagesLoaded(v, s, m.kernelRoot, StackFrames(stacks))
  {
    StacksOwned(m, stacks, v, s);
    forall l | l in v.maps && l.root != m.kernelRoot
      ensures var f := v.maps[l].frame; f !in v.nodes.Values && f !in StackFrames(stacks) && (f < |s| ==>
        s[f] != FrameState.Free)
    {
      assert PageSettled(m.kernelRoot, v, s, mine, l);
      BackedAllocated(v, s);
    }
  }

  /** A page added below `root` is on a frame set aside, or on one never handed out. */
  ghost predicate PageAdded(root: nat, v: View, s: seq<FrameState>, v': View, held: set<nat>, l: Loc) {
    && (l in v.maps ==> l in v'.maps && v'.maps[l] == v.maps[l])
    && (l in v'.maps && l !in v.maps ==> l.root == root && (v'.maps[l].frame in held || Unusable(s, v'.maps[l].frame)))
  }

  /** Adding such pages to a user space leaves everything settled. */
  lemma Settle(
    m: PageTables.Machine, stacks: map<nat, seq<Item>>, v: View, s: seq<FrameState>, mine: set<nat>, root: nat,
    held: set<nat>,
    v': View, s': seq<FrameState>)
    requires Settled(m, stacks, v, s, mine) && Backed(v, s) && root != m.kernelRoot
    requires Moved(v.nodes.Values, s, v'.nodes.Values + held, s') && held !! v'.nodes.Values && AllAllocated(held, s')
    requires forall l {:trigger PageAdded(root, v, s, v', held, l)} :: PageAdded(root, v, s, v', held, l)
    ensures Settled(m, stacks, v', s', mine + held) && v.maps.Keys <= v'.maps.Keys
  {
    StacksOwned(m, stacks, v, s);
    FramesKept(v, s, v', s', held, mine);
    FramesKept(v, s, v', s', held, StackFrames(stacks));
    forall l: Loc | l.root == m.kernelRoot
      ensures (l in v'.maps <==> l in v.maps) && (l in v.maps ==> v'.maps[l] == v.maps[l])
    {
      assert PageAdded(root, v, s, v', held, l);
    }
    StacksStay(m, stacks, v, s, v', s');
    BackedAllocated(v, s);
    StaysUnusable(v.nodes.Values, s, v'.nodes.Values + held, s');
    forall l: Loc
      ensures PageSettled(m.kernelRoot, v', s', mine + held, l) && (l in v.maps ==> l in v'.maps)
    {
      assert PageAdded(root, v, s, v', held, l);
      assert PageSettled(m.kernelRoot, v, s, mine, l);
    }
  }

  // ---- The space under construction ----

  ghost predicate Ongoing(m: PageTables.Machine, a: AddressSpace, stacks: map<nat, seq<Item>>, mine: set<nat>)
    reads m
  {
    && m.Valid() && m.SharedHalf() && Live(m, a) && a.kind == User && |m.pool.states| <= m.frameLimit
    && Settled(m, stacks, m.view, m.pool.states, mine)
  }

  /** The pages of the archive's n pages, and of the stack if it is there. */
  predicate Taken(n: nat, stack: bool, page: nat) {
    || ARCHIVE_PAGE <= page < ARCHIVE_PAGE + n
    || (stack && USER_STACK_PAGE <= page < USER_STACK_PAGE + USER_STACK_PAGES)
  }

  ghost predicate OnlyTaken(v: View, root: nat, n: nat, stack: bool, l: Loc) {
    l in v.maps && l.root == root ==> Taken(n, stack, l.page)
  }

  /** Nothing else is mapped in the space. */
  ghost predicate SpaceIs(v: View, root: nat, n: nat, stack: bool) {
    forall l {:trigger OnlyTaken(v, root, n, stack, l)} :: OnlyTaken(v, root, n, stack, l)
  }

  /** None of n frames is ever handed out. */
  ghost predicate AllUnusable(s: seq<FrameState>, first: nat, n: nat) {
    forall f: nat {:trigger Unusable(s, f)} :: first <= f < first + n ==> Unusable(s, f)
  }

  function RoundUp(length: nat): nat {
    (length + 0xFFF) / PAGE_SIZE * PAGE_SIZE
  }

  function ArchivePages(length: nat): nat {
    (length + 0xFFF) / PAGE_SIZE
  }

  /** The archive's frames can be mapped, and its pages end below the stack's guard page. */
  ghost predicate ArchiveFits(phys: nat, length: nat, limit: nat) {
    && phys % PAGE_SIZE == 0 && phys / PAGE_SIZE + ArchivePages(length) <= limit && phys + length + PAGE_SIZE < WORD
    && ARCHIVE_PAGE + ArchivePages(length) < USER_STACK_PAGE
  }

  lemma ArchivePage(mode: Mode, k: nat)
    requires AddressAt(ARCHIVE_BASE, k) < USER_SPACE_END || ARCHIVE_PAGE + k < USER_STACK_PAGE
    ensures AddressAt(ARCHIVE_BASE, k) < USER_SPACE_END && IsCanonical(mode, AddressAt(ARCHIVE_BASE, k))
    ensures PageOf(mode, AddressAt(ARCHIVE_BASE, k)) == ARCHIVE_PAGE + k
  {
    AddressAtIs(ARCHIVE_BASE, k);
    UserAddress(mode, AddressAt(ARCHIVE_BASE, k));
    UserPageNumber(mode, AddressAt(ARCHIVE_BASE, k));
  }

  lemma ArchiveCheck(phys: nat, length: nat, limit: nat)
    requires ArchiveFits(phys, length, limit)
    ensures RoundUp(length) > 0 ==> RangeCheck(phys, ARCHIVE_BASE, RoundUp(length)).None?
    ensures RoundUp(length) / PAGE_SIZE == ArchivePages(length)
  {
    var n := ArchivePages(length);
    assert n * PAGE_SIZE % PAGE_SIZE == 0 && n * PAGE_SIZE / PAGE_SIZE == n;
  }

  lemma RoundedPages(length: nat)
    ensures RoundUp(length) / PAGE_SIZE == ArchivePages(length)
  {
  }

  lemma ArchiveFree(m: PageTables.Machine, a: AddressSpace, v: View, phys: nat, length: nat)
    requires a.kind == User && m.nxEnabled && ArchiveFits(phys, length, m.frameLimit)
    requires SpaceIs(v, a.root, 0, false)
    ensures RangeFree(m, a, v, phys / PAGE_SIZE, ARCHIVE_BASE, ArchivePages(length), USER_DATA)
  {
    forall k: nat | k < ArchivePages(length)
      ensures Mappable(m, a, v, phys / PAGE_SIZE, ARCHIVE_BASE, k)
    {
      ArchivePage(m.mode, k);
      assert OnlyTaken(v, a.root, 0, false, PageAt(m.mode, a.root, ARCHIVE_BASE, k));
    }
  }

  /** The archive's pages are settled on its own frames. */
  lemma ArchiveSettles(
    m: PageTables.Machine, a: AddressSpace, stacks: map<nat, seq<Item>>, mine: set<nat>, first: nat, n: nat,
    items: seq<Item>,
    v: View, s: seq<FrameState>, v': View, s': seq<FrameState>)
    requires Settled(m, stacks, v, s, mine) && Backed(v, s) && a.root != m.kernelRoot && a.kind == User
    requires AllUnusable(s, first, n) && |items| == n && SpaceIs(v, a.root, 0, false)
    requires RunItems(m.mode, a, ARCHIVE_BASE, items) && RangeItems(m, a, first, USER_DATA, false, items)
    requires Session(v, s, v', s', a.root, items, {})
    ensures Settled(m, stacks, v', s', mine) && v.maps.Keys <= v'.maps.Keys && SpaceIs(v', a.root, n, false)
  {
    forall l: Loc
      ensures PageAdded(a.root, v, s, v', {}, l) && OnlyTaken(v', a.root, n, false, l)
    {
      assert OnlyTaken(v, a.root, 0, false, l);
      if l in v.maps {
        AddAllKeeps(v.maps, items, l);
      } else if l in v'.maps {
        var i := NewIsItem(v.maps, items, l);
        assert RunAt(m.mode, a, ARCHIVE_BASE, items, i) && RangeAt(m, a, first, USER_DATA, false, items, i);
        assert Unusable(s, first + i);
        ArchivePage(m.mode, i);
      }
    }
    Settle(m, stacks, v, s, mine, a.root, {}, v', s');
    assert mine + {} == mine;
  }

  /** Maps the archive for the first task to read. */
  method MapArchive(m: PageTables.Machine, a: AddressSpace, phys: nat, length: nat, ghost stacks: map<nat, seq<Item>>,
                    ghost mine: set<nat>)
    returns (ok: bool)
    requires Ongoing(m, a, stacks, mine) && SpaceIs(m.view, a.root, 0, false)
    requires AllUnusable(m.pool.states, phys / PAGE_SIZE, ArchivePages(length))
    modifies m
    ensures |m.pool.states| == |old(m.pool).states|
    ensures ok ==>
      && Ongoing(m, a, stacks, mine) && old(m.view).maps.Keys <= m.view.maps.Keys
      && |FreeSet(m.pool.states)| + 4 * ArchivePages(length) >= |FreeSet(old(m.pool).states)|
      && SpaceIs(m.view, a.root, ArchivePages(length), false)
    ensures
      && m.nxEnabled
      && ArchiveFits(phys, length, m.frameLimit)
      && 4 * ArchivePages(length) <= |FreeSet(old(m.pool).states)|
      ==> ok
  {
    ghost var v, s := m.view, m.pool.states;
    RoundedPages(length);
    if m.nxEnabled && ArchiveFits(phys, length, m.frameLimit) {
      ArchiveCheck(phys, length, m.frameLimit);
      ArchiveFree(m, a, v, phys, length);
    }
    ghost var items;
    ok, items := TryRange(m, a, phys, ARCHIVE_BASE, RoundUp(length), USER_DATA, false);
    if ok {
      ArchiveSettles(m, a, stacks, mine, phys / PAGE_SIZE, ArchivePages(length), items, v, s, m.view, m.pool.states);
    }
  }

  // ---- The user stack ----

  const USER_STACK := StackRange(0x7FFF_FFFE_E000, 0x7FFF_FFFE_F000, USER_STACK_PAGES)

  lemma UserStackRange()
    ensures StackCheck(USER_STACK_SIZE, USER_STACK_TOP).None? && RangeOf(USER_STACK_SIZE, USER_STACK_TOP) == USER_STACK
  {
  }

  lemma UserStackPage(mode: Mode, i: nat)
    requires i < USER_STACK_PAGES
    ensures AddressAt(USER_STACK.start, i) < USER_SPACE_END && IsCanonical(mode, AddressAt(USER_STACK.start, i))
    ensures AddressAt(USER_STACK.start, i) % PAGE_SIZE == 0
    ensures PageOf(mode, AddressAt(USER_STACK.start, i)) == USER_STACK_PAGE + i
  {
    AddressAtIs(USER_STACK.start, i);
    UserAddress(mode, AddressAt(USER_STACK.start, i));
    UserPageNumber(mode, AddressAt(USER_STACK.start, i));
  }

  /** The guard page is not mapped. */
  lemma GuardClear(m: PageTables.Machine, mem: Memory, v: View, root: nat, n: nat)
    requires Tree(m.Sh(), mem, v) && Shared(m.Sh(), mem, v) && Rooted(m.Sh(), v, root)
    requires SpaceIs(v, root, n, false) && ARCHIVE_PAGE + n < USER_STACK_PAGE
    ensures Translate(mem, m.mode, root, USER_STACK.guard).None?
  {
    UserHome(m.Sh(), m.mode, root, USER_STACK.guard);
    UserPageNumber(m.mode, USER_STACK.guard);
    ReadsSeeView(m.mode, m.Sh(), mem, v, root, USER_STACK.guard);
    assert OnlyTaken(v, root, n, false, Loc(root, PageOf(m.mode, USER_STACK.guard)));
  }

  /** Only a lack of frames can stop the stack. */
  lemma NoStackCause(
    m: PageTables.Machine, a: AddressSpace, v: View, s: seq<FrameState>, n: nat, left: int, e: StackError)
    requires a.kind == User && m.nxEnabled && 0 < |s| <= m.frameLimit && SpaceIs(v, a.root, n, false)
    requires ARCHIVE_PAGE + n < USER_STACK_PAGE
    requires StackCause(m, a, v, s, USER_STACK.start, USER_STACK_PAGES, USER_DATA, left, e)
    ensures left < 0
  {
    forall i: nat, x: MapError | i < USER_STACK_PAGES
      ensures !StackCauseAt(m, a, v, s, USER_STACK.start, USER_DATA, x, i)
    {
      UserStackPage(m.mode, i);
      assert OnlyTaken(v, a.root, n, false, PageAt(m.mode, a.root, USER_STACK.start, i));
    }
  }

  /** What is left after a stack of so many pages. */
  lemma StackAffords(mode: Mode, v: View, s: seq<FrameState>, root: nat, start: nat, pages: nat, left: int)
    requires Key(root, 0, 0) in v.nodes && Affords(mode, v, s, root, start, 0, pages, 1, left)
    ensures left + 5 * pages >= |FreeSet(s)|
  {
    RunPagesShort(mode, start, 0, pages);
    FewFrames(mode, v, root, RunPages(mode, start, 0, pages), 1);
    AffordStart(mode, v, s, root, start, pages, 1);
    AffordsUnique(mode, v, s, root, start, 0, pages, 1, left,
                  Margin(Depth(mode), v, s, root, RunPages(mode, start, 0, pages), 1));
  }

  /** The stack's page is mapped for reading and writing. */
  ghost predicate StackPageReady(v: View, root: nat, page: nat) {
    USER_STACK_PAGE <= page < USER_STACK_PAGE + USER_STACK_PAGES ==>
      Loc(root, page) in v.maps && v.maps[Loc(root, page)].perms == USER_DATA
  }

  ghost predicate StackReady(v: View, root: nat) {
    forall page: nat {:trigger StackPageReady(v, root, page)} :: StackPageReady(v, root, page)
  }

  lemma StackSettles(
    m: PageTables.Machine, a: AddressSpace, stacks: map<nat, seq<Item>>, mine: set<nat>, n: nat, items: seq<Item>,
    v: View, s: seq<FrameState>, v': View, s': seq<FrameState>)
    requires Settled(m, stacks, v, s, mine) && Backed(v, s) && a.root != m.kernelRoot && a.kind == User
    requires |items| == USER_STACK_PAGES && SpaceIs(v, a.root, n, false)
    requires Building(m, a, USER_STACK.start, USER_DATA, items, v, s, v', s')
    ensures v.maps.Keys <= v'.maps.Keys
    ensures Settled(m, stacks, v', s', mine + FramesOf(items)) && SpaceIs(v', a.root, n, true) && StackReady(v', a.root)
  {
    forall l: Loc
      ensures PageAdded(a.root, v, s, v', FramesOf(items), l) && OnlyTaken(v', a.root, n, true, l)
    {
      assert OnlyTaken(v, a.root, n, false, l);
      if l in v.maps {
        AddAllKeeps(v.maps, items, l);
      } else if l in v'.maps {
        var i := NewIsItem(v.maps, items, l);
        assert RunAt(m.mode, a, USER_STACK.start, items, i);
        UserStackPage(m.mode, i);
      }
    }
    forall page: nat
      ensures StackPageReady(v', a.root, page)
    {
      if USER_STACK_PAGE <= page < USER_STACK_PAGE + USER_STACK_PAGES {
        var i := page - USER_STACK_PAGE;
        UserStackPage(m.mode, i);
        assert RunAt(m.mode, a, USER_STACK.start, items, i);
        AddAllItem(v.maps, items, i);
      }
    }
    Settle(m, stacks, v, s, mine, a.root, FramesOf(items), v', s');
  }

  /** Maps the first task's stack. */
  method MapUserStack(m: PageTables.Machine, a: AddressSpace, ghost n: nat, ghost stacks: map<nat, seq<Item>>,
                      ghost mine: set<nat>)
    returns (ok: bool, ghost more: set<nat>)
    requires Ongoing(m, a, stacks, mine) && SpaceIs(m.view, a.root, n, false)
    modifies m
    ensures |m.pool.states| == |old(m.pool).states|
    ensures ok ==>
      && Ongoing(m, a, stacks, more) && old(m.view).maps.Keys <= m.view.maps.Keys
      && |FreeSet(m.pool.states)| + 80 >= |FreeSet(old(m.pool).states)|
      && SpaceIs(m.view, a.root, n, true) && StackReady(m.view, a.root)
    ensures m.nxEnabled && ARCHIVE_PAGE + n < USER_STACK_PAGE && |FreeSet(old(m.pool).states)| >= 80 ==> ok
  {
    ghost var v, s, mem, items, left := m.view, m.pool.states, m.mem, [], 0;
    UserStackRange();
    var stack;
    stack, items, left := Stacks.Allocate(m, a, USER_STACK_SIZE, USER_STACK_TOP, USER_DATA, USER_STACK, Loc(0, 0));
    StackAffords(m.mode, v, s, a.root, USER_STACK.start, USER_STACK_PAGES, left);
    more := mine + FramesOf(items);
    ok := stack.Ok?;
    if ok {
      StackSettles(m, a, stacks, mine, n, items, v, s, m.view, m.pool.states);
    } else if m.nxEnabled && ARCHIVE_PAGE + n < USER_STACK_PAGE {
      GuardClear(m, mem, v, a.root, n);
      NotFreeAbove(v, s, m.kernelRoot, m.frameLimit);
      NoStackCause(m, a, v, s, n, left, stack.error);
    }
  }

  // ---- The executable ----

  /** The load headers of an executable. */
  ghost function Headers(file: seq<byte>): seq<BootElf.LoadHeader>
    requires BootElf.Parse(file).Some?
  {
    BootElf.LoadHeadersFrom(BootElf.Parse(file).value.headers, 0)
  }

  /** A sound executable whose pages share none with each other, the archive's n pages or the stack. */
  ghost predicate Executable(file: seq<byte>, n: nat) {
    && BootElf.Parse(file).Some? && SegmentsOk(file, Headers(file)) && DataInFile(file, Headers(file))
    && EntersIn(Headers(file), BootElf.Parse(file).value.entry) && ImageOf(file).Some?
    && forall q :: q in ImageOf(file).value ==> !Taken(n, true, q / PAGE_SIZE)
  }

  /** How many pages an executable has. */
  ghost function PagesOfFile(mode: Mode, file: seq<byte>): nat {
    if BootElf.Parse(file).Some? then |LoadPages(mode, Headers(file))| else 0
  }

  lemma {:induction false} UpToShort(mode: Mode, page: nat, end: nat)
    ensures forall x <- PagesUpTo(mode, page, end) :: x < PageCount(mode)
    decreases end - page
  {
    if page < end {
      UpToShort(mode, page + PAGE_SIZE, end);
    }
  }

  lemma {:induction false} LoadShort(mode: Mode, hs: seq<BootElf.LoadHeader>)
    ensures forall x <- LoadPages(mode, hs) :: x < PageCount(mode)
  {
    if hs != [] {
      LoadShort(mode, hs[1..]);
      UpToShort(mode, PageStart(hs[0].address), hs[0].address + hs[0].memorySize);
    }
  }

  /** The pages of an image lie below the end of user space. */
  lemma ImageBelow(file: seq<byte>, hs: seq<BootElf.LoadHeader>, q: nat)
    requires SegmentsOk(file, hs) && DataInFile(file, hs) && LayAll(map[], file, hs).Some?
    requires q in LayAll(map[], file, hs).value
    ensures q < USER_SPACE_END
  {
    ImageMeans(map[], file, hs, q);
    var h :| h in hs && Asks(h, q);
    assert SegmentOk(file, h);
  }

  /** Such an executable runs if five frames are free for each of its pages. */
  lemma ExecutableRuns(m: PageTables.Machine, root: nat, v: View, s: seq<FrameState>, file: seq<byte>, n: nat)
    requires Executable(file, n) && SpaceIs(v, root, n, true) && m.nxEnabled && Key(root, 0, 0) in v.nodes
    requires 5 * PagesOfFile(m.mode, file) <= |FreeSet(s)|
    ensures Runs(m, root, v, s, file)
  {
    var hs := Headers(file);
    LoadShort(m.mode, hs);
    FewFrames(m.mode, v, root, LoadPages(m.mode, hs), 1);
    forall q: nat | q in ImageOf(file).value
      ensures UserPage(m.mode, root, q) !in v.maps
    {
      ImageBelow(file, hs, q);
      UserPageNumber(m.mode, q);
      assert OnlyTaken(v, root, n, true, UserPage(m.mode, root, q));
    }
  }

  lemma ImageSettles(
    m: PageTables.Machine, root: nat, stacks: map<nat, seq<Item>>, mine: set<nat>, p: Progress, v: View,
    s: seq<FrameState>)
    requires Settled(m, stacks, p.v0, p.s0, mine) && root != m.kernelRoot && Reached(m.mode, root, p, v, s)
    ensures Settled(m, stacks, v, s, mine + p.contents.Keys) && |s| == |p.s0| && p.v0.maps.Keys <= v.maps.Keys
    ensures StackReady(p.v0, root) ==> StackReady(v, root)
  {
    assert Since(m.mode, root, p, Moment(v, s));
    forall l: Loc
      ensures PageAdded(root, p.v0, p.s0, v, p.contents.Keys, l)
    {
      assert FromImage(m.mode, root, p.v0.maps, v.maps, p.image, l);
      if l in p.v0.maps {
        AddAllKeeps(p.v0.maps, p.items, l);
      } else if l in v.maps {
        var q: nat :| q in p.image && l == UserPage(m.mode, root, q);
        assert Stored(m.mode, root, p.v0.maps, v.maps, p.contents, p.image, q);
      }
    }
    Settle(m, stacks, p.v0, p.s0, mine, root, p.contents.Keys, v, s);
    if StackReady(p.v0, root) {
      forall page: nat
        ensures StackPageReady(v, root, page)
      {
        assert StackPageReady(p.v0, root, page);
        assert PageAdded(root, p.v0, p.s0, v, p.contents.Keys, Loc(root, page));
      }
    }
  }

  /** Loads the first task's executable. */
  method LoadFirst(m: PageTables.Machine, a: AddressSpace, file: seq<byte>, ghost n: nat,
                   ghost stacks: map<nat, seq<Item>>, ghost mine: set<nat>)
    returns (entry: Option<nat>, contents: Contents, ghost p: Progress)
    requires Ongoing(m, a, stacks, mine) && SpaceIs(m.view, a.root, n, true) && StackReady(m.view, a.root)
    modifies m
    ensures |m.pool.states| == |old(m.pool).states|
    ensures entry.Some? ==>
      && Ongoing(m, a, stacks, mine + contents.Keys) && old(m.view).maps.Keys <= m.view.maps.Keys
      && StackReady(m.view, a.root)
      && Reached(m.mode, a.root, p, m.view, m.pool.states) && p.contents == contents && ImageOf(file) == Some(p.image)
      && BootElf.Parse(file).Some? && entry.value == BootElf.Parse(file).value.entry
    ensures m.nxEnabled && Executable(file, n) && 5 * PagesOfFile(m.mode, file) <= |FreeSet(old(m.pool).states)| ==>
      entry.Some?
  {
    ghost var v, s := m.view, m.pool.states;
    NotFreeAbove(v, s, m.kernelRoot, m.frameLimit);
    if m.nxEnabled && Executable(file, n) && 5 * PagesOfFile(m.mode, file) <= |FreeSet(s)| {
      ExecutableRuns(m, a.root, v, s, file, n);
    }
    var loaded;
    loaded, contents, p := LoadElf(m, a, file);
    ImageSettles(m, a.root, stacks, mine, p, m.view, m.pool.states);
    match loaded {
      case Err(_) => return None, contents, p;
      case Ok(at) => return Some(at), contents, p;
    }
  }
}
