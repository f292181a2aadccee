/** Address spaces over the page tables: single pages, and ranges with rollback. */
module AddressSpaces {
  import opened Outcomes
  import opened Numbers
  import opened Addresses
  import opened Frames
  import opened Forest
  import opened Walks
  import opened Grafts
  import opened Sessions
  import opened Budgets
  import MapSteps
  import PageTables

  datatype Kind = Kernel | User

  datatype AddressSpace = AddressSpace(root: nat, kind: Kind)

  datatype MapError =
    | InvalidVirtualAddress
    | VirtualAddressUnaligned
    | PhysicalAddressTooLarge
    | PhysicalAddressUnaligned
    | RangeLengthUnaligned
    | AddressOverflow
    | AlreadyMapped
    | MappingConflict
    | UnsupportedPermissions
    | OutOfMemory
    | PageTableUnavailable
    | CorruptedPageTable
    | InvalidUserAddress
    | InvalidUserMap

  datatype UnmapError =
    | UnmapInvalidAddress
    | UnmapUnaligned
    | NotMapped
    | UnmapConflict
    | UnmapTableUnavailable
    | UnmapCorruptedTable
    | UnmapInvalidUserAddress

  function FromMapError(e: PageTables.MapError): MapError {
    match e
    case InvalidVirtualAddress => InvalidVirtualAddress
    case VirtualAddressUnaligned => VirtualAddressUnaligned
    case PhysicalAddressTooLarge => PhysicalAddressTooLarge
    case PageAlreadyMapped => AlreadyMapped
    case HugePageConflict => MappingConflict
    case NoExecuteUnsupported => UnsupportedPermissions
    case OutOfFrames => OutOfMemory
    case PageTableOutsideDirectMap => PageTableUnavailable
    case InvalidPageTableEntry => CorruptedPageTable
  }

  function FromUnmapError(e: PageTables.UnmapError): UnmapError {
    match e
    case UnmapInvalidAddress => UnmapInvalidAddress
    case UnmapUnaligned => UnmapUnaligned
    case PageNotMapped => NotMapped
    case UnmapHugePage => UnmapConflict
    case UnmapOutsideDirectMap => UnmapTableUnavailable
    case UnmapInvalidEntry => UnmapCorruptedTable
  }

  /** The space's root is live, and only the kernel's space is of the kernel kind. */
  ghost predicate Live(m: PageTables.Machine, a: AddressSpace)
    reads m
  {
    Key(a.root, 0, 0) in m.view.nodes && (a.kind == Kernel <==> a.root == m.kernelRoot)
  }

  /** Addresses below the end of user space are canonical and in the lower half of the root. */
  lemma UserAddress(mode: Mode, addr: nat)
    requires addr < USER_SPACE_END
    ensures IsCanonical(mode, addr) && Digit(Depth(mode), PageOf(mode, addr), 0) < 256
  {
    UserIndex(mode, addr);
    IndicesSpellPage(mode, addr);
  }

  lemma UserIndex(mode: Mode, addr: nat)
    requires addr < USER_SPACE_END
    ensures IsCanonical(mode, addr) && Indices(mode, addr)[0] < 256
  {
    match mode
    case FourLevel => assert addr / 0x80_0000_0000 < 256;
    case FiveLevel => assert addr / 0x1_0000_0000_0000 == 0;
  }

  lemma UserHome(sh: Shape, mode: Mode, root: nat, addr: nat)
    requires sh.levels == Depth(mode)
    requires addr < USER_SPACE_END || root == sh.kernelRoot
    ensures Home(sh, root, PageOf(mode, addr)) == root
  {
    if addr < USER_SPACE_END {
      UserAddress(mode, addr);
    }
  }

  /** A kernel page that stays mapped in the same root entry as `page`. */
  ghost predicate Pins(sh: Shape, v: View, pin: Loc, page: nat) {
    pin in v.maps && pin.root == sh.kernelRoot && Digit(sh.levels, pin.page, 0) == Digit(sh.levels, page, 0)
  }

  lemma PinnedLink(mode: Mode, sh: Shape, mem: Memory, v: View, pin: Loc, page: nat)
    requires Tree(sh, mem, v) && sh.levels == Depth(mode) && page < PageCount(mode) && pin.page < PageCount(mode)
    requires Pins(sh, v, pin, page)
    ensures PathKey(sh.levels, sh.kernelRoot, page, 1) in v.nodes
  {
    PathEnds(mode, pin.root, pin.page, sh);
    assert LeafOk(sh, mem, v, pin);
    PathPrefix(sh, mem, v, pin.root, pin.page, 1, sh.levels);
    RootPrefix(mode, page);
    RootPrefix(mode, pin.page);
    assert Up(page, sh.levels + 1) == Up(page, sh.levels) / 512;
    assert Up(pin.page, sh.levels + 1) == Up(pin.page, sh.levels) / 512;
  }

  /** `pin` keeps the kernel's root entry for `addr` in place. */
  ghost predicate Anchors(m: PageTables.Machine, v: View, pin: Loc, addr: nat) {
    pin.page < PageCount(m.mode) && Pins(m.Sh(), v, pin, PageOf(m.mode, addr))
  }

  // ---- Single pages ----

  /** The checks of an address space before its page table is asked. */
  function SpaceCheck(a: AddressSpace, phys: nat, virt: nat, perms: Perms): Option<MapError> {
    if a.kind == User && virt >= USER_SPACE_END then Some(InvalidUserAddress)
    else if a.kind == User && !perms.user then Some(InvalidUserMap)
    else if phys % PAGE_SIZE != 0 then Some(PhysicalAddressUnaligned)
    else None
  }

  /** Fewer frames are free than tables are missing on the way to a page. */
  ghost predicate NoRoom(mode: Mode, v: View, s: seq<FrameState>, l: Loc) {
    MapSteps.Missing(Depth(mode), v.nodes.Keys, l.root, l.page, 0) > |FreeSet(s)|
  }

  /** Why a page may not be mapped; of some errors there is no cause at all. */
  ghost predicate Cause(
    m: PageTables.Machine, a: AddressSpace, v: View, s: seq<FrameState>, phys: nat, virt: nat, perms: Perms,
    e: MapError)
  {
    if e == PhysicalAddressUnaligned then phys % PAGE_SIZE != 0
    else FrameCause(m, a, v, s, phys / PAGE_SIZE, virt, perms, e)
  }

  /** Why a frame may not be mapped at a page. */
  ghost predicate FrameCause(
    m: PageTables.Machine, a: AddressSpace, v: View, s: seq<FrameState>, frame: nat, virt: nat, perms: Perms,
    e: MapError)
  {
    match e
    case InvalidUserAddress => a.kind == User && virt >= USER_SPACE_END
    case InvalidUserMap => a.kind == User && !perms.user
    case _ => TableCause(m, a, v, s, frame, virt, perms, e)
  }

  /** Why a page table may not map a page. */
  ghost predicate TableCause(
    m: PageTables.Machine, a: AddressSpace, v: View, s: seq<FrameState>, frame: nat, virt: nat, perms: Perms,
    e: MapError)
  {
    match e
    case InvalidVirtualAddress => !IsCanonical(m.mode, virt)
    case VirtualAddressUnaligned => virt % PAGE_SIZE != 0
    case PhysicalAddressTooLarge => frame >= m.frameLimit || MapSteps.FreeAbove(s, m.frameLimit)
    case UnsupportedPermissions => !perms.executable && !m.nxEnabled
    case AlreadyMapped => Loc(a.root, PageOf(m.mode, virt)) in v.maps
    case OutOfMemory => NoRoom(m.mode, v, s, Loc(a.root, PageOf(m.mode, virt)))
    case _ => false
  }

  method Map(m: PageTables.Machine, a: AddressSpace, phys: nat, virt: nat, perms: Perms, uncached: bool, ghost pin: Loc)
    returns (r: Result<(), MapError>)
    requires m.Valid() && Live(m, a)
    modifies m
    ensures m.Valid() && Live(m, a)
    ensures r.Err? ==> m.view == old(m.view) && m.pool.states == old(m.pool).states
    ensures r.Err? ==> Cause(m, a, old(m.view), old(m.pool).states, phys, virt, perms, r.error)
    ensures r.Err? && r.error == AlreadyMapped ==> IsCanonical(m.mode, virt) && virt % PAGE_SIZE == 0
    ensures r.Ok? ==>
      && SpaceCheck(a, phys, virt, perms).None? && m.MapCheck(virt, phys / PAGE_SIZE, perms).None?
      && Loc(a.root, PageOf(m.mode, virt)) !in old(m.view).maps
      && PageTables.Added(old(m.view), old(m.pool).states, m.view, m.pool.states,
                          Loc(a.root, PageOf(m.mode, virt)),
                          m.LeafEntry(phys / PAGE_SIZE, perms, uncached, a.kind == Kernel))
      && MapSteps.Paid(Depth(m.mode), old(m.view), old(m.pool).states, m.view, m.pool.states, a.root,
                       PageOf(m.mode, virt))
    ensures old(m.SharedHalf()) &&
            (a.kind == User || (!perms.user && Anchors(m, old(m.view), pin, virt)))
            ==> m.SharedHalf()
  {
    if a.kind == User {
      if virt >= USER_SPACE_END {
        return Err(InvalidUserAddress);
      }
      if !perms.user {
        return Err(InvalidUserMap);
      }
    }
    if phys % PAGE_SIZE != 0 {
      return Err(PhysicalAddressUnaligned);
    }
    r := MapTable(m, a, phys / PAGE_SIZE, virt, perms, uncached, pin);
  }

  /** Asks the page table once the address space has no objection. */
  method MapTable(m: PageTables.Machine, a: AddressSpace, frame: nat, virt: nat, perms: Perms, uncached: bool,
                  ghost pin: Loc)
    returns (r: Result<(), MapError>)
    requires m.Valid() && Live(m, a) && (a.kind == User ==> virt < USER_SPACE_END)
    modifies m
    ensures m.Valid() && Live(m, a)
    ensures r.Err? ==> m.view == old(m.view) && m.pool.states == old(m.pool).states
    ensures r.Err? ==> TableCause(m, a, old(m.view), old(m.pool).states, frame, virt, perms, r.error)
    ensures r.Err? && r.error == AlreadyMapped ==> IsCanonical(m.mode, virt) && virt % PAGE_SIZE == 0
    ensures r.Ok? ==>
      && m.MapCheck(virt, frame, perms).None? && Loc(a.root, PageOf(m.mode, virt)) !in old(m.view).maps
      && PageTables.Added(old(m.view), old(m.pool).states, m.view, m.pool.states,
                          Loc(a.root, PageOf(m.mode, virt)), m.LeafEntry(frame, perms, uncached, a.kind == Kernel))
      && MapSteps.Paid(Depth(m.mode), old(m.view), old(m.pool).states, m.view, m.pool.states, a.root,
                       PageOf(m.mode, virt))
    ensures old(m.SharedHalf()) && (a.kind == User || (!perms.user && Anchors(m, old(m.view), pin, virt))) ==>
      m.SharedHalf()
  {
    UserHome(m.Sh(), m.mode, a.root, virt);
    if Anchors(m, m.view, pin, virt) {
      PinnedLink(m.mode, m.Sh(), m.mem, m.view, pin, PageOf(m.mode, virt));
    }
    var result := m.Map(a.root, virt, frame, perms, uncached, a.kind == Kernel);
    match result
    case Ok(_) => return Ok(());
    case Err(e) => return Err(FromMapError(e));
  }

  method Unmap(m: PageTables.Machine, a: AddressSpace, virt: nat, ghost pin: Loc) returns (r: Result<nat, UnmapError>)
    requires m.Valid() && Live(m, a)
    modifies m
    ensures m.Valid() && Live(m, a)
    ensures r.Err? ==> m.view == old(m.view) && m.pool == old(m.pool)
    ensures a.kind == User && virt >= USER_SPACE_END ==> r == Err(UnmapInvalidUserAddress)
    ensures r.Ok? <==>
      && !(a.kind == User && virt >= USER_SPACE_END) && IsCanonical(m.mode, virt) && virt % PAGE_SIZE == 0
      && Loc(a.root, PageOf(m.mode, virt)) in old(m.view).maps
    ensures r.Ok? ==>
      && r.value == old(m.view).maps[Loc(a.root, PageOf(m.mode, virt))].frame
      && PageTables.Removed(old(m.view), old(m.pool).states, m.view, m.pool.states, Loc(a.root, PageOf(m.mode, virt)))
    ensures old(m.SharedHalf()) &&
            (a.kind == User || Anchors(m, m.view, pin, virt))
            ==> m.SharedHalf()
  {
    if a.kind == User && virt >= USER_SPACE_END {
      return Err(UnmapInvalidUserAddress);
    }
    UserHome(m.Sh(), m.mode, a.root, virt);
    var result := m.Unmap(a.root, virt);
    if Anchors(m, m.view, pin, virt) {
      PinnedLink(m.mode, m.Sh(), m.mem, m.view, pin, PageOf(m.mode, virt));
    }
    match result
    case Ok(frame) => return Ok(frame);
    case Err(e) => return Err(FromUnmapError(e));
  }

  // ---- Ranges ----

  /** The address i pages after `start`. */
  function AddressAt(start: nat, i: nat): nat {
    if i == 0 then start else AddressAt(start, i - 1) + PAGE_SIZE
  }

  lemma {:induction false} AddressAtIs(start: nat, i: nat)
    ensures AddressAt(start, i) == start + i * PAGE_SIZE
  {
    if i > 0 {
      AddressAtIs(start, i - 1);
    }
  }

  lemma {:induction false} AddressAtAligned(start: nat, i: nat)
    requires start % PAGE_SIZE == 0
    ensures AddressAt(start, i) % PAGE_SIZE == 0 && AddressAt(start, i) >= start
  {
    if i > 0 {
      AddressAtAligned(start, i - 1);
    }
  }

  /** The i-th page of a run of pages. */
  function PageAt(mode: Mode, root: nat, start: nat, i: nat): Loc {
    Loc(root, PageOf(mode, AddressAt(start, i)))
  }

  /** `start + i * FRAME_SIZE`. */
  method PageAddress(start: nat, i: nat) returns (addr: nat)
    ensures addr == AddressAt(start, i)
    ensures start % PAGE_SIZE == 0 ==> addr % PAGE_SIZE == 0 && addr / PAGE_SIZE == start / PAGE_SIZE + i
  {
    AddressAtIs(start, i);
    addr := start + i * PAGE_SIZE;
  }

  /** A page that could be mapped can be unmapped again. */
  ghost predicate CanUnmap(mode: Mode, a: AddressSpace, addr: nat) {
    IsCanonical(mode, addr) && (a.kind == User ==> addr < USER_SPACE_END)
  }

  /** Item i is the i-th page of a run that starts at `start`. */
  ghost predicate RunAt(mode: Mode, a: AddressSpace, start: nat, items: seq<Item>, i: nat)
    requires i < |items|
  {
    items[i].loc == PageAt(mode, a.root, start, i) && CanUnmap(mode, a, AddressAt(start, i))
  }

  ghost predicate RunItems(mode: Mode, a: AddressSpace, start: nat, items: seq<Item>) {
    forall i {:trigger RunAt(mode, a, start, items, i)} :: 0 <= i < |items| ==> RunAt(mode, a, start, items, i)
  }

  /** Item i is mapped to the i-th frame from `first`. */
  ghost predicate RangeAt(m: PageTables.Machine, a: AddressSpace, first: nat, perms: Perms, uncached: bool,
                          items: seq<Item>, i: nat)
    requires i < |items|
  {
    items[i].leaf == m.LeafEntry(first + i, perms, uncached, a.kind == Kernel)
  }

  ghost predicate RangeItems(m: PageTables.Machine, a: AddressSpace, first: nat, perms: Perms, uncached: bool,
                             items: seq<Item>)
  {
    forall i {:trigger RangeAt(m, a, first, perms, uncached, items, i)} :: 0 <= i < |items| ==>
      RangeAt(m, a, first, perms, uncached, items, i)
  }

  lemma RunGrows(mode: Mode, a: AddressSpace, start: nat, items: seq<Item>, item: Item)
    requires RunItems(mode, a, start, items)
    requires item.loc == PageAt(mode, a.root, start, |items|) && CanUnmap(mode, a, AddressAt(start, |items|))
    ensures RunItems(mode, a, start, items + [item])
  {
    forall i | 0 <= i < |items + [item]|
      ensures RunAt(mode, a, start, items + [item], i)
    {
      assert i < |items| ==> RunAt(mode, a, start, items, i);
    }
  }

  lemma RangeGrows(m: PageTables.Machine, a: AddressSpace, first: nat, perms: Perms, uncached: bool, items: seq<Item>,
                   item: Item)
    requires RangeItems(m, a, first, perms, uncached, items)
    requires item.leaf == m.LeafEntry(first + |items|, perms, uncached, a.kind == Kernel)
    ensures RangeItems(m, a, first, perms, uncached, items + [item])
  {
    forall i | 0 <= i < |items + [item]|
      ensures RangeAt(m, a, first, perms, uncached, items + [item], i)
    {
      assert i < |items| ==> RangeAt(m, a, first, perms, uncached, items, i);
    }
  }

  /** The checks of `map_range` before any page is mapped. */
  function RangeCheck(phys: nat, virt: nat, length: nat): Option<MapError>
    requires length > 0
  {
    if phys % PAGE_SIZE != 0 then Some(PhysicalAddressUnaligned)
    else if virt % PAGE_SIZE != 0 then Some(VirtualAddressUnaligned)
    else if length % PAGE_SIZE != 0 then Some(RangeLengthUnaligned)
    else if phys + (length - PAGE_SIZE) >= WORD || virt + (length - PAGE_SIZE) >= WORD then Some(AddressOverflow)
    else None
  }

  /** The pages of a run, from the i-th on. */
  ghost function RunPages(mode: Mode, start: nat, i: nat, n: nat): (r: seq<nat>)
    ensures |r| == if i <= n then n - i else 0
    decreases n - i
  {
    if i >= n then [] else [PageOf(mode, AddressAt(start, i))] + RunPages(mode, start, i + 1, n)
  }

  ghost predicate CauseAt(
    m: PageTables.Machine, a: AddressSpace, v: View, s: seq<FrameState>, first: nat, virt: nat, perms: Perms,
    e: MapError, i: nat)
  {
    e != OutOfMemory && FrameCause(m, a, v, s, first + i, AddressAt(virt, i), perms, e)
  }

  /** Why a range may not be mapped: one of its pages may not, or there are fewer free frames than
      its pages need tables. */
  ghost predicate RangeCause(
    m: PageTables.Machine, a: AddressSpace, v: View, s: seq<FrameState>, first: nat, virt: nat, n: nat, perms: Perms,
    e: MapError)
  {
    if e == OutOfMemory then Margin(Depth(m.mode), v, s, a.root, RunPages(m.mode, virt, 0, n), 0) < 0
    else exists i: nat {:trigger CauseAt(m, a, v, s, first, virt, perms, e, i)} ::
      i < n && CauseAt(m, a, v, s, first, virt, perms, e, i)
  }

  /** The rest of a run, from page i on, needs so many frames. */
  ghost predicate Costs(mode: Mode, v: View, root: nat, start: nat, i: nat, n: nat, each: nat, need: nat) {
    need == Need(Depth(mode), v.nodes.Keys, root, RunPages(mode, start, i, n), each)
  }

  /** When the rest of a run, from page i on, has been paid for, `left` frames are left. */
  ghost predicate Affords(
    mode: Mode, v: View, s: seq<FrameState>, root: nat, start: nat, i: nat, n: nat, each: nat, left: int)
  {
    forall need: nat {:trigger Costs(mode, v, root, start, i, n, each, need)} ::
      Costs(mode, v, root, start, i, n, each, need) ==> |FreeSet(s)| - need == left
  }

  lemma AffordStart(mode: Mode, v: View, s: seq<FrameState>, root: nat, start: nat, n: nat, each: nat)
    ensures Affords(mode, v, s, root, start, 0, n, each,
                    Margin(Depth(mode), v, s, root, RunPages(mode, start, 0, n), each))
  {
  }

  /** Mapping the next page leaves as much. */
  lemma AffordNext(
    mode: Mode, v: View, s: seq<FrameState>, s1: seq<FrameState>, v': View, s': seq<FrameState>, root: nat, start: nat,
    i: nat, n: nat, each: nat, left: int)
    requires i < n && Affords(mode, v, s, root, start, i, n, each, left) && |FreeSet(s1)| + each == |FreeSet(s)|
    requires MapSteps.Paid(Depth(mode), v, s1, v', s', root, PageAt(mode, root, start, i).page)
    ensures Affords(mode, v', s', root, start, i + 1, n, each, left)
  {
    var pages := RunPages(mode, start, i, n);
    assert pages[1..] == RunPages(mode, start, i + 1, n);
    assert Costs(mode, v, root, start, i, n, each, Need(Depth(mode), v.nodes.Keys, root, pages, each));
    MarginKept(Depth(mode), v, s, s1, v', s', root, pages, each);
  }

  lemma AffordShort(
    mode: Mode, v: View, s: seq<FrameState>, s1: seq<FrameState>, root: nat, start: nat, i: nat, n: nat, each: nat,
    left: int)
    requires i < n && Affords(mode, v, s, root, start, i, n, each, left)
    requires |FreeSet(s1)| + each == |FreeSet(s)| && NoRoom(mode, v, s1, PageAt(mode, root, start, i))
    ensures left < 0
  {
    var pages := RunPages(mode, start, i, n);
    assert Costs(mode, v, root, start, i, n, each, Need(Depth(mode), v.nodes.Keys, root, pages, each));
    MarginShort(Depth(mode), v, s, root, pages, each);
  }

  lemma AffordEnd(mode: Mode, v: View, s: seq<FrameState>, root: nat, start: nat, n: nat, each: nat, left: int)
    requires Affords(mode, v, s, root, start, n, n, each, left)
    ensures left == |FreeSet(s)|
  {
    assert Costs(mode, v, root, start, n, n, each, 0);
  }

  lemma AffordsUnique(
    mode: Mode, v: View, s: seq<FrameState>, root: nat, start: nat, i: nat, n: nat, each: nat, left: int, left': int)
    requires Affords(mode, v, s, root, start, i, n, each, left) && Affords(mode, v, s, root, start, i, n, each, left')
    ensures left == left'
  {
    assert Costs(mode, v, root, start, i, n, each,
                 Need(Depth(mode), v.nodes.Keys, root, RunPages(mode, start, i, n), each));
  }

  /** A page that is mapped while a run is being mapped was mapped before the run. */
  lemma MappedBefore(mode: Mode, a: AddressSpace, v0: View, start: nat, items: seq<Item>, n: nat)
    requires RunItems(mode, a, start, items) && |items| == n && (items != [] ==> start % PAGE_SIZE == 0)
    requires IsCanonical(mode, AddressAt(start, n)) && PageAt(mode, a.root, start, n) in AddAll(v0.maps, items)
    ensures PageAt(mode, a.root, start, n) in v0.maps
  {
    forall j | 0 <= j < n
      ensures items[j].loc != PageAt(mode, a.root, start, n)
    {
      assert RunAt(mode, a, start, items, j);
      AddressAtAligned(start, j);
      AddressAtAligned(start, n);
      AddressAtIs(start, j);
      AddressAtIs(start, n);
      PageDeterminesAddress(mode, AddressAt(start, j), AddressAt(start, n));
    }
    AddAllOther(v0.maps, items, PageAt(mode, a.root, start, n));
  }

  /** While frames are only taken, what is free was free before. */
  lemma FreeBefore(v0: View, s0: seq<FrameState>, v: View, s: seq<FrameState>, held: set<nat>, limit: nat)
    requires Moved(v0.nodes.Values, s0, v.nodes.Values + held, s) && v0.nodes.Values <= v.nodes.Values
    ensures MapSteps.FreeAbove(s, limit) ==> MapSteps.FreeAbove(s0, limit)
  {
    if MapSteps.FreeAbove(s, limit) {
      var f :| f in FreeSet(s) && f >= limit;
      assert f in FreeSet(s0);
    }
  }

  lemma GrownValues(v: View, v': View, root: nat)
    requires PageTables.Grown(v, v', root)
    ensures v.nodes.Values <= v'.nodes.Values
  {
    forall f | f in v.nodes.Values
      ensures f in v'.nodes.Values
    {
      var k :| k in v.nodes && v.nodes[k] == f;
      assert v'.nodes[k] == f;
    }
  }

  /** The cause found at page n is one that was there before the first page. */
  lemma CauseBefore(
    m: PageTables.Machine, a: AddressSpace, v0: View, s0: seq<FrameState>, v: View, s: seq<FrameState>, frame: nat,
    virt: nat,
    perms: Perms, items: seq<Item>, held: set<nat>, n: nat, e: MapError)
    requires Session(v0, s0, v, s, a.root, items, held) && RunItems(m.mode, a, virt, items) && |items| == n
    requires (items != [] ==> virt % PAGE_SIZE == 0) && e != OutOfMemory
    requires FrameCause(m, a, v, s, frame, AddressAt(virt, n), perms, e)
    requires e == AlreadyMapped ==> IsCanonical(m.mode, AddressAt(virt, n))
    ensures FrameCause(m, a, v0, s0, frame, AddressAt(virt, n), perms, e)
  {
    GrownValues(v0, v, a.root);
    FreeBefore(v0, s0, v, s, held, m.frameLimit);
    if e == AlreadyMapped {
      MappedBefore(m.mode, a, v0, virt, items, n);
    }
  }

  /** Maps a range of pages, or nothing at all. */
  method MapRange(m: PageTables.Machine, a: AddressSpace, phys: nat, virt: nat, length: nat, perms: Perms,
                  uncached: bool)
    returns (r: Result<(), MapError>, ghost items: seq<Item>)
    requires m.Valid() && Live(m, a)
    modifies m
    ensures m.Valid() && Live(m, a)
    ensures r.Err? ==> m.view == old(m.view) && m.pool.states == old(m.pool).states
    ensures length == 0 ==> r.Ok?
    ensures length > 0 && RangeCheck(phys, virt, length).Some? ==> r == Err(RangeCheck(phys, virt, length).value)
    ensures r.Err? && RangeCheck(phys, virt, length).None? ==>
      RangeCause(m, a, old(m.view), old(m.pool).states, phys / PAGE_SIZE, virt, length / PAGE_SIZE, perms, r.error)
    ensures r.Ok? ==>
      && |items| == length / PAGE_SIZE
      && RunItems(m.mode, a, virt, items) && RangeItems(m, a, phys / PAGE_SIZE, perms, uncached, items)
      && Session(old(m.view), old(m.pool).states, m.view, m.pool.states, a.root, items, {})
      && Margin(Depth(m.mode), old(m.view), old(m.pool).states, a.root,
                RunPages(m.mode, virt, 0, length / PAGE_SIZE), 0)
         == |FreeSet(m.pool.states)|
    ensures old(m.SharedHalf()) && a.kind == User ==>
      && m.SharedHalf()
      && (r.Err? ==> ReadsKept(m.Sh(), m.mode, old(m.mem), m.mem, m.view))
      && (r.Ok? ==> RangeReads(m.mode, m.mem, a.root, virt, phys / PAGE_SIZE, length / PAGE_SIZE, perms))
  {
    ghost var v0, mem0 := m.view, m.mem;
    SessionStart(m.view, m.pool.states, a.root);
    if length == 0 {
      return Ok(()), [];
    }
    if RangeCheck(phys, virt, length).Some? {
      return Err(RangeCheck(phys, virt, length).value), [];
    }
    r, items := MapPages(m, a, phys / PAGE_SIZE, virt, length / PAGE_SIZE, perms, uncached);
    if m.SharedHalf() && a.kind == User {
      if r.Ok? {
        RangeSeen(m, a, phys / PAGE_SIZE, virt, perms, uncached, items, v0.maps, m.mem, m.view);
      } else if old(m.SharedHalf()) {
        SameViewReads(m.Sh(), m.mode, mem0, m.mem, m.view);
      }
    }
  }

  /** Every address of every space reads as before. */
  ghost predicate ReadsKept(sh: Shape, mode: Mode, mem: Memory, mem': Memory, v: View) {
    forall root, addr {:trigger Translate(mem', mode, root, addr)} {:trigger MappingAt(mem', mode, root, addr)} ::
      Rooted(sh, v, root) ==>
        Translate(mem', mode, root, addr) == Translate(mem, mode, root, addr)
        && MappingAt(mem', mode, root, addr) == MappingAt(mem, mode, root, addr)
  }

  lemma SameViewReads(sh: Shape, mode: Mode, mem: Memory, mem': Memory, v: View)
    requires Tree(sh, mem, v) && Shared(sh, mem, v) && Tree(sh, mem', v) && Shared(sh, mem', v)
    requires sh.levels == Depth(mode)
    ensures ReadsKept(sh, mode, mem, mem', v)
  {
    forall root, addr | Rooted(sh, v, root)
      ensures Translate(mem', mode, root, addr) == Translate(mem, mode, root, addr)
      ensures MappingAt(mem', mode, root, addr) == MappingAt(mem, mode, root, addr)
    {
      ReadsSeeView(mode, sh, mem, v, root, addr);
      ReadsSeeView(mode, sh, mem', v, root, addr);
    }
  }

  /** Page i of a run reads as the i-th frame with the given permissions. */
  ghost predicate PageReads(mode: Mode, mem: Memory, root: nat, start: nat, first: nat, perms: Perms, i: nat) {
    && Translate(mem, mode, root, AddressAt(start, i)) == Some((first + i) * PAGE_SIZE)
    && MappingAt(mem, mode, root, AddressAt(start, i)) == Some(perms)
  }

  ghost predicate RangeReads(mode: Mode, mem: Memory, root: nat, start: nat, first: nat, n: nat, perms: Perms) {
    forall i: nat {:trigger PageReads(mode, mem, root, start, first, perms, i)} :: i < n ==>
      PageReads(mode, mem, root, start, first, perms, i)
  }

  lemma RangeSeen(
    m: PageTables.Machine, a: AddressSpace, first: nat, virt: nat, perms: Perms, uncached: bool, items: seq<Item>,
    maps: map<Loc, Entry>, mem: Memory, v: View)
    requires virt % PAGE_SIZE == 0 && RunItems(m.mode, a, virt, items)
    requires RangeItems(m, a, first, perms, uncached, items)
    requires FreshItems(maps, items) && v.maps == AddAll(maps, items) && a.kind == User
    requires Tree(m.Sh(), mem, v) && Shared(m.Sh(), mem, v) && Rooted(m.Sh(), v, a.root)
    ensures RangeReads(m.mode, mem, a.root, virt, first, |items|, perms)
  {
    forall i: nat | i < |items|
      ensures PageReads(m.mode, mem, a.root, virt, first, perms, i)
    {
      assert RunAt(m.mode, a, virt, items, i) && RangeAt(m, a, first, perms, uncached, items, i);
      AddAllItem(maps, items, i);
      AddressAtAligned(virt, i);
      UserHome(m.Sh(), m.mode, a.root, AddressAt(virt, i));
      ReadsSeeView(m.mode, m.Sh(), mem, v, a.root, AddressAt(virt, i));
    }
  }

  /** Maps n frames from `first` on at consecutive pages, or none of them. */
  method MapPages(m: PageTables.Machine, a: AddressSpace, first: nat, virt: nat, n: nat, perms: Perms, uncached: bool)
    returns (r: Result<(), MapError>, ghost items: seq<Item>)
    requires m.Valid() && Live(m, a) && virt % PAGE_SIZE == 0
    modifies m
    ensures m.Valid() && Live(m, a)
    ensures r.Err? ==> m.view == old(m.view) && m.pool.states == old(m.pool).states
    ensures r.Err? ==> RangeCause(m, a, old(m.view), old(m.pool).states, first, virt, n, perms, r.error)
    ensures r.Ok? ==>
      && |items| == n && RunItems(m.mode, a, virt, items) && RangeItems(m, a, first, perms, uncached, items)
      && Session(old(m.view), old(m.pool).states, m.view, m.pool.states, a.root, items, {})
      && Margin(Depth(m.mode), old(m.view), old(m.pool).states, a.root, RunPages(m.mode, virt, 0, n), 0)
         == |FreeSet(m.pool.states)|
    ensures old(m.SharedHalf()) && a.kind == User ==> m.SharedHalf()
  {
    ghost var v0, s0, mem0 := m.view, m.pool.states, m.mem;
    ghost var left := Margin(Depth(m.mode), v0, s0, a.root, RunPages(m.mode, virt, 0, n), 0);
    SessionStart(v0, s0, a.root);
    AffordStart(m.mode, v0, s0, a.root, virt, n, 0);
    items := [];
    var mapped := 0;
    while mapped < n
      invariant 0 <= mapped <= n && |items| == mapped
      invariant m.Valid() && Live(m, a)
      invariant RunItems(m.mode, a, virt, items) && RangeItems(m, a, first, perms, uncached, items)
      invariant Session(v0, s0, m.view, m.pool.states, a.root, items, {})
      invariant Affords(m.mode, m.view, m.pool.states, a.root, virt, mapped, n, 0, left)
      invariant old(m.SharedHalf()) && a.kind == User ==> m.SharedHalf()
    {
      var result;
      result, items := MapNth(m, a, first, virt, perms, uncached, mapped, n, left, items, v0, s0);
      if result.Err? {
        RollBack(m, a, virt, mapped, items, v0, s0, mem0);
        return Err(result.error), [];
      }
      mapped := mapped + 1;
    }
    AffordEnd(m.mode, m.view, m.pool.states, a.root, virt, n, 0, left);
    return Ok(()), items;
  }

  method MapNth(m: PageTables.Machine, a: AddressSpace, first: nat, virt: nat, perms: Perms, uncached: bool, n: nat,
                ghost total: nat,
                ghost left: int, ghost items: seq<Item>, ghost v0: View, ghost s0: seq<FrameState>)
    returns (r: Result<(), MapError>, ghost more: seq<Item>)
    requires m.Valid() && Live(m, a) && Backed(v0, s0) && virt % PAGE_SIZE == 0 && |items| == n < total
    requires RunItems(m.mode, a, virt, items) && RangeItems(m, a, first, perms, uncached, items)
    requires Session(v0, s0, m.view, m.pool.states, a.root, items, {})
    requires Affords(m.mode, m.view, m.pool.states, a.root, virt, n, total, 0, left)
    modifies m
    ensures m.Valid() && Live(m, a)
    ensures r.Err? ==> m.view == old(m.view) && m.pool.states == old(m.pool).states && more == items
    ensures r.Err? ==>
      if r.error == OutOfMemory then left < 0 else CauseAt(m, a, v0, s0, first, virt, perms, r.error, n)
    ensures r.Ok? ==>
      && |more| == n + 1
      && RunItems(m.mode, a, virt, more) && RangeItems(m, a, first, perms, uncached, more)
      && Session(v0, s0, m.view, m.pool.states, a.root, more, {})
      && Affords(m.mode, m.view, m.pool.states, a.root, virt, n + 1, total, 0, left)
    ensures old(m.SharedHalf()) && a.kind == User ==> m.SharedHalf()
  {
    ghost var v, s := m.view, m.pool.states;
    ghost var item;
    r, item := MapRunPage(m, a, first + n, virt, n, perms, uncached, items, {}, v0, s0, Loc(0, 0));
    more := items;
    if r.Ok? {
      RunGrows(m.mode, a, virt, items, item);
      RangeGrows(m, a, first, perms, uncached, items, item);
      AffordNext(m.mode, v, s, s, m.view, m.pool.states, a.root, virt, n, total, 0, left);
      more := items + [item];
    } else if r.error == OutOfMemory {
      AffordShort(m.mode, v, s, s, a.root, virt, n, total, 0, left);
    } else {
      CauseBefore(m, a, v0, s0, v, s, first + n, virt, perms, items, {}, n, r.error);
    }
  }

  /** Maps a frame as page n of a run. */
  method MapRunPage(m: PageTables.Machine, a: AddressSpace, frame: nat, start: nat, n: nat, perms: Perms,
                    uncached: bool,
                    ghost items: seq<Item>, ghost held: set<nat>, ghost v0: View, ghost s0: seq<FrameState>,
                    ghost pin: Loc)
    returns (r: Result<(), MapError>, ghost item: Item)
    requires m.Valid() && Live(m, a) && Backed(v0, s0)
    requires Session(v0, s0, m.view, m.pool.states, a.root, items, held)
    modifies m
    ensures m.Valid() && Live(m, a)
    ensures r.Err? ==> m.view == old(m.view) && m.pool.states == old(m.pool).states
    ensures r.Err? ==> FrameCause(m, a, old(m.view), old(m.pool).states, frame, AddressAt(start, n), perms, r.error)
    ensures r == Err(AlreadyMapped) ==> IsCanonical(m.mode, AddressAt(start, n))
    ensures r == Err(OutOfMemory) ==> NoRoom(m.mode, old(m.view), old(m.pool).states, PageAt(m.mode, a.root, start, n))
    ensures item == Item(PageAt(m.mode, a.root, start, n), m.LeafEntry(frame, perms, uncached, a.kind == Kernel))
    ensures r.Ok? ==>
      && Session(v0, s0, m.view, m.pool.states, a.root, items + [item], held)
      && CanUnmap(m.mode, a, AddressAt(start, n)) && AddressAt(start, n) % PAGE_SIZE == 0
      && (perms.executable || m.nxEnabled)
      && MapSteps.Paid(Depth(m.mode), old(m.view), old(m.pool).states, m.view, m.pool.states, a.root,
                       PageAt(m.mode, a.root, start, n).page)
    ensures
      && old(m.SharedHalf())
      && (a.kind == User || (!perms.user && Anchors(m, old(m.view), pin, AddressAt(start, n))))
      ==> m.SharedHalf()
  {
    var virtual := PageAddress(start, n);
    ghost var v, s := m.view, m.pool.states;
    item := Item(PageAt(m.mode, a.root, start, n), m.LeafEntry(frame, perms, uncached, a.kind == Kernel));
    r := MapFrameAt(m, a, frame, virtual, perms, uncached, pin);
    if r.Ok? {
      SessionAdd(v0, s0, v, s, a.root, items, held, m.view, m.pool.states, item);
    }
  }

  method FrameAddress(frame: nat) returns (phys: nat)
    ensures phys % PAGE_SIZE == 0 && phys / PAGE_SIZE == frame
  {
    phys := frame * PAGE_SIZE;
  }

  /** Maps a frame, named by its number. */
  method MapFrameAt(m: PageTables.Machine, a: AddressSpace, frame: nat, virt: nat, perms: Perms, uncached: bool,
                    ghost pin: Loc)
    returns (r: Result<(), MapError>)
    requires m.Valid() && Live(m, a)
    modifies m
    ensures m.Valid() && Live(m, a)
    ensures r.Err? ==> m.view == old(m.view) && m.pool.states == old(m.pool).states
    ensures r.Err? ==> FrameCause(m, a, old(m.view), old(m.pool).states, frame, virt, perms, r.error)
    ensures r == Err(AlreadyMapped) ==> IsCanonical(m.mode, virt)
    ensures r == Err(OutOfMemory) ==> NoRoom(m.mode, old(m.view), old(m.pool).states, Loc(a.root, PageOf(m.mode, virt)))
    ensures r.Ok? ==>
      && CanUnmap(m.mode, a, virt) && virt % PAGE_SIZE == 0 && (perms.executable || m.nxEnabled)
      && Loc(a.root, PageOf(m.mode, virt)) !in old(m.view).maps
      && PageTables.Added(old(m.view), old(m.pool).states, m.view, m.pool.states,
                          Loc(a.root, PageOf(m.mode, virt)), m.LeafEntry(frame, perms, uncached, a.kind == Kernel))
      && MapSteps.Paid(Depth(m.mode), old(m.view), old(m.pool).states, m.view, m.pool.states, a.root,
                       PageOf(m.mode, virt))
    ensures old(m.SharedHalf()) && (a.kind == User || (!perms.user && Anchors(m, old(m.view), pin, virt))) ==>
      m.SharedHalf()
  {
    var phys := FrameAddress(frame);
    r := Map(m, a, phys, virt, perms, uncached, pin);
  }

  /** Unmaps the pages of a failed range again; the `expect` on each of them succeeds. */
  method RollBack(m: PageTables.Machine, a: AddressSpace, virt: nat, mapped: nat,
                  ghost items: seq<Item>, ghost v0: View, ghost s0: seq<FrameState>, ghost mem0: Memory)
    requires m.Valid() && Live(m, a) && virt % PAGE_SIZE == 0 && |items| == mapped && RunItems(m.mode, a, virt, items)
    requires Session(v0, s0, m.view, m.pool.states, a.root, items, {}) && Backed(v0, s0)
    requires Tree(m.Sh(), mem0, v0) && NoEmpty(mem0, v0, {})
    modifies m
    ensures m.Valid() && Live(m, a)
    ensures m.view == v0 && m.pool.states == s0
    ensures old(m.SharedHalf()) && a.kind == User ==> m.SharedHalf()
  {
    ghost var mid, left := m.view, items;
    var n := mapped;
    while n > 0
      invariant 0 <= n <= mapped && |left| == n && RunItems(m.mode, a, virt, left)
      invariant m.Valid() && Live(m, a)
      invariant Undoing(v0, s0, mid, m.view, m.pool.states, a.root, left, {})
      invariant old(m.SharedHalf()) && a.kind == User ==> m.SharedHalf()
    {
      n := n - 1;
      UnmapNth(m, a, virt, n, left, mid, v0, s0);
      RunShrinks(m.mode, a, virt, left);
      left := left[..n];
    }
    UndoEnd(m.mode, m.Sh(), mem0, v0, s0, mid, m.mem, m.view, m.pool.states, a.root);
  }

  lemma RunShrinks(mode: Mode, a: AddressSpace, start: nat, items: seq<Item>)
    requires items != [] && RunItems(mode, a, start, items)
    ensures RunItems(mode, a, start, items[..|items| - 1])
  {
    var rest := items[..|items| - 1];
    forall i | 0 <= i < |rest|
      ensures RunAt(mode, a, start, rest, i)
    {
      assert RunAt(mode, a, start, items, i);
    }
  }

  method UnmapNth(m: PageTables.Machine, a: AddressSpace, virt: nat, n: nat, ghost items: seq<Item>, ghost mid: View,
                  ghost v0: View, ghost s0: seq<FrameState>)
    requires m.Valid() && Live(m, a) && virt % PAGE_SIZE == 0 && Backed(v0, s0)
    requires |items| == n + 1 && RunItems(m.mode, a, virt, items)
    requires Undoing(v0, s0, mid, m.view, m.pool.states, a.root, items, {})
    modifies m
    ensures m.Valid() && Live(m, a)
    ensures Undoing(v0, s0, mid, m.view, m.pool.states, a.root, items[..n], {})
    ensures old(m.SharedHalf()) && a.kind == User ==> m.SharedHalf()
  {
    assert RunAt(m.mode, a, virt, items, n);
    var virtual := PageAddress(virt, n);
    UnmapLast(m, a, virtual, items, mid, v0, s0);
  }

  method UnmapLast(m: PageTables.Machine, a: AddressSpace, addr: nat, ghost items: seq<Item>, ghost mid: View,
                   ghost v0: View, ghost s0: seq<FrameState>)
    requires m.Valid() && Live(m, a) && addr % PAGE_SIZE == 0 && Backed(v0, s0)
    requires CanUnmap(m.mode, a, addr)
    requires Undoing(v0, s0, mid, m.view, m.pool.states, a.root, items, {})
    requires items != [] && items[|items| - 1].loc == Loc(a.root, PageOf(m.mode, addr))
    modifies m
    ensures m.Valid() && Live(m, a)
    ensures Undoing(v0, s0, mid, m.view, m.pool.states, a.root, items[..|items| - 1], {})
    ensures old(m.SharedHalf()) && a.kind == User ==> m.SharedHalf()
  {
    ghost var v, s := m.view, m.pool.states;
    AddAllItem(v0.maps, items, |items| - 1);
    UserHome(m.Sh(), m.mode, a.root, addr);
    var result := m.Unmap(a.root, addr);
    assert result.Ok?;
    UndoStep(v0, s0, mid, v, s, a.root, items, {}, m.view, m.pool.states);
  }
}
