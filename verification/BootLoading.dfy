/** The kernel's ELF loader over the page tables: every page of the image gets a frame of its own,
    filled and mapped with the segment's permissions. */
module BootLoading {
  import opened Outcomes
  import opened Numbers
  import opened Addresses
  import opened Bytes
  import opened Frames
  import opened Forest
  import opened Grafts
  import opened Sessions
  import opened AddressSpaces
  import opened Budgets
  import opened Loading
  import opened ElfParsers
  import MapSteps
  import PageTables
  import BootElf

  // ---- Which pages are mapped, and in which order ----

  /** The pages from `page` up to an end. */
  ghost function PagesUpTo(mode: Mode, page: nat, end: nat): seq<nat>
    decreases end - page
  {
    if page >= end then [] else [PageOf(mode, page)] + PagesUpTo(mode, page + PAGE_SIZE, end)
  }

  ghost function HeaderPages(mode: Mode, h: BootElf.LoadHeader): seq<nat> {
    if h.memorySize == 0 then [] else PagesUpTo(mode, PageStart(h.address), h.address + h.memorySize)
  }

  ghost function LoadPages(mode: Mode, hs: seq<BootElf.LoadHeader>): seq<nat> {
    if hs == [] then [] else HeaderPages(mode, hs[0]) + LoadPages(mode, hs[1..])
  }

  ghost predicate Price(mode: Mode, v: View, root: nat, pages: seq<nat>, need: nat) {
    need == Need(Depth(mode), v.nodes.Keys, root, pages, 1)
  }

  /** `left` frames are left when these pages, each on a frame of its own, have been mapped. */
  ghost predicate Owes(mode: Mode, v: View, s: seq<FrameState>, root: nat, pages: seq<nat>, left: int) {
    forall need: nat {:trigger Price(mode, v, root, pages, need)} :: Price(mode, v, root, pages, need) ==>
      |FreeSet(s)| - need == left
  }

  lemma OwesIs(mode: Mode, v: View, s: seq<FrameState>, root: nat, pages: seq<nat>, left: int)
    ensures Owes(mode, v, s, root, pages, left) <==> left == Margin(Depth(mode), v, s, root, pages, 1)
  {
    assert Price(mode, v, root, pages, Need(Depth(mode), v.nodes.Keys, root, pages, 1));
  }

  /** The first page is mapped and paid for. */
  lemma OwesNext(
    mode: Mode, v: View, s: seq<FrameState>, f: nat, v': View, s': seq<FrameState>, root: nat, page: nat,
    rest: seq<nat>, left: int)
    requires f < |s| && s[f] == FrameState.Free && Owes(mode, v, s, root, [page] + rest, left)
    requires MapSteps.Paid(Depth(mode), v, s[f := Allocated], v', s', root, page)
    ensures Owes(mode, v', s', root, rest, left)
  {
    TakeFree(s, f);
    OwesIs(mode, v, s, root, [page] + rest, left);
    OwesIs(mode, v', s', root, rest, left);
    assert ([page] + rest)[1..] == rest;
    MarginKept(Depth(mode), v, s, s[f := Allocated], v', s', root, [page] + rest, 1);
  }

  lemma OwesShort(mode: Mode, v: View, s: seq<FrameState>, f: nat, root: nat, page: nat, rest: seq<nat>, left: int)
    requires f < |s| && s[f] == FrameState.Free && Owes(mode, v, s, root, [page] + rest, left)
    requires NoRoom(mode, v, s[f := Allocated], Loc(root, page))
    ensures left < 0
  {
    TakeFree(s, f);
    OwesIs(mode, v, s, root, [page] + rest, left);
    MarginShort(Depth(mode), v, s, root, [page] + rest, 1);
  }

  lemma OwesNone(mode: Mode, v: View, s: seq<FrameState>, root: nat, page: nat, rest: seq<nat>, left: int)
    requires FreeSet(s) == {} && Owes(mode, v, s, root, [page] + rest, left)
    ensures left < 0
  {
    OwesIs(mode, v, s, root, [page] + rest, left);
  }

  // ---- The pages of an image in an address space ----

  type Contents = map<nat, seq<byte>>

  function UserPage(mode: Mode, root: nat, p: nat): Loc {
    Loc(root, PageOf(mode, p))
  }

  /** Page p of the image is newly mapped with its permissions, on a frame with its bytes. */
  ghost predicate Stored(
    mode: Mode, root: nat, maps0: map<Loc, Entry>, maps: map<Loc, Entry>, contents: Contents, image: Image, p: nat)
  {
    p in image ==>
      && p % PAGE_SIZE == 0 && p < USER_SPACE_END && UserPage(mode, root, p) in maps
      && UserPage(mode, root, p) !in maps0
      && var e := maps[UserPage(mode, root, p)];
         && e.perms == Perms(image[p].writable, image[p].executable, true)
         && e.frame in contents && contents[e.frame] == image[p].bytes
  }

  /** No two pages of the image share a frame. */
  ghost predicate OwnFrames(mode: Mode, root: nat, maps: map<Loc, Entry>, image: Image, p: nat, q: nat) {
    p in image && q in image && p != q && UserPage(mode, root, p) in maps && UserPage(mode, root, q) in maps ==>
      maps[UserPage(mode, root, p)].frame != maps[UserPage(mode, root, q)].frame
  }

  /** A page that was not mapped before is a page of the image. */
  ghost predicate FromImage(mode: Mode, root: nat, maps0: map<Loc, Entry>, maps: map<Loc, Entry>, image: Image,
                            l: Loc)
  {
    l in maps && l !in maps0 ==> exists p: nat :: p in image && l == UserPage(mode, root, p)
  }

  /** Exactly the pages of the image have been mapped. */
  ghost predicate Holds(
    mode: Mode, root: nat, maps0: map<Loc, Entry>, maps: map<Loc, Entry>, contents: Contents, image: Image)
  {
    && (forall p: nat {:trigger Stored(mode, root, maps0, maps, contents, image, p)} ::
          Stored(mode, root, maps0, maps, contents, image, p))
    && (forall p: nat, q: nat {:trigger OwnFrames(mode, root, maps, image, p, q)} ::
      OwnFrames(mode, root, maps, image, p, q))
    && (forall l {:trigger FromImage(mode, root, maps0, maps, image, l)} ::
      FromImage(mode, root, maps0, maps, image, l))
  }

  /** Pages below the end of user space are told apart by their page numbers. */
  lemma SamePage(mode: Mode, p: nat, q: nat)
    requires p % PAGE_SIZE == 0 && q % PAGE_SIZE == 0 && p < USER_SPACE_END && q < USER_SPACE_END
    requires PageOf(mode, p) == PageOf(mode, q)
    ensures p == q
  {
    UserAddress(mode, p);
    UserAddress(mode, q);
    PageDeterminesAddress(mode, p, q);
  }

  /** A page that is mapped now was mapped before, or is in the image. */
  lemma WasMapped(
    mode: Mode, root: nat, maps0: map<Loc, Entry>, maps: map<Loc, Entry>, contents: Contents, image: Image, page: nat)
    requires Holds(mode, root, maps0, maps, contents, image) && page % PAGE_SIZE == 0 && page < USER_SPACE_END
    requires UserPage(mode, root, page) in maps
    ensures UserPage(mode, root, page) in maps0 || page in image
  {
    assert FromImage(mode, root, maps0, maps, image, UserPage(mode, root, page));
    if UserPage(mode, root, page) !in maps0 {
      var p: nat :| p in image && UserPage(mode, root, page) == UserPage(mode, root, p);
      assert Stored(mode, root, maps0, maps, contents, image, p);
      SamePage(mode, p, page);
    }
  }

  lemma HoldsNext(
    mode: Mode, root: nat, maps0: map<Loc, Entry>, maps: map<Loc, Entry>, contents: Contents, image: Image,
    page: nat, data: Page, leaf: Entry)
    requires Holds(mode, root, maps0, maps, contents, image) && page % PAGE_SIZE == 0 && page < USER_SPACE_END
    requires UserPage(mode, root, page) !in maps && UserPage(mode, root, page) !in maps0 && leaf.frame !in contents
    requires leaf.perms == Perms(data.writable, data.executable, true)
    ensures page !in image
    ensures Holds(mode, root, maps0, maps[UserPage(mode, root, page) := leaf], contents[leaf.frame := data.bytes],
                  image[page := data])
  {
    var maps', contents' := maps[UserPage(mode, root, page) := leaf], contents[leaf.frame := data.bytes];
    var image' := image[page := data];
    assert Stored(mode, root, maps0, maps, contents, image, page);
    forall p: nat
      ensures Stored(mode, root, maps0, maps', contents', image', p)
    {
      assert Stored(mode, root, maps0, maps, contents, image, p);
    }
    forall p: nat, q: nat
      ensures OwnFrames(mode, root, maps', image', p, q)
    {
      assert OwnFrames(mode, root, maps, image, p, q);
      assert Stored(mode, root, maps0, maps, contents, image, p);
      assert Stored(mode, root, maps0, maps, contents, image, q);
    }
    forall l: Loc
      ensures FromImage(mode, root, maps0, maps', image', l)
    {
      assert FromImage(mode, root, maps0, maps, image, l);
      assert page in image';
      if l in maps && l !in maps0 {
        var p: nat :| p in image && l == UserPage(mode, root, p);
        assert p in image';
      }
    }
  }

  // ---- One page ----

  /** How far loading has come: from v0 and s0, the pages of `image` are mapped on frames with these bytes. */
  datatype Progress = Progress(v0: View, s0: seq<FrameState>, items: seq<Item>, contents: Contents, image: Image)

  datatype Moment = Moment(view: View, states: seq<FrameState>)

  ghost predicate Since(mode: Mode, root: nat, p: Progress, at: Moment) {
    && Backed(p.v0, p.s0) && Session(p.v0, p.s0, at.view, at.states, root, p.items, p.contents.Keys)
    && Holds(mode, root, p.v0.maps, at.view.maps, p.contents, p.image)
  }

  /** Loading has come this far; stated so that the proofs look inside only where they name `Since`. */
  ghost predicate Reached(mode: Mode, root: nat, p: Progress, v: View, s: seq<FrameState>) {
    forall at {:trigger Since(mode, root, p, at)} :: at == Moment(v, s) ==> Since(mode, root, p, at)
  }

  ghost function Advance(p: Progress, item: Item, page: nat, data: Page): Progress {
    Progress(p.v0, p.s0, p.items + [item], p.contents[item.leaf.frame := data.bytes], p.image[page := data])
  }

  /** Why a page is not loaded: no frames, or the page is taken or cannot be made non-executable. */
  ghost predicate Refuses(m: PageTables.Machine, root: nat, p: Progress, page: nat, data: Page, left: int,
                          e: LoadError)
  {
    if e == LoadError.OutOfMemory then left < 0
    else
      && e == FailedToMapSegment
      && (left < 0 || page in p.image || UserPage(m.mode, root, page) in p.v0.maps || (!data.executable && !m.nxEnabled)
          || MapSteps.FreeAbove(p.s0, m.frameLimit))
  }

  /** Maps a filled frame with a segment's permissions. */
  method MapSegmentPage(m: PageTables.Machine, a: AddressSpace, page: nat, frame: nat, writable: bool, executable: bool,
                        ghost p: Progress, ghost data: Page, ghost rest: seq<nat>, ghost left: int,
                        ghost s: seq<FrameState>)
    returns (err: Option<LoadError>, ghost next: Progress)
    requires m.Valid() && m.SharedHalf() && Live(m, a) && a.kind == User && Backed(m.view, s)
    requires frame < |s| && s[frame] == FrameState.Free && m.pool.states == s[frame := Allocated]
    requires Reached(m.mode, a.root, p, m.view, s) && page % PAGE_SIZE == 0 && page < USER_SPACE_END
    requires data.writable == writable && data.executable == executable
    requires Owes(m.mode, m.view, s, a.root, [PageOf(m.mode, page)] + rest, left)
    modifies m
    ensures m.Valid() && m.SharedHalf() && Live(m, a)
    ensures err.Some? ==>
      && m.view == old(m.view) && m.pool.states == old(m.pool).states
      && next == p && Refuses(m, a.root, p, page, data, left, err.value)
    ensures err.None? ==>
      && page !in p.image && UserPage(m.mode, a.root, page) !in p.v0.maps && (executable || m.nxEnabled)
      && next.v0 == p.v0 && next.s0 == p.s0 && next.contents == p.contents[frame := data.bytes]
      && next.image == p.image[page := data]
      && Reached(m.mode, a.root, next, m.view, m.pool.states) && Owes(m.mode, m.view, m.pool.states, a.root, rest, left)
  {
    ghost var v, perms := m.view, Perms(writable, executable, true);
    var result := MapFrameAt(m, a, frame, page, Perms(writable, executable, true), false, Loc(0, 0));
    if result.Err? {
      WhyRefused(m, a, p, page, data, frame, rest, left, v, s, result.error);
      return Some(FailedToMapSegment), p;
    }
    OwesNext(m.mode, v, s, frame, m.view, m.pool.states, a.root, PageOf(m.mode, page), rest, left);
    ghost var item := Item(UserPage(m.mode, a.root, page), m.LeafEntry(frame, perms, false, false));
    PageLoaded(m.mode, a.root, p, page, data, item, v, s, m.view, m.pool.states);
    return None, Advance(p, item, page, data);
  }

  /** Takes a frame, fills it and maps it at a page; a frame that cannot be mapped is given back. */
  method LoadPage(m: PageTables.Machine, a: AddressSpace, s: BootElf.Segment, page: nat,
                  ghost p: Progress, ghost rest: seq<nat>, ghost left: int)
    returns (r: Result<(nat, seq<byte>), LoadError>, ghost next: Progress)
    requires m.Valid() && m.SharedHalf() && Live(m, a) && a.kind == User
    requires Reached(m.mode, a.root, p, m.view, m.pool.states)
    requires page % PAGE_SIZE == 0 && page < USER_SPACE_END && s.address < page + PAGE_SIZE
    requires Owes(m.mode, m.view, m.pool.states, a.root, [PageOf(m.mode, page)] + rest, left)
    modifies m
    ensures m.Valid() && m.SharedHalf() && Live(m, a) && Reached(m.mode, a.root, next, m.view, m.pool.states)
    ensures r.Err? ==> next == p && Refuses(m, a.root, p, page, PageOfSegment(s, page), left, r.error)
    ensures r.Ok? ==>
      && page !in p.image && UserPage(m.mode, a.root, page) !in p.v0.maps && (s.executable || m.nxEnabled)
      && next.v0 == p.v0 && next.s0 == p.s0 && next.contents == p.contents[r.value.0 := r.value.1]
      && next.image == p.image[page := PageOfSegment(s, page)]
      && Owes(m.mode, m.view, m.pool.states, a.root, rest, left)
  {
    ghost var v, states := m.view, m.pool.states;
    var frame := m.AllocFrame();
    if frame.None? {
      OwesNone(m.mode, v, states, a.root, PageOf(m.mode, page), rest, left);
      return Err(LoadError.OutOfMemory), p;
    }
    var outside := OutsideDirectMap(m, frame.value);
    assert outside.None?;
    var bytes := FillPage(s, page);
    MapSteps.NotATable(v, states, frame.value);
    assert states[frame.value := Allocated][frame.value := FrameState.Free] == states;
    var err;
    err, next := MapSegmentPage(m, a, page, frame.value, s.writable, s.executable, p, PageOfSegment(s, page), rest,
                                left, states);
    if err.Some? {
      m.FreeFrame(frame.value);
      return Err(err.value), p;
    }
    return Ok((frame.value, bytes)), next;
  }

  /** The kernel fills a frame through the direct map, which reaches every frame it can allocate. */
  method OutsideDirectMap(m: PageTables.Machine, frame: nat) returns (err: Option<LoadError>)
    ensures err == if frame in m.mem then None else Some(AddressTranslationFailed)
  {
    return if frame in m.mem then None else Some(AddressTranslationFailed);
  }

  /** Fills the frame of a page. */
  method FillPage(s: BootElf.Segment, page: nat) returns (bytes: seq<byte>)
    requires s.address < page + PAGE_SIZE
    ensures bytes == PageBytes(s.data, s.address, page)
  {
    var frame := new byte[PAGE_SIZE];
    FillFrame(frame, s, page);
    return frame[..];
  }

  lemma NotBefore(maps: map<Loc, Entry>, items: seq<Item>, l: Loc)
    requires FreshItems(maps, items) && l !in AddAll(maps, items)
    ensures l !in maps
  {
    if l in maps {
      AddAllKeeps(maps, items, l);
    }
  }

  /** What stopped a page from being mapped was there when loading started, or is in the image. */
  lemma WhyRefused(
    m: PageTables.Machine, a: AddressSpace, p: Progress, page: nat, data: Page, frame: nat, rest: seq<nat>, left: int,
    v: View, s: seq<FrameState>, e: MapError)
    requires frame < |s| && s[frame] == FrameState.Free && a.kind == User && Reached(m.mode, a.root, p, v, s)
    requires page % PAGE_SIZE == 0 && page < USER_SPACE_END
    requires Owes(m.mode, v, s, a.root, [PageOf(m.mode, page)] + rest, left)
    requires FrameCause(m, a, v, s[frame := Allocated], frame, page, Perms(data.writable, data.executable, true), e)
    requires e == MapError.OutOfMemory ==> NoRoom(m.mode, v, s[frame := Allocated], UserPage(m.mode, a.root, page))
    ensures Refuses(m, a.root, p, page, data, left, FailedToMapSegment)
  {
    assert Since(m.mode, a.root, p, Moment(v, s));
    UserAddress(m.mode, page);
    match e {
      case OutOfMemory =>
        OwesShort(m.mode, v, s, frame, a.root, PageOf(m.mode, page), rest, left);
      case PhysicalAddressTooLarge =>
        GrownValues(p.v0, v, a.root);
        FreeBefore(p.v0, p.s0, v, s, p.contents.Keys, m.frameLimit);
        StillAbove(s, frame, m.frameLimit);
      case AlreadyMapped =>
        WasMapped(m.mode, a.root, p.v0.maps, v.maps, p.contents, p.image, page);
      case _ =>
    }
  }

  /** One more page of the image is mapped. */
  lemma PageLoaded(
    mode: Mode, root: nat, p: Progress, page: nat, data: Page, item: Item,
    v: View, s: seq<FrameState>, v': View, s': seq<FrameState>)
    requires Backed(v, s) && Reached(mode, root, p, v, s) && item.leaf.frame < |s|
    requires s[item.leaf.frame] == FrameState.Free
    requires page % PAGE_SIZE == 0 && page < USER_SPACE_END && item.loc == UserPage(mode, root, page)
    requires item.loc !in v.maps
    requires item.leaf.perms == Perms(data.writable, data.executable, true)
    requires PageTables.Added(v, s[item.leaf.frame := Allocated], v', s', item.loc, item.leaf)
    ensures page !in p.image && item.loc !in p.v0.maps && Reached(mode, root, Advance(p, item, page, data), v', s')
  {
    assert Since(mode, root, p, Moment(v, s));
    HeldAdd(p.v0, p.s0, v, s, root, p.items, p.contents.Keys, item.leaf.frame, v', s', item);
    assert Advance(p, item, page, data).contents.Keys == p.contents.Keys + {item.leaf.frame};
    HoldsNext(mode, root, p.v0.maps, v.maps, p.contents, p.image, page, data, item.leaf);
  }

  /** A frame is taken and mapped. */
  lemma HeldAdd(
    v0: View, s0: seq<FrameState>, v: View, s: seq<FrameState>, root: nat, items: seq<Item>, held: set<nat>, f: nat,
    v': View, s': seq<FrameState>, item: Item)
    requires Session(v0, s0, v, s, root, items, held) && Backed(v, s) && Backed(v0, s0)
    requires f < |s| && s[f] == FrameState.Free && item.loc !in v.maps && item.loc.root == root
    requires PageTables.Added(v, s[f := Allocated], v', s', item.loc, item.leaf)
    ensures Session(v0, s0, v', s', root, items + [item], held + {f}) && f !in held && item.loc !in v0.maps
  {
    SessionHold(v0, s0, v, s, root, items, held, f);
    SessionAdd(v0, s0, v, s[f := Allocated], root, items, held + {f}, v', s', item);
    NotHeld(held, s, f);
    NotBefore(v0.maps, items, item.loc);
  }

  lemma NotHeld(held: set<nat>, s: seq<FrameState>, f: nat)
    requires AllAllocated(held, s) && f < |s| && s[f] == FrameState.Free
    ensures f !in held
  {
  }

  lemma StillAbove(s: seq<FrameState>, f: nat, limit: nat)
    requires f < |s| && s[f] == FrameState.Free && (f >= limit || MapSteps.FreeAbove(s[f := Allocated], limit))
    ensures MapSteps.FreeAbove(s, limit)
  {
    assert f in FreeSet(s);
    if f < limit {
      var g :| g in FreeSet(s[f := Allocated]) && g >= limit;
      assert g in FreeSet(s);
    }
  }

  // ---- Segments ----

  /** Every page can have its permissions. */
  ghost predicate Permitted(image: Image, nx: bool) {
    forall q :: q in image ==> image[q].executable || nx
  }

  /** With the pages before `page` laid, the image is `image`. */
  ghost predicate Laying(image0: Image, s: BootElf.Segment, image: Image, page: nat) {
    && page % PAGE_SIZE == 0 && s.address < page + PAGE_SIZE
    && Lay(image0, s, PageStart(s.address)) == Lay(image, s, page)
  }

  lemma LayingNext(image0: Image, s: BootElf.Segment, image: Image, page: nat)
    requires Laying(image0, s, image, page) && page < s.address + s.memorySize
    ensures page !in image ==> Laying(image0, s, image[page := PageOfSegment(s, page)], page + PAGE_SIZE)
  {
    assert (page + PAGE_SIZE) % PAGE_SIZE == page % PAGE_SIZE;
  }

  /** The page after this one, and the pages that are then still to be mapped. */
  method NextPage(page: nat, ghost end: nat, ghost image0: Image, ghost s: BootElf.Segment, ghost image: Image,
                  ghost mode: Mode,
                  ghost rest: seq<nat>)
    returns (next: nat, ghost pages: seq<nat>)
    requires Laying(image0, s, image, page) && page < end == s.address + s.memorySize
    ensures next > page && page % PAGE_SIZE == 0 && s.address < page + PAGE_SIZE
    ensures page !in image ==> Laying(image0, s, image[page := PageOfSegment(s, page)], next)
    ensures PagesUpTo(mode, page, end) + rest == [PageOf(mode, page)] + pages
    ensures pages == PagesUpTo(mode, next, end) + rest
  {
    LayingNext(image0, s, image, page);
    PagesSplit(mode, page, end, rest);
    pages := PagesUpTo(mode, page + PAGE_SIZE, end) + rest;
    next := page + PAGE_SIZE;
  }

  /** Loads one page of a segment; `contents` are the bytes of the frames filled so far. */
  method LoadStep(m: PageTables.Machine, a: AddressSpace, s: BootElf.Segment, end: nat, at: nat, contents: Contents,
                  ghost image0: Image, ghost p: Progress, ghost rest: seq<nat>, ghost left: int)
    returns (err: Option<LoadError>, after: nat, filled: Contents, ghost next: Progress)
    requires m.Valid() && m.SharedHalf() && Live(m, a) && a.kind == User
    requires Reached(m.mode, a.root, p, m.view, m.pool.states)
    requires at < end == s.address + s.memorySize <= USER_SPACE_END && p.contents == contents
    requires Permitted(p.image, m.nxEnabled) && Laying(image0, s, p.image, at)
    requires Owes(m.mode, m.view, m.pool.states, a.root, PagesUpTo(m.mode, at, end) + rest, left)
    modifies m
    ensures m.Valid() && m.SharedHalf() && Live(m, a) && Reached(m.mode, a.root, next, m.view, m.pool.states)
    ensures next.v0 == p.v0 && next.s0 == p.s0 && next.contents == filled && Permitted(next.image, m.nxEnabled)
    ensures err.Some? ==> next == p && Refuses(m, a.root, p, at, PageOfSegment(s, at), left, err.value)
    ensures err.None? ==>
      && at < after && Laying(image0, s, next.image, after)
      && Owes(m.mode, m.view, m.pool.states, a.root, PagesUpTo(m.mode, after, end) + rest, left)
  {
    ghost var pages;
    after, pages := NextPage(at, end, image0, s, p.image, m.mode, rest);
    var loaded;
    loaded, next := LoadPage(m, a, s, at, p, pages, left);
    match loaded {
      case Err(e) => return Some(e), at, contents, p;
      case Ok((frame, bytes)) => return None, after, contents[frame := bytes], next;
    }
  }

  /** Loads the pages of one segment.  When that fails, `next.image` is laid, and `page` is the next. */
  method LoadSegment(m: PageTables.Machine, a: AddressSpace, s: BootElf.Segment, contents: Contents,
                     ghost p: Progress, ghost rest: seq<nat>, ghost left: int)
    returns (err: Option<LoadError>, filled: Contents, ghost next: Progress, ghost page: nat)
    requires m.Valid() && m.SharedHalf() && Live(m, a) && a.kind == User
    requires Reached(m.mode, a.root, p, m.view, m.pool.states)
    requires s.memorySize > 0 && s.address + s.memorySize <= USER_SPACE_END && p.contents == contents
    requires Permitted(p.image, m.nxEnabled)
    requires Owes(m.mode, m.view, m.pool.states, a.root,
                  PagesUpTo(m.mode, PageStart(s.address), s.address + s.memorySize) + rest, left)
    modifies m
    ensures m.Valid() && m.SharedHalf() && Live(m, a) && Reached(m.mode, a.root, next, m.view, m.pool.states)
    ensures next.v0 == p.v0 && next.s0 == p.s0 && next.contents == filled && Permitted(next.image, m.nxEnabled)
    ensures err.None? ==>
      && Lay(p.image, s, PageStart(s.address)) == Some(next.image)
      && Owes(m.mode, m.view, m.pool.states, a.root, rest, left)
    ensures err.Some? ==>
      && Lay(p.image, s, PageStart(s.address)) == Lay(next.image, s, page) && page < s.address + s.memorySize
      && Refuses(m, a.root, next, page, PageOfSegment(s, page), left, err.value)
  {
    var end := s.address + s.memorySize;
    var at := PageStart(s.address);
    filled, next, page := contents, p, at;
    while at < end
      invariant m.Valid() && m.SharedHalf() && Live(m, a) && Reached(m.mode, a.root, next, m.view, m.pool.states)
      invariant next.v0 == p.v0 && next.s0 == p.s0 && next.contents == filled && Permitted(next.image, m.nxEnabled)
      invariant Laying(p.image, s, next.image, at)
      invariant Owes(m.mode, m.view, m.pool.states, a.root, PagesUpTo(m.mode, at, end) + rest, left)
      decreases end - at
    {
      page := at;
      err, at, filled, next := LoadStep(m, a, s, end, at, filled, p.image, next, rest, left);
      if err.Some? {
        return;
      }
    }
    LastPage(m.mode, at, end, rest);
    err := None;
  }

  lemma LastPage(mode: Mode, page: nat, end: nat, rest: seq<nat>)
    requires page >= end
    ensures PagesUpTo(mode, page, end) + rest == rest
  {
  }

  lemma PagesSplit(mode: Mode, page: nat, end: nat, rest: seq<nat>)
    requires page < end
    ensures PagesUpTo(mode, page, end) + rest == [PageOf(mode, page)] + (PagesUpTo(mode, page + PAGE_SIZE, end) + rest)
  {
  }

  // ---- Whole images ----

  /** No page of the image is mapped yet, and all can have their permissions. */
  ghost predicate MayHold(m: PageTables.Machine, root: nat, v: View, image: Image) {
    Permitted(image, m.nxEnabled) && forall q: nat :: q in image ==> UserPage(m.mode, root, q) !in v.maps
  }

  /** An image can be loaded: its segments are sound, no two share a page, no page is taken, and there
      are frames enough for its pages and their tables. */
  ghost predicate Loadable(m: PageTables.Machine, root: nat, v: View, s: seq<FrameState>, bytes: seq<byte>,
                           hs: seq<BootElf.LoadHeader>)
  {
    && SegmentsOk(bytes, hs) && DataInFile(bytes, hs)
    && LayAll(map[], bytes, hs).Some? && MayHold(m, root, v, LayAll(map[], bytes, hs).value)
    && Margin(Depth(m.mode), v, s, root, LoadPages(m.mode, hs), 1) >= 0
  }

  /** The page at which the loader stopped. */
  ghost predicate StopsAt(bytes: seq<byte>, h: BootElf.LoadHeader, image: Image, now: Image, page: nat) {
    && h.offset + h.fileSize <= |bytes| && 0 < h.memorySize && page < h.address + h.memorySize
    && LayOne(image, bytes, h) == Lay(now, SegmentAt(bytes, h), page)
  }

  /** A loadable image is refused only for frames that no entry can hold. */
  lemma RefusedLoadable(
    m: PageTables.Machine, root: nat, bytes: seq<byte>, hs: seq<BootElf.LoadHeader>, image: Image,
    rest: seq<BootElf.LoadHeader>,
    now: Progress, page: nat, left: int, e: LoadError)
    requires Loadable(m, root, now.v0, now.s0, bytes, hs)
    requires Owes(m.mode, now.v0, now.s0, root, LoadPages(m.mode, hs), left)
    requires rest != [] && DataInFile(bytes, rest) && LayAll(map[], bytes, hs) == LayAll(image, bytes, rest)
    requires StopsAt(bytes, rest[0], image, now.image, page)
    requires Refuses(m, root, now, page, PageOfSegment(SegmentAt(bytes, rest[0]), page), left, e)
    ensures MapSteps.FreeAbove(now.s0, m.frameLimit)
  {
    OwesIs(m.mode, now.v0, now.s0, root, LoadPages(m.mode, hs), left);
    NextInFinal(image, bytes, rest, now.image, page);
  }

  /** Checks one load header and loads its segment; tells whether the entry lies in it. */
  method LoadOne(m: PageTables.Machine, a: AddressSpace, bytes: seq<byte>, h: BootElf.LoadHeader, entry: nat,
                 contents: Contents,
                 ghost p: Progress, ghost rest: seq<nat>, ghost left: int)
    returns (r: Result<bool, LoadError>, filled: Contents, ghost next: Progress, ghost page: nat)
    requires m.Valid() && m.SharedHalf() && Live(m, a) && a.kind == User
    requires Reached(m.mode, a.root, p, m.view, m.pool.states)
    requires p.contents == contents && Permitted(p.image, m.nxEnabled)
    requires Owes(m.mode, m.view, m.pool.states, a.root, HeaderPages(m.mode, h) + rest, left)
    modifies m
    ensures m.Valid() && m.SharedHalf() && Live(m, a) && Reached(m.mode, a.root, next, m.view, m.pool.states)
    ensures next.v0 == p.v0 && next.s0 == p.s0 && next.contents == filled && Permitted(next.image, m.nxEnabled)
    ensures r.Ok? ==>
      && SegmentOk(bytes, h) && LayOne(p.image, bytes, h) == Some(next.image)
      && (r.value <==> HoldsEntry(h, entry)) && Owes(m.mode, m.view, m.pool.states, a.root, rest, left)
    ensures r.Err? ==>
      if r.error == InvalidElf then !SegmentOk(bytes, h)
      else
        && StopsAt(bytes, h, p.image, next.image, page)
        && Refuses(m, a.root, next, page, PageOfSegment(SegmentAt(bytes, h), page), left, r.error)
  {
    filled, next, page := contents, p, 0;
    var segment := BootElf.SegmentOf(bytes, h);
    if segment.None? {
      return Err(InvalidElf), filled, next, page;
    }
    var end := h.address + h.memorySize;
    if end >= WORD || end > USER_SPACE_END {
      return Err(InvalidElf), filled, next, page;
    }
    if h.memorySize == 0 {
      assert HeaderPages(m.mode, h) + rest == rest;
      return Ok(false), filled, next, page;
    }
    var err;
    err, filled, next, page := LoadSegment(m, a, segment.value, contents, p, rest, left);
    if err.Some? {
      return Err(err.value), filled, next, page;
    }
    return Ok(segment.value.executable && h.address <= entry < end), filled, next, page;
  }

  /** Where the loader stands before header n: what is left to lay and to pay for. */
  ghost predicate Before(
    m: PageTables.Machine, root: nat, bytes: seq<byte>, hs: seq<BootElf.LoadHeader>, n: nat, image: Image, v: View,
    s: seq<FrameState>,
    left: int)
  {
    && n <= |hs| && SegmentsOk(bytes, hs[..n]) && Permitted(image, m.nxEnabled)
    && (DataInFile(bytes, hs) ==> LayAll(map[], bytes, hs) == LayAll(image, bytes, hs[n..]))
    && Owes(m.mode, v, s, root, LoadPages(m.mode, hs[n..]), left)
  }

  lemma BeforeNext(
    m: PageTables.Machine, root: nat, bytes: seq<byte>, hs: seq<BootElf.LoadHeader>, n: nat, image: Image, v: View,
    s: seq<FrameState>,
    left: int, image': Image, v': View, s': seq<FrameState>)
    requires n < |hs| && Before(m, root, bytes, hs, n, image, v, s, left)
    requires SegmentOk(bytes, hs[n]) && LayOne(image, bytes, hs[n]) == Some(image') && Permitted(image', m.nxEnabled)
    requires Owes(m.mode, v', s', root, LoadPages(m.mode, hs[n + 1..]), left)
    ensures Before(m, root, bytes, hs, n + 1, image', v', s', left)
  {
    assert hs[n..][1..] == hs[n + 1..];
    assert hs[..n + 1] == hs[..n] + [hs[n]];
  }

  lemma PagesOfFirst(mode: Mode, hs: seq<BootElf.LoadHeader>, n: nat)
    requires n < |hs|
    ensures LoadPages(mode, hs[n..]) == HeaderPages(mode, hs[n]) + LoadPages(mode, hs[n + 1..])
  {
    assert hs[n..][1..] == hs[n + 1..];
  }

  /** Loads all segments; tells whether the entry lies in an executable one. */
  method LoadSegments(m: PageTables.Machine, a: AddressSpace, bytes: seq<byte>, hs: seq<BootElf.LoadHeader>, entry: nat,
                      ghost p: Progress, ghost left: int)
    returns (r: Result<bool, LoadError>, filled: Contents, ghost next: Progress)
    requires m.Valid() && m.SharedHalf() && Live(m, a) && a.kind == User
    requires p == Progress(m.view, m.pool.states, [], map[], map[]) && Reached(m.mode, a.root, p, m.view, m.pool.states)
    requires Owes(m.mode, m.view, m.pool.states, a.root, LoadPages(m.mode, hs), left)
    modifies m
    ensures m.Valid() && m.SharedHalf() && Live(m, a) && Reached(m.mode, a.root, next, m.view, m.pool.states)
    ensures next.v0 == p.v0 && next.s0 == p.s0 && next.contents == filled
    ensures r.Ok? ==>
      && Before(m, a.root, bytes, hs, |hs|, next.image, m.view, m.pool.states, left)
      && (r.value <==> EntersIn(hs, entry))
    ensures r.Err? && Loadable(m, a.root, p.v0, p.s0, bytes, hs) ==> MapSteps.FreeAbove(p.s0, m.frameLimit)
  {
    var entered, n := false, 0;
    filled, next := map[], p;
    assert hs[0..] == hs;
    while n < |hs|
      invariant 0 <= n <= |hs|
      invariant m.Valid() && m.SharedHalf() && Live(m, a) && Reached(m.mode, a.root, next, m.view, m.pool.states)
      invariant next.v0 == p.v0 && next.s0 == p.s0 && next.contents == filled
      invariant Before(m, a.root, bytes, hs, n, next.image, m.view, m.pool.states, left)
      invariant entered <==> EntersIn(hs[..n], entry)
    {
      var one;
      one, filled, next := LoadNth(m, a, bytes, hs, n, entry, filled, next, left);
      if one.Err? {
        return one, filled, next;
      }
      EntryNext(hs, n, entry);
      entered := entered || one.value;
      n := n + 1;
    }
    assert hs[..n] == hs;
    return Ok(entered), filled, next;
  }

  /** Loads what the n-th load header asks for. */
  method LoadNth(m: PageTables.Machine, a: AddressSpace, bytes: seq<byte>, hs: seq<BootElf.LoadHeader>, n: nat,
                 entry: nat,
                 contents: Contents, ghost p: Progress, ghost left: int)
    returns (r: Result<bool, LoadError>, filled: Contents, ghost next: Progress)
    requires m.Valid() && m.SharedHalf() && Live(m, a) && a.kind == User
    requires Reached(m.mode, a.root, p, m.view, m.pool.states)
    requires n < |hs| && p.contents == contents && Before(m, a.root, bytes, hs, n, p.image, m.view, m.pool.states, left)
    requires Owes(m.mode, p.v0, p.s0, a.root, LoadPages(m.mode, hs), left)
    modifies m
    ensures m.Valid() && m.SharedHalf() && Live(m, a) && Reached(m.mode, a.root, next, m.view, m.pool.states)
    ensures next.v0 == p.v0 && next.s0 == p.s0 && next.contents == filled
    ensures r.Ok? ==>
      Before(m, a.root, bytes, hs, n + 1, next.image, m.view, m.pool.states, left) && (r.value <==>
        HoldsEntry(hs[n], entry))
    ensures r.Err? && Loadable(m, a.root, p.v0, p.s0, bytes, hs) ==> MapSteps.FreeAbove(p.s0, m.frameLimit)
  {
    ghost var v, s, page := m.view, m.pool.states, 0;
    PagesOfFirst(m.mode, hs, n);
    r, filled, next, page := LoadOne(m, a, bytes, hs[n], entry, contents, p, LoadPages(m.mode, hs[n + 1..]), left);
    if r.Err? {
      Stopped(m, a.root, bytes, hs, n, p.image, v, s, left, next, page, r.error);
    } else {
      BeforeNext(m, a.root, bytes, hs, n, p.image, v, s, left, next.image, m.view, m.pool.states);
    }
  }

  lemma EntryNext(hs: seq<BootElf.LoadHeader>, n: nat, entry: nat)
    requires n < |hs|
    ensures EntersIn(hs[..n + 1], entry) <==> EntersIn(hs[..n], entry) || HoldsEntry(hs[n], entry)
  {
    assert hs[..n + 1] == hs[..n] + [hs[n]];
    EntryGrows(hs[..n], hs[n], entry);
  }

  lemma Stopped(
    m: PageTables.Machine, root: nat, bytes: seq<byte>, hs: seq<BootElf.LoadHeader>, n: nat, image: Image, v: View,
    s: seq<FrameState>,
    left: int, now: Progress, page: nat, e: LoadError)
    requires n < |hs| && Before(m, root, bytes, hs, n, image, v, s, left)
    requires Owes(m.mode, now.v0, now.s0, root, LoadPages(m.mode, hs), left)
    requires if e == InvalidElf then !SegmentOk(bytes, hs[n])
             else
               && StopsAt(bytes, hs[n], image, now.image, page)
               && Refuses(m, root, now, page, PageOfSegment(SegmentAt(bytes, hs[n]), page), left, e)
    ensures Loadable(m, root, now.v0, now.s0, bytes, hs) ==> MapSteps.FreeAbove(now.s0, m.frameLimit)
  {
    assert hs[n] in hs;
    if Loadable(m, root, now.v0, now.s0, bytes, hs) {
      RefusedLoadable(m, root, bytes, hs, image, hs[n..], now, page, left, e);
    }
  }

  /** An executable that can be loaded. */
  ghost predicate Runs(m: PageTables.Machine, root: nat, v: View, s: seq<FrameState>, bytes: seq<byte>) {
    && BootElf.Parse(bytes).Some?
    && var hs := BootElf.LoadHeadersFrom(BootElf.Parse(bytes).value.headers, 0);
       Loadable(m, root, v, s, bytes, hs) && EntersIn(hs, BootElf.Parse(bytes).value.entry)
  }

  /** The image an executable describes. */
  ghost function ImageOf(bytes: seq<byte>): Option<Image> {
    if BootElf.Parse(bytes).None? then None
    else
      var hs := BootElf.LoadHeadersFrom(BootElf.Parse(bytes).value.headers, 0);
      if DataInFile(bytes, hs) then LayAll(map[], bytes, hs) else None
  }

  /** Loads an executable into a user space: exactly its image is added, each page on a frame of its own. */
  method LoadElf(m: PageTables.Machine, a: AddressSpace, bytes: seq<byte>)
    returns (r: Result<nat, LoadError>, contents: Contents, ghost p: Progress)
    requires m.Valid() && m.SharedHalf() && Live(m, a) && a.kind == User
    modifies m
    ensures m.Valid() && m.SharedHalf() && Live(m, a) && Reached(m.mode, a.root, p, m.view, m.pool.states)
    ensures p.v0 == old(m.view) && p.s0 == old(m.pool).states && p.contents == contents
    ensures r.Ok? ==>
      && Runs(m, a.root, old(m.view), old(m.pool).states, bytes) && ImageOf(bytes) == Some(p.image)
      && r.value == BootElf.Parse(bytes).value.entry
    ensures r.Err? && Runs(m, a.root, old(m.view), old(m.pool).states, bytes) ==>
      MapSteps.FreeAbove(old(m.pool).states, m.frameLimit)
  {
    p := LoadStart(m, a);
    contents := map[];
    var elf := BootElf.Parse(bytes);
    if elf.None? {
      return Err(InvalidElf), contents, p;
    }
    var hs := BootElf.LoadHeadersFrom(elf.value.headers, 0);
    ghost var left := Margin(Depth(m.mode), m.view, m.pool.states, a.root, LoadPages(m.mode, hs), 1);
    OwesIs(m.mode, m.view, m.pool.states, a.root, LoadPages(m.mode, hs), left);
    var loaded;
    loaded, contents, p := LoadSegments(m, a, bytes, hs, elf.value.entry, p, left);
    if loaded.Err? {
      return Err(loaded.error), contents, p;
    }
    if !loaded.value {
      return Err(InvalidElf), contents, p;
    }
    AllLoaded(m, a.root, bytes, hs, p, m.view, m.pool.states, left);
    return Ok(elf.value.entry), contents, p;
  }

  lemma LoadStart(m: PageTables.Machine, a: AddressSpace) returns (p: Progress)
    requires m.Valid()
    ensures p == Progress(m.view, m.pool.states, [], map[], map[]) && Reached(m.mode, a.root, p, m.view, m.pool.states)
  {
    p := Progress(m.view, m.pool.states, [], map[], map[]);
    SessionStart(m.view, m.pool.states, a.root);
    assert p.contents.Keys == {};
  }

  lemma AllLoaded(
    m: PageTables.Machine, root: nat, bytes: seq<byte>, hs: seq<BootElf.LoadHeader>, p: Progress, v: View,
    s: seq<FrameState>, left: int)
    requires Before(m, root, bytes, hs, |hs|, p.image, v, s, left) && Reached(m.mode, root, p, v, s)
    requires Owes(m.mode, p.v0, p.s0, root, LoadPages(m.mode, hs), left)
    ensures Loadable(m, root, p.v0, p.s0, bytes, hs) && LayAll(map[], bytes, hs) == Some(p.image)
  {
    assert hs[..|hs|] == hs && hs[|hs|..] == [];
    SoundIsReadable(bytes, hs);
    OwesIs(m.mode, p.v0, p.s0, root, LoadPages(m.mode, hs), left);
    OwesIs(m.mode, v, s, root, [], left);
    assert Since(m.mode, root, p, Moment(v, s));
    forall q: nat | q in p.image
      ensures UserPage(m.mode, root, q) !in p.v0.maps
    {
      assert Stored(m.mode, root, p.v0.maps, v.maps, p.contents, p.image, q);
    }
  }

  // ---- Both loaders build the same pages ----

  /** Loads an executable with the kernel's loader into `a` and, if that succeeds, with the root server's
      into `t`.  When both complete they return the same entry and have built identical pages, and
      both complete whenever the executable runs and its image fits. */
  method LoadBoth(m: PageTables.Machine, a: AddressSpace, t: Target, bytes: seq<byte>)
    returns (boot: Result<nat, LoadError>, omega: Option<nat>, ghost p: Progress)
    requires m.Valid() && m.SharedHalf() && Live(m, a) && a.kind == User && t.image == map[]
    modifies m, t`image, t`frames
    ensures Reached(m.mode, a.root, p, m.view, m.pool.states)
    ensures boot.Ok? && omega.Some? ==> omega.value == boot.value && p.image == t.image
    ensures
      && Runs(m, a.root, old(m.view), old(m.pool).states, bytes)
      && !MapSteps.FreeAbove(old(m.pool).states, m.frameLimit)
      ==> boot.Ok?
    ensures boot.Ok? ==> (omega.Some? <==> Fits(ImageOf(bytes), t.refused, old(t.frames)))
  {
    omega := None;
    var contents;
    boot, contents, p := LoadElf(m, a, bytes);
    if boot.Ok? {
      ParsersAgree(bytes);
      SoundIsReadable(bytes, BootElf.LoadHeadersFrom(BootElf.Parse(bytes).value.headers, 0));
      omega := LoadOmega(bytes, t);
    }
  }
}
