/** Page tables in physical memory: `map`, `unmap`, the reads, and creating and destroying
    user address spaces, each proved against the flat view of the forest. */
module PageTables {
  import opened Outcomes
  import opened Addresses
  import opened Frames
  import opened Forest
  import opened Walks
  import opened Grafts
  import opened MapSteps
  import opened UnmapSteps
  import opened Subtrees
  import opened RawEntries

  datatype MapError =
    | InvalidVirtualAddress
    | VirtualAddressUnaligned
    | PhysicalAddressTooLarge
    | PageAlreadyMapped
    | HugePageConflict
    | NoExecuteUnsupported
    | OutOfFrames
    | PageTableOutsideDirectMap
    | InvalidPageTableEntry

  datatype UnmapError =
    | UnmapInvalidAddress
    | UnmapUnaligned
    | PageNotMapped
    | UnmapHugePage
    | UnmapOutsideDirectMap
    | UnmapInvalidEntry

  /** v' has the tables of v, and maybe more below `root`. */
  ghost predicate Grown(v: View, v': View, root: nat) {
    && v.nodes.Keys <= v'.nodes.Keys
    && (forall k :: k in v.nodes ==> v'.nodes[k] == v.nodes[k])
    && (forall k :: k in v'.nodes && k !in v.nodes ==> k.root == root && k.depth > 0)
  }

  /** What a successful `map` does: one more page, and the tables it needed. */
  ghost predicate Added(v: View, s: seq<FrameState>, v': View, s': seq<FrameState>, l: Loc, leaf: Entry) {
    v'.maps == v.maps[l := leaf] && Grown(v, v', l.root) && Exchanged(v, s, v', s')
  }

  /** What a successful `unmap` does: one page less, and maybe fewer tables. */
  ghost predicate Removed(v: View, s: seq<FrameState>, v': View, s': seq<FrameState>, l: Loc) {
    v'.maps == v.maps - {l} && Grown(v', v, l.root) && Exchanged(v, s, v', s')
  }

  datatype CreateError = CreateTooLarge | CreateOutOfFrames

  lemma PrunedAllocated(v: View, v': View, root: nat, freed: seq<nat>, s: seq<FrameState>)
    requires Pruned(v, v', root, freed) && Backed(v, s)
    ensures forall x :: 0 <= x < |freed| ==> freed[x] < |s| && s[freed[x]] == Allocated
  {
  }

  /** Every table on the way to an existing one exists. */
  lemma PathHeld(sh: Shape, mem: Memory, v: View, root: nat, page: nat, d: nat)
    requires Tree(sh, mem, v) && d <= sh.levels && PathKey(sh.levels, root, page, d) in v.nodes
    ensures forall j :: 0 <= j <= d ==> PathKey(sh.levels, root, page, j) in v.nodes
  {
    forall j | 0 <= j <= d
      ensures PathKey(sh.levels, root, page, j) in v.nodes
    {
      PathPrefix(sh, mem, v, root, page, j, d);
    }
  }

  lemma RootFresh(sh: Shape, mem: Memory, v: View, f: nat)
    requires Tree(sh, mem, v) && f !in v.nodes.Values
    ensures Key(f, 0, 0) !in v.nodes
  {
    assert Key(f, 0, 0) in v.nodes ==> NodeOk(sh, mem, v, Key(f, 0, 0));
  }

  /** A frame outside the tables may hold anything. */
  lemma FreshUntouched(sh: Shape, mem: Memory, mem': Memory, v: View, f: nat)
    requires Tree(sh, mem, v) && NoEmpty(mem, v, {}) && f !in v.nodes.Values && Key(sh.kernelRoot, 0, 0) in v.nodes
    requires mem'.Keys == mem.Keys && forall g :: g in mem && g != f ==> mem'[g] == mem[g]
    ensures Tree(sh, mem', v) && NoEmpty(mem', v, {})
    ensures Shared(sh, mem, v) ==> Shared(sh, mem', v)
  {
    forall k | k in v.nodes
      ensures v.nodes[k] in mem' && v.nodes[k] in mem && mem'[v.nodes[k]] == mem[v.nodes[k]]
    {
      assert NodeOk(sh, mem, v, k);
      assert v.nodes[k] in v.nodes.Values;
    }
    TablesSame(sh, mem, mem', v);
    SharedOnTables(sh, mem, mem', v);
  }

  lemma NewRootShared(sh: Shape, mem: Memory, mem': Memory, v: View, f: nat, source: nat)
    requires Tree(sh, mem, v) && Shared(sh, mem, v) && Shared(sh, mem', v) && f !in v.nodes.Values
    requires mem'.Keys == mem.Keys && forall g :: g in mem && g != f ==> mem'[g] == mem[g]
    requires Key(source, 0, 0) in v.nodes && Key(sh.kernelRoot, 0, 0) in v.nodes
    requires f in mem' && |mem'[f]| == 512 && source in mem && |mem[source]| == 512
    requires mem'[f][256..] == mem[source][256..]
    ensures Shared(sh, mem', RootView(v, f))
  {
    RootsNamed(sh, mem, v);
    assert NodeOk(sh, mem, v, Key(sh.kernelRoot, 0, 0));
    assert v.nodes[Key(sh.kernelRoot, 0, 0)] in v.nodes.Values;
    forall r | Key(r, 0, 0) in RootView(v, f).nodes
      ensures SharedRow(sh, mem', r)
    {
      if r != f {
        assert SharedRow(sh, mem', r);
      } else {
        assert SharedRow(sh, mem, source);
        forall i | 256 <= i < 512
          ensures At(mem', r, i) == At(mem', sh.kernelRoot, i)
        {
          assert mem'[f][i] == mem'[f][256..][i - 256] == mem[source][i];
          assert At(mem, source, i) == At(mem, sh.kernelRoot, i);
        }
      }
    }
  }

  lemma NewRootFrames(v: View, s: seq<FrameState>, f: nat)
    requires Backed(v, s) && f < |s|
    ensures Backed(RootView(v, f), s[f := Allocated])
  {
  }

  lemma NewRootOccupied(mem: Memory, v: View, f: nat)
    requires NoEmpty(mem, v, {}) && Key(f, 0, 0) !in v.nodes
    ensures NoEmpty(mem, RootView(v, f), {})
  {
    forall k | k in RootView(v, f).nodes && k.depth > 0
      ensures Occupied(mem, RootView(v, f), k)
    {
      assert Occupied(mem, v, k);
    }
  }

  lemma OthersSame(sh: Shape, mem: Memory, v: View, r: nat)
    requires Tree(sh, mem, v)
    ensures OthersKept(v, mem, v, mem, r)
    ensures NoEmpty(mem, v, {}) ==> NoEmptyBut(mem, v, r)
  {
    forall k | k in v.nodes
      ensures v.nodes[k] in mem
    {
      assert NodeOk(sh, mem, v, k);
    }
  }

  lemma RootGone(mem: Memory, v: View, r: nat)
    requires NoEmptyBut(mem, v, r) && forall k :: k in v.nodes ==> k.root != r
    ensures NoEmpty(mem, v, {})
  {
  }

  lemma NewKernelTree(sh: Shape, mem: Memory)
    requires sh.levels > 0 && sh.kernelRoot in mem && mem[sh.kernelRoot] == ZeroTable()
    ensures var v := View(map[Key(sh.kernelRoot, 0, 0) := sh.kernelRoot], map[]);
            Tree(sh, mem, v) && NoEmpty(mem, v, {}) && Shared(sh, mem, v)
  {
    var empty := View(map[], map[]);
    forall l: Loc
      ensures LeafOk(sh, mem, empty, l)
    {
    }
    AddRoot(sh, mem, empty, sh.kernelRoot);
    assert RootView(empty, sh.kernelRoot) == View(map[Key(sh.kernelRoot, 0, 0) := sh.kernelRoot], map[]);
  }

  class Machine {
    const mode: Mode
    /** One past the highest frame number an entry can hold. */
    const frameLimit: nat
    const nxEnabled: bool
    const globalPages: bool
    const kernelRoot: nat
    var mem: Memory
    var pool: Pool
    ghost var view: View

    /** A machine with a fresh, empty kernel root. */
    constructor (mode: Mode, frameLimit: nat, nxEnabled: bool, globalPages: bool, mem: Memory, pool: Pool)
      requires PoolOk(pool) && Sized(mem) && (forall f :: 0 <= f < |pool.states| ==> f in mem)
      requires FindFree(pool).Some? && FindFree(pool).value < frameLimit
      ensures Valid() && SharedHalf()
      ensures this.mode == mode && this.frameLimit == frameLimit && this.nxEnabled == nxEnabled
      ensures this.globalPages == globalPages
      ensures view == View(map[Key(kernelRoot, 0, 0) := kernelRoot], map[])
      ensures kernelRoot in FreeSet(pool.states) && this.pool.states == pool.states[kernelRoot := Allocated]
    {
      var root := FindFree(pool).value;
      this.mode, this.frameLimit, this.nxEnabled, this.globalPages := mode, frameLimit, nxEnabled, globalPages;
      this.kernelRoot := root;
      this.mem := mem[root := ZeroTable()];
      this.pool := Take(pool, root);
      this.view := View(map[Key(root, 0, 0) := root], map[]);
      new;
      NewKernelTree(Sh(), this.mem);
    }

    ghost function Sh(): Shape {
      Shape(Depth(mode), kernelRoot)
    }

    ghost predicate FramesStored()
      reads this
    {
      && PoolOk(pool) && Sized(mem)
      && forall f :: 0 <= f < |pool.states| ==> f in mem
    }

    ghost predicate Valid()
      reads this
    {
      && FramesStored()
      && Tree(Sh(), mem, view) && NoEmpty(mem, view, {})
      && Backed(view, pool.states)
      && Key(kernelRoot, 0, 0) in view.nodes
    }

    ghost predicate SharedHalf()
      reads this
    {
      Shared(Sh(), mem, view)
    }

    // ---- Frames ----

    method Alloc() returns (r: Option<nat>)
      requires FramesStored()
      modifies this`mem, this`pool
      ensures FramesStored()
      ensures r.None? ==> mem == old(mem) && pool == old(pool) && FreeSet(pool.states) == {}
      ensures r.Some? ==>
        && r.value < |old(pool).states| && old(pool).states[r.value] == Free
        && pool == Take(old(pool), r.value)
        && mem == old(mem)[r.value := ZeroTable()]
    {
      r := FindFree(pool);
      if r.Some? {
        pool := Take(pool, r.value);
        mem := mem[r.value := ZeroTable()];
      }
    }

    method Dealloc(f: nat)
      requires FramesStored() && f < |pool.states| && pool.states[f] == Allocated
      modifies this`pool
      ensures FramesStored() && pool == Give(old(pool), f)
    {
      pool := Give(pool, f);
    }

    // ---- Reads ----

    method ToPhysical(root: nat, addr: nat) returns (r: Option<nat>)
      ensures r == Translate(mem, mode, root, addr)
    {
      if !IsCanonical(mode, addr) {
        return None;
      }
      var levels, ix := IntermediateLevels(mode), Indices(mode, addr);
      var table, d := root, 0;
      while d < |levels|
        invariant 0 <= d <= |levels|
        invariant Translate(mem, mode, root, addr) == TranslateFrom(mem, mode, ix, addr, d, table)
      {
        if table !in mem {
          return None;
        }
        var entry := At(mem, table, ix[d]);
        if !entry.present {
          return None;
        }
        if entry.huge {
          var size := LargePageFrames(levels[d]);
          if size.None? {
            return None;
          }
          return Some(LargePageAddress(entry.frame, size.value, addr));
        }
        table := entry.frame;
        d := d + 1;
      }
      if table !in mem {
        return None;
      }
      var entry := At(mem, table, ix[d]);
      if !entry.present {
        return None;
      }
      return Some(entry.frame * PAGE_SIZE + addr % PAGE_SIZE);
    }

    method Mapping(root: nat, addr: nat) returns (r: Option<Perms>)
      ensures r == MappingAt(mem, mode, root, addr)
    {
      if !IsCanonical(mode, addr) {
        return None;
      }
      var levels, ix := IntermediateLevels(mode), Indices(mode, addr);
      var table, d, perms := root, 0, FULL;
      while d < |levels|
        invariant 0 <= d <= |levels|
        invariant MappingAt(mem, mode, root, addr) == PermsFrom(mem, mode, ix, d, table, perms)
      {
        if table !in mem {
          return None;
        }
        var entry := At(mem, table, ix[d]);
        if !entry.present {
          return None;
        }
        perms := Meet(perms, entry.perms);
        if entry.huge {
          if LargePageFrames(levels[d]).None? {
            return None;
          }
          return Some(perms);
        }
        table := entry.frame;
        d := d + 1;
      }
      if table !in mem {
        return None;
      }
      var entry := At(mem, table, ix[d]);
      if !entry.present {
        return None;
      }
      return Some(Meet(perms, entry.perms));
    }

    // ---- map ----

    /** The entry of a table above the last level, if the table is stored and the entry no large page. */
    method ReadLink(table: nat, index: nat, level: Level) returns (r: Result<Entry, MapError>)
      requires Sized(mem) && index < 512
      ensures table in mem && (mem[table][index].present ==> !mem[table][index].huge) ==> r == Ok(mem[table][index])
      ensures table !in mem ==> r == Err(PageTableOutsideDirectMap)
    {
      if table !in mem {
        return Err(PageTableOutsideDirectMap);
      }
      var entry := mem[table][index];
      if entry.present && entry.huge {
        return Err(if LargePageFrames(level).Some? then HugePageConflict else InvalidPageTableEntry);
      }
      return Ok(entry);
    }

    /** Walks to the first table that is missing on the way to `addr`; every table on the way is
        stored, and no entry is a large page. */
    method FindMissing(root: nat, ix: seq<nat>, user: bool, ghost page: nat)
      returns (err: Option<MapError>, missing: Option<nat>, cur: nat, ups: seq<Place>, ghost u: nat)
      requires Valid() && Key(root, 0, 0) in view.nodes
      requires Spells(mode, ix, page) && Home(Sh(), root, page) == root
      ensures err.None?
      ensures missing.Some? ==> missing.value < Depth(mode)
      ensures var d := if missing.Some? then missing.value else Depth(mode);
              && OnPath(Sh(), view, root, page, d, cur)
              && Pending(Sh(), mem, view, root, page, user, u, ups, d)
              && (missing.Some? ==> !At(mem, cur, Digit(Depth(mode), page, d)).present)
    {
      var levels := IntermediateLevels(mode);
      PathEnds(mode, root, page, Sh());
      err, missing, cur, ups, u := None, None, root, [], 0;
      var d := 0;
      while d < |levels|
        invariant 0 <= d <= |levels| && missing.None? && err.None?
        invariant OnPath(Sh(), view, root, page, d, cur)
        invariant Pending(Sh(), mem, view, root, page, user, u, ups, d)
      {
        var index := ix[d];
        StoredAt(Sh(), mem, view, root, page, d, cur);
        if mem[cur][index].present {
          PendingStep(mode, Sh(), mem, view, root, page, user, u, ups, d, cur);
        }
        var read := ReadLink(cur, index, levels[d]);
        err := ErrorOf(read);
        if err.Some? {
          return;
        }
        var entry := read.value;
        if !entry.present {
          missing := Some(d);
          break;
        }
        if user && !entry.perms.user {
          ups := ups + [Place(cur, index)];
        } else {
          u := d + 1;
        }
        cur := entry.frame;
        d := d + 1;
      }
    }

    /** Makes the pending links user-accessible, in order from the root down. */
    method ApplyUpgrades(ups: seq<Place>)
      modifies this`mem
      ensures mem == UpgradeAll(old(mem), ups)
    {
      var x := 0;
      while x < |ups|
        invariant 0 <= x <= |ups|
        invariant mem == UpgradeAll(old(mem), ups[..x])
      {
        assert ups[..x + 1][..x] == ups[..x];
        mem := SetUser(mem, ups[x]);
        x := x + 1;
      }
      assert ups[..x] == ups;
    }

    /** Takes `count` zeroed frames, or none at all. */
    method AllocTables(count: nat) returns (privs: seq<nat>, err: Option<MapError>)
      requires FramesStored()
      modifies this`mem, this`pool
      ensures FramesStored()
      ensures OnlyFreeChanged(old(mem), mem, old(pool).states)
      ensures err.Some? ==> pool.states == old(pool).states
      ensures err == Some(OutOfFrames) ==> |FreeSet(old(pool).states)| < count
      ensures err.Some? && err != Some(OutOfFrames) ==>
        err == Some(PhysicalAddressTooLarge) && FreeAbove(old(pool).states, frameLimit)
      ensures err.None? ==>
        && |privs| == count
        && Prepared(old(mem), old(pool).states, mem, pool.states, privs)
    {
      privs, err := [], None;
      while |privs| < count
        invariant |privs| <= count
        invariant FramesStored() && Prepared(old(mem), old(pool).states, mem, pool.states, privs)
      {
        var frame := TakeTable(privs, old(mem), old(pool).states);
        if frame.None? {
          err := Some(OutOfFrames);
          break;
        }
        privs := privs + [frame.value];
        if frame.value >= frameLimit {
          TakenWasFree(old(pool).states, pool.states, privs, frameLimit);
          err := Some(PhysicalAddressTooLarge);
          break;
        }
      }
      if err.Some? {
        ghost var states0 := pool.states;
        ReleaseAll(privs);
        TakenReturned(old(pool).states, states0, privs, pool.states);
      }
    }

    method TakeTable(privs: seq<nat>, ghost mem0: Memory, ghost s0: seq<FrameState>) returns (frame: Option<nat>)
      requires FramesStored() && Prepared(mem0, s0, mem, pool.states, privs)
      modifies this`mem, this`pool
      ensures FramesStored()
      ensures frame.None? ==> Prepared(mem0, s0, mem, pool.states, privs) && FreeSet(pool.states) == {}
      ensures frame.Some? ==> Prepared(mem0, s0, mem, pool.states, privs + [frame.value])
    {
      ghost var mem1, s1 := mem, pool.states;
      frame := Alloc();
      if frame.Some? {
        PreparedGrows(mem0, s0, mem1, s1, privs, frame.value);
      }
    }

    /** The leaf entry `map` writes. */
    function LeafEntry(frame: nat, perms: Perms, uncached: bool, global: bool): Entry {
      Entry(true, perms, false, global && globalPages, uncached, frame)
    }

    /** The checks `map` makes before it looks at any table. */
    function MapCheck(addr: nat, frame: nat, perms: Perms): Option<MapError> {
      if !IsCanonical(mode, addr) then Some(InvalidVirtualAddress)
      else if addr % PAGE_SIZE != 0 then Some(VirtualAddressUnaligned)
      else if frame >= frameLimit then Some(PhysicalAddressTooLarge)
      else if !perms.executable && !nxEnabled then Some(NoExecuteUnsupported)
      else None
    }

    /** Why a page is not mapped; of some errors there is no cause at all. */
    ghost predicate Fails(v: View, s: seq<FrameState>, root: nat, addr: nat, frame: nat, perms: Perms, e: MapError) {
      match e
      case InvalidVirtualAddress => !IsCanonical(mode, addr)
      case VirtualAddressUnaligned => addr % PAGE_SIZE != 0
      case PhysicalAddressTooLarge => frame >= frameLimit || FreeAbove(s, frameLimit)
      case NoExecuteUnsupported => !perms.executable && !nxEnabled
      case PageAlreadyMapped => Loc(root, PageOf(mode, addr)) in v.maps
      case OutOfFrames => Missing(Depth(mode), v.nodes.Keys, root, PageOf(mode, addr), 0) > |FreeSet(s)|
      case _ => false
    }

    /** Maps one page.  On every error nothing that can be observed changes; on success exactly
        one page is added and exactly the missing tables become allocated frames. */
    method Map(root: nat, addr: nat, frame: nat, perms: Perms, uncached: bool, global: bool)
      returns (r: Result<(), MapError>)
      requires Valid() && Key(root, 0, 0) in view.nodes
      requires Home(Sh(), root, PageOf(mode, addr)) == root
      modifies this`mem, this`pool, this`view
      ensures Valid()
      ensures
        && old(SharedHalf())
        && (r.Ok? ==> !old(ChangesKernelHalf(Sh(), mem, view, root, PageOf(mode, addr), perms.user)))
        ==> SharedHalf()
      ensures r.Err? ==>
        view == old(view) && pool.states == old(pool).states && OnlyFreeChanged(old(mem), mem, pool.states)
      ensures MapCheck(addr, frame, perms).Some? ==> r == Err(MapCheck(addr, frame, perms).value)
      ensures r.Err? ==> Fails(old(view), old(pool).states, root, addr, frame, perms, r.error)
      ensures r == Err(PageAlreadyMapped) ==> MapCheck(addr, frame, perms).None?
      ensures r.Ok? ==>
        && MapCheck(addr, frame, perms).None? && Loc(root, PageOf(mode, addr)) !in old(view).maps
        && Added(old(view), old(pool).states, view, pool.states,
                 Loc(root, PageOf(mode, addr)), LeafEntry(frame, perms, uncached, global))
        && Paid(Depth(mode), old(view), old(pool).states, view, pool.states, root, PageOf(mode, addr))
        && RawMapped(Sh(), old(mem), old(view), mem, root, PageOf(mode, addr), perms.user)
    {
      var check := MapCheck(addr, frame, perms);
      if check.Some? {
        return Err(check.value);
      }
      IndicesSpellPage(mode, addr);
      r := MapLeaf(root, Indices(mode, addr), LeafEntry(frame, perms, uncached, global), PageOf(mode, addr));
    }

    /** Maps a leaf at the page the indices lead to. */
    method MapLeaf(root: nat, ix: seq<nat>, leaf: Entry, ghost page: nat) returns (r: Result<(), MapError>)
      requires Valid() && Key(root, 0, 0) in view.nodes
      requires Spells(mode, ix, page) && Home(Sh(), root, page) == root && leaf.present
      modifies this`mem, this`pool, this`view
      ensures Valid()
      ensures old(SharedHalf()) && (r.Ok? ==> !old(ChangesKernelHalf(Sh(), mem, view, root, page, leaf.perms.user)))
              ==> SharedHalf()
      ensures r.Err? ==>
        view == old(view) && pool.states == old(pool).states && OnlyFreeChanged(old(mem), mem, pool.states)
      ensures r.Err? ==>
        || (r.error == PageAlreadyMapped && Loc(root, page) in old(view).maps)
        || (r.error == OutOfFrames
            && Missing(Depth(mode), old(view).nodes.Keys, root, page, 0) > |FreeSet(old(pool).states)|)
        || (r.error == PhysicalAddressTooLarge && FreeAbove(old(pool).states, frameLimit))
      ensures r.Ok? ==>
        && Loc(root, page) !in old(view).maps
        && Added(old(view), old(pool).states, view, pool.states, Loc(root, page), leaf)
        && Paid(Depth(mode), old(view), old(pool).states, view, pool.states, root, page)
        && RawMapped(Sh(), old(mem), old(view), mem, root, page, leaf.perms.user)
    {
      PathEnds(mode, root, page, Sh());
      assert NodeOk(Sh(), mem, view, Key(root, 0, 0));
      var walkError, missing, cur, ups, u := FindMissing(root, ix, leaf.perms.user, page);
      match walkError {
        case Some(e) => return Err(e);
        case None =>
      }
      var depth := if missing.Some? then missing.value else Depth(mode);
      if missing.None? {
        WalkEnd(mode, Sh(), mem, view, root, page, cur);
        if cur !in mem {
          return Err(PageTableOutsideDirectMap);
        }
        if At(mem, cur, ix[depth]).present {
          return Err(PageAlreadyMapped);
        }
      }
      MissingBelow(mode, Sh(), mem, view, root, page, depth);
      PathHeld(Sh(), mem, view, root, page, depth);
      MissingCount(Depth(mode), view.nodes.Keys, root, page, depth, 0);

      var privs, err := AllocTables(Depth(mode) - depth);
      if err.Some? {
        FreeOutsideTables(Sh(), old(mem), mem, view, old(pool).states);
        TablesSame(Sh(), old(mem), mem, view);
        SharedOnTables(Sh(), old(mem), mem, view);
        return Err(err.value);
      }
      AddPage(root, ix, cur, depth, privs, ups, leaf, page, u, old(mem), old(pool).states);
      return Ok(());
    }

    /** Adds a page below the first missing table: what it costs and what it changes. */
    method AddPage(
      root: nat, ix: seq<nat>, cur: nat, depth: nat, privs: seq<nat>, ups: seq<Place>, leaf: Entry,
      ghost page: nat, ghost u: nat, ghost mem0: Memory, ghost s0: seq<FrameState>)
      requires MapReady(mode, Sh(), mem0, view, root, page, depth, leaf.perms.user, u, ups) && Backed(view, s0)
      requires Prepared(mem0, s0, mem, pool.states, privs) && depth + |privs| == Depth(mode)
      requires cur == view.nodes[PathKey(Depth(mode), root, page, depth)]
      requires Spells(mode, ix, page) && leaf.present && FramesStored() && Key(kernelRoot, 0, 0) in view.nodes
      requires forall j :: 0 <= j <= Depth(mode) ==> (PathKey(Depth(mode), root, page, j) in view.nodes <==> j <= depth)
      modifies this`mem, this`view
      ensures Valid() && Added(old(view), s0, view, pool.states, Loc(root, page), leaf)
      ensures Paid(Depth(mode), old(view), s0, view, pool.states, root, page)
      ensures Shared(Sh(), mem0, old(view)) && !ChangesKernelHalf(Sh(), mem0, old(view), root, page, leaf.perms.user)
              ==> SharedHalf()
      ensures RawMapped(Sh(), mem0, old(view), mem, root, page, leaf.perms.user)
    {
      ghost var prepared := mem;
      ghost var filled := Commit(root, ix, cur, depth, privs, ups, leaf, page, u, mem0, s0);
      FilledSameOnTables(Sh(), mem0, old(view), s0, prepared, pool.states, filled, page, depth, privs, leaf,
                         leaf.perms.user);
      MapRaw(Sh(), mem0, old(view), filled, root, page, depth, leaf.perms.user, u, ups,
             NextEntry(privs, leaf, leaf.perms.user));
      MapFrames(Depth(mode), old(view), s0, pool.states, root, page, depth, privs, leaf);
      GraftAdds(Depth(mode), old(view), root, page, depth, privs, leaf);
      MapPaid(Depth(mode), old(view), s0, pool.states, root, page, depth, privs, leaf);
    }

    /** Fills the private tables, upgrades the path and publishes the page. */
    method Commit(
      root: nat, ix: seq<nat>, cur: nat, depth: nat, privs: seq<nat>, ups: seq<Place>, leaf: Entry,
      ghost page: nat, ghost u: nat, ghost mem0: Memory, ghost s0: seq<FrameState>)
      returns (ghost filled: Memory)
      requires MapReady(mode, Sh(), mem0, view, root, page, depth, leaf.perms.user, u, ups) && Backed(view, s0)
      requires Prepared(mem0, s0, mem, pool.states, privs) && depth + |privs| == Depth(mode)
      requires cur == view.nodes[PathKey(Depth(mode), root, page, depth)]
      requires Spells(mode, ix, page) && leaf.present && FramesStored()
      modifies this`mem, this`view
      ensures FilledFrom(Depth(mode), mem0, s0, old(mem), pool.states, filled, page, depth, privs,
                         leaf, leaf.perms.user)
      ensures mem == Put(UpgradeAll(filled, ups), cur, Digit(Depth(mode), page, depth),
                         NextEntry(privs, leaf, leaf.perms.user))
      ensures view == GraftView(Depth(mode), old(view), root, page, depth, privs, leaf)
      ensures Tree(Sh(), mem, view) && NoEmpty(mem, view, {}) && FramesStored()
      ensures Shared(Sh(), mem0, old(view)) && !ChangesKernelHalf(Sh(), mem0, old(view), root, page, leaf.perms.user)
              ==> SharedHalf()
    {
      ghost var prepared := mem;
      filled := WritePage(privs, ix, cur, depth, ups, leaf, page);
      MapFinish(mode, Sh(), mem0, view, s0, prepared, pool.states, filled,
                root, page, depth, privs, leaf, leaf.perms.user, u, ups);
      if Shared(Sh(), mem0, view) && !ChangesKernelHalf(Sh(), mem0, view, root, page, leaf.perms.user) {
        MapFinishShared(mode, Sh(), mem0, view, s0, prepared, pool.states, filled,
                        root, page, depth, privs, leaf, leaf.perms.user, u, ups);
      }
      MapSizes(prepared, filled, privs, Depth(mode), page, depth, leaf, leaf.perms.user, ups,
               cur, ix[depth], NextEntry(privs, leaf, leaf.perms.user));
      view := GraftView(Depth(mode), view, root, page, depth, privs, leaf);
    }

    /** Writes everything there is to write: the private tables, the upgrades and the one entry above. */
    method WritePage(privs: seq<nat>, ix: seq<nat>, cur: nat, depth: nat, ups: seq<Place>, leaf: Entry, ghost page: nat)
      returns (ghost filled: Memory)
      requires Spells(mode, ix, page) && depth + |privs| == Depth(mode) && Blank(mem, privs)
      requires forall x, y :: 0 <= x < y < |privs| ==> privs[x] != privs[y]
      modifies this`mem
      ensures filled.Keys == old(mem).Keys && forall f :: f in filled && f !in privs ==> filled[f] == old(mem)[f]
      ensures Filled(Depth(mode), filled, page, depth, privs, leaf, leaf.perms.user)
      ensures ix[depth] == Digit(Depth(mode), page, depth)
      ensures mem == Put(UpgradeAll(filled, ups), cur, ix[depth], NextEntry(privs, leaf, leaf.perms.user))
    {
      FillTables(privs, ix, depth, leaf, leaf.perms.user, page);
      filled := mem;
      ApplyUpgrades(ups);
      mem := Put(mem, cur, ix[depth], NextEntry(privs, leaf, leaf.perms.user));
    }

    /** Writes the one entry of each private table. */
    method FillTables(privs: seq<nat>, ix: seq<nat>, d: nat, leaf: Entry, user: bool, ghost page: nat)
      requires Spells(mode, ix, page) && d + |privs| == Depth(mode)
      requires Blank(mem, privs)
      requires forall x, y :: 0 <= x < y < |privs| ==> privs[x] != privs[y]
      modifies this`mem
      ensures mem.Keys == old(mem).Keys
      ensures forall f :: f in mem && f !in privs ==> mem[f] == old(mem)[f]
      ensures Filled(Depth(mode), mem, page, d, privs, leaf, user)
    {
      var n := 0;
      while n < |privs|
        invariant 0 <= n <= |privs|
        invariant mem == FillAll(Depth(mode), old(mem), page, d, privs, leaf, user, n)
      {
        FillStep(mode, old(mem), ix, page, d, privs, leaf, user, n);
        var entry := if n + 1 < |privs| then TableEntry(privs[n + 1], user) else leaf;
        mem := Put(mem, privs[n], ix[d + 1 + n], entry);
        n := n + 1;
      }
      FillFrames(Depth(mode), old(mem), page, d, privs, leaf, user, n);
    }

    /** Gives back frames in the reverse of the order they were taken in. */
    method ReleaseAll(privs: seq<nat>)
      requires FramesStored()
      requires forall x :: 0 <= x < |privs| ==> privs[x] < |pool.states| && pool.states[privs[x]] == Allocated
      requires forall x, y :: 0 <= x < y < |privs| ==> privs[x] != privs[y]
      modifies this`pool
      ensures FramesStored() && |pool.states| == |old(pool).states|
      ensures forall f :: 0 <= f < |pool.states| ==>
        pool.states[f] == if f in privs then Free else old(pool).states[f]
    {
      var n := |privs|;
      while n > 0
        invariant 0 <= n <= |privs|
        invariant FramesStored() && |pool.states| == |old(pool).states|
        invariant forall f :: 0 <= f < |pool.states| ==>
          pool.states[f] == if f in privs[n..] then Free else old(pool).states[f]
      {
        n := n - 1;
        assert privs[n..] == [privs[n]] + privs[n + 1..];
        Dealloc(privs[n]);
      }
      assert privs[0..] == privs;
    }

    // ---- unmap ----

    /** The table an entry of another one leads to, if it leads to one. */
    method NextTable(table: nat, index: nat, level: Level) returns (r: Result<nat, UnmapError>)
      requires Sized(mem) && index < 512
      ensures table in mem && !mem[table][index].huge ==>
        r == if mem[table][index].present then Ok(mem[table][index].frame) else Err(PageNotMapped)
    {
      if table !in mem {
        return Err(UnmapOutsideDirectMap);
      }
      var entry := mem[table][index];
      if entry.huge {
        return Err(if LargePageFrames(level).Some? then UnmapHugePage else UnmapInvalidEntry);
      }
      return if entry.present then Ok(entry.frame) else Err(PageNotMapped);
    }

    /** The tables from the root to the last level; the walk can only stop at a page not mapped. */
    method FindTables(root: nat, addr: nat) returns (err: Option<UnmapError>, tables: seq<nat>)
      requires Valid() && Key(root, 0, 0) in view.nodes
      requires Home(Sh(), root, PageOf(mode, addr)) == root
      ensures Trail(Depth(mode), view.nodes, root, PageOf(mode, addr), tables)
      ensures err.None? ==> |tables| == Depth(mode) + 1
      ensures err.Some? ==> err == Some(PageNotMapped) && Loc(root, PageOf(mode, addr)) !in view.maps
    {
      ghost var page := PageOf(mode, addr);
      var levels, ix := IntermediateLevels(mode), Indices(mode, addr);
      IndicesSpellPage(mode, addr);
      PathEnds(mode, root, page, Sh());
      assert NodeOk(Sh(), mem, view, Key(root, 0, 0));
      err, tables := None, [root];
      var d := 0;
      while d < |levels|
        invariant 0 <= d <= Depth(mode) && |tables| == d + 1 && err.None?
        invariant Trail(Depth(mode), view.nodes, root, page, tables)
      {
        TrailStep(mode, Sh(), mem, view, root, page, tables);
        var next := NextTable(tables[d], ix[d], levels[d]);
        err := ErrorOf(next);
        if err.Some? {
          return;
        }
        tables := tables + [next.value];
        d := d + 1;
      }
    }

    /** Unlinks one empty table. */
    method PruneOne(tables: seq<nat>, ix: seq<nat>, depth: nat, ghost root: nat, ghost page: nat,
                    ghost mem0: Memory, ghost v0: View, ghost freed: seq<nat>)
      returns (empty: bool)
      requires depth > 0 && PruneInv(Sh(), mem0, v0, mem, view, root, page, depth, freed)
      requires Tree(Sh(), mem0, v0) && Spells(mode, ix, page) && Sized(mem)
      requires Trail(Depth(mode), v0.nodes, root, page, tables) && |tables| == Depth(mode) + 1
      requires tables[depth] in mem && IsEmpty(mem[tables[depth]]) && tables[depth - 1] in mem
      modifies this`mem, this`view
      ensures PruneInv(Sh(), mem0, v0, mem, view, root, page, depth - 1, freed + [tables[depth]])
      ensures Sized(mem) && mem.Keys == old(mem).Keys
      ensures tables[depth - 1] in mem && empty == IsEmpty(mem[tables[depth - 1]])
      ensures mem == Put(old(mem), tables[depth - 1], Digit(Depth(mode), page, depth - 1), NULL_ENTRY)
      ensures view == DropNode(old(view), PathKey(Depth(mode), root, page, depth))
    {
      PruneStep(mode, Sh(), mem0, v0, mem, view, root, page, depth, freed, tables);
      SizedPut(mem, tables[depth - 1], ix[depth - 1], NULL_ENTRY);
      mem := Put(mem, tables[depth - 1], ix[depth - 1], NULL_ENTRY);
      view := DropNode(view, PathKey(Depth(mode), root, page, depth));
      empty := IsEmpty(mem[tables[depth - 1]]);
    }

    /** Unlinks the last table if it is empty, and every table above it that becomes empty. */
    method Prune(tables: seq<nat>, ix: seq<nat>, ghost root: nat, ghost page: nat, ghost mem0: Memory)
      returns (freed: seq<nat>)
      requires Tree(Sh(), mem, view) && NoEmpty(mem, view, {PathKey(Depth(mode), root, page, Depth(mode))})
      requires Sized(mem) && Spells(mode, ix, page)
      requires Trail(Depth(mode), view.nodes, root, page, tables) && |tables| == Depth(mode) + 1
      requires RawUnmapped(Sh(), mem0, mem, view, root, page)
      modifies this`mem, this`view
      ensures Tree(Sh(), mem, view) && NoEmpty(mem, view, {}) && RawUnmapped(Sh(), mem0, mem, view, root, page)
      ensures Sized(mem) && mem.Keys == old(mem).Keys
      ensures view.maps == old(view).maps && Pruned(old(view), view, root, freed)
      ensures RowsKept(old(view), old(mem), mem, root, Digit(Depth(mode), page, 0),
                       PathKey(Depth(mode), root, page, 1) in view.nodes)
    {
      PruneStart(mode, Sh(), mem, view, root, page, tables);
      freed := [];
      var depth := Depth(mode);
      var empty := IsEmpty(mem[tables[depth]]);
      while depth > 0 && empty
        invariant 0 <= depth <= Depth(mode)
        invariant PruneInv(Sh(), old(mem), old(view), mem, view, root, page, depth, freed)
        invariant Sized(mem) && mem.Keys == old(mem).Keys
        invariant forall d {:trigger tables[d]} :: 0 <= d < |tables| ==> tables[d] in mem
        invariant empty == IsEmpty(mem[tables[depth]])
        invariant RawUnmapped(Sh(), mem0, mem, view, root, page)
      {
        ghost var mem1, v1 := mem, view;
        empty := PruneOne(tables, ix, depth, root, page, old(mem), old(view), freed);
        PrunedRaw(Sh(), mem0, mem1, old(view), v1, root, page, depth, tables);
        freed := freed + [tables[depth]];
        depth := depth - 1;
      }
      PruneEnd(Sh(), old(mem), old(view), mem, view, root, page, depth, freed, tables);
    }

    /** Gives frames back in order. */
    method ReleaseEach(freed: seq<nat>)
      requires FramesStored()
      requires forall x :: 0 <= x < |freed| ==> freed[x] < |pool.states| && pool.states[freed[x]] == Allocated
      requires forall x, y :: 0 <= x < y < |freed| ==> freed[x] != freed[y]
      modifies this`pool
      ensures FramesStored() && |pool.states| == |old(pool).states|
      ensures forall f :: 0 <= f < |pool.states| ==>
        pool.states[f] == if f in freed then Free else old(pool).states[f]
    {
      var n := 0;
      while n < |freed|
        invariant 0 <= n <= |freed|
        invariant FramesStored() && |pool.states| == |old(pool).states|
        invariant forall f :: 0 <= f < |pool.states| ==>
          pool.states[f] == if f in freed[..n] then Free else old(pool).states[f]
      {
        assert freed[..n + 1] == freed[..n] + [freed[n]];
        Dealloc(freed[n]);
        n := n + 1;
      }
      assert freed[..n] == freed;
    }

    /** Unmaps one page and returns the frame it was mapped to; every table left empty is freed. */
    method Unmap(root: nat, addr: nat) returns (r: Result<nat, UnmapError>)
      requires Valid() && Key(root, 0, 0) in view.nodes
      requires Home(Sh(), root, PageOf(mode, addr)) == root
      modifies this`mem, this`pool, this`view
      ensures Valid()
      ensures r.Err? ==> mem == old(mem) && pool == old(pool) && view == old(view)
      ensures !IsCanonical(mode, addr) ==> r == Err(UnmapInvalidAddress)
      ensures IsCanonical(mode, addr) && addr % PAGE_SIZE != 0 ==> r == Err(UnmapUnaligned)
      ensures IsCanonical(mode, addr) && addr % PAGE_SIZE == 0 ==>
        r == if Loc(root, PageOf(mode, addr)) in old(view).maps
             then Ok(old(view).maps[Loc(root, PageOf(mode, addr))].frame) else Err(PageNotMapped)
      ensures r.Ok? ==>
        && Removed(old(view), old(pool).states, view, pool.states, Loc(root, PageOf(mode, addr)))
        && RawUnmapped(Sh(), old(mem), mem, view, root, PageOf(mode, addr))
      ensures old(SharedHalf()) &&
              (r.Ok? && root == kernelRoot && Digit(Depth(mode), PageOf(mode, addr), 0) >= 256 ==>
                 PathKey(Depth(mode), root, PageOf(mode, addr), 1) in view.nodes)
              ==> SharedHalf()
    {
      if !IsCanonical(mode, addr) {
        return Err(UnmapInvalidAddress);
      }
      if addr % PAGE_SIZE != 0 {
        return Err(UnmapUnaligned);
      }
      ghost var page := PageOf(mode, addr);
      ghost var k := PathKey(Depth(mode), root, page, Depth(mode));
      var ix := Indices(mode, addr);
      IndicesSpellPage(mode, addr);
      var err, tables := FindTables(root, addr);
      if err.Some? {
        return Err(err.value);
      }
      TrailAt(Depth(mode), view.nodes, root, page, tables, Depth(mode));
      WalkEnd(mode, Sh(), mem, view, root, page, tables[Depth(mode)]);
      PathEnds(mode, root, page, Sh());
      if tables[Depth(mode)] !in mem {
        return Err(UnmapOutsideDirectMap);
      }
      var entry := mem[tables[Depth(mode)]][ix[Depth(mode)]];
      if !entry.present {
        return Err(PageNotMapped);
      }
      RemovePage(tables, ix, root, page);
      return Ok(entry.frame);
    }

    /** Clears the entry of a mapped page and frees the tables it leaves empty. */
    method RemovePage(tables: seq<nat>, ix: seq<nat>, ghost root: nat, ghost page: nat)
      requires Valid() && Key(root, 0, 0) in view.nodes && Owns(Sh(), Key(root, 0, 0), Digit(Depth(mode), page, 0))
      requires Spells(mode, ix, page)
      requires Trail(Depth(mode), view.nodes, root, page, tables) && |tables| == Depth(mode) + 1
      modifies this`mem, this`pool, this`view
      ensures Valid() && Removed(old(view), old(pool).states, view, pool.states, Loc(root, page))
      ensures RawUnmapped(Sh(), old(mem), mem, view, root, page)
      ensures old(SharedHalf()) &&
              (root == kernelRoot && Digit(Depth(mode), page, 0) >= 256 ==>
                PathKey(Depth(mode), root, page, 1) in view.nodes)
              ==> SharedHalf()
    {
      TrailAt(Depth(mode), view.nodes, root, page, tables, Depth(mode));
      TrailPath(Depth(mode), view.nodes, root, page, tables);
      ClearLeaf(tables[Depth(mode)], ix[Depth(mode)], root, page);
      ghost var mem1, view1 := mem, view;
      var freed := Prune(tables, ix, root, page, old(mem));
      PrunedAllocated(view1, view, root, freed, pool.states);
      ReleaseEach(freed);
      UnmapFinish(mode, Sh(), old(mem), old(view), old(pool).states, mem1, view1, mem, view, root, page, freed,
                  pool.states);
    }

    /** Clears the last-level entry of a page; its table may then be empty. */
    method ClearLeaf(table: nat, i: nat, ghost root: nat, ghost page: nat)
      requires Valid() && page < PageCount(mode) && PathKey(Depth(mode), root, page, Depth(mode)) in view.nodes
      requires table == view.nodes[PathKey(Depth(mode), root, page, Depth(mode))]
      requires i == Digit(Depth(mode), page, Depth(mode))
      requires forall j :: 0 <= j <= Depth(mode) ==> PathKey(Depth(mode), root, page, j) in view.nodes
      modifies this`mem, this`view
      ensures FramesStored() && mem == Put(old(mem), table, i, NULL_ENTRY)
      ensures view == old(view).(maps := old(view).maps - {Loc(root, page)})
      ensures Tree(Sh(), mem, view) && NoEmpty(mem, view, {PathKey(Depth(mode), root, page, Depth(mode))})
      ensures RawUnmapped(Sh(), old(mem), mem, view, root, page)
    {
      ClearRaw(Sh(), mem, view, root, page);
      ClearPage(mode, Sh(), mem, view, root, page);
      SizedPut(mem, table, i, NULL_ENTRY);
      mem := Put(mem, table, i, NULL_ENTRY);
      view := view.(maps := view.maps - {Loc(root, page)});
    }

    // ---- Frames that are not tables ----

    /** Takes a zeroed frame for something else than a table. */
    method AllocFrame() returns (r: Option<nat>)
      requires Valid()
      modifies this`mem, this`pool
      ensures Valid() && (old(SharedHalf()) ==> SharedHalf())
      ensures r.None? ==> pool == old(pool) && FreeSet(pool.states) == {}
      ensures r.Some? ==>
        && r.value < |old(pool).states| && old(pool).states[r.value] == Free
        && pool.states == old(pool).states[r.value := Allocated]
    {
      r := Alloc();
      if r.Some? {
        NotATable(view, old(pool).states, r.value);
        FreshUntouched(Sh(), old(mem), mem, view, r.value);
      }
    }

    /** Gives back a frame that is not a table. */
    method FreeFrame(f: nat)
      requires Valid() && f < |pool.states| && pool.states[f] == Allocated && f !in view.nodes.Values
      modifies this`pool
      ensures Valid() && (old(SharedHalf()) ==> SharedHalf())
      ensures pool.states == old(pool).states[f := Free]
    {
      Dealloc(f);
    }

    /** Frees those of the frames that are reserved, so that they can be handed out; no table is among them. */
    method Reclaim(frames: seq<nat>)
      requires Valid()
      modifies this`pool
      ensures Valid() && (old(SharedHalf()) ==> SharedHalf()) && |pool.states| == |old(pool).states|
      ensures forall f: nat :: f < |pool.states| ==>
        pool.states[f] == if f in frames && old(pool).states[f] == Reserved then Free else old(pool).states[f]
    {
      var n := 0;
      while n < |frames|
        invariant 0 <= n <= |frames|
        invariant PoolOk(pool) && |pool.states| == |old(pool).states|
        invariant forall f: nat :: f < |pool.states| ==>
          pool.states[f] == if f in frames[..n] && old(pool).states[f] == Reserved then Free else old(pool).states[f]
      {
        assert frames[..n + 1] == frames[..n] + [frames[n]];
        if frames[n] < |pool.states| && pool.states[frames[n]] == Reserved {
          pool := Give(pool, frames[n]);
        }
        n := n + 1;
      }
      assert frames[..n] == frames;
    }

    /** Puts any contents into a frame that is no table. */
    method Overwrite(f: nat, data: Table)
      requires Valid() && f in mem && f !in view.nodes.Values && |data| == 512
      modifies this`mem
      ensures Valid() && (old(SharedHalf()) ==> SharedHalf()) && mem == old(mem)[f := data]
    {
      mem := mem[f := data];
      FreshUntouched(Sh(), old(mem), mem, view, f);
    }

    // ---- Address spaces ----

    /** What holds while the tables below root r are being taken apart. */
    ghost predicate Dismantling(r: nat)
      reads this
    {
      FramesStored() && Tree(Sh(), mem, view) && Backed(view, pool.states) && NoEmptyBut(mem, view, r)
    }

    /** A new root: empty lower half, upper half copied from `source`. */
    method NewUser(source: nat) returns (r: Result<nat, CreateError>)
      requires Valid() && SharedHalf() && Key(source, 0, 0) in view.nodes
      modifies this`mem, this`pool, this`view
      ensures Valid() && SharedHalf()
      ensures r.Err? ==> view == old(view) && pool.states == old(pool).states
      ensures r == Err(CreateOutOfFrames) <==> FreeSet(old(pool).states) == {}
      ensures r == Err(CreateTooLarge) ==> FreeAbove(old(pool).states, frameLimit)
      ensures r.Ok? ==>
        && r.value < |old(pool).states| && old(pool).states[r.value] == Free && r.value < frameLimit
        && pool.states == old(pool).states[r.value := Allocated]
        && view == RootView(old(view), r.value) && Key(r.value, 0, 0) !in old(view).nodes
    {
      var frame := Alloc();
      if frame.None? {
        return Err(CreateOutOfFrames);
      }
      var f := frame.value;
      NotATable(view, old(pool).states, f);
      RootFresh(Sh(), old(mem), view, f);
      if f >= frameLimit {
        assert f in FreeSet(old(pool).states);
        Dealloc(f);
        GiveUndoesTake(old(pool), f);
        FreshUntouched(Sh(), old(mem), mem, view, f);
        return Err(CreateTooLarge);
      }
      RootsNamed(Sh(), old(mem), view);
      assert NodeOk(Sh(), old(mem), view, Key(source, 0, 0));
      TidyHalves(mem[f], mem[source]);
      mem := mem[f := mem[f][..256] + mem[source][256..]];
      FreshUntouched(Sh(), old(mem), mem, view, f);
      AddRoot(Sh(), mem, view, f);
      NewRootShared(Sh(), old(mem), mem, view, f, source);
      NewRootFrames(view, old(pool).states, f);
      NewRootOccupied(mem, view, f);
      view := RootView(view, f);
      return Ok(f);
    }

    /** Takes apart what entry `idx` of a table leads to. */
    method DropChild(table: nat, depth: nat, idx: nat, ghost k: Key, ghost v0: View)
      requires Dismantling(k.root) && k in view.nodes && view.nodes[k] == table
      requires k.depth == depth < Depth(mode) && idx < 512 && Owns(Sh(), k, idx)
      requires view == Without(Sh(), v0, k, idx)
      modifies this`mem, this`pool, this`view
      ensures Dismantling(k.root) && k in view.nodes && view.nodes[k] == table
      ensures view == Without(Sh(), v0, k, idx + 1)
      ensures OthersKept(old(view), old(mem), view, mem, k.root)
      ensures Exchanged(old(view), old(pool).states, view, pool.states)
      decreases Depth(mode) - depth, 0
    {
      EntryChild(Sh(), mem, view, k, idx);
      var entry := mem[table][idx];
      if !entry.present {
        WithoutSkip(Sh(), mem, v0, view, k, idx);
        return;
      }
      ghost var c := Child(k, idx);
      var child := entry.frame;
      DestroyChildren(child, depth + 1, c);
      ghost var v1, mem1, s1 := view, mem, pool.states;
      NoChildLeft(Sh(), old(view), c);
      UnlinkChild(table, idx, child, k, c);
      WithoutChild(Sh(), v0, k, idx);
      OthersKeptTwice(old(view), old(mem), v1, mem1, view, mem, k.root);
      ExchangedTwice(old(view), old(pool).states, v1, s1, view, pool.states);
    }

    /** Clears the entry of a table that leads nowhere, and gives the table's frame back. */
    method UnlinkChild(table: nat, idx: nat, child: nat, ghost k: Key, ghost c: Key)
      requires Dismantling(k.root) && k in view.nodes && view.nodes[k] == table
      requires c.depth > 0 && Parent(c) == k && Slot(c) == idx && c.root == k.root && c in view.nodes
      requires view.nodes[c] == child
      requires forall i :: 0 <= i < 512 ==> Child(c, i) !in view.nodes
      modifies this`mem, this`pool, this`view
      ensures Dismantling(k.root) && view == UnlinkView(Sh(), old(view), c)
      ensures OthersKept(old(view), old(mem), view, mem, k.root)
      ensures Exchanged(old(view), old(pool).states, view, pool.states)
    {
      RemoveTable(Sh(), mem, view, pool.states, c);
      SizedPut(mem, table, idx, NULL_ENTRY);
      mem := Put(mem, table, idx, NULL_ENTRY);
      Dealloc(child);
      view := UnlinkView(Sh(), view, c);
      OthersNotEmpty(old(view), old(mem), view, mem, k.root);
    }

    /** Takes apart what the first `upto` entries of a table lead to. */
    method DropChildren(table: nat, depth: nat, upto: nat, ghost k: Key)
      requires Dismantling(k.root) && k in view.nodes && view.nodes[k] == table
      requires k.depth == depth < Depth(mode) && upto <= 512 && forall i :: 0 <= i < upto ==> Owns(Sh(), k, i)
      modifies this`mem, this`pool, this`view
      ensures Dismantling(k.root) && k in view.nodes && view.nodes[k] == table
      ensures view == Without(Sh(), old(view), k, upto)
      ensures OthersKept(old(view), old(mem), view, mem, k.root)
      ensures Exchanged(old(view), old(pool).states, view, pool.states)
      decreases Depth(mode) - depth, 1
    {
      WithoutNone(Sh(), view, k);
      OthersSame(Sh(), mem, view, k.root);
      var idx := 0;
      while idx < upto
        invariant 0 <= idx <= upto
        invariant Dismantling(k.root) && k in view.nodes && view.nodes[k] == table
        invariant view == Without(Sh(), old(view), k, idx)
        invariant OthersKept(old(view), old(mem), view, mem, k.root)
        invariant Exchanged(old(view), old(pool).states, view, pool.states)
      {
        ghost var v1, mem1, s1 := view, mem, pool.states;
        DropChild(table, depth, idx, k, old(view));
        OthersKeptTwice(old(view), old(mem), v1, mem1, view, mem, k.root);
        ExchangedTwice(old(view), old(pool).states, v1, s1, view, pool.states);
        idx := idx + 1;
      }
    }

    /** Takes apart everything below a table. */
    method DestroyChildren(table: nat, depth: nat, ghost k: Key)
      requires Dismantling(k.root) && k in view.nodes && view.nodes[k] == table
      requires 0 < k.depth == depth <= Depth(mode)
      modifies this`mem, this`pool, this`view
      ensures Dismantling(k.root) && k in view.nodes && view.nodes[k] == table
      ensures view == Without(Sh(), old(view), k, 512)
      ensures OthersKept(old(view), old(mem), view, mem, k.root)
      ensures Exchanged(old(view), old(pool).states, view, pool.states)
      decreases Depth(mode) - depth, 2
    {
      if depth == Depth(mode) {
        WithoutLast(Sh(), mem, view, k);
        OthersSame(Sh(), mem, view, k.root);
        return;
      }
      DropChildren(table, depth, TABLE_ENTRIES, k);
    }

    /** Destroys a user address space whose page table is not loaded: frees exactly its own tables, and
        no page it maps. */
    method DestroyUser(root: nat, active: nat)
      requires Valid() && SharedHalf() && Key(root, 0, 0) in view.nodes && root != kernelRoot && root != active
      modifies this`mem, this`pool, this`view
      ensures Valid() && SharedHalf()
      ensures forall k :: k in view.nodes <==> k in old(view).nodes && k.root != root
      ensures forall l :: l in view.maps <==> l in old(view).maps && l.root != root
      ensures OthersKept(old(view), old(mem), view, mem, root)
      ensures Exchanged(old(view), old(pool).states, view, pool.states)
    {
      ghost var k := Key(root, 0, 0);
      RootsNamed(Sh(), mem, view);
      OthersSame(Sh(), mem, view, root);
      DropChildren(root, 0, 256, k);
      UserRootEmptied(Sh(), old(mem), old(view), view, root);
      ghost var v1, mem1, s1 := view, mem, pool.states;
      RemoveTable(Sh(), mem, view, pool.states, k);
      Dealloc(root);
      view := UnlinkView(Sh(), view, k);
      OthersKeptTwice(old(view), old(mem), v1, mem1, view, mem, root);
      ExchangedTwice(old(view), old(pool).states, v1, s1, view, pool.states);
      OthersNotEmpty(old(view), old(mem), view, mem, root);
      OthersShared(Sh(), old(view), old(mem), view, mem, root);
      RootGone(mem, view, root);
    }
  }

  /** Makes the kernel's page table out of the first frame the allocator picks. */
  method NewKernelTable(mode: Mode, frameLimit: nat, nxEnabled: bool, globalPages: bool, mem: Memory, pool: Pool)
    returns (r: Result<Machine, CreateError>)
    requires PoolOk(pool) && Sized(mem) && forall f :: 0 <= f < |pool.states| ==> f in mem
    ensures r == Err(CreateOutOfFrames) <==> FreeSet(pool.states) == {}
    ensures r == Err(CreateTooLarge) <==> FindFree(pool).Some? && FindFree(pool).value >= frameLimit
    ensures r.Ok? ==>
      && fresh(r.value) && r.value.Valid() && r.value.SharedHalf()
      && r.value.mode == mode && r.value.frameLimit == frameLimit
      && r.value.nxEnabled == nxEnabled && r.value.globalPages == globalPages
      && r.value.view == View(map[Key(r.value.kernelRoot, 0, 0) := r.value.kernelRoot], map[])
      && r.value.kernelRoot in FreeSet(pool.states)
      && r.value.pool.states == pool.states[r.value.kernelRoot := Allocated]
  {
    var frame := FindFree(pool);
    if frame.None? {
      return Err(CreateOutOfFrames);
    }
    if frame.value >= frameLimit {
      return Err(CreateTooLarge);
    }
    var m := new Machine(mode, frameLimit, nxEnabled, globalPages, mem, pool);
    return Ok(m);
  }
}
