/** What the page-table operations mean to whoever reads translations: `map`, `unmap` and
    `destroy` over all address spaces at once. */
module PagingTheorems {
  import opened Outcomes
  import opened Addresses
  import opened Frames
  import opened Forest
  import opened Walks
  import opened Grafts
  import opened Subtrees
  import opened RawEntries
  import opened PageTables

  /** `unmap` after `map` restores every page, every table and the state of every frame. */
  lemma UnmapUndoesMap(
    mode: Mode, sh: Shape, mem: Memory, v: View, s: seq<FrameState>, v': View, s': seq<FrameState>,
    mem'': Memory, v'': View, s'': seq<FrameState>, l: Loc, leaf: Entry)
    requires sh.levels == Depth(mode) && Backed(v, s)
    requires Tree(sh, mem, v) && NoEmpty(mem, v, {}) && Tree(sh, mem'', v'') && NoEmpty(mem'', v'', {})
    requires l !in v.maps && Added(v, s, v', s', l, leaf) && Removed(v', s', v'', s'', l)
    ensures v'' == v && s'' == s
  {
    assert v''.maps == v.maps;
    SameMapsSameTables(mode, sh, mem, v, mem'', v'');
    assert v''.nodes == v.nodes;
    ExchangedTwice(v, s, v', s', v'', s'');
    ExchangedBack(v, s, v'', s'');
  }

  /** After `map` the new page reads as the given frame and permissions, and every other address
      of every address space reads as before. */
  lemma MapChangesOnePage(mode: Mode, sh: Shape, mem: Memory, v: View, mem': Memory, v': View, l: Loc, leaf: Entry,
                          root: nat, addr: nat)
    requires sh.levels == Depth(mode)
    requires Tree(sh, mem, v) && Shared(sh, mem, v) && Rooted(sh, v, root)
    requires Tree(sh, mem', v') && Shared(sh, mem', v') && Rooted(sh, v', root)
    requires v'.maps == v.maps[l := leaf]
    ensures var here := IsCanonical(mode, addr) && Loc(Home(sh, root, PageOf(mode, addr)), PageOf(mode, addr)) == l;
            && Translate(mem', mode, root, addr)
               == (if here then Some(leaf.frame * PAGE_SIZE + addr % PAGE_SIZE) else Translate(mem, mode, root, addr))
            && MappingAt(mem', mode, root, addr)
               == (if here then Some(leaf.perms) else MappingAt(mem, mode, root, addr))
  {
    ReadsSeeView(mode, sh, mem, v, root, addr);
    ReadsSeeView(mode, sh, mem', v', root, addr);
  }

  /** After `unmap` that page does not translate, and every other address reads as before. */
  lemma UnmapChangesOnePage(mode: Mode, sh: Shape, mem: Memory, v: View, mem': Memory, v': View, l: Loc, root: nat,
                            addr: nat)
    requires sh.levels == Depth(mode)
    requires Tree(sh, mem, v) && Shared(sh, mem, v) && Rooted(sh, v, root)
    requires Tree(sh, mem', v') && Shared(sh, mem', v') && Rooted(sh, v', root)
    requires v'.maps == v.maps - {l}
    ensures var here := Loc(Home(sh, root, PageOf(mode, addr)), PageOf(mode, addr)) == l;
            && Translate(mem', mode, root, addr) == (if here then None else Translate(mem, mode, root, addr))
            && MappingAt(mem', mode, root, addr) == (if here then None else MappingAt(mem, mode, root, addr))
  {
    ReadsSeeView(mode, sh, mem, v, root, addr);
    ReadsSeeView(mode, sh, mem', v', root, addr);
  }

  /** Destroying one user address space changes no translation of any other. */
  lemma DestroyKeepsOthers(mode: Mode, sh: Shape, mem: Memory, v: View, mem': Memory, v': View, r: nat, root: nat,
                           addr: nat)
    requires sh.levels == Depth(mode) && r != sh.kernelRoot && root != r
    requires Tree(sh, mem, v) && Shared(sh, mem, v) && Rooted(sh, v, root)
    requires Tree(sh, mem', v') && Shared(sh, mem', v') && OthersKept(v, mem, v', mem', r)
    ensures Translate(mem', mode, root, addr) == Translate(mem, mode, root, addr)
    ensures MappingAt(mem', mode, root, addr) == MappingAt(mem, mode, root, addr)
  {
    ReadsSeeView(mode, sh, mem, v, root, addr);
    ReadsSeeView(mode, sh, mem', v', root, addr);
  }

  /** All address spaces translate the upper half alike: as the kernel's own tables do. */
  lemma UpperHalfIsKernel(mode: Mode, sh: Shape, mem: Memory, v: View, root: nat, addr: nat)
    requires sh.levels == Depth(mode)
    requires Tree(sh, mem, v) && Shared(sh, mem, v) && Rooted(sh, v, root)
    requires Digit(sh.levels, PageOf(mode, addr), 0) >= 256
    ensures Translate(mem, mode, root, addr) == Translate(mem, mode, sh.kernelRoot, addr)
    ensures MappingAt(mem, mode, root, addr) == MappingAt(mem, mode, sh.kernelRoot, addr)
  {
    ReadsSeeView(mode, sh, mem, v, root, addr);
    ReadsSeeView(mode, sh, mem, v, sh.kernelRoot, addr);
  }

  /** Maps a page and unmaps it again: pages, tables and frames are as before, and the raw entries of all tables
      are exactly when the page was no user page or every link on its way was user-accessible already. */
  method MapThenUnmap(m: Machine, root: nat, addr: nat, frame: nat, perms: Perms, uncached: bool, global: bool)
    returns (ok: bool)
    requires m.Valid() && Key(root, 0, 0) in m.view.nodes && Home(m.Sh(), root, PageOf(m.mode, addr)) == root
    modifies m
    ensures m.Valid() && m.view == old(m.view) && m.pool.states == old(m.pool).states
    ensures ok ==>
      (RawSame(old(m.mem), m.mem, m.view)
       <==> !perms.user || WayOpen(m.Sh(), old(m.mem), old(m.view), root, PageOf(m.mode, addr)))
  {
    ghost var mem, v, s := m.mem, m.view, m.pool.states;
    var mapped := m.Map(root, addr, frame, perms, uncached, global);
    if mapped.Err? {
      return false;
    }
    ghost var mem1, v1, s1, page := m.mem, m.view, m.pool.states, PageOf(m.mode, addr);
    ghost var leaf := m.LeafEntry(frame, perms, uncached, global);
    var unmapped := m.Unmap(root, addr);
    assert unmapped.Ok?;
    UnmapUndoesMap(m.mode, m.Sh(), mem, v, s, v1, s1, m.mem, m.view, m.pool.states, Loc(root, page), leaf);
    OwnsHome(m.mode, m.Sh(), root, addr);
    RawRestored(m.mode, m.Sh(), mem, v, mem1, m.mem, root, page, perms.user);
    return true;
  }

  lemma OwnsHome(mode: Mode, sh: Shape, root: nat, addr: nat)
    requires sh.levels == Depth(mode) && Home(sh, root, PageOf(mode, addr)) == root
    ensures PageOf(mode, addr) < PageCount(mode) && Owns(sh, Key(root, 0, 0), Digit(sh.levels, PageOf(mode, addr), 0))
  {
  }
}
