/** Walks from a root to a page, the reads of a page table as pure functions, and what a walk
    finds in a well-formed forest. */
module Walks {
  import opened Outcomes
  import opened Addresses
  import opened Forest

  // ---- The reads, on any memory ----

  function LargePageFrames(level: Level): (r: Option<nat>)
    ensures r.Some? ==> r.value > 0
  {
    match level
    case Pdpt => Some(0x4_0000)
    case PageDirectory => Some(512)
    case _ => None
  }

  /** An address in a large page of so many frames. */
  function LargePageAddress(frame: nat, frames: nat, addr: nat): nat
    requires frames > 0
  {
    frame / frames * frames * PAGE_SIZE + addr % (frames * PAGE_SIZE)
  }

  function Meet(p: Perms, q: Perms): Perms {
    Perms(p.writable && q.writable, p.executable && q.executable, p.user && q.user)
  }

  /** The index read in each table, from the root to the last level. */
  function Indices(mode: Mode, addr: nat): (r: seq<nat>)
    ensures |r| == Depth(mode) + 1
  {
    match mode
    case FourLevel => [Index(Pml4, addr), Index(Pdpt, addr), Index(PageDirectory, addr), P1Index(addr)]
    case FiveLevel =>
      [Index(Pml5, addr), Index(Pml4, addr), Index(Pdpt, addr), Index(PageDirectory, addr), P1Index(addr)]
  }

  /** Physical address of `addr`, walking on from table `f` at depth d. */
  function TranslateFrom(mem: Memory, mode: Mode, ix: seq<nat>, addr: nat, d: nat, f: nat): (r: Option<nat>)
    requires d <= Depth(mode) && |ix| == Depth(mode) + 1
    decreases Depth(mode) - d
  {
    if f !in mem then None
    else if d == Depth(mode) then
      var e := At(mem, f, ix[d]);
      if e.present then Some(e.frame * PAGE_SIZE + addr % PAGE_SIZE) else None
    else
      var level := IntermediateLevels(mode)[d];
      var e := At(mem, f, ix[d]);
      if !e.present then None
      else if e.huge then
        match LargePageFrames(level)
        case None => None
        case Some(n) => Some(LargePageAddress(e.frame, n, addr))
      else TranslateFrom(mem, mode, ix, addr, d + 1, e.frame)
  }

  function Translate(mem: Memory, mode: Mode, root: nat, addr: nat): Option<nat> {
    if IsCanonical(mode, addr) then TranslateFrom(mem, mode, Indices(mode, addr), addr, 0, root) else None
  }

  /** Permissions of the page the indices lead to, met with those gathered so far. */
  function PermsFrom(mem: Memory, mode: Mode, ix: seq<nat>, d: nat, f: nat, p: Perms): (r: Option<Perms>)
    requires d <= Depth(mode) && |ix| == Depth(mode) + 1
    decreases Depth(mode) - d
  {
    if f !in mem then None
    else if d == Depth(mode) then
      var e := At(mem, f, ix[d]);
      if e.present then Some(Meet(p, e.perms)) else None
    else
      var level := IntermediateLevels(mode)[d];
      var e := At(mem, f, ix[d]);
      if !e.present then None
      else if e.huge then
        if LargePageFrames(level).None? then None else Some(Meet(p, e.perms))
      else PermsFrom(mem, mode, ix, d + 1, e.frame, Meet(p, e.perms))
  }

  const FULL := Perms(true, true, true)

  function MappingAt(mem: Memory, mode: Mode, root: nat, addr: nat): Option<Perms> {
    if IsCanonical(mode, addr) then PermsFrom(mem, mode, Indices(mode, addr), 0, root, FULL) else None
  }

  lemma {:induction false} SameDomainFrom(
    mem: Memory, mode: Mode, ix: seq<nat>, addr: nat, d: nat, f: nat, p: Perms)
    requires d <= Depth(mode) && |ix| == Depth(mode) + 1
    ensures TranslateFrom(mem, mode, ix, addr, d, f).Some? <==> PermsFrom(mem, mode, ix, d, f, p).Some?
    decreases Depth(mode) - d
  {
    if f in mem && d < Depth(mode) {
      var e := At(mem, f, ix[d]);
      if e.present && !e.huge {
        SameDomainFrom(mem, mode, ix, addr, d + 1, e.frame, Meet(p, e.perms));
      }
    }
  }

  /** Whatever the tables hold, an address translates exactly when it has permissions. */
  lemma SameDomain(mem: Memory, mode: Mode, root: nat, addr: nat)
    ensures Translate(mem, mode, root, addr).Some? <==> MappingAt(mem, mode, root, addr).Some?
  {
    SameDomainFrom(mem, mode, Indices(mode, addr), addr, 0, root, FULL);
  }

  // ---- The tables on the way to a page ----

  function Digit(levels: nat, page: nat, d: nat): (i: nat)
    requires d <= levels
    ensures i < 512
  {
    Up(page, levels - d) % 512
  }

  function PathKey(levels: nat, root: nat, page: nat, d: nat): Key
    requires d <= levels
  {
    Key(root, d, Up(page, levels + 1 - d))
  }

  lemma PathStep(levels: nat, root: nat, page: nat, d: nat)
    requires d < levels
    ensures PathKey(levels, root, page, d + 1) == Child(PathKey(levels, root, page, d), Digit(levels, page, d))
    ensures Parent(PathKey(levels, root, page, d + 1)) == PathKey(levels, root, page, d)
    ensures Slot(PathKey(levels, root, page, d + 1)) == Digit(levels, page, d)
  {
    assert Up(page, levels + 1 - d) == Up(page, levels - d) / 512;
  }

  lemma PathEnds(mode: Mode, root: nat, page: nat, sh: Shape)
    requires page < PageCount(mode) && sh.levels == Depth(mode)
    ensures PathKey(sh.levels, root, page, 0) == Key(root, 0, 0)
    ensures PathKey(sh.levels, root, page, sh.levels) == TableKey(sh, Loc(root, page))
    ensures Digit(sh.levels, page, sh.levels) == page % 512
  {
    RootPrefix(mode, page);
    assert Up(page, 1) == page / 512;
  }

  /** User roots share the kernel's upper half: which root's tables really serve a page. */
  function Home(sh: Shape, root: nat, page: nat): nat {
    if Digit(sh.levels, page, 0) >= 256 then sh.kernelRoot else root
  }

  ghost predicate SharedRow(sh: Shape, mem: Memory, root: nat) {
    forall i | 256 <= i < 512 :: At(mem, root, i) == At(mem, sh.kernelRoot, i)
  }

  /** Every root has the kernel's entries in its upper half. */
  ghost predicate Shared(sh: Shape, mem: Memory, v: View) {
    forall r {:trigger SharedRow(sh, mem, r)} :: Key(r, 0, 0) in v.nodes ==> SharedRow(sh, mem, r)
  }

  /** Where a walk for `page` from `root` stands after d steps. */
  ghost predicate OnPath(sh: Shape, v: View, root: nat, page: nat, d: nat, f: nat)
    requires d <= sh.levels
  {
    if d == 0 then f == root
    else
      var k := PathKey(sh.levels, Home(sh, root, page), page, d);
      k in v.nodes && f == v.nodes[k]
  }

  ghost predicate Rooted(sh: Shape, v: View, root: nat) {
    Key(root, 0, 0) in v.nodes && Key(sh.kernelRoot, 0, 0) in v.nodes
  }

  /** The upper half of `root` is served by the kernel's tables, unless `root` is the kernel's. */
  ghost predicate Serves(sh: Shape, mem: Memory, root: nat, page: nat) {
    Home(sh, root, page) != root ==> SharedRow(sh, mem, root)
  }

  lemma StoredAt(sh: Shape, mem: Memory, v: View, root: nat, page: nat, d: nat, f: nat)
    requires Tree(sh, mem, v) && Rooted(sh, v, root)
    requires d <= sh.levels && OnPath(sh, v, root, page, d, f)
    ensures f in mem && |mem[f]| == 512
  {
    assert NodeOk(sh, mem, v, Key(root, 0, 0));
    if d > 0 {
      assert NodeOk(sh, mem, v, PathKey(sh.levels, Home(sh, root, page), page, d));
    }
  }

  /** One step of a walk finds a table exactly when the forest has one there. */
  lemma WalkStep(mode: Mode, sh: Shape, mem: Memory, v: View, root: nat, page: nat, d: nat, f: nat)
    requires Tree(sh, mem, v) && Rooted(sh, v, root) && Serves(sh, mem, root, page)
    requires sh.levels == Depth(mode) && page < PageCount(mode)
    requires d < sh.levels && OnPath(sh, v, root, page, d, f)
    ensures f in mem && |mem[f]| == 512
    ensures var e, next := At(mem, f, Digit(sh.levels, page, d)), PathKey(sh.levels, Home(sh, root, page), page, d + 1);
            && (e.present <==> next in v.nodes)
            && (e.present ==>
                  && e == Link(mem, v, next)
                  && IsTableEntry(e, v.nodes[next])
                  && OnPath(sh, v, root, page, d + 1, e.frame)
                  && (d > 0 && e.perms.user ==>
                        Link(mem, v, PathKey(sh.levels, Home(sh, root, page), page, d)).perms.user))
  {
    var home, i := Home(sh, root, page), Digit(sh.levels, page, d);
    var k, next := PathKey(sh.levels, home, page, d), PathKey(sh.levels, home, page, d + 1);
    PathStep(sh.levels, home, page, d);
    PathEnds(mode, home, page, sh);
    StoredAt(sh, mem, v, root, page, d, f);
    assert NodeOk(sh, mem, v, Key(root, 0, 0));
    assert NodeOk(sh, mem, v, Key(sh.kernelRoot, 0, 0));
    assert k in v.nodes && At(mem, f, i) == At(mem, v.nodes[k], i);
    assert NodeOk(sh, mem, v, k);
    assert next in v.nodes ==> NodeOk(sh, mem, v, next);
    assert Owns(sh, k, i);
  }

  /** The last step of a walk finds the page's entry. */
  lemma WalkEnd(mode: Mode, sh: Shape, mem: Memory, v: View, root: nat, page: nat, f: nat)
    requires Tree(sh, mem, v) && Rooted(sh, v, root)
    requires sh.levels == Depth(mode) && page < PageCount(mode)
    requires OnPath(sh, v, root, page, sh.levels, f)
    ensures f in mem && |mem[f]| == 512
    ensures var e, l := At(mem, f, page % 512), Loc(Home(sh, root, page), page);
            && (e.present <==> l in v.maps)
            && (e.present ==>
                  && e == v.maps[l]
                  && (e.perms.user ==> Link(mem, v, TableKey(sh, l)).perms.user))
  {
    var l := Loc(Home(sh, root, page), page);
    PathEnds(mode, l.root, page, sh);
    StoredAt(sh, mem, v, root, page, sh.levels, f);
    assert LeafOk(sh, mem, v, l);
  }

  /** Every table on the way to an existing one exists. */
  lemma {:induction false} PathPrefix(sh: Shape, mem: Memory, v: View, root: nat, page: nat, d: nat, last: nat)
    requires Tree(sh, mem, v)
    requires d <= last <= sh.levels && PathKey(sh.levels, root, page, last) in v.nodes
    ensures PathKey(sh.levels, root, page, d) in v.nodes
    decreases last - d
  {
    if d < last {
      PathPrefix(sh, mem, v, root, page, d + 1, last);
      PathStep(sh.levels, root, page, d);
      assert NodeOk(sh, mem, v, PathKey(sh.levels, root, page, d + 1));
    }
  }

  // ---- What the reads return in a well-formed forest ----

  /** A walk that met only writable, executable links, the last one user-accessible or not. */
  ghost predicate Gathered(sh: Shape, mem: Memory, v: View, root: nat, page: nat, d: nat, p: Perms)
    requires d <= sh.levels
  {
    p == Perms(true, true, d == 0 || Link(mem, v, PathKey(sh.levels, Home(sh, root, page), page, d)).perms.user)
  }

  /** The indices of a walk are the digits of a page number. */
  ghost predicate Spells(mode: Mode, ix: seq<nat>, page: nat) {
    && |ix| == Depth(mode) + 1 && page < PageCount(mode)
    && forall d :: 0 <= d <= Depth(mode) ==> ix[d] == Digit(Depth(mode), page, d)
  }

  lemma IndicesSpellPage(mode: Mode, addr: nat)
    ensures Spells(mode, Indices(mode, addr), PageOf(mode, addr))
  {
    DigitsOfPage(mode, addr);
    var page, n := PageOf(mode, addr), Depth(mode);
    forall d | 0 <= d <= n
      ensures Indices(mode, addr)[d] == Digit(n, page, d)
    {
      assert mode == FourLevel ==> d == 0 || d == 1 || d == 2 || d == 3;
      assert mode == FiveLevel ==> d == 0 || d == 1 || d == 2 || d == 3 || d == 4;
    }
  }

  lemma {:induction false} ReadsFrom(
    mode: Mode, sh: Shape, mem: Memory, v: View, root: nat, page: nat, ix: seq<nat>, addr: nat, d: nat, f: nat,
    p: Perms)
    requires Tree(sh, mem, v) && Rooted(sh, v, root) && Serves(sh, mem, root, page)
    requires sh.levels == Depth(mode) && d <= sh.levels && Spells(mode, ix, page)
    requires OnPath(sh, v, root, page, d, f)
    requires Gathered(sh, mem, v, root, page, d, p)
    ensures var l := Loc(Home(sh, root, page), page);
            && TranslateFrom(mem, mode, ix, addr, d, f)
               == (if l in v.maps then Some(v.maps[l].frame * PAGE_SIZE + addr % PAGE_SIZE) else None)
            && PermsFrom(mem, mode, ix, d, f, p)
               == (if l in v.maps then Some(v.maps[l].perms) else None)
    decreases sh.levels - d
  {
    var l := Loc(Home(sh, root, page), page);
    PathEnds(mode, l.root, page, sh);
    if d == sh.levels {
      WalkEnd(mode, sh, mem, v, root, page, f);
    } else {
      WalkStep(mode, sh, mem, v, root, page, d, f);
      var e := At(mem, f, Digit(sh.levels, page, d));
      if e.present {
        ReadsFrom(mode, sh, mem, v, root, page, ix, addr, d + 1, e.frame, Meet(p, e.perms));
      } else if l in v.maps {
        assert LeafOk(sh, mem, v, l);
        PathPrefix(sh, mem, v, l.root, page, d + 1, sh.levels);
      }
    }
  }

  /** In a well-formed forest the reads see exactly the view: the mapped frame, and the very
      permissions of the leaf, whatever the links above it say. */
  lemma ReadsSeeView(mode: Mode, sh: Shape, mem: Memory, v: View, root: nat, addr: nat)
    requires Tree(sh, mem, v) && Rooted(sh, v, root) && (Shared(sh, mem, v) || root == sh.kernelRoot)
    requires sh.levels == Depth(mode)
    ensures var l := Loc(Home(sh, root, PageOf(mode, addr)), PageOf(mode, addr));
            && Translate(mem, mode, root, addr)
               == (if IsCanonical(mode, addr) && l in v.maps
                   then Some(v.maps[l].frame * PAGE_SIZE + addr % PAGE_SIZE) else None)
            && MappingAt(mem, mode, root, addr)
               == (if IsCanonical(mode, addr) && l in v.maps then Some(v.maps[l].perms) else None)
  {
    assert root != sh.kernelRoot ==> SharedRow(sh, mem, root);
    IndicesSpellPage(mode, addr);
    ReadsFrom(mode, sh, mem, v, root, PageOf(mode, addr), Indices(mode, addr), addr, 0, root, FULL);
  }
}
