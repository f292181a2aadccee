/** The page tables of every address space as one forest of tables in physical memory.
    A table is named by its root, its depth and the page-number prefix it serves, so the
    forest is a flat map from names to frames and needs no recursion.  The lemmas show what
    each single write to a table entry does to the forest and to the pages it maps. */
module Forest {

  datatype Perms = Perms(writable: bool, executable: bool, user: bool)

  /** A decoded table entry. */
  datatype Entry = Entry(
    present: bool, perms: Perms, huge: bool, global: bool, uncached: bool, frame: nat)

  const NULL_ENTRY := Entry(false, Perms(false, true, false), false, false, false, 0)

  type Table = seq<Entry>

  type Memory = map<nat, Table>

  datatype Key = Key(root: nat, depth: nat, prefix: nat)

  datatype Loc = Loc(root: nat, page: nat)

  /** The simple view: which frame serves each table, and which leaf entry each page has. */
  datatype View = View(nodes: map<Key, nat>, maps: map<Loc, Entry>)

  /** Number of intermediate levels, and the root of the kernel's own address space. */
  datatype Shape = Shape(levels: nat, kernelRoot: nat)

  function Child(k: Key, i: nat): Key {
    Key(k.root, k.depth + 1, 512 * k.prefix + i)
  }

  function Parent(k: Key): Key
    requires k.depth > 0
  {
    Key(k.root, k.depth - 1, k.prefix / 512)
  }

  function Slot(k: Key): (i: nat)
    ensures i < 512
  {
    k.prefix % 512
  }

  lemma ChildParent(k: Key, i: nat)
    requires i < 512
    ensures Parent(Child(k, i)) == k && Slot(Child(k, i)) == i
  {
  }

  lemma ParentChild(k: Key)
    requires k.depth > 0
    ensures Child(Parent(k), Slot(k)) == k
  {
  }

  /** The last-level table that serves a page. */
  function TableKey(sh: Shape, l: Loc): Key {
    Key(l.root, sh.levels, l.page / 512)
  }

  /** User roots own only their lower half: the upper half is shared with the kernel. */
  predicate Owns(sh: Shape, k: Key, i: nat) {
    k.depth == 0 && k.root != sh.kernelRoot ==> i < 256
  }

  predicate IsTableEntry(e: Entry, f: nat) {
    e.present && !e.huge && e.perms.writable && e.perms.executable && e.frame == f
  }

  /** Entry i of the table in frame f. */
  function At(mem: Memory, f: nat, i: nat): Entry {
    if f in mem && i < |mem[f]| then mem[f][i] else NULL_ENTRY
  }

  /** The entry that points at table k. */
  function Link(mem: Memory, v: View, k: Key): Entry {
    if k.depth > 0 && Parent(k) in v.nodes then At(mem, v.nodes[Parent(k)], Slot(k)) else NULL_ENTRY
  }

  /** Every present entry of table k above the last level points at a table. */
  ghost predicate Closed(sh: Shape, mem: Memory, v: View, k: Key)
    requires k in v.nodes
  {
    forall i | 0 <= i < 512 && Owns(sh, k, i) :: At(mem, v.nodes[k], i).present ==> Child(k, i) in v.nodes
  }

  /** An entry that is not present is all zero. */
  predicate TidyAt(t: Table, i: nat) {
    i < |t| && !t[i].present ==> t[i] == NULL_ENTRY
  }

  ghost predicate Tidy(t: Table) {
    forall i: nat {:trigger TidyAt(t, i)} :: TidyAt(t, i)
  }

  lemma TidyPut(t: Table, i: nat, e: Entry)
    requires Tidy(t) && i < |t| && (e.present || e == NULL_ENTRY)
    ensures Tidy(t[i := e])
  {
    var u := t[i := e];
    forall j: nat
      ensures TidyAt(u, j)
    {
      assert TidyAt(t, j);
    }
  }

  /** A table takes its lower half from one tidy table and its upper half from another. */
  lemma TidyHalves(t: Table, u: Table)
    requires Tidy(t) && Tidy(u) && |t| == |u| == 512
    ensures Tidy(t[..256] + u[256..])
  {
    var halves := t[..256] + u[256..];
    forall j: nat
      ensures TidyAt(halves, j)
    {
      assert TidyAt(t, j) && TidyAt(u, j);
    }
  }

  /** Table k is stored, it is linked from the table above it, and a user-accessible link
      has only user-accessible links above it. */
  ghost predicate Placed(sh: Shape, mem: Memory, v: View, k: Key)
    requires k in v.nodes
  {
    && v.nodes[k] in mem && |mem[v.nodes[k]]| == 512 && Tidy(mem[v.nodes[k]])
    && k.depth <= sh.levels
    && (k.depth == 0 ==> k.prefix == 0 && v.nodes[k] == k.root)
    && (k.depth > 0 ==>
          && Parent(k) in v.nodes
          && Owns(sh, Parent(k), Slot(k))
          && IsTableEntry(Link(mem, v, k), v.nodes[k]))
    && (k.depth > 1 && Link(mem, v, k).perms.user ==> Link(mem, v, Parent(k)).perms.user)
  }

  /** What holds at each table. */
  ghost predicate NodeOk(sh: Shape, mem: Memory, v: View, k: Key)
    requires k in v.nodes
  {
    Placed(sh, mem, v, k) && (k.depth < sh.levels ==> Closed(sh, mem, v, k))
  }

  /** What holds at each page: it is mapped exactly when its last-level entry is present,
      to that entry, and a user page lies under a user-accessible link. */
  ghost predicate LeafOk(sh: Shape, mem: Memory, v: View, l: Loc) {
    var t := TableKey(sh, l);
    && (l in v.maps <==> t in v.nodes && At(mem, v.nodes[t], l.page % 512).present)
    && (l in v.maps ==>
          && v.maps[l] == At(mem, v.nodes[t], l.page % 512)
          && (v.maps[l].perms.user ==> Link(mem, v, t).perms.user))
  }

  ghost predicate Distinct(v: View) {
    forall k, k' :: k in v.nodes && k' in v.nodes && v.nodes[k] == v.nodes[k'] ==> k == k'
  }

  /** What every table write keeps. */
  ghost predicate Tree(sh: Shape, mem: Memory, v: View) {
    && sh.levels > 0
    && Distinct(v)
    && (forall k {:trigger NodeOk(sh, mem, v, k)} :: k in v.nodes ==> NodeOk(sh, mem, v, k))
    && (forall l {:trigger LeafOk(sh, mem, v, l)} :: LeafOk(sh, mem, v, l))
  }

  function Write(mem: Memory, f: nat, i: nat, e: Entry): Memory
    requires f in mem && i < |mem[f]|
  {
    mem[f := mem[f][i := e]]
  }

  function ZeroTable(): (t: Table)
    ensures |t| == 512 && Tidy(t) && forall i :: 0 <= i < 512 ==> t[i] == NULL_ENTRY
  {
    seq(512, i => NULL_ENTRY)
  }

  /** One write changes the link to one table at most. */
  lemma LinkAfterWrite(mem: Memory, v: View, k: Key, i: nat, e: Entry, v': View, n: Key)
    requires Distinct(v) && k in v.nodes && v.nodes[k] in mem && i < |mem[v.nodes[k]]|
    requires n.depth > 0 && Parent(n) in v.nodes && Parent(n) in v'.nodes
    requires v'.nodes[Parent(n)] == v.nodes[Parent(n)]
    ensures Link(Write(mem, v.nodes[k], i, e), v', n)
         == if n == Child(k, i) && Slot(n) == i then e else Link(mem, v, n)
  {
    ParentChild(n);
    if n == Child(k, i) && Slot(n) == i {
      assert Parent(n) == k;
    }
  }

  // ---- A new, empty table is linked below an existing one ----

  ghost function LinkView(v: View, k: Key, i: nat, f: nat): View {
    v.(nodes := v.nodes[Child(k, i) := f])
  }

  ghost predicate CanLink(sh: Shape, mem: Memory, v: View, k: Key, i: nat, f: nat, e: Entry) {
    && Tree(sh, mem, v)
    && k in v.nodes && k.depth < sh.levels && i < 512 && Owns(sh, k, i)
    && !At(mem, v.nodes[k], i).present
    && f in mem && f !in v.nodes.Values && mem[f] == ZeroTable()
    && IsTableEntry(e, f)
    && (e.perms.user && k.depth > 0 ==> Link(mem, v, k).perms.user)
  }

  lemma LinkFresh(sh: Shape, mem: Memory, v: View, k: Key, i: nat, f: nat, e: Entry)
    requires CanLink(sh, mem, v, k, i, f, e)
    ensures v.nodes[k] in mem && |mem[v.nodes[k]]| == 512
    ensures Child(k, i) !in v.nodes && v.nodes[k] != f
    ensures Parent(Child(k, i)) == k && Slot(Child(k, i)) == i
  {
    ChildParent(k, i);
    assert v.nodes[k] in v.nodes.Values;
    assert NodeOk(sh, mem, v, k);
    assert Child(k, i) in v.nodes ==> NodeOk(sh, mem, v, Child(k, i));
  }

  lemma LinkPlaced(sh: Shape, mem: Memory, v: View, k: Key, i: nat, f: nat, e: Entry, n: Key)
    requires Distinct(v) && k in v.nodes && Placed(sh, mem, v, k) && i < 512 && Child(k, i) !in v.nodes && e.present
    requires n in v.nodes && Placed(sh, mem, v, n)
    requires n.depth > 1 ==> Placed(sh, mem, v, Parent(n))
    ensures Placed(sh, Write(mem, v.nodes[k], i, e), LinkView(v, k, i, f), n)
  {
    TidyPut(mem[v.nodes[k]], i, e);
    if n.depth > 0 {
      LinkAfterWrite(mem, v, k, i, e, LinkView(v, k, i, f), n);
    }
    if n.depth > 1 {
      LinkAfterWrite(mem, v, k, i, e, LinkView(v, k, i, f), Parent(n));
    }
  }

  lemma LinkNode(sh: Shape, mem: Memory, v: View, k: Key, i: nat, f: nat, e: Entry, n: Key)
    requires CanLink(sh, mem, v, k, i, f, e)
    requires v.nodes[k] in mem && |mem[v.nodes[k]]| == 512
    requires n in LinkView(v, k, i, f).nodes
    ensures NodeOk(sh, Write(mem, v.nodes[k], i, e), LinkView(v, k, i, f), n)
  {
    LinkFresh(sh, mem, v, k, i, f, e);
    assert NodeOk(sh, mem, v, k);
    if n != Child(k, i) {
      assert NodeOk(sh, mem, v, n);
      assert n.depth > 0 ==> NodeOk(sh, mem, v, Parent(n));
      LinkPlaced(sh, mem, v, k, i, f, e, n);
    } else if k.depth > 0 {
      LinkAfterWrite(mem, v, k, i, e, LinkView(v, k, i, f), k);
    }
  }

  lemma LinkLeaf(sh: Shape, mem: Memory, v: View, k: Key, i: nat, f: nat, e: Entry, l: Loc)
    requires CanLink(sh, mem, v, k, i, f, e)
    requires v.nodes[k] in mem && |mem[v.nodes[k]]| == 512
    ensures LeafOk(sh, Write(mem, v.nodes[k], i, e), LinkView(v, k, i, f), l)
  {
    LinkFresh(sh, mem, v, k, i, f, e);
    assert LeafOk(sh, mem, v, l);
    var t := TableKey(sh, l);
    if t in v.nodes {
      assert NodeOk(sh, mem, v, t);
    }
  }

  lemma LinkTable(sh: Shape, mem: Memory, v: View, k: Key, i: nat, f: nat, e: Entry)
    requires CanLink(sh, mem, v, k, i, f, e)
    ensures v.nodes[k] in mem && |mem[v.nodes[k]]| == 512
    ensures Tree(sh, Write(mem, v.nodes[k], i, e), LinkView(v, k, i, f))
    ensures Link(Write(mem, v.nodes[k], i, e), LinkView(v, k, i, f), Child(k, i)) == e
  {
    LinkFresh(sh, mem, v, k, i, f, e);
    var mem', v' := Write(mem, v.nodes[k], i, e), LinkView(v, k, i, f);
    forall n | n in v'.nodes
      ensures NodeOk(sh, mem', v', n)
    {
      LinkNode(sh, mem, v, k, i, f, e, n);
    }
    forall l: Loc
      ensures LeafOk(sh, mem', v', l)
    {
      LinkLeaf(sh, mem, v, k, i, f, e, l);
    }
  }

  // ---- An existing link becomes user-accessible ----

  ghost predicate CanUpgrade(sh: Shape, mem: Memory, v: View, k: Key, i: nat, e: Entry) {
    && Tree(sh, mem, v)
    && k in v.nodes && k.depth < sh.levels && i < 512 && Owns(sh, k, i)
    && At(mem, v.nodes[k], i).present
    && e == At(mem, v.nodes[k], i).(perms := At(mem, v.nodes[k], i).perms.(user := true))
    && (k.depth > 0 ==> Link(mem, v, k).perms.user)
  }

  lemma UpgradeNode(sh: Shape, mem: Memory, v: View, k: Key, i: nat, e: Entry, n: Key)
    requires CanUpgrade(sh, mem, v, k, i, e)
    requires v.nodes[k] in mem && |mem[v.nodes[k]]| == 512
    requires n in v.nodes
    ensures NodeOk(sh, Write(mem, v.nodes[k], i, e), v, n)
  {
    assert NodeOk(sh, mem, v, k);
    assert NodeOk(sh, mem, v, n);
    TidyPut(mem[v.nodes[k]], i, e);
    if n.depth > 0 {
      ChildParent(k, i);
      LinkAfterWrite(mem, v, k, i, e, v, n);
      assert NodeOk(sh, mem, v, Parent(n));
    }
    if n.depth > 1 {
      LinkAfterWrite(mem, v, k, i, e, v, Parent(n));
    }
  }

  lemma UpgradeLeaf(sh: Shape, mem: Memory, v: View, k: Key, i: nat, e: Entry, l: Loc)
    requires CanUpgrade(sh, mem, v, k, i, e)
    requires v.nodes[k] in mem && |mem[v.nodes[k]]| == 512
    ensures LeafOk(sh, Write(mem, v.nodes[k], i, e), v, l)
  {
    assert LeafOk(sh, mem, v, l);
    assert TableKey(sh, l) in v.nodes ==> NodeOk(sh, mem, v, TableKey(sh, l));
  }

  /** Making a link user-accessible changes no page and no permission of a page. */
  lemma UpgradeLink(sh: Shape, mem: Memory, v: View, k: Key, i: nat, e: Entry)
    requires CanUpgrade(sh, mem, v, k, i, e)
    ensures v.nodes[k] in mem && |mem[v.nodes[k]]| == 512
    ensures Tree(sh, Write(mem, v.nodes[k], i, e), v)
  {
    assert NodeOk(sh, mem, v, k);
    var mem' := Write(mem, v.nodes[k], i, e);
    forall n | n in v.nodes
      ensures NodeOk(sh, mem', v, n)
    {
      UpgradeNode(sh, mem, v, k, i, e, n);
    }
    forall l: Loc
      ensures LeafOk(sh, mem', v, l)
    {
      UpgradeLeaf(sh, mem, v, k, i, e, l);
    }
  }

  // ---- A last-level entry is set or cleared ----

  function LocAt(k: Key, i: nat): Loc {
    Loc(k.root, 512 * k.prefix + i)
  }

  /** The pages after entry i of last-level table k becomes e. */
  ghost function LeafView(v: View, k: Key, i: nat, e: Entry): View {
    v.(maps := if e.present then v.maps[LocAt(k, i) := e] else v.maps - {LocAt(k, i)})
  }

  ghost predicate CanSetLeaf(sh: Shape, mem: Memory, v: View, k: Key, i: nat, e: Entry) {
    && Tree(sh, mem, v)
    && k in v.nodes && k.depth == sh.levels && i < 512 && (e.present || e == NULL_ENTRY)
    && (e.present && e.perms.user ==> Link(mem, v, k).perms.user)
  }

  lemma LeafLoc(sh: Shape, k: Key, i: nat, l: Loc)
    requires i < 512 && k.depth == sh.levels
    ensures TableKey(sh, LocAt(k, i)) == k && LocAt(k, i).page % 512 == i
    ensures TableKey(sh, l) == k && l.page % 512 == i <==> l == LocAt(k, i)
  {
  }

  /** The link to a table is not at the last level. */
  lemma LinkBesideLeaf(sh: Shape, mem: Memory, v: View, k: Key, i: nat, e: Entry, n: Key)
    requires CanSetLeaf(sh, mem, v, k, i, e) && v.nodes[k] in mem && i < |mem[v.nodes[k]]| && n in v.nodes
    requires n.depth > 0
    ensures Link(Write(mem, v.nodes[k], i, e), LeafView(v, k, i, e), n) == Link(mem, v, n)
    ensures Parent(n) in v.nodes
  {
    assert NodeOk(sh, mem, v, n);
    LinkAfterWrite(mem, v, k, i, e, LeafView(v, k, i, e), n);
  }

  lemma SetLeafNode(sh: Shape, mem: Memory, v: View, k: Key, i: nat, e: Entry, n: Key)
    requires CanSetLeaf(sh, mem, v, k, i, e)
    requires v.nodes[k] in mem && |mem[v.nodes[k]]| == 512
    requires n in v.nodes
    ensures NodeOk(sh, Write(mem, v.nodes[k], i, e), LeafView(v, k, i, e), n)
  {
    assert NodeOk(sh, mem, v, n);
    assert NodeOk(sh, mem, v, k);
    TidyPut(mem[v.nodes[k]], i, e);
    if n.depth > 0 {
      LinkBesideLeaf(sh, mem, v, k, i, e, n);
    }
    if n.depth > 1 {
      LinkBesideLeaf(sh, mem, v, k, i, e, Parent(n));
    }
  }

  lemma SetLeafLeaf(sh: Shape, mem: Memory, v: View, k: Key, i: nat, e: Entry, l: Loc)
    requires CanSetLeaf(sh, mem, v, k, i, e)
    requires v.nodes[k] in mem && |mem[v.nodes[k]]| == 512
    ensures LeafOk(sh, Write(mem, v.nodes[k], i, e), LeafView(v, k, i, e), l)
  {
    LeafLoc(sh, k, i, l);
    assert LeafOk(sh, mem, v, l);
    var t := TableKey(sh, l);
    assert t in v.nodes ==> NodeOk(sh, mem, v, t);
    assert t in v.nodes ==> NodeOk(sh, mem, v, Parent(t));
  }

  /** Writing a last-level entry changes exactly one page. */
  lemma SetLeaf(sh: Shape, mem: Memory, v: View, k: Key, i: nat, e: Entry)
    requires CanSetLeaf(sh, mem, v, k, i, e)
    ensures v.nodes[k] in mem && |mem[v.nodes[k]]| == 512
    ensures Tree(sh, Write(mem, v.nodes[k], i, e), LeafView(v, k, i, e))
  {
    assert NodeOk(sh, mem, v, k);
    var mem', v' := Write(mem, v.nodes[k], i, e), LeafView(v, k, i, e);
    forall n | n in v'.nodes
      ensures NodeOk(sh, mem', v', n)
    {
      SetLeafNode(sh, mem, v, k, i, e, n);
    }
    forall l: Loc
      ensures LeafOk(sh, mem', v', l)
    {
      SetLeafLeaf(sh, mem, v, k, i, e, l);
    }
  }

  // ---- A table without tables below it is removed ----

  /** The forest without table k, and without the pages it served if it was a last-level one. */
  ghost function UnlinkView(sh: Shape, v: View, k: Key): View {
    View(v.nodes - {k}, map l | l in v.maps && TableKey(sh, l) != k :: v.maps[l])
  }

  ghost predicate CanUnlink(sh: Shape, mem: Memory, v: View, k: Key) {
    && Tree(sh, mem, v)
    && k in v.nodes
    && (forall i :: 0 <= i < 512 ==> Child(k, i) !in v.nodes)
  }

  /** Memory after the link to k is cleared; a root has no link. */
  function UnlinkMemory(mem: Memory, v: View, k: Key): Memory {
    if k.depth > 0 && Parent(k) in v.nodes && v.nodes[Parent(k)] in mem && Slot(k) < |mem[v.nodes[Parent(k)]]|
    then Write(mem, v.nodes[Parent(k)], Slot(k), NULL_ENTRY)
    else mem
  }

  lemma UnlinkPlaced(sh: Shape, mem: Memory, v: View, k: Key, n: Key)
    requires Distinct(v) && k in v.nodes && Placed(sh, mem, v, k)
    requires k.depth > 0 ==> Placed(sh, mem, v, Parent(k))
    requires n in v.nodes && n != k && Placed(sh, mem, v, n)
    requires n.depth > 0 ==> Parent(n) != k && Placed(sh, mem, v, Parent(n))
    requires n.depth > 1 ==> Parent(Parent(n)) != k && Placed(sh, mem, v, Parent(Parent(n)))
    ensures Placed(sh, UnlinkMemory(mem, v, k), UnlinkView(sh, v, k), n)
  {
    if k.depth > 0 {
      ParentChild(k);
      TidyPut(mem[v.nodes[Parent(k)]], Slot(k), NULL_ENTRY);
      if n.depth > 0 {
        ParentChild(n);
        LinkAfterWrite(mem, v, Parent(k), Slot(k), NULL_ENTRY, UnlinkView(sh, v, k), n);
      }
      if n.depth > 1 {
        ParentChild(Parent(n));
        LinkAfterWrite(mem, v, Parent(k), Slot(k), NULL_ENTRY, UnlinkView(sh, v, k), Parent(n));
      }
    }
  }

  lemma UnlinkNode(sh: Shape, mem: Memory, v: View, k: Key, n: Key)
    requires CanUnlink(sh, mem, v, k)
    requires n in UnlinkView(sh, v, k).nodes
    ensures NodeOk(sh, UnlinkMemory(mem, v, k), UnlinkView(sh, v, k), n)
  {
    assert NodeOk(sh, mem, v, k);
    assert NodeOk(sh, mem, v, n);
    assert k.depth > 0 ==> NodeOk(sh, mem, v, Parent(k));
    if n.depth > 0 {
      ParentChild(n);
      assert NodeOk(sh, mem, v, Parent(n));
      if n.depth > 1 {
        ParentChild(Parent(n));
        assert NodeOk(sh, mem, v, Parent(Parent(n)));
      }
    }
    UnlinkPlaced(sh, mem, v, k, n);
    UnlinkClosed(sh, mem, v, k, n);
  }

  lemma UnlinkClosed(sh: Shape, mem: Memory, v: View, k: Key, n: Key)
    requires CanUnlink(sh, mem, v, k)
    requires n in UnlinkView(sh, v, k).nodes
    ensures n.depth < sh.levels ==> Closed(sh, UnlinkMemory(mem, v, k), UnlinkView(sh, v, k), n)
  {
    assert NodeOk(sh, mem, v, k);
    assert NodeOk(sh, mem, v, n);
    if k.depth > 0 {
      ParentChild(k);
      assert NodeOk(sh, mem, v, Parent(k));
    }
  }

  lemma UnlinkLeaf(sh: Shape, mem: Memory, v: View, k: Key, l: Loc)
    requires CanUnlink(sh, mem, v, k)
    ensures LeafOk(sh, UnlinkMemory(mem, v, k), UnlinkView(sh, v, k), l)
  {
    assert LeafOk(sh, mem, v, l);
    assert NodeOk(sh, mem, v, k);
    assert k.depth > 0 ==> NodeOk(sh, mem, v, Parent(k));
    var t := TableKey(sh, l);
    if t in v.nodes {
      assert NodeOk(sh, mem, v, t);
      ParentChild(t);
      if k.depth > 0 {
        ParentChild(k);
      }
    }
  }

  lemma UnlinkTable(sh: Shape, mem: Memory, v: View, k: Key)
    requires CanUnlink(sh, mem, v, k)
    ensures Tree(sh, UnlinkMemory(mem, v, k), UnlinkView(sh, v, k))
  {
    var mem', v' := UnlinkMemory(mem, v, k), UnlinkView(sh, v, k);
    forall n | n in v'.nodes
      ensures NodeOk(sh, mem', v', n)
    {
      UnlinkNode(sh, mem, v, k, n);
    }
    forall l: Loc
      ensures LeafOk(sh, mem', v', l)
    {
      UnlinkLeaf(sh, mem, v, k, l);
    }
  }

  // ---- A root is added ----

  ghost function RootView(v: View, f: nat): View {
    v.(nodes := v.nodes[Key(f, 0, 0) := f])
  }

  lemma AddRoot(sh: Shape, mem: Memory, v: View, f: nat)
    requires Tree(sh, mem, v)
    requires f in mem && |mem[f]| == 512 && Tidy(mem[f]) && f !in v.nodes.Values
    requires forall i :: 0 <= i < 512 && Owns(sh, Key(f, 0, 0), i) ==> !mem[f][i].present
    ensures Tree(sh, mem, RootView(v, f))
  {
    var v' := RootView(v, f);
    var r := Key(f, 0, 0);
    assert r !in v.nodes by {
      assert r in v.nodes ==> NodeOk(sh, mem, v, r);
    }
    forall n | n in v'.nodes
      ensures NodeOk(sh, mem, v', n)
    {
      assert n != r ==> NodeOk(sh, mem, v, n);
      if n != r && n.depth > 0 {
        assert NodeOk(sh, mem, v, Parent(n));
      }
    }
    forall l: Loc
      ensures LeafOk(sh, mem, v', l)
    {
      assert LeafOk(sh, mem, v, l);
      assert TableKey(sh, l) in v.nodes ==> NodeOk(sh, mem, v, TableKey(sh, l));
    }
  }

  // ---- Memory outside the tables does not matter ----

  /** The forest depends only on the frames that hold its tables. */
  lemma SameTables(sh: Shape, mem: Memory, mem': Memory, v: View)
    requires Tree(sh, mem, v)
    requires forall k :: k in v.nodes ==> v.nodes[k] in mem && v.nodes[k] in mem' && mem'[v.nodes[k]] == mem[v.nodes[k]]
    ensures Tree(sh, mem', v)
  {
    forall n | n in v.nodes
      ensures NodeOk(sh, mem', v, n)
    {
      assert NodeOk(sh, mem, v, n);
      assert n.depth > 0 ==> NodeOk(sh, mem, v, Parent(n));
    }
    forall l: Loc
      ensures LeafOk(sh, mem', v, l)
    {
      assert LeafOk(sh, mem, v, l);
      assert TableKey(sh, l) in v.nodes ==> NodeOk(sh, mem, v, TableKey(sh, l));
    }
  }
}
