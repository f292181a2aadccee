/** What the phases of `unmap` do to the forest: clearing the page's entry, and then unlinking
    every table on the way to it that is left empty. */
module UnmapSteps {
  import opened Addresses
  import opened Frames
  import opened Forest
  import opened Walks
  import opened Grafts

  predicate IsEmpty(t: Table) {
    forall i :: 0 <= i < |t| ==> !t[i].present
  }

  /** The view without table k. */
  ghost function DropNode(v: View, k: Key): View {
    v.(nodes := v.nodes - {k})
  }

  lemma OccupiedElsewhere(mem: Memory, mem': Memory, v: View, v': View, k: Key)
    requires k in v.nodes && k in v'.nodes && v'.nodes[k] == v.nodes[k] && Occupied(mem, v, k)
    requires forall i :: 0 <= i < 512 ==> At(mem', v.nodes[k], i) == At(mem, v.nodes[k], i)
    ensures Occupied(mem', v', k)
  {
    var i :| 0 <= i < 512 && At(mem, v.nodes[k], i).present;
    assert At(mem', v'.nodes[k], i).present;
  }

  /** Clearing the entry of a page removes that page; only its own table can become empty. */
  lemma ClearPage(mode: Mode, sh: Shape, mem: Memory, v: View, root: nat, page: nat)
    requires Tree(sh, mem, v) && NoEmpty(mem, v, {}) && sh.levels == Depth(mode) && page < PageCount(mode)
    requires PathKey(sh.levels, root, page, sh.levels) in v.nodes
    ensures var k := PathKey(sh.levels, root, page, sh.levels);
            var mem' := Put(mem, v.nodes[k], Digit(sh.levels, page, sh.levels), NULL_ENTRY);
            var v' := v.(maps := v.maps - {Loc(root, page)});
            Tree(sh, mem', v') && NoEmpty(mem', v', {k})
  {
    var k, i := PathKey(sh.levels, root, page, sh.levels), Digit(sh.levels, page, sh.levels);
    PathEnds(mode, root, page, sh);
    SetLeaf(sh, mem, v, k, i, NULL_ENTRY);
    assert LocAt(k, i) == Loc(root, page);
    var mem', v' := Write(mem, v.nodes[k], i, NULL_ENTRY), LeafView(v, k, i, NULL_ENTRY);
    forall n | n in v'.nodes && n.depth > 0 && n != k
      ensures Occupied(mem', v', n)
    {
      assert Occupied(mem, v, n);
      assert v.nodes[n] != v.nodes[k];
      OccupiedElsewhere(mem, mem', v, v', n);
    }
  }

  lemma EmptyHasNoChildren(sh: Shape, mem: Memory, v: View, k: Key)
    requires Tree(sh, mem, v) && k in v.nodes
    requires forall i :: 0 <= i < 512 ==> !At(mem, v.nodes[k], i).present
    ensures forall i :: 0 <= i < 512 ==> Child(k, i) !in v.nodes
    ensures forall l :: l in v.maps ==> TableKey(sh, l) != k
  {
    forall i | 0 <= i < 512
      ensures Child(k, i) !in v.nodes
    {
      ChildParent(k, i);
      assert Child(k, i) in v.nodes ==> NodeOk(sh, mem, v, Child(k, i));
    }
    forall l | l in v.maps
      ensures TableKey(sh, l) != k
    {
      assert LeafOk(sh, mem, v, l);
    }
  }

  /** Unlinking an empty table removes it and nothing else; only its parent can become empty. */
  lemma UnlinkEmpty(sh: Shape, mem: Memory, v: View, k: Key)
    requires Tree(sh, mem, v) && NoEmpty(mem, v, {k}) && k in v.nodes && k.depth > 0
    requires forall i :: 0 <= i < 512 ==> !At(mem, v.nodes[k], i).present
    ensures Parent(k) in v.nodes
    ensures var mem', v' := Put(mem, v.nodes[Parent(k)], Slot(k), NULL_ENTRY), DropNode(v, k);
            Tree(sh, mem', v') && NoEmpty(mem', v', {Parent(k)})
  {
    assert NodeOk(sh, mem, v, k);
    assert NodeOk(sh, mem, v, Parent(k));
    EmptyHasNoChildren(sh, mem, v, k);
    UnlinkTable(sh, mem, v, k);
    var mem', v' := Put(mem, v.nodes[Parent(k)], Slot(k), NULL_ENTRY), DropNode(v, k);
    assert UnlinkView(sh, v, k).maps == v.maps;
    assert UnlinkView(sh, v, k) == v';
    forall n | n in v'.nodes && n.depth > 0 && n != Parent(k)
      ensures Occupied(mem', v', n)
    {
      assert Occupied(mem, v, n);
      assert v.nodes[n] != v.nodes[Parent(k)];
      OccupiedElsewhere(mem, mem', v, v', n);
    }
  }

  /** A table that still has an entry, or a root, need not be set apart. */
  lemma NotBusy(mem: Memory, v: View, k: Key)
    requires NoEmpty(mem, v, {k})
    requires k in v.nodes && k.depth > 0 ==> Occupied(mem, v, k)
    ensures NoEmpty(mem, v, {})
  {
    forall n | n in v.nodes && n.depth > 0
      ensures Occupied(mem, v, n)
    {
      assert n != k ==> Occupied(mem, v, n);
    }
  }

  // ---- The frames of the removed tables ----

  /** `freed` are the frames of exactly the tables of v that v' no longer has. */
  ghost predicate Pruned(v: View, v': View, root: nat, freed: seq<nat>) {
    && v'.nodes.Keys <= v.nodes.Keys
    && (forall k :: k in v'.nodes ==> v'.nodes[k] == v.nodes[k])
    && (forall k :: k in v.nodes && k !in v'.nodes ==> v.nodes[k] in freed && k.root == root && k.depth > 0)
    && (forall x :: 0 <= x < |freed| ==> freed[x] in v.nodes.Values && freed[x] !in v'.nodes.Values)
    && (forall x, y :: 0 <= x < y < |freed| ==> freed[x] != freed[y])
  }

  lemma PrunedGrows(v: View, v': View, root: nat, freed: seq<nat>, k: Key)
    requires Distinct(v) && Pruned(v, v', root, freed) && k in v'.nodes && k.root == root && k.depth > 0
    ensures Pruned(v, DropNode(v', k), root, freed + [v'.nodes[k]])
  {
    var v'' := DropNode(v', k);
    var f := v'.nodes[k];
    assert f == v.nodes[k] && f in v.nodes.Values && f in v'.nodes.Values;
    assert f !in v''.nodes.Values;
    assert v''.nodes.Values <= v'.nodes.Values;
    var more := freed + [f];
    forall n | n in v.nodes && n !in v''.nodes
      ensures v.nodes[n] in more && n.root == root && n.depth > 0
    {
      if n != k {
        assert v.nodes[n] in freed;
      } else {
        assert more[|freed|] == f;
      }
    }
  }

  /** Giving the removed tables' frames back leaves exactly those free. */
  lemma PrunedExchanged(v: View, v': View, root: nat, freed: seq<nat>, s: seq<FrameState>, s': seq<FrameState>)
    requires Distinct(v) && Backed(v, s) && Pruned(v, v', root, freed) && |s'| == |s|
    requires forall f :: 0 <= f < |s| ==> s'[f] == if f in freed then Free else s[f]
    ensures Exchanged(v, s, v', s') && Backed(v', s')
  {
    forall f | f in v'.nodes.Values
      ensures f in v.nodes.Values && f !in freed
    {
      var k :| k in v'.nodes && v'.nodes[k] == f;
      assert v.nodes[k] == f;
    }
    forall f | f in v.nodes.Values && f !in v'.nodes.Values
      ensures f in freed
    {
      var k :| k in v.nodes && v.nodes[k] == f;
      assert k !in v'.nodes;
    }
    forall f | f in freed
      ensures f in v.nodes.Values && f !in v'.nodes.Values
    {
      var x :| 0 <= x < |freed| && freed[x] == f;
    }
    forall k | k in v'.nodes
      ensures v'.nodes[k] < |s'| && s'[v'.nodes[k]] == Allocated
    {
      assert v'.nodes[k] in v'.nodes.Values;
    }
  }

  // ---- The rows of root tables ----

  /** No entry of a root table changed, except entry i of `root` unless `all`. */
  ghost predicate RowsKept(v: View, mem: Memory, mem': Memory, root: nat, i: nat, all: bool) {
    forall r, j {:trigger At(mem', r, j)} :: Key(r, 0, 0) in v.nodes && (all || r != root || j != i) ==>
      At(mem', r, j) == At(mem, r, j)
  }

  /** A write below the roots keeps every root row. */
  lemma RowsKeptWrite(sh: Shape, v: View, mem: Memory, mem': Memory, root: nat, i: nat, k: Key, j: nat, e: Entry)
    requires RowsKept(v, mem, mem', root, i, true)
    requires Distinct(v) && k in v.nodes
    requires forall r :: Key(r, 0, 0) in v.nodes ==> v.nodes[Key(r, 0, 0)] == r
    requires k.depth > 0 || (k == Key(root, 0, 0) && j == i)
    ensures RowsKept(v, mem, Put(mem', v.nodes[k], j, e), root, i, k.depth > 0)
  {
    var mem'' := Put(mem', v.nodes[k], j, e);
    forall r, x {:trigger At(mem'', r, x)} | Key(r, 0, 0) in v.nodes && (k.depth > 0 || r != root || x != i)
      ensures At(mem'', r, x) == At(mem, r, x)
    {
      assert At(mem', r, x) == At(mem, r, x);
      assert v.nodes[k] == r ==> k == Key(r, 0, 0);
    }
  }

  lemma RootsNamed(sh: Shape, mem: Memory, v: View)
    requires Tree(sh, mem, v)
    ensures forall r :: Key(r, 0, 0) in v.nodes ==> v.nodes[Key(r, 0, 0)] == r
  {
    forall r | Key(r, 0, 0) in v.nodes
      ensures v.nodes[Key(r, 0, 0)] == r
    {
      assert NodeOk(sh, mem, v, Key(r, 0, 0));
    }
  }

  lemma RowsKeptShared(sh: Shape, v: View, v': View, mem: Memory, mem': Memory, root: nat, i: nat, all: bool)
    requires Shared(sh, mem, v) && RowsKept(v, mem, mem', root, i, all)
    requires Key(sh.kernelRoot, 0, 0) in v.nodes
    requires forall r :: Key(r, 0, 0) in v'.nodes ==> Key(r, 0, 0) in v.nodes
    requires all || i < 256
    ensures Shared(sh, mem', v')
  {
    forall r | Key(r, 0, 0) in v'.nodes
      ensures SharedRow(sh, mem', r)
    {
      assert SharedRow(sh, mem, r);
      forall j | 256 <= j < 512
        ensures At(mem', r, j) == At(mem', sh.kernelRoot, j)
      {
        assert At(mem, r, j) == At(mem, sh.kernelRoot, j);
      }
    }
  }

  // ---- The tables on the way to a page ----

  /** `tables` are the frames of the tables on the way to a page, from the root down. */
  ghost predicate Trail(levels: nat, nodes: map<Key, nat>, root: nat, page: nat, tables: seq<nat>) {
    && 0 < |tables| <= levels + 1
    && forall d {:trigger tables[d]} :: 0 <= d < |tables| ==>
         && PathKey(levels, root, page, d) in nodes
         && tables[d] == nodes[PathKey(levels, root, page, d)]
  }

  lemma TrailAt(levels: nat, nodes: map<Key, nat>, root: nat, page: nat, tables: seq<nat>, d: nat)
    requires Trail(levels, nodes, root, page, tables) && d < |tables|
    ensures PathKey(levels, root, page, d) in nodes && tables[d] == nodes[PathKey(levels, root, page, d)]
  {
  }

  lemma TrailGrows(levels: nat, nodes: map<Key, nat>, root: nat, page: nat, tables: seq<nat>, f: nat)
    requires Trail(levels, nodes, root, page, tables) && |tables| <= levels
    requires PathKey(levels, root, page, |tables|) in nodes && f == nodes[PathKey(levels, root, page, |tables|)]
    ensures Trail(levels, nodes, root, page, tables + [f])
  {
    forall d | 0 <= d < |tables + [f]|
      ensures PathKey(levels, root, page, d) in nodes && (tables + [f])[d] == nodes[PathKey(levels, root, page, d)]
    {
      if d < |tables| {
        TrailAt(levels, nodes, root, page, tables, d);
      }
    }
  }

  lemma StoredTidy(sh: Shape, mem: Memory, v: View, root: nat, page: nat, d: nat, f: nat)
    requires Tree(sh, mem, v) && Rooted(sh, v, root) && d <= sh.levels && OnPath(sh, v, root, page, d, f)
    ensures f in mem && Tidy(mem[f])
  {
    assert NodeOk(sh, mem, v, Key(root, 0, 0));
    if d > 0 {
      assert NodeOk(sh, mem, v, PathKey(sh.levels, Home(sh, root, page), page, d));
    }
  }

  lemma TrailStep(mode: Mode, sh: Shape, mem: Memory, v: View, root: nat, page: nat, tables: seq<nat>)
    requires Tree(sh, mem, v) && Rooted(sh, v, root) && Home(sh, root, page) == root
    requires sh.levels == Depth(mode) && page < PageCount(mode)
    requires Trail(sh.levels, v.nodes, root, page, tables) && |tables| <= sh.levels
    ensures var f := tables[|tables| - 1];
            && f in mem && |mem[f]| == 512
            && var e := mem[f][Digit(sh.levels, page, |tables| - 1)];
               && !e.huge
               && (e.present ==> Trail(sh.levels, v.nodes, root, page, tables + [e.frame]))
               && (!e.present ==> Loc(root, page) !in v.maps)
  {
    var d := |tables| - 1;
    var f := tables[d];
    PathEnds(mode, root, page, sh);
    assert NodeOk(sh, mem, v, Key(root, 0, 0));
    WalkStep(mode, sh, mem, v, root, page, d, f);
    var e := mem[f][Digit(sh.levels, page, d)];
    StoredTidy(sh, mem, v, root, page, d, f);
    assert TidyAt(mem[f], Digit(sh.levels, page, d));
    if e.present {
      TrailGrows(sh.levels, v.nodes, root, page, tables, e.frame);
    } else if Loc(root, page) in v.maps {
      assert LeafOk(sh, mem, v, Loc(root, page));
      PathPrefix(sh, mem, v, root, page, d + 1, sh.levels);
    }
  }

  // ---- The loop that unlinks emptied tables ----

  /** Between two rounds of the loop: everything below `depth` on the path is gone, and only the
      table at `depth` may be empty. */
  ghost predicate PruneInv(sh: Shape, mem0: Memory, v0: View, mem: Memory, v: View, root: nat, page: nat, depth: nat,
                           freed: seq<nat>)
  {
    && depth <= sh.levels
    && Tree(sh, mem, v) && NoEmpty(mem, v, {PathKey(sh.levels, root, page, depth)})
    && mem.Keys == mem0.Keys
    && v.maps == v0.maps && Pruned(v0, v, root, freed)
    && (forall d :: 0 <= d <= sh.levels ==> (PathKey(sh.levels, root, page, d) in v.nodes <==> d <= depth))
    && RowsKept(v0, mem0, mem, root, Digit(sh.levels, page, 0), depth > 0)
  }

  lemma PruneStart(mode: Mode, sh: Shape, mem: Memory, v: View, root: nat, page: nat, tables: seq<nat>)
    requires Tree(sh, mem, v) && NoEmpty(mem, v, {PathKey(sh.levels, root, page, sh.levels)})
    requires Trail(sh.levels, v.nodes, root, page, tables) && |tables| == sh.levels + 1
    ensures PruneInv(sh, mem, v, mem, v, root, page, sh.levels, [])
    ensures forall d {:trigger tables[d]} :: 0 <= d < |tables| ==> tables[d] in mem
  {
    forall d | 0 <= d <= sh.levels
      ensures PathKey(sh.levels, root, page, d) in v.nodes && tables[d] in mem
    {
      TrailAt(sh.levels, v.nodes, root, page, tables, d);
      assert NodeOk(sh, mem, v, PathKey(sh.levels, root, page, d));
    }
  }

  lemma PruneStep(
    mode: Mode, sh: Shape, mem0: Memory, v0: View, mem: Memory, v: View, root: nat, page: nat, depth: nat,
    freed: seq<nat>, tables: seq<nat>)
    requires PruneInv(sh, mem0, v0, mem, v, root, page, depth, freed) && depth > 0
    requires Tree(sh, mem0, v0) && sh.levels == Depth(mode) && page < PageCount(mode)
    requires Trail(sh.levels, v0.nodes, root, page, tables) && |tables| == sh.levels + 1
    requires tables[depth] in mem && |mem[tables[depth]]| == 512 && IsEmpty(mem[tables[depth]])
    ensures var mem' := Put(mem, tables[depth - 1], Digit(sh.levels, page, depth - 1), NULL_ENTRY);
            var v' := DropNode(v, PathKey(sh.levels, root, page, depth));
            PruneInv(sh, mem0, v0, mem', v', root, page, depth - 1, freed + [tables[depth]])
  {
    var k, i := PathKey(sh.levels, root, page, depth), Digit(sh.levels, page, depth - 1);
    TrailAt(sh.levels, v0.nodes, root, page, tables, depth);
    TrailAt(sh.levels, v0.nodes, root, page, tables, depth - 1);
    PathStep(sh.levels, root, page, depth - 1);
    PathEnds(mode, root, page, sh);
    RootsNamed(sh, mem0, v0);
    UnlinkEmpty(sh, mem, v, k);
    PrunedGrows(v0, v, root, freed, k);
    RowsKeptWrite(sh, v0, mem0, mem, root, Digit(sh.levels, page, 0), Parent(k), i, NULL_ENTRY);
  }

  lemma PruneEnd(
    sh: Shape, mem0: Memory, v0: View, mem: Memory, v: View, root: nat, page: nat, depth: nat, freed: seq<nat>,
    tables: seq<nat>)
    requires PruneInv(sh, mem0, v0, mem, v, root, page, depth, freed)
    requires Trail(sh.levels, v0.nodes, root, page, tables) && |tables| == sh.levels + 1
    requires depth > 0 ==> tables[depth] in mem && |mem[tables[depth]]| == 512 && !IsEmpty(mem[tables[depth]])
    ensures Tree(sh, mem, v) && NoEmpty(mem, v, {})
    ensures mem.Keys == mem0.Keys
    ensures v.maps == v0.maps && Pruned(v0, v, root, freed)
    ensures sh.levels > 0 ==>
      RowsKept(v0, mem0, mem, root, Digit(sh.levels, page, 0), PathKey(sh.levels, root, page, 1) in v.nodes)
  {
    var k := PathKey(sh.levels, root, page, depth);
    if depth > 0 {
      TrailAt(sh.levels, v0.nodes, root, page, tables, depth);
      var i :| 0 <= i < 512 && mem[tables[depth]][i].present;
      assert At(mem, v.nodes[k], i).present;
    }
    NotBusy(mem, v, k);
  }

  lemma SizedPut(mem: Memory, f: nat, i: nat, e: Entry)
    requires forall g :: g in mem ==> |mem[g]| == 512
    ensures forall g :: g in Put(mem, f, i, e) ==> |Put(mem, f, i, e)[g]| == 512
    ensures Put(mem, f, i, e).Keys == mem.Keys
  {
  }

  lemma RowsKeptTwice(v: View, v1: View, mem: Memory, mem1: Memory, mem2: Memory, root: nat, i: nat, all: bool)
    requires RowsKept(v, mem, mem1, root, i, true) && RowsKept(v1, mem1, mem2, root, i, all) && v1.nodes == v.nodes
    ensures RowsKept(v, mem, mem2, root, i, all)
  {
    forall r, j {:trigger At(mem2, r, j)} | Key(r, 0, 0) in v.nodes && (all || r != root || j != i)
      ensures At(mem2, r, j) == At(mem, r, j)
    {
      assert At(mem2, r, j) == At(mem1, r, j);
    }
  }

  /** All of `unmap` on the forest, from the state before it and the state its loop leaves. */
  lemma UnmapFinish(
    mode: Mode, sh: Shape, mem: Memory, v: View, s: seq<FrameState>, mem1: Memory, v1: View, mem2: Memory, v2: View,
    root: nat, page: nat, freed: seq<nat>, s': seq<FrameState>)
    requires Tree(sh, mem, v) && Backed(v, s) && sh.levels == Depth(mode) && page < PageCount(mode)
    requires Key(root, 0, 0) in v.nodes && Key(sh.kernelRoot, 0, 0) in v.nodes
    requires Owns(sh, Key(root, 0, 0), Digit(sh.levels, page, 0))
    requires PathKey(sh.levels, root, page, sh.levels) in v.nodes
    requires mem1 == Put(mem, v.nodes[PathKey(sh.levels, root, page, sh.levels)], Digit(sh.levels, page, sh.levels),
                         NULL_ENTRY)
    requires v1.nodes == v.nodes && Pruned(v1, v2, root, freed) && |s'| == |s|
    requires forall f :: 0 <= f < |s| ==> s'[f] == if f in freed then Free else s[f]
    requires RowsKept(v1, mem1, mem2, root, Digit(sh.levels, page, 0), PathKey(sh.levels, root, page, 1) in v2.nodes)
    ensures Exchanged(v, s, v2, s') && Backed(v2, s') && Pruned(v, v2, root, freed)
    ensures
      && Shared(sh, mem, v)
      && (root == sh.kernelRoot && Digit(sh.levels, page, 0) >= 256 ==> PathKey(sh.levels, root, page, 1) in v2.nodes)
      ==> Shared(sh, mem2, v2)
  {
    PrunedExchanged(v, v2, root, freed, s, s');
    RootsNamed(sh, mem, v);
    var i, all := Digit(sh.levels, page, 0), PathKey(sh.levels, root, page, 1) in v2.nodes;
    RowsKeptWrite(sh, v, mem, mem, root, i, PathKey(sh.levels, root, page, sh.levels),
                  Digit(sh.levels, page, sh.levels), NULL_ENTRY);
    RowsKeptTwice(v, v1, mem, mem1, mem2, root, i, all);
    if Shared(sh, mem, v) && (root == sh.kernelRoot && i >= 256 ==> all) {
      RowsKeptShared(sh, v, v2, mem, mem2, root, i, all);
    }
  }
}
