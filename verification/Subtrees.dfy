/** Removing everything below a table: which tables and pages go, and that the rest of the forest
    stays as it is. */
module Subtrees {
  import opened Addresses
  import opened Frames
  import opened Forest
  import opened Walks
  import opened Grafts
  import opened UnmapSteps

  lemma {:induction false} UpOnce(p: nat, j: nat)
    ensures Up(p, j + 1) == Up(p / 512, j)
  {
    if j > 0 {
      UpOnce(p, j - 1);
    }
  }

  /** n lies below k, or is k. */
  predicate Under(n: Key, k: Key) {
    n.root == k.root && n.depth >= k.depth && Up(n.prefix, n.depth - k.depth) == k.prefix
  }

  /** Which entry of k leads to n. */
  function Branch(n: Key, k: Key): nat
    requires n.depth > k.depth
  {
    Up(n.prefix, n.depth - k.depth - 1) % 512
  }

  /** n lies strictly below k, through one of its first `upto` entries. */
  predicate Gone(n: Key, k: Key, upto: nat) {
    Under(n, k) && n.depth > k.depth && Branch(n, k) < upto
  }

  lemma UnderParent(n: Key, k: Key)
    requires Under(n, k) && n.depth > k.depth
    ensures Under(Parent(n), k)
  {
    UpOnce(n.prefix, n.depth - k.depth - 1);
  }

  /** The next entry adds its child and everything below it. */
  lemma GoneStep(n: Key, k: Key, i: nat)
    requires i < 512
    ensures Gone(n, k, i + 1) <==> Gone(n, k, i) || n == Child(k, i) || Gone(n, Child(k, i), 512)
  {
    var c := Child(k, i);
    if n.depth > k.depth {
      var j := n.depth - k.depth - 1;
      assert Up(n.prefix, j + 1) == Up(n.prefix, j) / 512;
      assert Under(n, k) && Branch(n, k) == i <==> Under(n, c);
      assert n.depth == c.depth ==> Up(n.prefix, 0) == n.prefix;
    }
  }

  lemma {:induction false} AncestorExists(sh: Shape, mem: Memory, v: View, n: Key, k: Key)
    requires Tree(sh, mem, v) && n in v.nodes && Under(n, k)
    ensures k in v.nodes
    decreases n.depth - k.depth
  {
    if n.depth > k.depth {
      assert NodeOk(sh, mem, v, n);
      UnderParent(n, k);
      AncestorExists(sh, mem, v, Parent(n), k);
    }
  }

  /** The view without what lies below the first `upto` entries of k. */
  ghost function Without(sh: Shape, v: View, k: Key, upto: nat): View {
    View(map n | n in v.nodes && !Gone(n, k, upto) :: v.nodes[n],
         map l | l in v.maps && !Gone(TableKey(sh, l), k, upto) :: v.maps[l])
  }

  lemma WithoutNone(sh: Shape, v: View, k: Key)
    ensures Without(sh, v, k, 0) == v
  {
    assert Without(sh, v, k, 0).nodes == v.nodes;
    assert Without(sh, v, k, 0).maps == v.maps;
  }

  /** Nothing lies below a last-level table. */
  lemma WithoutLast(sh: Shape, mem: Memory, v: View, k: Key)
    requires Tree(sh, mem, v) && k.depth == sh.levels
    ensures Without(sh, v, k, 512) == v
  {
    forall n | n in v.nodes
      ensures !Gone(n, k, 512)
    {
      assert NodeOk(sh, mem, v, n);
    }
    assert Without(sh, v, k, 512).nodes == v.nodes;
    assert Without(sh, v, k, 512).maps == v.maps;
  }

  lemma WithoutSkip(sh: Shape, mem: Memory, v0: View, v: View, k: Key, i: nat)
    requires Tree(sh, mem, v) && v == Without(sh, v0, k, i) && i < 512 && Child(k, i) !in v.nodes
    ensures Without(sh, v0, k, i + 1) == v
  {
    forall n | n in v.nodes
      ensures !Gone(n, k, i + 1)
    {
      GoneStep(n, k, i);
      if Gone(n, Child(k, i), 512) {
        AncestorExists(sh, mem, v, n, Child(k, i));
      }
    }
    forall n | n in v0.nodes && !Gone(n, k, i + 1)
      ensures n in v.nodes
    {
      GoneStep(n, k, i);
    }
    forall l | l in v.maps
      ensures !Gone(TableKey(sh, l), k, i + 1)
    {
      assert LeafOk(sh, mem, v, l);
    }
    forall l | l in v0.maps && !Gone(TableKey(sh, l), k, i + 1)
      ensures l in v.maps
    {
      GoneStep(TableKey(sh, l), k, i);
    }
    assert Without(sh, v0, k, i + 1).nodes == v.nodes;
    assert Without(sh, v0, k, i + 1).maps == v.maps;
  }

  lemma WithoutChild(sh: Shape, v0: View, k: Key, i: nat)
    requires i < 512
    ensures var c := Child(k, i);
            UnlinkView(sh, Without(sh, Without(sh, v0, k, i), c, 512), c) == Without(sh, v0, k, i + 1)
  {
    var c := Child(k, i);
    var a := UnlinkView(sh, Without(sh, Without(sh, v0, k, i), c, 512), c);
    var b := Without(sh, v0, k, i + 1);
    forall n | n in v0.nodes
      ensures n in a.nodes <==> n in b.nodes
    {
      GoneStep(n, k, i);
    }
    forall l | l in v0.maps
      ensures l in a.maps <==> l in b.maps
    {
      GoneStep(TableKey(sh, l), k, i);
    }
    assert a.nodes == b.nodes;
    assert a.maps == b.maps;
  }

  /** After the whole range is gone, k has no child left. */
  lemma NoChildLeft(sh: Shape, v: View, k: Key)
    ensures forall i :: 0 <= i < 512 ==> Child(k, i) !in Without(sh, v, k, 512).nodes
  {
    forall i | 0 <= i < 512
      ensures Gone(Child(k, i), k, 512)
    {
      var c := Child(k, i);
      assert Up(c.prefix, 0) == c.prefix;
      assert Up(c.prefix, 1) == c.prefix / 512;
    }
  }

  // ---- What the rest of the forest sees ----

  /** No table below another root is empty. */
  ghost predicate NoEmptyBut(mem: Memory, v: View, r: nat) {
    forall k {:trigger Occupied(mem, v, k)} :: k in v.nodes && k.depth > 0 && k.root != r ==> Occupied(mem, v, k)
  }

  /** Tables below other roots are where and what they were. */
  ghost predicate OthersKept(v0: View, mem0: Memory, v: View, mem: Memory, r: nat) {
    && mem.Keys == mem0.Keys
    && (forall k: Key :: k.root != r ==> (k in v.nodes <==> k in v0.nodes))
    && (forall k :: k in v0.nodes && k.root != r ==>
          && v.nodes[k] == v0.nodes[k]
          && v0.nodes[k] in mem0 && mem[v0.nodes[k]] == mem0[v0.nodes[k]])
    && (forall l: Loc :: l.root != r ==> (l in v.maps <==> l in v0.maps) && (l in v.maps ==> v.maps[l] == v0.maps[l]))
  }

  lemma OthersKeptTwice(v0: View, mem0: Memory, v1: View, mem1: Memory, v2: View, mem2: Memory, r: nat)
    requires OthersKept(v0, mem0, v1, mem1, r) && OthersKept(v1, mem1, v2, mem2, r)
    ensures OthersKept(v0, mem0, v2, mem2, r)
  {
  }

  lemma OthersNotEmpty(v0: View, mem0: Memory, v: View, mem: Memory, r: nat)
    requires NoEmptyBut(mem0, v0, r) && OthersKept(v0, mem0, v, mem, r)
    ensures NoEmptyBut(mem, v, r)
  {
    forall k | k in v.nodes && k.depth > 0 && k.root != r
      ensures Occupied(mem, v, k)
    {
      assert Occupied(mem0, v0, k);
      var i :| 0 <= i < 512 && At(mem0, v0.nodes[k], i).present;
      assert At(mem, v.nodes[k], i).present;
    }
  }

  lemma OthersShared(sh: Shape, v0: View, mem0: Memory, v: View, mem: Memory, r: nat)
    requires Tree(sh, mem0, v0) && Shared(sh, mem0, v0) && OthersKept(v0, mem0, v, mem, r)
    requires r != sh.kernelRoot && Key(sh.kernelRoot, 0, 0) in v0.nodes && Key(r, 0, 0) !in v.nodes
    ensures Shared(sh, mem, v)
  {
    RootsNamed(sh, mem0, v0);
    forall q | Key(q, 0, 0) in v.nodes
      ensures SharedRow(sh, mem, q)
    {
      assert SharedRow(sh, mem0, q);
      forall i | 256 <= i < 512
        ensures At(mem, q, i) == At(mem, sh.kernelRoot, i)
      {
        assert At(mem0, q, i) == At(mem0, sh.kernelRoot, i);
        assert v0.nodes[Key(q, 0, 0)] == q && v0.nodes[Key(sh.kernelRoot, 0, 0)] == sh.kernelRoot;
      }
    }
  }

  // ---- One table is removed and its frame freed ----

  /** Removing a table whose children are gone, and freeing its frame. */
  lemma RemoveTable(sh: Shape, mem: Memory, v: View, s: seq<FrameState>, k: Key)
    requires Tree(sh, mem, v) && Backed(v, s) && k in v.nodes
    requires forall i :: 0 <= i < 512 ==> Child(k, i) !in v.nodes
    ensures k.depth > 0 ==> Parent(k) in v.nodes
    ensures var mem' := if k.depth > 0 then Put(mem, v.nodes[Parent(k)], Slot(k), NULL_ENTRY) else mem;
            var v' := UnlinkView(sh, v, k);
            && Tree(sh, mem', v')
            && OthersKept(v, mem, v', mem', k.root)
            && v.nodes[k] < |s| && s[v.nodes[k]] == Allocated
            && Exchanged(v, s, v', s[v.nodes[k] := Free]) && Backed(v', s[v.nodes[k] := Free])
  {
    var v' := UnlinkView(sh, v, k);
    assert NodeOk(sh, mem, v, k);
    if k.depth > 0 {
      assert NodeOk(sh, mem, v, Parent(k));
    }
    UnlinkTable(sh, mem, v, k);
    RemoveOthers(sh, mem, v, k);
    RemoveFrame(v, v', s, k);
  }

  lemma RemoveOthers(sh: Shape, mem: Memory, v: View, k: Key)
    requires Tree(sh, mem, v) && k in v.nodes
    ensures k.depth > 0 ==> Parent(k) in v.nodes
    ensures var mem' := if k.depth > 0 then Put(mem, v.nodes[Parent(k)], Slot(k), NULL_ENTRY) else mem;
            OthersKept(v, mem, UnlinkView(sh, v, k), mem', k.root)
  {
    assert NodeOk(sh, mem, v, k);
    forall n | n in v.nodes && n.root != k.root
      ensures v.nodes[n] in mem && (k.depth > 0 ==> v.nodes[n] != v.nodes[Parent(k)])
    {
      assert NodeOk(sh, mem, v, n);
    }
  }

  lemma RemoveFrame(v: View, v': View, s: seq<FrameState>, k: Key)
    requires Distinct(v) && Backed(v, s) && k in v.nodes && v'.nodes == v.nodes - {k}
    ensures Exchanged(v, s, v', s[v.nodes[k] := Free]) && Backed(v', s[v.nodes[k] := Free])
  {
    var f := v.nodes[k];
    assert f in v.nodes.Values;
    assert f !in v'.nodes.Values;
    forall g | g in v.nodes.Values && g != f
      ensures g in v'.nodes.Values
    {
      var n :| n in v.nodes && v.nodes[n] == g;
      assert v'.nodes[n] == g;
    }
    assert v'.nodes.Values <= v.nodes.Values;
  }

  /** A present entry of an owned slot leads to exactly the child table. */
  lemma EntryChild(sh: Shape, mem: Memory, v: View, k: Key, i: nat)
    requires Tree(sh, mem, v) && k in v.nodes && k.depth < sh.levels && i < 512 && Owns(sh, k, i)
    ensures v.nodes[k] in mem && |mem[v.nodes[k]]| == 512
    ensures mem[v.nodes[k]][i].present <==> Child(k, i) in v.nodes
    ensures mem[v.nodes[k]][i].present ==> v.nodes[Child(k, i)] == mem[v.nodes[k]][i].frame
    ensures Parent(Child(k, i)) == k && Slot(Child(k, i)) == i
  {
    ChildParent(k, i);
    assert NodeOk(sh, mem, v, k);
    assert Child(k, i) in v.nodes ==> NodeOk(sh, mem, v, Child(k, i));
  }

  /** Everything below a user root lies under its lower half. */
  lemma UserRootEmptied(sh: Shape, mem0: Memory, v0: View, v: View, r: nat)
    requires Tree(sh, mem0, v0) && r != sh.kernelRoot && v == Without(sh, v0, Key(r, 0, 0), 256)
    ensures forall n :: n in v.nodes && n.root == r ==> n == Key(r, 0, 0)
    ensures forall i :: 0 <= i < 512 ==> Child(Key(r, 0, 0), i) !in v.nodes
    ensures forall l :: l in v.maps ==> l.root != r
  {
    forall n | n in v0.nodes && n.root == r && n.depth > 0
      ensures Gone(n, Key(r, 0, 0), 256)
    {
      UserTableGone(sh, mem0, v0, n);
    }
    forall n | n in v.nodes && n.root == r
      ensures n == Key(r, 0, 0)
    {
      assert NodeOk(sh, mem0, v0, n);
    }
    forall l | l in v.maps
      ensures l.root != r
    {
      assert LeafOk(sh, mem0, v0, l);
    }
  }

  lemma {:induction false} UserTableGone(sh: Shape, mem: Memory, v: View, n: Key)
    requires Tree(sh, mem, v) && n in v.nodes && n.depth > 0 && n.root != sh.kernelRoot
    ensures Gone(n, Key(n.root, 0, 0), 256)
    decreases n.depth
  {
    assert NodeOk(sh, mem, v, n);
    assert Up(n.prefix, 0) == n.prefix && Up(n.prefix, 1) == n.prefix / 512;
    if n.depth == 1 {
      assert NodeOk(sh, mem, v, Parent(n));
    } else {
      UserTableGone(sh, mem, v, Parent(n));
      UpOnce(n.prefix, n.depth - 1);
      UpOnce(n.prefix, n.depth - 2);
    }
  }
}
