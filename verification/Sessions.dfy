/** Runs of `map` calls that may have to be undone: what has been added so far, and why undoing
    it page by page restores everything. */
module Sessions {
  import opened Addresses
  import opened Frames
  import opened Forest
  import opened Grafts
  import opened PageTables

  datatype Item = Item(loc: Loc, leaf: Entry)

  ghost function AddAll(m: map<Loc, Entry>, items: seq<Item>): map<Loc, Entry> {
    if items == [] then m
    else var last := items[|items| - 1]; AddAll(m, items[..|items| - 1])[last.loc := last.leaf]
  }

  /** Each item is a page that was not mapped when it was added. */
  ghost predicate FreshItems(m: map<Loc, Entry>, items: seq<Item>) {
    items != [] ==>
      && FreshItems(m, items[..|items| - 1])
      && items[|items| - 1].loc !in AddAll(m, items[..|items| - 1])
  }

  /** From view v0 and states s0, `items` are mapped and the frames `held` are set aside; the
      tables are some of those of `mid`, the largest view of the run. */
  ghost predicate Undoing(
    v0: View, s0: seq<FrameState>, mid: View, v: View, s: seq<FrameState>, root: nat, items: seq<Item>, held: set<nat>)
  {
    && v.maps == AddAll(v0.maps, items) && FreshItems(v0.maps, items)
    && Grown(v0, mid, root) && Grown(v, mid, root)
    && held !! v.nodes.Values && AllAllocated(held, s)
    && Moved(v0.nodes.Values, s0, v.nodes.Values + held, s)
  }

  /** While nothing is being undone, the current view is the largest. */
  ghost predicate Session(
    v0: View, s0: seq<FrameState>, v: View, s: seq<FrameState>, root: nat, items: seq<Item>, held: set<nat>)
  {
    Undoing(v0, s0, v, v, s, root, items, held)
  }

  lemma SessionStart(v: View, s: seq<FrameState>, root: nat)
    ensures Session(v, s, v, s, root, [], {})
  {
    assert v.nodes.Values + {} == v.nodes.Values;
  }

  lemma SessionHold(v0: View, s0: seq<FrameState>, v: View, s: seq<FrameState>, root: nat, items: seq<Item>,
                    held: set<nat>, f: nat)
    requires Session(v0, s0, v, s, root, items, held) && Backed(v, s) && Backed(v0, s0)
    requires f < |s| && s[f] == Free
    ensures Session(v0, s0, v, s[f := Allocated], root, items, held + {f})
  {
    var a := v.nodes.Values + held;
    BackedAllocated(v0, s0);
    BackedAllocated(v, s);
    assert f !in a;
    assert Moved(a, s, a + {f}, s[f := Allocated]);
    MovedTwice(v0.nodes.Values, s0, a, s, a + {f}, s[f := Allocated]);
    assert a + {f} == v.nodes.Values + (held + {f});
  }

  lemma SessionAdd(
    v0: View, s0: seq<FrameState>, v: View, s: seq<FrameState>, root: nat, items: seq<Item>, held: set<nat>,
    v': View, s': seq<FrameState>, item: Item)
    requires Session(v0, s0, v, s, root, items, held) && Backed(v0, s0)
    requires Added(v, s, v', s', item.loc, item.leaf) && item.loc !in v.maps && item.loc.root == root
    ensures Session(v0, s0, v', s', root, items + [item], held)
  {
    BackedAllocated(v0, s0);
    MovedBeside(v.nodes.Values, s, v'.nodes.Values, s', held);
    MovedTwice(v0.nodes.Values, s0, v.nodes.Values + held, s, v'.nodes.Values + held, s');
    assert (items + [item])[..|items|] == items;
  }

  lemma UndoStep(
    v0: View, s0: seq<FrameState>, mid: View, v: View, s: seq<FrameState>, root: nat, items: seq<Item>, held: set<nat>,
    v': View, s': seq<FrameState>)
    requires Undoing(v0, s0, mid, v, s, root, items, held) && Backed(v0, s0) && items != []
    requires Removed(v, s, v', s', items[|items| - 1].loc) && items[|items| - 1].loc.root == root
    ensures Undoing(v0, s0, mid, v', s', root, items[..|items| - 1], held)
  {
    BackedAllocated(v0, s0);
    MovedBeside(v.nodes.Values, s, v'.nodes.Values, s', held);
    MovedTwice(v0.nodes.Values, s0, v.nodes.Values + held, s, v'.nodes.Values + held, s');
    var rest := AddAll(v0.maps, items[..|items| - 1]);
    assert v'.maps == rest;
  }

  /** When everything is undone, every page, every table and every frame is as it was. */
  lemma UndoEnd(
    mode: Mode, sh: Shape, mem0: Memory, v0: View, s0: seq<FrameState>, mid: View, mem: Memory, v: View,
    s: seq<FrameState>, root: nat)
    requires Undoing(v0, s0, mid, v, s, root, [], {}) && sh.levels == Depth(mode)
    requires Tree(sh, mem0, v0) && NoEmpty(mem0, v0, {}) && Tree(sh, mem, v) && NoEmpty(mem, v, {})
    ensures v == v0 && s == s0
  {
    forall r
      ensures Key(r, 0, 0) in v.nodes <==> Key(r, 0, 0) in v0.nodes
    {
    }
    SameMapsSameTables(mode, sh, mem0, v0, mem, v);
    assert v.nodes == v0.nodes;
    assert v.nodes.Values + {} == v.nodes.Values;
    assert Exchanged(v0, s0, v, s);
    ExchangedBack(v0, s0, v, s);
  }

  // ---- Looking up what was added ----

  /** Pages that were not added are as they were. */
  lemma {:induction false} AddAllOther(m: map<Loc, Entry>, items: seq<Item>, l: Loc)
    requires forall i :: 0 <= i < |items| ==> items[i].loc != l
    ensures l in AddAll(m, items) <==> l in m
    ensures l in m ==> AddAll(m, items)[l] == m[l]
  {
    if items != [] {
      AddAllOther(m, items[..|items| - 1], l);
    }
  }

  /** Pages that were mapped stay mapped, and as they were. */
  lemma {:induction false} AddAllKeeps(m: map<Loc, Entry>, items: seq<Item>, l: Loc)
    requires FreshItems(m, items) && l in m
    ensures l in AddAll(m, items) && AddAll(m, items)[l] == m[l]
  {
    if items != [] {
      AddAllKeeps(m, items[..|items| - 1], l);
    }
  }

  /** Each added page is mapped as it was added, and was not mapped before. */
  lemma {:induction false} AddAllItem(m: map<Loc, Entry>, items: seq<Item>, i: nat)
    requires FreshItems(m, items) && i < |items|
    ensures items[i].loc in AddAll(m, items) && AddAll(m, items)[items[i].loc] == items[i].leaf
    ensures items[i].loc !in m
  {
    var n := |items| - 1;
    var rest := items[..n];
    if i < n {
      AddAllItem(m, rest, i);
      assert rest[i] == items[i];
    } else if items[n].loc in m {
      AddAllKeeps(m, rest, items[n].loc);
    }
  }

  lemma {:induction false} ItemsDistinct(m: map<Loc, Entry>, items: seq<Item>, i: nat, j: nat)
    requires FreshItems(m, items) && i < j < |items|
    ensures items[i].loc != items[j].loc
  {
    var n := |items| - 1;
    var rest := items[..n];
    assert rest[i] == items[i];
    if j < n {
      ItemsDistinct(m, rest, i, j);
      assert rest[j] == items[j];
    } else {
      AddAllItem(m, rest, i);
    }
  }

  // ---- Taking mapped pages and their frames away ----

  ghost function Locs(items: seq<Item>): set<Loc> {
    set i | 0 <= i < |items| :: items[i].loc
  }

  lemma RemoveAllAdded(m: map<Loc, Entry>, items: seq<Item>)
    requires FreshItems(m, items)
    ensures AddAll(m, items) - Locs(items) == m
  {
    var added := AddAll(m, items);
    forall l
      ensures l in added - Locs(items) <==> l in m
      ensures l in m ==> added[l] == m[l]
    {
      if l in Locs(items) {
        var i :| 0 <= i < |items| && items[i].loc == l;
        AddAllItem(m, items, i);
      } else {
        AddAllOther(m, items, l);
      }
    }
  }

  /** From view v0 and states s0, with the frames `held0` set aside, the pages `gone` are unmapped
      and `held` are the frames still set aside. */
  ghost predicate Tearing(
    v0: View, s0: seq<FrameState>, held0: set<nat>, v: View, s: seq<FrameState>, root: nat, gone: set<Loc>,
    held: set<nat>)
  {
    && v.maps == v0.maps - gone && Grown(v, v0, root)
    && held !! v.nodes.Values && AllAllocated(held, s)
    && Moved(v0.nodes.Values + held0, s0, v.nodes.Values + held, s)
  }

  lemma TearStart(v: View, s: seq<FrameState>, root: nat, held: set<nat>)
    requires held !! v.nodes.Values && AllAllocated(held, s)
    ensures Tearing(v, s, held, v, s, root, {}, held)
  {
    assert v.maps - {} == v.maps;
  }

  lemma TearStep(
    v0: View, s0: seq<FrameState>, held0: set<nat>, v: View, s: seq<FrameState>, root: nat, gone: set<Loc>,
    held: set<nat>,
    v': View, s': seq<FrameState>, l: Loc)
    requires Tearing(v0, s0, held0, v, s, root, gone, held) && AllAllocated(v0.nodes.Values + held0, s0)
    requires Removed(v, s, v', s', l) && l.root == root
    ensures Tearing(v0, s0, held0, v', s', root, gone + {l}, held)
  {
    MovedBeside(v.nodes.Values, s, v'.nodes.Values, s', held);
    MovedTwice(v0.nodes.Values + held0, s0, v.nodes.Values + held, s, v'.nodes.Values + held, s');
    assert v0.maps - gone - {l} == v0.maps - (gone + {l});
  }

  lemma TearRelease(
    v0: View, s0: seq<FrameState>, held0: set<nat>, v: View, s: seq<FrameState>, root: nat, gone: set<Loc>,
    held: set<nat>, f: nat)
    requires Tearing(v0, s0, held0, v, s, root, gone, held) && AllAllocated(v0.nodes.Values + held0, s0) && f in held
    ensures f < |s| && s[f] == Allocated
    ensures Tearing(v0, s0, held0, v, s[f := Free], root, gone, held - {f})
  {
    var a, b := v.nodes.Values + held, v.nodes.Values + (held - {f});
    assert Moved(a, s, b, s[f := Free]);
    MovedTwice(v0.nodes.Values + held0, s0, a, s, b, s[f := Free]);
  }

  /** Tearing down all that a session added ends the session as if nothing had been added. */
  lemma TearUndoes(
    v0: View, s0: seq<FrameState>, v: View, s: seq<FrameState>, root: nat, items: seq<Item>, held: set<nat>,
    v': View, s': seq<FrameState>)
    requires Session(v0, s0, v, s, root, items, held) && Backed(v0, s0)
    requires Tearing(v, s, held, v', s', root, Locs(items), {})
    ensures Undoing(v0, s0, v, v', s', root, [], {})
  {
    RemoveAllAdded(v0.maps, items);
    BackedAllocated(v0, s0);
    MovedTwice(v0.nodes.Values, s0, v.nodes.Values + held, s, v'.nodes.Values + {}, s');
  }
}
