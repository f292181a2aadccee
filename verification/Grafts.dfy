/** Adding a page together with the private tables that lead to it, and taking a page away
    together with the tables it leaves empty, as changes of the whole forest. */
module Grafts {
  import opened Addresses
  import opened Frames
  import opened Forest
  import opened Walks

  // ---- No table below a root is empty ----

  ghost predicate Occupied(mem: Memory, v: View, k: Key)
    requires k in v.nodes
  {
    exists i :: 0 <= i < 512 && At(mem, v.nodes[k], i).present
  }

  /** Every table below a root has a present entry, except those in `busy`. */
  ghost predicate NoEmpty(mem: Memory, v: View, busy: set<Key>) {
    forall k {:trigger Occupied(mem, v, k)} :: k in v.nodes && k.depth > 0 && k !in busy ==> Occupied(mem, v, k)
  }

  /** With no empty table, the tables that exist are exactly those on the way to a mapped page. */
  lemma {:induction false} OccupiedBelow(mode: Mode, sh: Shape, mem: Memory, v: View, k: Key) returns (l: Loc)
    requires Tree(sh, mem, v) && NoEmpty(mem, v, {}) && sh.levels == Depth(mode)
    requires k in v.nodes && k.depth > 0
    ensures l in v.maps && l.root == k.root
    ensures k.depth <= sh.levels && PathKey(sh.levels, k.root, l.page, k.depth) == k
    decreases sh.levels - k.depth
  {
    assert NodeOk(sh, mem, v, k);
    assert Occupied(mem, v, k);
    var i :| 0 <= i < 512 && At(mem, v.nodes[k], i).present;
    if k.depth == sh.levels {
      l := LocAt(k, i);
      LeafLoc(sh, k, i, l);
      assert LeafOk(sh, mem, v, l);
      assert Up(l.page, 1) == l.page / 512;
    } else {
      ChildParent(k, i);
      assert Child(k, i) in v.nodes;
      assert NodeOk(sh, mem, v, Child(k, i));
      l := OccupiedBelow(mode, sh, mem, v, Child(k, i));
      PathStep(sh.levels, k.root, l.page, k.depth);
    }
  }

  /** Two forests over the same roots that map the same pages have the same tables. */
  lemma SameMapsSameTables(mode: Mode, sh: Shape, mem: Memory, v: View, mem': Memory, v': View)
    requires Tree(sh, mem, v) && NoEmpty(mem, v, {}) && sh.levels == Depth(mode)
    requires Tree(sh, mem', v') && NoEmpty(mem', v', {})
    requires v.maps.Keys == v'.maps.Keys
    requires forall r :: Key(r, 0, 0) in v.nodes <==> Key(r, 0, 0) in v'.nodes
    ensures v.nodes.Keys == v'.nodes.Keys
  {
    forall k | k in v.nodes
      ensures k in v'.nodes
    {
      TableNeeded(mode, sh, mem, v, mem', v', k);
    }
    forall k | k in v'.nodes
      ensures k in v.nodes
    {
      TableNeeded(mode, sh, mem', v', mem, v, k);
    }
  }

  lemma TableNeeded(mode: Mode, sh: Shape, mem: Memory, v: View, mem': Memory, v': View, k: Key)
    requires Tree(sh, mem, v) && NoEmpty(mem, v, {}) && sh.levels == Depth(mode)
    requires Tree(sh, mem', v')
    requires v.maps.Keys <= v'.maps.Keys
    requires forall r :: Key(r, 0, 0) in v.nodes ==> Key(r, 0, 0) in v'.nodes
    requires k in v.nodes
    ensures k in v'.nodes
  {
    assert NodeOk(sh, mem, v, k);
    if k.depth == 0 {
      assert k == Key(k.root, 0, 0);
    } else {
      var l := OccupiedBelow(mode, sh, mem, v, k);
      assert LeafOk(sh, mem', v', l);
      assert Up(l.page, 1) == l.page / 512;
      PathPrefix(sh, mem', v', l.root, l.page, k.depth, sh.levels);
    }
  }

  // ---- Grafting a chain of private tables ----

  function TableEntry(f: nat, user: bool): Entry {
    Entry(true, Perms(true, true, user), false, false, false, f)
  }

  /** What is written at depth d on the way to the page: the next private table, or the leaf. */
  function NextEntry(privs: seq<nat>, leaf: Entry, user: bool): Entry {
    if privs == [] then leaf else TableEntry(privs[0], user)
  }

  function Put(mem: Memory, f: nat, i: nat, e: Entry): Memory {
    if f in mem && i < |mem[f]| then Write(mem, f, i, e) else mem
  }

  ghost function GraftMemory(levels: nat, mem: Memory, page: nat, d: nat, cur: nat, privs: seq<nat>, leaf: Entry,
                             user: bool): Memory
    requires d + |privs| == levels
    decreases |privs|
  {
    var mem1 := Put(mem, cur, Digit(levels, page, d), NextEntry(privs, leaf, user));
    if privs == [] then mem1
    else GraftMemory(levels, mem1, page, d + 1, privs[0], privs[1..], leaf, user)
  }

  ghost function GraftView(levels: nat, v: View, root: nat, page: nat, d: nat, privs: seq<nat>, leaf: Entry): View
    requires d + |privs| == levels
    decreases |privs|
  {
    if privs == [] then v.(maps := v.maps[Loc(root, page) := leaf])
    else GraftView(levels, v.(nodes := v.nodes[PathKey(levels, root, page, d + 1) := privs[0]]), root, page, d + 1,
                   privs[1..], leaf)
  }

  ghost predicate Private(mem: Memory, v: View, privs: seq<nat>) {
    && (forall x :: 0 <= x < |privs| ==> privs[x] in mem && mem[privs[x]] == ZeroTable() && privs[x] !in v.nodes.Values)
    && (forall x, y :: 0 <= x < y < |privs| ==> privs[x] != privs[y])
  }

  ghost predicate CanGraft(
    mode: Mode, sh: Shape, mem: Memory, v: View, root: nat, page: nat, d: nat, privs: seq<nat>, leaf: Entry, user: bool)
  {
    && Tree(sh, mem, v) && sh.levels == Depth(mode) && page < PageCount(mode)
    && d + |privs| == sh.levels && Private(mem, v, privs)
    && leaf.present && leaf.perms.user == user
    && Owns(sh, Key(root, 0, 0), Digit(sh.levels, page, 0))
    && var k := PathKey(sh.levels, root, page, d);
       && k in v.nodes
       && !At(mem, v.nodes[k], Digit(sh.levels, page, d)).present
       && (user && d > 0 ==> Link(mem, v, k).perms.user)
       && NoEmpty(mem, v, {k})
  }

  lemma OwnsOnPath(mode: Mode, sh: Shape, root: nat, page: nat, d: nat)
    requires sh.levels == Depth(mode) && page < PageCount(mode) && d <= sh.levels
    requires Owns(sh, Key(root, 0, 0), Digit(sh.levels, page, 0))
    ensures Owns(sh, PathKey(sh.levels, root, page, d), Digit(sh.levels, page, d))
  {
    PathEnds(mode, root, page, sh);
  }

  lemma OccupiedAfterWrite(mem: Memory, v: View, k: Key, i: nat, e: Entry, v': View, n: Key)
    requires k in v.nodes && v.nodes[k] in mem && |mem[v.nodes[k]]| == 512 && i < 512 && e.present
    requires n in v.nodes && n in v'.nodes && v'.nodes[n] == v.nodes[n]
    requires n == k || Occupied(mem, v, n)
    ensures Occupied(Write(mem, v.nodes[k], i, e), v', n)
  {
    var mem' := Write(mem, v.nodes[k], i, e);
    if n == k {
      assert At(mem', v'.nodes[n], i).present;
    } else {
      var j :| 0 <= j < 512 && At(mem, v.nodes[n], j).present;
      assert At(mem', v'.nodes[n], j).present;
    }
  }

  lemma GraftLeaf(mode: Mode, sh: Shape, mem: Memory, v: View, root: nat, page: nat, leaf: Entry, user: bool)
    requires CanGraft(mode, sh, mem, v, root, page, sh.levels, [], leaf, user)
    ensures var k := PathKey(sh.levels, root, page, sh.levels);
            var mem' := GraftMemory(sh.levels, mem, page, sh.levels, v.nodes[k], [], leaf, user);
            var v' := GraftView(sh.levels, v, root, page, sh.levels, [], leaf);
            Tree(sh, mem', v') && NoEmpty(mem', v', {})
  {
    var k, i := PathKey(sh.levels, root, page, sh.levels), Digit(sh.levels, page, sh.levels);
    PathEnds(mode, root, page, sh);
    SetLeaf(sh, mem, v, k, i, leaf);
    assert LocAt(k, i) == Loc(root, page);
    var mem', v' := Write(mem, v.nodes[k], i, leaf), LeafView(v, k, i, leaf);
    forall n | n in v'.nodes && n.depth > 0
      ensures Occupied(mem', v', n)
    {
      assert n != k ==> Occupied(mem, v, n);
      OccupiedAfterWrite(mem, v, k, i, leaf, v', n);
    }
  }

  lemma GraftStep(mode: Mode, sh: Shape, mem: Memory, v: View, root: nat, page: nat, d: nat, privs: seq<nat>,
                  leaf: Entry, user: bool)
    requires CanGraft(mode, sh, mem, v, root, page, d, privs, leaf, user) && privs != []
    ensures var k, i := PathKey(sh.levels, root, page, d), Digit(sh.levels, page, d);
            var mem1 := Put(mem, v.nodes[k], i, TableEntry(privs[0], user));
            var v1 := v.(nodes := v.nodes[PathKey(sh.levels, root, page, d + 1) := privs[0]]);
            && CanGraft(mode, sh, mem1, v1, root, page, d + 1, privs[1..], leaf, user)
            && PathKey(sh.levels, root, page, d + 1) !in v.nodes
  {
    var k, i := PathKey(sh.levels, root, page, d), Digit(sh.levels, page, d);
    var next, f := PathKey(sh.levels, root, page, d + 1), privs[0];
    var e := TableEntry(f, user);
    PathStep(sh.levels, root, page, d);
    OwnsOnPath(mode, sh, root, page, d);
    LinkFresh(sh, mem, v, k, i, f, e);
    LinkTable(sh, mem, v, k, i, f, e);
    var mem1, v1 := Write(mem, v.nodes[k], i, e), LinkView(v, k, i, f);
    forall n | n in v1.nodes && n.depth > 0 && n != next
      ensures Occupied(mem1, v1, n)
    {
      assert n != k ==> Occupied(mem, v, n);
      OccupiedAfterWrite(mem, v, k, i, e, v1, n);
    }
    PrivateRest(mem, v, privs, v.nodes[k], i, e, v1);
  }

  lemma PrivateRest(mem: Memory, v: View, privs: seq<nat>, f: nat, i: nat, e: Entry, v1: View)
    requires Private(mem, v, privs) && privs != []
    requires f in v.nodes.Values && f in mem && i < |mem[f]|
    requires v1.nodes.Values <= v.nodes.Values + {privs[0]}
    ensures Private(Write(mem, f, i, e), v1, privs[1..])
  {
    var rest := privs[1..];
    forall x | 0 <= x < |rest|
      ensures rest[x] != f && rest[x] != privs[0] && rest[x] !in v1.nodes.Values
    {
      assert rest[x] == privs[x + 1];
    }
  }

  lemma {:induction false} Graft(mode: Mode, sh: Shape, mem: Memory, v: View, root: nat, page: nat, d: nat,
                                 privs: seq<nat>, leaf: Entry, user: bool)
    requires CanGraft(mode, sh, mem, v, root, page, d, privs, leaf, user)
    ensures var k := PathKey(sh.levels, root, page, d);
            var mem' := GraftMemory(sh.levels, mem, page, d, v.nodes[k], privs, leaf, user);
            var v' := GraftView(sh.levels, v, root, page, d, privs, leaf);
            Tree(sh, mem', v') && NoEmpty(mem', v', {})
    decreases |privs|
  {
    if privs == [] {
      GraftLeaf(mode, sh, mem, v, root, page, leaf, user);
    } else {
      GraftStep(mode, sh, mem, v, root, page, d, privs, leaf, user);
      var k, i := PathKey(sh.levels, root, page, d), Digit(sh.levels, page, d);
      var mem1 := Put(mem, v.nodes[k], i, TableEntry(privs[0], user));
      var v1 := v.(nodes := v.nodes[PathKey(sh.levels, root, page, d + 1) := privs[0]]);
      Graft(mode, sh, mem1, v1, root, page, d + 1, privs[1..], leaf, user);
    }
  }

  /** The graft adds the private tables and the page, and nothing else. */
  lemma {:induction false} GraftAdds(levels: nat, v: View, root: nat, page: nat, d: nat, privs: seq<nat>, leaf: Entry)
    requires d + |privs| == levels
    requires forall j :: d < j <= levels ==> PathKey(levels, root, page, j) !in v.nodes
    ensures var v' := GraftView(levels, v, root, page, d, privs, leaf);
            && v'.maps == v.maps[Loc(root, page) := leaf]
            && v.nodes.Keys <= v'.nodes.Keys
            && (forall k :: k in v.nodes ==> v'.nodes[k] == v.nodes[k])
            && (forall k :: k in v'.nodes && k !in v.nodes ==> k.root == root && k.depth > 0)
            && v'.nodes.Values == v.nodes.Values + (set f | f in privs)
    decreases |privs|
  {
    if privs != [] {
      var next := PathKey(levels, root, page, d + 1);
      var v1 := v.(nodes := v.nodes[next := privs[0]]);
      GraftAdds(levels, v1, root, page, d + 1, privs[1..], leaf);
      assert privs == [privs[0]] + privs[1..];
      ValuesAfterInsert(v.nodes, next, privs[0]);
    }
  }

  /** The keys the graft adds are those of the missing tables on the way to the page. */
  lemma {:induction false} GraftKeys(levels: nat, v: View, root: nat, page: nat, d: nat, privs: seq<nat>, leaf: Entry)
    requires d + |privs| == levels
    ensures forall k :: k in GraftView(levels, v, root, page, d, privs, leaf).nodes <==>
              k in v.nodes || (d < k.depth <= levels && k == PathKey(levels, root, page, k.depth))
    decreases |privs|
  {
    if privs != [] {
      var v1 := v.(nodes := v.nodes[PathKey(levels, root, page, d + 1) := privs[0]]);
      GraftKeys(levels, v1, root, page, d + 1, privs[1..], leaf);
    }
  }

  lemma ValuesAfterInsert(m: map<Key, nat>, k: Key, f: nat)
    requires k !in m
    ensures m[k := f].Values == m.Values + {f}
  {
    var m' := m[k := f];
    assert m'[k] == f;
    forall x | x in m.Values
      ensures x in m'.Values
    {
      var n :| n in m && m[n] == x;
      assert m'[n] == x;
    }
  }

  /** What the graft leaves in each frame. */
  lemma {:induction false} GraftOther(
    levels: nat, mem: Memory, page: nat, d: nat, cur: nat, privs: seq<nat>, leaf: Entry, user: bool, f: nat)
    requires d + |privs| == levels && f in mem && f != cur && forall x :: 0 <= x < |privs| ==> privs[x] != f
    ensures f in GraftMemory(levels, mem, page, d, cur, privs, leaf, user)
    ensures GraftMemory(levels, mem, page, d, cur, privs, leaf, user)[f] == mem[f]
    decreases |privs|
  {
    if privs != [] {
      var mem1 := Put(mem, cur, Digit(levels, page, d), NextEntry(privs, leaf, user));
      GraftOther(levels, mem1, page, d + 1, privs[0], privs[1..], leaf, user, f);
    }
  }

  lemma {:induction false} GraftCurrent(
    levels: nat, mem: Memory, page: nat, d: nat, cur: nat, privs: seq<nat>, leaf: Entry, user: bool)
    requires d + |privs| == levels && cur in mem && |mem[cur]| == 512 && forall x :: 0 <= x < |privs| ==>
      privs[x] != cur
    ensures cur in GraftMemory(levels, mem, page, d, cur, privs, leaf, user)
    ensures GraftMemory(levels, mem, page, d, cur, privs, leaf, user)[cur]
         == mem[cur][Digit(levels, page, d) := NextEntry(privs, leaf, user)]
  {
    if privs != [] {
      var mem1 := Put(mem, cur, Digit(levels, page, d), NextEntry(privs, leaf, user));
      GraftOther(levels, mem1, page, d + 1, privs[0], privs[1..], leaf, user, cur);
    }
  }

  lemma {:induction false} GraftPrivate(
    levels: nat, mem: Memory, page: nat, d: nat, cur: nat, privs: seq<nat>, leaf: Entry, user: bool, x: nat)
    requires d + |privs| == levels && x < |privs| && cur != privs[x] && privs[x] in mem && |mem[privs[x]]| == 512
    requires forall x, y :: 0 <= x < y < |privs| ==> privs[x] != privs[y]
    ensures privs[x] in GraftMemory(levels, mem, page, d, cur, privs, leaf, user)
    ensures GraftMemory(levels, mem, page, d, cur, privs, leaf, user)[privs[x]]
         == mem[privs[x]][Digit(levels, page, d + 1 + x) := NextEntry(privs[x + 1..], leaf, user)]
    decreases |privs|
  {
    var mem1, rest := Put(mem, cur, Digit(levels, page, d), NextEntry(privs, leaf, user)), privs[1..];
    assert mem1[privs[x]] == mem[privs[x]];
    if x == 0 {
      GraftCurrent(levels, mem1, page, d + 1, privs[0], rest, leaf, user);
    } else {
      assert rest[x - 1] == privs[x] && rest[x..] == privs[x + 1..];
      GraftPrivate(levels, mem1, page, d + 1, privs[0], rest, leaf, user, x - 1);
    }
  }

  lemma {:induction false} GraftKeepsFrames(
    levels: nat, mem: Memory, page: nat, d: nat, cur: nat, privs: seq<nat>, leaf: Entry, user: bool)
    requires d + |privs| == levels
    ensures GraftMemory(levels, mem, page, d, cur, privs, leaf, user).Keys == mem.Keys
    decreases |privs|
  {
    if privs != [] {
      var mem1 := Put(mem, cur, Digit(levels, page, d), NextEntry(privs, leaf, user));
      GraftKeepsFrames(levels, mem1, page, d + 1, privs[0], privs[1..], leaf, user);
    }
  }

  lemma {:induction false} GraftFrames(levels: nat, mem: Memory, page: nat, d: nat, cur: nat, privs: seq<nat>,
                                       leaf: Entry, user: bool)
    requires d + |privs| == levels && cur in mem && |mem[cur]| == 512 && cur !in privs
    requires forall x :: 0 <= x < |privs| ==> privs[x] in mem && |mem[privs[x]]| == 512
    requires forall x, y :: 0 <= x < y < |privs| ==> privs[x] != privs[y]
    ensures var mem' := GraftMemory(levels, mem, page, d, cur, privs, leaf, user);
            && mem'.Keys == mem.Keys
            && mem'[cur] == mem[cur][Digit(levels, page, d) := NextEntry(privs, leaf, user)]
            && (forall x :: 0 <= x < |privs| ==>
                  mem'[privs[x]]
                  == mem[privs[x]][Digit(levels, page, d + 1 + x) := NextEntry(privs[x + 1..], leaf, user)])
            && (forall f :: f in mem && f != cur && f !in privs ==> mem'[f] == mem[f])
  {
    var mem' := GraftMemory(levels, mem, page, d, cur, privs, leaf, user);
    GraftKeepsFrames(levels, mem, page, d, cur, privs, leaf, user);
    GraftCurrent(levels, mem, page, d, cur, privs, leaf, user);
    forall x | 0 <= x < |privs|
      ensures mem'[privs[x]] == mem[privs[x]][Digit(levels, page, d + 1 + x) := NextEntry(privs[x + 1..], leaf, user)]
    {
      GraftPrivate(levels, mem, page, d, cur, privs, leaf, user, x);
    }
    forall f | f in mem && f != cur && f !in privs
      ensures mem'[f] == mem[f]
    {
      GraftOther(levels, mem, page, d, cur, privs, leaf, user, f);
    }
  }

  // ---- Frames move between the free set and the tables ----

  ghost predicate Backed(v: View, states: seq<FrameState>) {
    forall k :: k in v.nodes ==> v.nodes[k] < |states| && states[v.nodes[k]] == Allocated
  }

  /** Between s and s' the owned frames went from a to b: frames gained were free, frames given
      up are free, and no other frame changed state. */
  ghost predicate Moved(a: set<nat>, s: seq<FrameState>, b: set<nat>, s': seq<FrameState>) {
    && |s'| == |s|
    && (forall f :: f in b && f !in a ==> f < |s| && s[f] == Free)
    && (forall f :: 0 <= f < |s| ==>
          s'[f] == if f in b && f !in a then Allocated else if f in a && f !in b then Free else s[f])
  }

  ghost predicate AllAllocated(a: set<nat>, s: seq<FrameState>) {
    forall f :: f in a ==> f < |s| && s[f] == Allocated
  }

  lemma MovedTwice(a: set<nat>, s: seq<FrameState>, b: set<nat>, s': seq<FrameState>, c: set<nat>, s'': seq<FrameState>)
    requires AllAllocated(a, s) && Moved(a, s, b, s') && Moved(b, s', c, s'')
    ensures Moved(a, s, c, s'')
  {
  }

  /** Frames that are owned all along do not matter. */
  lemma MovedBeside(a: set<nat>, s: seq<FrameState>, b: set<nat>, s': seq<FrameState>, rest: set<nat>)
    requires Moved(a, s, b, s') && AllAllocated(rest, s) && rest !! a
    ensures Moved(a + rest, s, b + rest, s') && AllAllocated(rest, s') && rest !! b
  {
  }

  /** Frames that became tables were free, frames that stopped being tables are free,
      and no other frame changed state. */
  ghost predicate Exchanged(v: View, s: seq<FrameState>, v': View, s': seq<FrameState>) {
    Moved(v.nodes.Values, s, v'.nodes.Values, s')
  }

  lemma BackedAllocated(v: View, s: seq<FrameState>)
    requires Backed(v, s)
    ensures AllAllocated(v.nodes.Values, s)
  {
  }

  lemma ExchangedTwice(v: View, s: seq<FrameState>, v': View, s': seq<FrameState>, v'': View, s'': seq<FrameState>)
    requires Backed(v, s) && Exchanged(v, s, v', s') && Exchanged(v', s', v'', s'')
    ensures Exchanged(v, s, v'', s'')
  {
  }

  /** If the tables are back in the frames they were in, so is every frame's state. */
  lemma ExchangedBack(v: View, s: seq<FrameState>, v': View, s': seq<FrameState>)
    requires Exchanged(v, s, v', s') && v'.nodes == v.nodes
    ensures s' == s
  {
  }
}
