/** What `map` and `unmap` do to the raw entries of the tables that exist all along, user bits of links
    included, and exactly when one undoes the other entry by entry. */
module RawEntries {
  import opened Addresses
  import opened Forest
  import opened Walks
  import opened Grafts
  import opened MapSteps
  import opened UnmapSteps

  /** Entry i of table k is on the way to the page. */
  predicate OnWay(levels: nat, root: nat, page: nat, k: Key, i: nat) {
    k.depth <= levels && k == PathKey(levels, root, page, k.depth) && i == Digit(levels, page, k.depth)
  }

  function Opened(e: Entry): Entry {
    e.(perms := e.perms.(user := true))
  }

  /** `map` sets the user bit of the links on its way if its page is a user page, and changes no other entry
      that was there. */
  ghost predicate MappedAt(
    sh: Shape, mem: Memory, v: View, mem': Memory, root: nat, page: nat, user: bool, k: Key, i: nat)
  {
    k in v.nodes && i < 512 ==>
      var e, e', way := At(mem, v.nodes[k], i), At(mem', v.nodes[k], i), OnWay(sh.levels, root, page, k, i);
      && (e.present ==> e' == if user && way then Opened(e) else e)
      && (!e.present && !way ==> e' == e)
  }

  ghost predicate RawMapped(sh: Shape, mem: Memory, v: View, mem': Memory, root: nat, page: nat, user: bool) {
    forall k, i: nat {:trigger MappedAt(sh, mem, v, mem', root, page, user, k, i)} ::
      MappedAt(sh, mem, v, mem', root, page, user, k, i)
  }

  /** Entry i of table k led to the page that is gone, or to a table that is gone. */
  predicate Cut(levels: nat, root: nat, page: nat, nodes: set<Key>, k: Key, i: nat) {
    OnWay(levels, root, page, k, i) && (k.depth == levels || PathKey(levels, root, page, k.depth + 1) !in nodes)
  }

  /** `unmap` clears the last entry on its way whose table stays, and changes no other. */
  ghost predicate UnmappedAt(sh: Shape, mem: Memory, mem': Memory, v': View, root: nat, page: nat, k: Key, i: nat) {
    k in v'.nodes && i < 512 ==>
      At(mem', v'.nodes[k], i)
      == if Cut(sh.levels, root, page, v'.nodes.Keys, k, i) then NULL_ENTRY else At(mem, v'.nodes[k], i)
  }

  ghost predicate RawUnmapped(sh: Shape, mem: Memory, mem': Memory, v': View, root: nat, page: nat) {
    forall k, i: nat {:trigger UnmappedAt(sh, mem, mem', v', root, page, k, i)} ::
      UnmappedAt(sh, mem, mem', v', root, page, k, i)
  }

  // ---- map ----

  /** Upgrading opens exactly the listed entries. */
  lemma {:induction false} UpgradeExact(mem: Memory, ups: seq<Place>, f: nat, i: nat)
    requires At(mem, f, i).present
    ensures At(UpgradeAll(mem, ups), f, i) == if Place(f, i) in ups then Opened(At(mem, f, i)) else At(mem, f, i)
  {
    if ups != [] {
      var rest := ups[..|ups| - 1];
      UpgradeExact(mem, rest, f, i);
      UpgradeFrame(mem, rest);
      assert ups == rest + [ups[|ups| - 1]];
    }
  }

  /** Above a user-accessible link all links of the path are user-accessible. */
  lemma {:induction false} UserAbove(sh: Shape, mem: Memory, v: View, root: nat, page: nat, u: nat, j: nat)
    requires Tree(sh, mem, v) && 0 < j <= u <= sh.levels
    requires forall d :: 0 <= d <= u ==> PathKey(sh.levels, root, page, d) in v.nodes
    requires Link(mem, v, PathKey(sh.levels, root, page, u)).perms.user
    ensures Link(mem, v, PathKey(sh.levels, root, page, j)).perms.user
    decreases u
  {
    if j < u {
      PathStep(sh.levels, root, page, u - 1);
      assert NodeOk(sh, mem, v, PathKey(sh.levels, root, page, u));
      UserAbove(sh, mem, v, root, page, u - 1, j);
    }
  }

  /** The link from depth j of the path: pending, or user-accessible already, if the page is a user page. */
  lemma PendingOrUser(
    sh: Shape, mem: Memory, v: View, root: nat, page: nat, user: bool, u: nat, ups: seq<Place>, d: nat, j: nat)
    requires Tree(sh, mem, v) && Pending(sh, mem, v, root, page, user, u, ups, d) && j < d
    ensures var k := PathKey(sh.levels, root, page, j);
            var place := Place(v.nodes[PathKey(sh.levels, root, page, j)], Digit(sh.levels, page, j));
            && Link(mem, v, PathKey(sh.levels, root, page, j + 1)) == At(mem, v.nodes[k], Digit(sh.levels, page, j))
            && (user ==> place in ups || Link(mem, v, PathKey(sh.levels, root, page, j + 1)).perms.user)
            && (!user ==> ups == [])
  {
    PathStep(sh.levels, root, page, j);
    if user {
      if j < u {
        UserAbove(sh, mem, v, root, page, u, j + 1);
      } else {
        assert PendingAt(sh, mem, v, root, page, j, ups[j - u]);
      }
    }
  }

  /** An entry of another place is not pending. */
  lemma PendingOnWay(
    sh: Shape, mem: Memory, v: View, root: nat, page: nat, user: bool, u: nat, ups: seq<Place>, d: nat, k: Key, i: nat)
    requires Tree(sh, mem, v) && Pending(sh, mem, v, root, page, user, u, ups, d) && k in v.nodes
    requires Place(v.nodes[k], i) in ups
    ensures OnWay(sh.levels, root, page, k, i) && k.depth < d
  {
    var x :| 0 <= x < |ups| && ups[x] == Place(v.nodes[k], i);
    assert PendingAt(sh, mem, v, root, page, u + x, ups[x]);
    assert v.nodes[PathKey(sh.levels, root, page, u + x)] == v.nodes[k];
  }

  /** All of `map` after the walk, entry by entry. */
  lemma MapRaw(
    sh: Shape, mem: Memory, v: View, filled: Memory, root: nat, page: nat, d: nat, user: bool, u: nat, ups: seq<Place>,
    next: Entry)
    requires Tree(sh, mem, v) && Pending(sh, mem, v, root, page, user, u, ups, d) && SameOnTables(mem, filled, v)
    requires !At(mem, v.nodes[PathKey(sh.levels, root, page, d)], Digit(sh.levels, page, d)).present
    requires forall j :: d < j <= sh.levels ==> PathKey(sh.levels, root, page, j) !in v.nodes
    ensures var mem' := Put(UpgradeAll(filled, ups), v.nodes[PathKey(sh.levels, root, page, d)],
                            Digit(sh.levels, page, d), next);
            RawMapped(sh, mem, v, mem', root, page, user)
  {
    var mem' := Put(UpgradeAll(filled, ups), v.nodes[PathKey(sh.levels, root, page, d)],
                    Digit(sh.levels, page, d), next);
    forall k, i: nat
      ensures MappedAt(sh, mem, v, mem', root, page, user, k, i)
    {
      if k in v.nodes && i < 512 {
        MapRawAt(sh, mem, v, filled, root, page, d, user, u, ups, next, k, i);
      }
    }
  }

  lemma MapRawAt(
    sh: Shape, mem: Memory, v: View, filled: Memory, root: nat, page: nat, d: nat, user: bool, u: nat, ups: seq<Place>,
    next: Entry, k: Key, i: nat)
    requires Tree(sh, mem, v) && Pending(sh, mem, v, root, page, user, u, ups, d) && SameOnTables(mem, filled, v)
    requires !At(mem, v.nodes[PathKey(sh.levels, root, page, d)], Digit(sh.levels, page, d)).present
    requires forall j :: d < j <= sh.levels ==> PathKey(sh.levels, root, page, j) !in v.nodes
    requires k in v.nodes && i < 512
    ensures var mem' := Put(UpgradeAll(filled, ups), v.nodes[PathKey(sh.levels, root, page, d)],
                            Digit(sh.levels, page, d), next);
            MappedAt(sh, mem, v, mem', root, page, user, k, i)
  {
    var last := PathKey(sh.levels, root, page, d);
    assert v.nodes[k] == v.nodes[last] ==> k == last;
    UpgradeFrame(filled, ups);
    var e := At(mem, v.nodes[k], i);
    assert At(filled, v.nodes[k], i) == e;
    if Place(v.nodes[k], i) in ups {
      PendingOnWay(sh, mem, v, root, page, user, u, ups, d, k, i);
    }
    if e.present {
      UpgradeExact(filled, ups, v.nodes[k], i);
      if OnWay(sh.levels, root, page, k, i) && k.depth < d {
        PendingOrUser(sh, mem, v, root, page, user, u, ups, d, k.depth);
      }
    }
  }

  // ---- unmap ----

  /** Clearing the last-level entry. */
  lemma ClearRaw(sh: Shape, mem: Memory, v: View, root: nat, page: nat)
    requires Tree(sh, mem, v)
    requires forall j :: 0 <= j <= sh.levels ==> PathKey(sh.levels, root, page, j) in v.nodes
    ensures var k := PathKey(sh.levels, root, page, sh.levels);
            RawUnmapped(sh, mem, Put(mem, v.nodes[k], Digit(sh.levels, page, sh.levels), NULL_ENTRY), v, root, page)
  {
    var last := PathKey(sh.levels, root, page, sh.levels);
    assert NodeOk(sh, mem, v, last);
    var mem' := Put(mem, v.nodes[last], Digit(sh.levels, page, sh.levels), NULL_ENTRY);
    forall k, i: nat
      ensures UnmappedAt(sh, mem, mem', v, root, page, k, i)
    {
      assert k in v.nodes && v.nodes[k] == v.nodes[last] ==> k == last;
    }
  }

  /** Unlinking the table at `depth`. */
  lemma PruneRaw(
    sh: Shape, mem0: Memory, mem: Memory, v: View, root: nat, page: nat, depth: nat)
    requires Distinct(v) && 0 < depth <= sh.levels && RawUnmapped(sh, mem0, mem, v, root, page)
    requires PathKey(sh.levels, root, page, depth) in v.nodes && PathKey(sh.levels, root, page, depth - 1) in v.nodes
    requires var f := v.nodes[PathKey(sh.levels, root, page, depth - 1)]; f in mem && |mem[f]| == 512
    ensures var f := v.nodes[PathKey(sh.levels, root, page, depth - 1)];
            RawUnmapped(sh, mem0, Put(mem, f, Digit(sh.levels, page, depth - 1), NULL_ENTRY),
                        DropNode(v, PathKey(sh.levels, root, page, depth)), root, page)
  {
    var gone, last := PathKey(sh.levels, root, page, depth), PathKey(sh.levels, root, page, depth - 1);
    var mem' := Put(mem, v.nodes[last], Digit(sh.levels, page, depth - 1), NULL_ENTRY);
    var v' := DropNode(v, gone);
    forall k, i: nat
      ensures UnmappedAt(sh, mem0, mem', v', root, page, k, i)
    {
      assert UnmappedAt(sh, mem0, mem, v, root, page, k, i);
      assert k in v.nodes && v.nodes[k] == v.nodes[last] ==> k == last;
      if k in v'.nodes && OnWay(sh.levels, root, page, k, i) {
        assert k.depth < sh.levels && PathKey(sh.levels, root, page, k.depth + 1) == gone ==> k.depth + 1 == depth;
      }
    }
  }

  /** The same, from what the loop of `unmap` keeps. */
  lemma PrunedRaw(
    sh: Shape, mem0: Memory, mem: Memory, v0: View, v: View, root: nat, page: nat, depth: nat, tables: seq<nat>)
    requires Tree(sh, mem, v) && 0 < depth <= sh.levels && RawUnmapped(sh, mem0, mem, v, root, page)
    requires forall k :: k in v.nodes ==> k in v0.nodes && v.nodes[k] == v0.nodes[k]
    requires forall d :: 0 <= d <= sh.levels ==> (PathKey(sh.levels, root, page, d) in v.nodes <==> d <= depth)
    requires Trail(sh.levels, v0.nodes, root, page, tables) && |tables| == sh.levels + 1
    ensures RawUnmapped(sh, mem0, Put(mem, tables[depth - 1], Digit(sh.levels, page, depth - 1), NULL_ENTRY),
                        DropNode(v, PathKey(sh.levels, root, page, depth)), root, page)
  {
    TrailAt(sh.levels, v0.nodes, root, page, tables, depth - 1);
    assert NodeOk(sh, mem, v, PathKey(sh.levels, root, page, depth - 1));
    PruneRaw(sh, mem0, mem, v, root, page, depth);
  }

  lemma TrailPath(levels: nat, nodes: map<Key, nat>, root: nat, page: nat, tables: seq<nat>)
    requires Trail(levels, nodes, root, page, tables) && |tables| == levels + 1
    ensures forall j :: 0 <= j <= levels ==> PathKey(levels, root, page, j) in nodes
  {
    forall j | 0 <= j <= levels
      ensures PathKey(levels, root, page, j) in nodes
    {
      TrailAt(levels, nodes, root, page, tables, j);
    }
  }

  // ---- One undoes the other ----

  /** All links on the way to a page that exist are user-accessible. */
  ghost predicate WayOpen(sh: Shape, mem: Memory, v: View, root: nat, page: nat) {
    forall d: nat {:trigger OpenAt(sh, mem, v, root, page, d)} :: OpenAt(sh, mem, v, root, page, d)
  }

  ghost predicate OpenAt(sh: Shape, mem: Memory, v: View, root: nat, page: nat, d: nat) {
    0 < d <= sh.levels && PathKey(sh.levels, root, page, d) in v.nodes ==>
      Link(mem, v, PathKey(sh.levels, root, page, d)).perms.user
  }

  /** The deepest link on the way decides. */
  lemma DeepestDecides(sh: Shape, mem: Memory, v: View, root: nat, page: nat, d: nat)
    requires Tree(sh, mem, v) && d <= sh.levels
    requires forall j :: 0 <= j <= sh.levels ==> (PathKey(sh.levels, root, page, j) in v.nodes <==> j <= d)
    ensures WayOpen(sh, mem, v, root, page) <==> (d == 0 || Link(mem, v, PathKey(sh.levels, root, page, d)).perms.user)
  {
    if d == 0 || Link(mem, v, PathKey(sh.levels, root, page, d)).perms.user {
      forall j: nat
        ensures OpenAt(sh, mem, v, root, page, j)
      {
        if 0 < j <= d {
          UserAbove(sh, mem, v, root, page, d, j);
        }
      }
    } else {
      assert !OpenAt(sh, mem, v, root, page, d);
    }
  }

  /** Every entry of every table is as it was. */
  ghost predicate RawSame(mem: Memory, mem': Memory, v: View) {
    forall k, i: nat {:trigger SameEntry(mem, mem', v, k, i)} :: SameEntry(mem, mem', v, k, i)
  }

  ghost predicate SameEntry(mem: Memory, mem': Memory, v: View, k: Key, i: nat) {
    k in v.nodes && i < 512 ==> At(mem', v.nodes[k], i) == At(mem, v.nodes[k], i)
  }

  /** An entry after `map` and then `unmap` of the same page: as it was, but for the user bit of links on the way. */
  lemma RestoredAt(
    sh: Shape, mem: Memory, v: View, mem1: Memory, mem2: Memory, root: nat, page: nat, user: bool, k: Key, i: nat)
    requires Tree(sh, mem, v) && k in v.nodes && i < 512 && Loc(root, page) !in v.maps
    requires TableKey(sh, Loc(root, page)) == PathKey(sh.levels, root, page, sh.levels)
    requires page % 512 == Digit(sh.levels, page, sh.levels)
    requires RawMapped(sh, mem, v, mem1, root, page, user) && RawUnmapped(sh, mem1, mem2, v, root, page)
    requires Owns(sh, Key(root, 0, 0), Digit(sh.levels, page, 0))
    ensures var linked := OnWay(sh.levels, root, page, k, i) && k.depth < sh.levels
                          && PathKey(sh.levels, root, page, k.depth + 1) in v.nodes;
            && At(mem2, v.nodes[k], i) == (if linked && user then Opened(At(mem, v.nodes[k], i))
                                           else At(mem, v.nodes[k], i))
            && (linked ==> At(mem, v.nodes[k], i) == Link(mem, v, PathKey(sh.levels, root, page, k.depth + 1)))
  {
    assert MappedAt(sh, mem, v, mem1, root, page, user, k, i);
    assert UnmappedAt(sh, mem1, mem2, v, root, page, k, i);
    assert NodeOk(sh, mem, v, k);
    assert TidyAt(mem[v.nodes[k]], i);
    if OnWay(sh.levels, root, page, k, i) {
      if k.depth == sh.levels {
        assert LeafOk(sh, mem, v, Loc(root, page));
      } else {
        var next := PathKey(sh.levels, root, page, k.depth + 1);
        PathStep(sh.levels, root, page, k.depth);
        if next in v.nodes {
          assert NodeOk(sh, mem, v, next);
        }
      }
    }
  }

  /** `unmap` after `map` restores every entry of every table exactly when the page is no user page, or all links
      that were on its way were user-accessible already. */
  lemma RawRestored(
    mode: Mode, sh: Shape, mem: Memory, v: View, mem1: Memory, mem2: Memory, root: nat, page: nat, user: bool)
    requires Tree(sh, mem, v) && sh.levels == Depth(mode) && page < PageCount(mode) && Loc(root, page) !in v.maps
    requires Key(root, 0, 0) in v.nodes && Owns(sh, Key(root, 0, 0), Digit(sh.levels, page, 0))
    requires RawMapped(sh, mem, v, mem1, root, page, user) && RawUnmapped(sh, mem1, mem2, v, root, page)
    ensures RawSame(mem, mem2, v) <==> !user || WayOpen(sh, mem, v, root, page)
  {
    PathEnds(mode, root, page, sh);
    if !user || WayOpen(sh, mem, v, root, page) {
      forall k, i: nat
        ensures SameEntry(mem, mem2, v, k, i)
      {
        if k in v.nodes && i < 512 {
          RestoredAt(sh, mem, v, mem1, mem2, root, page, user, k, i);
          assert user && k.depth < sh.levels ==> OpenAt(sh, mem, v, root, page, k.depth + 1);
        }
      }
    } else {
      var d: nat :| !OpenAt(sh, mem, v, root, page, d);
      PathPrefix(sh, mem, v, root, page, d - 1, d);
      var k, i := PathKey(sh.levels, root, page, d - 1), Digit(sh.levels, page, d - 1);
      RestoredAt(sh, mem, v, mem1, mem2, root, page, user, k, i);
      assert !SameEntry(mem, mem2, v, k, i);
    }
  }
}
