/** What the phases of `map` do to the forest: the walk, the links it makes user-accessible,
    the private tables it takes and fills, and the one write that publishes them. */
module MapSteps {
  import opened Addresses
  import opened Frames
  import opened Forest
  import opened Walks
  import opened Grafts

  datatype Place = Place(table: nat, index: nat)

  /** `place` holds the link from depth d to d + 1, which is not user-accessible. */
  ghost predicate PendingAt(sh: Shape, mem: Memory, v: View, root: nat, page: nat, d: nat, place: Place) {
    && d < sh.levels && PathKey(sh.levels, root, page, d) in v.nodes
    && place == Place(v.nodes[PathKey(sh.levels, root, page, d)], Digit(sh.levels, page, d))
    && !Link(mem, v, PathKey(sh.levels, root, page, d + 1)).perms.user
  }

  /** The links of the path still to be made user-accessible: those from depth u down to d. */
  ghost predicate Pending(sh: Shape, mem: Memory, v: View, root: nat, page: nat, user: bool, u: nat, ups: seq<Place>,
                          d: nat)
  {
    && d <= sh.levels
    && (forall j :: 0 <= j <= d ==> PathKey(sh.levels, root, page, j) in v.nodes)
    && (!user ==> ups == [])
    && (user ==>
          && u + |ups| == d
          && (u > 0 ==> Link(mem, v, PathKey(sh.levels, root, page, u)).perms.user)
          && forall x {:trigger ups[x]} :: 0 <= x < |ups| ==> PendingAt(sh, mem, v, root, page, u + x, ups[x]))
  }

  lemma PendingGrows(sh: Shape, mem: Memory, v: View, root: nat, page: nat, user: bool, u: nat, ups: seq<Place>, d: nat)
    requires Pending(sh, mem, v, root, page, user, u, ups, d) && d < sh.levels
    requires PathKey(sh.levels, root, page, d + 1) in v.nodes
    requires var e := Link(mem, v, PathKey(sh.levels, root, page, d + 1));
      d > 0 && e.perms.user ==> Link(mem, v, PathKey(sh.levels, root, page, d)).perms.user
    ensures var e := Link(mem, v, PathKey(sh.levels, root, page, d + 1));
            var place := Place(v.nodes[PathKey(sh.levels, root, page, d)], Digit(sh.levels, page, d));
            && (user && !e.perms.user ==> Pending(sh, mem, v, root, page, user, u, ups + [place], d + 1))
            && (!(user && !e.perms.user) ==> Pending(sh, mem, v, root, page, user, d + 1, ups, d + 1))
  {
    PendingLast(sh, mem, v, root, page, user, u, ups, d);
    var e := Link(mem, v, PathKey(sh.levels, root, page, d + 1));
    var place := Place(v.nodes[PathKey(sh.levels, root, page, d)], Digit(sh.levels, page, d));
    if user && !e.perms.user {
      var more := ups + [place];
      forall x {:trigger more[x]} | 0 <= x < |more|
        ensures PendingAt(sh, mem, v, root, page, u + x, more[x])
      {
        if x < |ups| {
          assert PendingAt(sh, mem, v, root, page, u + x, ups[x]);
        }
      }
    }
  }

  lemma PendingLast(sh: Shape, mem: Memory, v: View, root: nat, page: nat, user: bool, u: nat, ups: seq<Place>, d: nat)
    requires Pending(sh, mem, v, root, page, user, u, ups, d)
    ensures ups != [] ==> !Link(mem, v, PathKey(sh.levels, root, page, d)).perms.user
  {
    if ups != [] {
      assert PendingAt(sh, mem, v, root, page, d - 1, ups[|ups| - 1]);
    }
  }

  lemma PendingStep(mode: Mode, sh: Shape, mem: Memory, v: View, root: nat, page: nat, user: bool, u: nat,
                    ups: seq<Place>, d: nat, cur: nat)
    requires Tree(sh, mem, v) && Rooted(sh, v, root) && Home(sh, root, page) == root
    requires sh.levels == Depth(mode) && page < PageCount(mode)
    requires Pending(sh, mem, v, root, page, user, u, ups, d) && d < sh.levels
    requires OnPath(sh, v, root, page, d, cur)
    requires At(mem, cur, Digit(sh.levels, page, d)).present
    ensures var e := At(mem, cur, Digit(sh.levels, page, d));
            && IsTableEntry(e, e.frame) && OnPath(sh, v, root, page, d + 1, e.frame)
            && (user && !e.perms.user ==>
                  Pending(sh, mem, v, root, page, user, u, ups + [Place(cur, Digit(sh.levels, page, d))], d + 1))
            && (!(user && !e.perms.user) ==> Pending(sh, mem, v, root, page, user, d + 1, ups, d + 1))
  {
    WalkStep(mode, sh, mem, v, root, page, d, cur);
    PathEnds(mode, root, page, sh);
    assert NodeOk(sh, mem, v, Key(root, 0, 0));
    PendingGrows(sh, mem, v, root, page, user, u, ups, d);
  }

  function SetUser(mem: Memory, place: Place): Memory {
    var e := At(mem, place.table, place.index);
    Put(mem, place.table, place.index, e.(perms := e.perms.(user := true)))
  }

  function UpgradeAll(mem: Memory, ups: seq<Place>): Memory {
    if ups == [] then mem else SetUser(UpgradeAll(mem, ups[..|ups| - 1]), ups[|ups| - 1])
  }

  lemma UpgradeOne(mode: Mode, sh: Shape, mem: Memory, v: View, root: nat, page: nat, d: nat, place: Place)
    requires Tree(sh, mem, v) && sh.levels == Depth(mode) && page < PageCount(mode) && d < sh.levels
    requires Owns(sh, Key(root, 0, 0), Digit(sh.levels, page, 0))
    requires PathKey(sh.levels, root, page, d) in v.nodes && PathKey(sh.levels, root, page, d + 1) in v.nodes
    requires d > 0 ==> Link(mem, v, PathKey(sh.levels, root, page, d)).perms.user
    requires place == Place(v.nodes[PathKey(sh.levels, root, page, d)], Digit(sh.levels, page, d))
    ensures Tree(sh, SetUser(mem, place), v)
    ensures Link(SetUser(mem, place), v, PathKey(sh.levels, root, page, d + 1)).perms.user
  {
    var k, next := PathKey(sh.levels, root, page, d), PathKey(sh.levels, root, page, d + 1);
    PathStep(sh.levels, root, page, d);
    OwnsOnPath(mode, sh, root, page, d);
    assert NodeOk(sh, mem, v, k);
    assert NodeOk(sh, mem, v, next);
    var e := At(mem, v.nodes[k], Digit(sh.levels, page, d));
    UpgradeLink(sh, mem, v, k, Digit(sh.levels, page, d), e.(perms := e.perms.(user := true)));
  }

  /** Only the listed entries change, and none appears or disappears. */
  lemma {:induction false} UpgradeFrame(mem: Memory, ups: seq<Place>)
    ensures var mem' := UpgradeAll(mem, ups);
            && mem'.Keys == mem.Keys
            && (forall f :: f in mem ==> |mem'[f]| == |mem[f]|)
            && (forall f, i :: At(mem', f, i).present == At(mem, f, i).present)
            && (forall f, i :: Place(f, i) !in ups ==> At(mem', f, i) == At(mem, f, i))
  {
    if ups != [] {
      var rest := ups[..|ups| - 1];
      UpgradeFrame(mem, rest);
      assert ups == rest + [ups[|ups| - 1]];
    }
  }

  /** Place x holds the link from depth u + x. */
  ghost predicate LinkAt(sh: Shape, v: View, root: nat, page: nat, u: nat, ups: seq<Place>, x: nat)
    requires x < |ups|
  {
    && u + x < sh.levels
    && PathKey(sh.levels, root, page, u + x) in v.nodes && PathKey(sh.levels, root, page, u + x + 1) in v.nodes
    && ups[x] == Place(v.nodes[PathKey(sh.levels, root, page, u + x)], Digit(sh.levels, page, u + x))
  }

  /** The links from depth u on, one after the other. */
  ghost predicate LinksAt(sh: Shape, v: View, root: nat, page: nat, u: nat, ups: seq<Place>) {
    forall x: nat {:trigger LinkAt(sh, v, root, page, u, ups, x)} :: x < |ups| ==> LinkAt(sh, v, root, page, u, ups, x)
  }

  lemma LinksRest(sh: Shape, v: View, root: nat, page: nat, u: nat, ups: seq<Place>)
    requires LinksAt(sh, v, root, page, u, ups) && ups != []
    ensures LinksAt(sh, v, root, page, u, ups[..|ups| - 1]) && LinkAt(sh, v, root, page, u, ups, |ups| - 1)
  {
    var rest := ups[..|ups| - 1];
    forall x: nat | x < |rest|
      ensures LinkAt(sh, v, root, page, u, rest, x)
    {
      assert LinkAt(sh, v, root, page, u, ups, x);
    }
  }

  lemma {:induction false} UpgradeTree(mode: Mode, sh: Shape, mem: Memory, v: View, root: nat, page: nat, u: nat,
                                       ups: seq<Place>)
    requires Tree(sh, mem, v) && sh.levels == Depth(mode) && page < PageCount(mode) && u + |ups| <= sh.levels
    requires Owns(sh, Key(root, 0, 0), Digit(sh.levels, page, 0)) && LinksAt(sh, v, root, page, u, ups)
    requires u > 0 ==> Link(mem, v, PathKey(sh.levels, root, page, u)).perms.user
    ensures Tree(sh, UpgradeAll(mem, ups), v)
    ensures u + |ups| > 0 ==> Link(UpgradeAll(mem, ups), v, PathKey(sh.levels, root, page, u + |ups|)).perms.user
  {
    if ups != [] {
      var rest := ups[..|ups| - 1];
      LinksRest(sh, v, root, page, u, ups);
      UpgradeTree(mode, sh, mem, v, root, page, u, rest);
      UpgradeOne(mode, sh, UpgradeAll(mem, rest), v, root, page, u + |rest|, ups[|rest|]);
    }
  }

  /** Presence of entries decides which tables are empty. */
  lemma SamePresence(mem: Memory, mem': Memory, v: View, busy: set<Key>)
    requires NoEmpty(mem, v, busy)
    requires forall f, i :: At(mem', f, i).present == At(mem, f, i).present
    ensures NoEmpty(mem', v, busy)
  {
    forall k | k in v.nodes && k.depth > 0 && k !in busy
      ensures Occupied(mem', v, k)
    {
      assert Occupied(mem, v, k);
    }
  }

  /** Applying the pending upgrades keeps the forest and leaves the whole path user-accessible. */
  lemma UpgradesKeep(mode: Mode, sh: Shape, mem: Memory, v: View, root: nat, page: nat, user: bool, u: nat,
                     ups: seq<Place>, d: nat)
    requires Tree(sh, mem, v) && NoEmpty(mem, v, {}) && sh.levels == Depth(mode) && page < PageCount(mode)
    requires Owns(sh, Key(root, 0, 0), Digit(sh.levels, page, 0))
    requires Pending(sh, mem, v, root, page, user, u, ups, d)
    ensures Tree(sh, UpgradeAll(mem, ups), v) && NoEmpty(UpgradeAll(mem, ups), v, {})
    ensures user && d > 0 ==> Link(UpgradeAll(mem, ups), v, PathKey(sh.levels, root, page, d)).perms.user
  {
    if user {
      forall x: nat | x < |ups|
        ensures LinkAt(sh, v, root, page, u, ups, x)
      {
        assert PendingAt(sh, mem, v, root, page, u + x, ups[x]);
      }
      UpgradeTree(mode, sh, mem, v, root, page, u, ups);
    }
    UpgradeFrame(mem, ups);
    SamePresence(mem, UpgradeAll(mem, ups), v, {});
  }

  /** `privs` are distinct frames taken one by one from the free frames of s, leaving s'. */
  ghost predicate TakenFrom(s: seq<FrameState>, s': seq<FrameState>, privs: seq<nat>) {
    && |s'| == |s|
    && (forall f :: 0 <= f < |s| ==> s'[f] == if f in privs then Allocated else s[f])
    && (forall x :: 0 <= x < |privs| ==> privs[x] < |s| && s[privs[x]] == Free)
    && (forall x, y :: 0 <= x < y < |privs| ==> privs[x] != privs[y])
    && |FreeSet(s')| + |privs| == |FreeSet(s)|
  }

  lemma TakenGrows(s: seq<FrameState>, s': seq<FrameState>, privs: seq<nat>, f: nat)
    requires TakenFrom(s, s', privs) && f < |s'| && s'[f] == Free
    ensures TakenFrom(s, s'[f := Allocated], privs + [f]) && f !in privs
  {
    TakeFree(s', f);
    assert f !in privs;
  }

  /** Memory changed at most in frames that were free in s. */
  ghost predicate OnlyFreeChanged(mem: Memory, mem': Memory, s: seq<FrameState>) {
    && mem'.Keys == mem.Keys
    && forall f :: f in mem && f !in FreeSet(s) ==> mem'[f] == mem[f]
  }

  /** The private tables hold nothing yet. */
  ghost predicate Blank(mem: Memory, privs: seq<nat>) {
    forall x :: 0 <= x < |privs| ==> privs[x] in mem && mem[privs[x]] == ZeroTable()
  }

  ghost predicate Prepared(mem: Memory, s: seq<FrameState>, mem': Memory, s': seq<FrameState>, privs: seq<nat>) {
    TakenFrom(s, s', privs) && Blank(mem', privs) && OnlyFreeChanged(mem, mem', s)
  }

  lemma PreparedGrows(mem: Memory, s: seq<FrameState>, mem': Memory, s': seq<FrameState>, privs: seq<nat>, f: nat)
    requires Prepared(mem, s, mem', s', privs) && f < |s'| && s'[f] == Free && f in mem'
    ensures Prepared(mem, s, mem'[f := ZeroTable()], s'[f := Allocated], privs + [f])
  {
    TakenGrows(s, s', privs, f);
  }

  lemma TakenWasFree(s: seq<FrameState>, s': seq<FrameState>, privs: seq<nat>, limit: nat)
    requires TakenFrom(s, s', privs) && privs != [] && privs[|privs| - 1] >= limit
    ensures FreeAbove(s, limit)
  {
    assert privs[|privs| - 1] in FreeSet(s);
  }

  lemma TakenReturned(s: seq<FrameState>, s': seq<FrameState>, privs: seq<nat>, s'': seq<FrameState>)
    requires TakenFrom(s, s', privs) && |s''| == |s|
    requires forall f :: 0 <= f < |s| ==> s''[f] == if f in privs then Free else s'[f]
    ensures s'' == s
  {
  }

  lemma NotATable(v: View, s: seq<FrameState>, f: nat)
    requires Backed(v, s) && f < |s| && s[f] == Free
    ensures f !in v.nodes.Values
  {
  }

  /** The one entry of a private table: the next private table, or the leaf. */
  function FilledTable(levels: nat, page: nat, d: nat, privs: seq<nat>, leaf: Entry, user: bool, x: nat): Table
    requires d + |privs| == levels && x < |privs|
  {
    ZeroTable()[Digit(levels, page, d + 1 + x) := NextEntry(privs[x + 1..], leaf, user)]
  }

  ghost predicate Filled(levels: nat, mem: Memory, page: nat, d: nat, privs: seq<nat>, leaf: Entry, user: bool)
    requires d + |privs| == levels
  {
    forall x {:trigger privs[x]} :: 0 <= x < |privs| ==>
      privs[x] in mem && mem[privs[x]] == FilledTable(levels, page, d, privs, leaf, user, x)
  }

  /** Memory with the first n of some frames overwritten by tables. */
  function StoreAll(mem: Memory, frames: seq<nat>, tables: seq<Table>, n: nat): Memory
    requires |tables| == |frames| && n <= |frames|
  {
    if n == 0 then mem else StoreAll(mem, frames, tables, n - 1)[frames[n - 1] := tables[n - 1]]
  }

  lemma {:induction false} StoreOther(mem: Memory, frames: seq<nat>, tables: seq<Table>, n: nat, f: nat)
    requires |tables| == |frames| && n <= |frames| && f in mem && forall x :: 0 <= x < n ==> frames[x] != f
    ensures f in StoreAll(mem, frames, tables, n) && StoreAll(mem, frames, tables, n)[f] == mem[f]
  {
    if n > 0 {
      StoreOther(mem, frames, tables, n - 1, f);
    }
  }

  lemma {:induction false} StoreNth(mem: Memory, frames: seq<nat>, tables: seq<Table>, n: nat, x: nat)
    requires |tables| == |frames| && x < n <= |frames|
    requires forall x, y :: 0 <= x < y < |frames| ==> frames[x] != frames[y]
    ensures frames[x] in StoreAll(mem, frames, tables, n) && StoreAll(mem, frames, tables, n)[frames[x]] == tables[x]
  {
    if x < n - 1 {
      StoreNth(mem, frames, tables, n - 1, x);
    }
  }

  lemma {:induction false} StoreKeys(mem: Memory, frames: seq<nat>, tables: seq<Table>, n: nat)
    requires |tables| == |frames| && n <= |frames| && forall x :: 0 <= x < |frames| ==> frames[x] in mem
    ensures StoreAll(mem, frames, tables, n).Keys == mem.Keys
  {
    if n > 0 {
      StoreKeys(mem, frames, tables, n - 1);
    }
  }

  lemma {:induction false} StoreFrames(mem: Memory, frames: seq<nat>, tables: seq<Table>, n: nat)
    requires |tables| == |frames| && n <= |frames|
    requires forall x :: 0 <= x < |frames| ==> frames[x] in mem
    requires forall x, y :: 0 <= x < y < |frames| ==> frames[x] != frames[y]
    ensures var mem' := StoreAll(mem, frames, tables, n);
            && mem'.Keys == mem.Keys
            && (forall f :: f in mem && f !in frames[..n] ==> mem'[f] == mem[f])
            && (forall x {:trigger frames[x]} :: 0 <= x < n ==> mem'[frames[x]] == tables[x])
            && (forall x {:trigger frames[x]} :: n <= x < |frames| ==> mem'[frames[x]] == mem[frames[x]])
  {
    var made := StoreAll(mem, frames, tables, n);
    StoreKeys(mem, frames, tables, n);
    forall f | f in mem && f !in frames[..n]
      ensures made[f] == mem[f]
    {
      assert forall x :: 0 <= x < n ==> frames[x] == frames[..n][x];
      StoreOther(mem, frames, tables, n, f);
    }
    forall x {:trigger frames[x]} | 0 <= x < |frames|
      ensures made[frames[x]] == if x < n then tables[x] else mem[frames[x]]
    {
      if x < n {
        StoreNth(mem, frames, tables, n, x);
      } else {
        StoreOther(mem, frames, tables, n, frames[x]);
      }
    }
  }

  function FilledTables(levels: nat, page: nat, d: nat, privs: seq<nat>, leaf: Entry, user: bool): (r: seq<Table>)
    requires d + |privs| == levels
    ensures |r| == |privs| && forall x :: 0 <= x < |privs| ==>
      r[x] == FilledTable(levels, page, d, privs, leaf, user, x)
  {
    seq(|privs|, x requires 0 <= x < |privs| => FilledTable(levels, page, d, privs, leaf, user, x))
  }

  /** Memory with the first n private tables filled. */
  function FillAll(levels: nat, mem: Memory, page: nat, d: nat, privs: seq<nat>, leaf: Entry, user: bool,
                   n: nat): Memory
    requires d + |privs| == levels && n <= |privs|
  {
    StoreAll(mem, privs, FilledTables(levels, page, d, privs, leaf, user), n)
  }

  lemma FillFrames(levels: nat, mem: Memory, page: nat, d: nat, privs: seq<nat>, leaf: Entry, user: bool, n: nat)
    requires d + |privs| == levels && n <= |privs|
    requires forall x :: 0 <= x < |privs| ==> privs[x] in mem
    requires forall x, y :: 0 <= x < y < |privs| ==> privs[x] != privs[y]
    ensures var mem' := FillAll(levels, mem, page, d, privs, leaf, user, n);
            && mem'.Keys == mem.Keys
            && (forall f :: f in mem && f !in privs[..n] ==> mem'[f] == mem[f])
            && (forall x {:trigger privs[x]} :: 0 <= x < n ==>
              mem'[privs[x]] == FilledTable(levels, page, d, privs, leaf, user, x))
            && (forall x {:trigger privs[x]} :: n <= x < |privs| ==> mem'[privs[x]] == mem[privs[x]])
  {
    StoreFrames(mem, privs, FilledTables(levels, page, d, privs, leaf, user), n);
  }

  /** Writing one entry of the next private table fills it. */
  lemma FillStep(mode: Mode, mem: Memory, ix: seq<nat>, page: nat, d: nat, privs: seq<nat>, leaf: Entry, user: bool,
                 n: nat)
    requires Spells(mode, ix, page) && d + |privs| == Depth(mode) && n < |privs| && Blank(mem, privs)
    requires forall x, y :: 0 <= x < y < |privs| ==> privs[x] != privs[y]
    ensures d + 1 + n < |ix|
    ensures var entry := if n + 1 < |privs| then TableEntry(privs[n + 1], user) else leaf;
            Put(FillAll(Depth(mode), mem, page, d, privs, leaf, user, n), privs[n], ix[d + 1 + n], entry)
            == FillAll(Depth(mode), mem, page, d, privs, leaf, user, n + 1)
  {
    FillFrames(Depth(mode), mem, page, d, privs, leaf, user, n);
  }

  function Blanked(mem: Memory, privs: seq<nat>): Memory {
    map f | f in mem :: if f in privs then ZeroTable() else mem[f]
  }

  lemma PublishFrames(levels: nat, mem: Memory, page: nat, d: nat, cur: nat, privs: seq<nat>, leaf: Entry, user: bool)
    requires d + |privs| == levels && Filled(levels, mem, page, d, privs, leaf, user)
    requires cur in mem && |mem[cur]| == 512 && cur !in privs
    requires forall x, y :: 0 <= x < y < |privs| ==> privs[x] != privs[y]
    ensures Put(mem, cur, Digit(levels, page, d), NextEntry(privs, leaf, user))
         == GraftMemory(levels, Blanked(mem, privs), page, d, cur, privs, leaf, user)
  {
    var blank := Blanked(mem, privs);
    GraftFrames(levels, blank, page, d, cur, privs, leaf, user);
    var mem' := Put(mem, cur, Digit(levels, page, d), NextEntry(privs, leaf, user));
    var grafted := GraftMemory(levels, blank, page, d, cur, privs, leaf, user);
    forall f | f in mem
      ensures mem'[f] == grafted[f]
    {
      if f in privs {
        var x :| 0 <= x < |privs| && privs[x] == f;
        assert mem[privs[x]] == FilledTable(levels, page, d, privs, leaf, user, x);
      }
    }
    assert mem' == grafted;
  }

  /** Writing the one entry above the filled private tables publishes the page: the result is
      the forest grafted with them. */
  lemma Publish(mode: Mode, sh: Shape, mem: Memory, v: View, root: nat, page: nat, d: nat, privs: seq<nat>, leaf: Entry,
                user: bool)
    requires d + |privs| == sh.levels && Filled(sh.levels, mem, page, d, privs, leaf, user)
    requires CanGraft(mode, sh, Blanked(mem, privs), v, root, page, d, privs, leaf, user)
    ensures var k := PathKey(sh.levels, root, page, d);
            var mem' := Put(mem, v.nodes[k], Digit(sh.levels, page, d), NextEntry(privs, leaf, user));
            var v' := GraftView(sh.levels, v, root, page, d, privs, leaf);
            Tree(sh, mem', v') && NoEmpty(mem', v', {})
  {
    var k := PathKey(sh.levels, root, page, d);
    Graft(mode, sh, Blanked(mem, privs), v, root, page, d, privs, leaf, user);
    assert NodeOk(sh, Blanked(mem, privs), v, k);
    assert v.nodes[k] in v.nodes.Values;
    PublishFrames(sh.levels, mem, page, d, v.nodes[k], privs, leaf, user);
  }

  /** The private tables are not yet part of the forest, so blanking them changes nothing. */
  lemma ReadyToGraft(mode: Mode, sh: Shape, mem: Memory, v: View, root: nat, page: nat, d: nat, privs: seq<nat>,
                     leaf: Entry, user: bool)
    requires Tree(sh, mem, v) && NoEmpty(mem, v, {}) && sh.levels == Depth(mode) && page < PageCount(mode)
    requires d + |privs| == sh.levels && leaf.present && leaf.perms.user == user
    requires Owns(sh, Key(root, 0, 0), Digit(sh.levels, page, 0))
    requires forall x :: 0 <= x < |privs| ==> privs[x] in mem && privs[x] !in v.nodes.Values
    requires forall x, y :: 0 <= x < y < |privs| ==> privs[x] != privs[y]
    requires PathKey(sh.levels, root, page, d) in v.nodes
    requires !At(mem, v.nodes[PathKey(sh.levels, root, page, d)], Digit(sh.levels, page, d)).present
    requires user && d > 0 ==> Link(mem, v, PathKey(sh.levels, root, page, d)).perms.user
    ensures CanGraft(mode, sh, Blanked(mem, privs), v, root, page, d, privs, leaf, user)
  {
    var blank, k := Blanked(mem, privs), PathKey(sh.levels, root, page, d);
    forall n | n in v.nodes
      ensures v.nodes[n] in mem && v.nodes[n] in blank && blank[v.nodes[n]] == mem[v.nodes[n]]
    {
      assert NodeOk(sh, mem, v, n);
      assert v.nodes[n] in v.nodes.Values;
    }
    SameTables(sh, mem, blank, v);
    forall n | n in v.nodes && n.depth > 0 && n != k
      ensures Occupied(blank, v, n)
    {
      assert Occupied(mem, v, n);
      var i :| 0 <= i < 512 && At(mem, v.nodes[n], i).present;
      assert At(blank, v.nodes[n], i).present;
    }
    if d > 0 {
      PathPrefix(sh, mem, v, root, page, d - 1, d);
      PathStep(sh.levels, root, page, d - 1);
    }
  }

  /** Memory changed at most outside the frames that hold tables. */
  ghost predicate SameOnTables(mem: Memory, mem': Memory, v: View) {
    forall k :: k in v.nodes ==> v.nodes[k] in mem' && v.nodes[k] in mem && mem'[v.nodes[k]] == mem[v.nodes[k]]
  }

  lemma TablesSame(sh: Shape, mem: Memory, mem': Memory, v: View)
    requires Tree(sh, mem, v) && NoEmpty(mem, v, {}) && SameOnTables(mem, mem', v)
    ensures Tree(sh, mem', v) && NoEmpty(mem', v, {})
  {
    SameTables(sh, mem, mem', v);
    forall k | k in v.nodes && k.depth > 0
      ensures Occupied(mem', v, k)
    {
      assert Occupied(mem, v, k);
      var i :| 0 <= i < 512 && At(mem, v.nodes[k], i).present;
      assert At(mem', v.nodes[k], i).present;
    }
  }

  lemma PendingSame(sh: Shape, mem: Memory, mem': Memory, v: View, root: nat, page: nat, user: bool, u: nat,
                    ups: seq<Place>, d: nat)
    requires Pending(sh, mem, v, root, page, user, u, ups, d) && SameOnTables(mem, mem', v)
    ensures Pending(sh, mem', v, root, page, user, u, ups, d)
  {
    forall x {:trigger ups[x]} | 0 <= x < |ups|
      ensures PendingAt(sh, mem', v, root, page, u + x, ups[x])
    {
      assert PendingAt(sh, mem, v, root, page, u + x, ups[x]);
    }
  }

  /** Every pending upgrade is in a table of the forest. */
  lemma PendingInTables(sh: Shape, mem: Memory, v: View, root: nat, page: nat, user: bool, u: nat, ups: seq<Place>,
                        d: nat, f: nat, i: nat)
    requires Pending(sh, mem, v, root, page, user, u, ups, d) && Place(f, i) in ups
    ensures f in v.nodes.Values
  {
    var x :| 0 <= x < |ups| && ups[x] == Place(f, i);
    assert PendingAt(sh, mem, v, root, page, u + x, ups[x]);
    assert v.nodes[PathKey(sh.levels, root, page, u + x)] in v.nodes.Values;
  }

  lemma FilledAfterUpgrades(
    sh: Shape, mem: Memory, v: View, root: nat, page: nat, user: bool, u: nat, ups: seq<Place>, d: nat, privs: seq<nat>,
    leaf: Entry)
    requires Pending(sh, mem, v, root, page, user, u, ups, d) && d + |privs| == sh.levels
    requires Filled(sh.levels, mem, page, d, privs, leaf, user)
    requires forall x :: 0 <= x < |privs| ==> privs[x] !in v.nodes.Values
    ensures Filled(sh.levels, UpgradeAll(mem, ups), page, d, privs, leaf, user)
  {
    UpgradeFrame(mem, ups);
    var mem' := UpgradeAll(mem, ups);
    forall x {:trigger privs[x]} | 0 <= x < |privs|
      ensures mem'[privs[x]] == mem[privs[x]]
    {
      forall i | 0 <= i < |mem[privs[x]]|
        ensures mem'[privs[x]][i] == mem[privs[x]][i]
      {
        if Place(privs[x], i) in ups {
          PendingInTables(sh, mem, v, root, page, user, u, ups, d, privs[x], i);
        }
        assert At(mem', privs[x], i) == At(mem, privs[x], i);
      }
    }
  }

  /** All of `map` after the walk, over the whole forest: upgrade the path, publish the private
      tables, and the forest has exactly one more page and exactly the private tables more. */
  lemma MapForest(
    mode: Mode, sh: Shape, mem: Memory, v: View, root: nat, page: nat, d: nat, privs: seq<nat>, leaf: Entry, user: bool,
    u: nat, ups: seq<Place>)
    requires Tree(sh, mem, v) && NoEmpty(mem, v, {}) && sh.levels == Depth(mode) && page < PageCount(mode)
    requires d + |privs| == sh.levels && leaf.present && leaf.perms.user == user
    requires Owns(sh, Key(root, 0, 0), Digit(sh.levels, page, 0))
    requires Pending(sh, mem, v, root, page, user, u, ups, d)
    requires Filled(sh.levels, mem, page, d, privs, leaf, user)
    requires forall x :: 0 <= x < |privs| ==> privs[x] !in v.nodes.Values
    requires forall x, y :: 0 <= x < y < |privs| ==> privs[x] != privs[y]
    requires !At(mem, v.nodes[PathKey(sh.levels, root, page, d)], Digit(sh.levels, page, d)).present
    ensures var cur := v.nodes[PathKey(sh.levels, root, page, d)];
            var mem' := Put(UpgradeAll(mem, ups), cur, Digit(sh.levels, page, d), NextEntry(privs, leaf, user));
            var v' := GraftView(sh.levels, v, root, page, d, privs, leaf);
            Tree(sh, mem', v') && NoEmpty(mem', v', {})
  {
    UpgradesKeep(mode, sh, mem, v, root, page, user, u, ups, d);
    UpgradeFrame(mem, ups);
    FilledAfterUpgrades(sh, mem, v, root, page, user, u, ups, d, privs, leaf);
    ReadyToGraft(mode, sh, UpgradeAll(mem, ups), v, root, page, d, privs, leaf, user);
    Publish(mode, sh, UpgradeAll(mem, ups), v, root, page, d, privs, leaf, user);
  }

  /** Nothing below a missing table exists. */
  lemma MissingBelow(mode: Mode, sh: Shape, mem: Memory, v: View, root: nat, page: nat, d: nat)
    requires Tree(sh, mem, v) && sh.levels == Depth(mode) && page < PageCount(mode) && d <= sh.levels
    requires Owns(sh, Key(root, 0, 0), Digit(sh.levels, page, 0))
    requires PathKey(sh.levels, root, page, d) in v.nodes
    requires !At(mem, v.nodes[PathKey(sh.levels, root, page, d)], Digit(sh.levels, page, d)).present
    ensures forall j :: d < j <= sh.levels ==> PathKey(sh.levels, root, page, j) !in v.nodes
    ensures Loc(root, page) !in v.maps
  {
    PathEnds(mode, root, page, sh);
    assert LeafOk(sh, mem, v, Loc(root, page));
    if d < sh.levels {
      var next := PathKey(sh.levels, root, page, d + 1);
      PathStep(sh.levels, root, page, d);
      assert next !in v.nodes by {
        assert next in v.nodes ==> NodeOk(sh, mem, v, next);
      }
      forall j | d < j <= sh.levels
        ensures PathKey(sh.levels, root, page, j) !in v.nodes
      {
        if PathKey(sh.levels, root, page, j) in v.nodes {
          PathPrefix(sh, mem, v, root, page, d + 1, j);
        }
      }
    }
  }

  /** The frames of the private tables are exactly the ones that change state. */
  lemma MapFrames(
    levels: nat, v: View, s: seq<FrameState>, s': seq<FrameState>, root: nat, page: nat, d: nat, privs: seq<nat>,
    leaf: Entry)
    requires d + |privs| == levels && Backed(v, s) && TakenFrom(s, s', privs)
    requires forall j :: d < j <= levels ==> PathKey(levels, root, page, j) !in v.nodes
    ensures var v' := GraftView(levels, v, root, page, d, privs, leaf);
            Exchanged(v, s, v', s') && Backed(v', s')
  {
    GraftAdds(levels, v, root, page, d, privs, leaf);
    var v' := GraftView(levels, v, root, page, d, privs, leaf);
    forall x | 0 <= x < |privs|
      ensures privs[x] !in v.nodes.Values
    {
      NotATable(v, s, privs[x]);
    }
    forall k | k in v'.nodes
      ensures v'.nodes[k] < |s'| && s'[v'.nodes[k]] == Allocated
    {
      assert v'.nodes[k] in v'.nodes.Values;
    }
    forall f | 0 <= f < |s|
      ensures s'[f] == if f in v'.nodes.Values && f !in v.nodes.Values then Allocated
                       else if f in v.nodes.Values && f !in v'.nodes.Values then Free
                       else s[f]
    {
      assert f in privs ==> f !in v.nodes.Values;
    }
  }

  /** How many tables on the way to a page are missing, from depth d down. */
  ghost function Missing(levels: nat, keys: set<Key>, root: nat, page: nat, d: nat): nat
    requires d <= levels + 1
    decreases levels + 1 - d
  {
    if d > levels then 0
    else (if PathKey(levels, root, page, d) in keys then 0 else 1) + Missing(levels, keys, root, page, d + 1)
  }

  lemma {:induction false} MissingCount(levels: nat, keys: set<Key>, root: nat, page: nat, d: nat, from: nat)
    requires d <= levels && from <= levels + 1
    requires forall j :: 0 <= j <= levels ==> (PathKey(levels, root, page, j) in keys <==> j <= d)
    ensures Missing(levels, keys, root, page, from) == if from <= d then levels - d else levels + 1 - from
    decreases levels + 1 - from
  {
    if from <= levels {
      MissingCount(levels, keys, root, page, d, from + 1);
    }
  }

  /** The tables on the way to a page. */
  ghost function Way(levels: nat, root: nat, page: nat): set<Key> {
    set j | 0 <= j <= levels :: PathKey(levels, root, page, j)
  }

  /** What a mapping costs: the missing tables on its way, and no frame more. */
  ghost predicate Paid(levels: nat, v: View, s: seq<FrameState>, v': View, s': seq<FrameState>, root: nat, page: nat) {
    && v'.nodes.Keys == v.nodes.Keys + Way(levels, root, page)
    && |FreeSet(s')| + Missing(levels, v.nodes.Keys, root, page, 0) == |FreeSet(s)|
  }

  lemma MapPaid(
    levels: nat, v: View, s: seq<FrameState>, s': seq<FrameState>, root: nat, page: nat, d: nat, privs: seq<nat>,
    leaf: Entry)
    requires d + |privs| == levels && TakenFrom(s, s', privs)
    requires forall j :: 0 <= j <= levels ==> (PathKey(levels, root, page, j) in v.nodes <==> j <= d)
    ensures Paid(levels, v, s, GraftView(levels, v, root, page, d, privs, leaf), s', root, page)
  {
    MissingCount(levels, v.nodes.Keys, root, page, d, 0);
    GraftKeys(levels, v, root, page, d, privs, leaf);
    var v' := GraftView(levels, v, root, page, d, privs, leaf);
    forall k
      ensures k in v'.nodes.Keys <==> k in v.nodes.Keys + Way(levels, root, page)
    {
    }
  }

  /** The root entry for a page is in the kernel's own upper half, which user roots copy, and
      `map` would have to change it. */
  ghost predicate ChangesKernelHalf(sh: Shape, mem: Memory, v: View, root: nat, page: nat, user: bool) {
    && root == sh.kernelRoot && Digit(sh.levels, page, 0) >= 256 && sh.levels > 0
    && (PathKey(sh.levels, root, page, 1) in v.nodes ==>
          user && !Link(mem, v, PathKey(sh.levels, root, page, 1)).perms.user)
  }

  /** The memory `map` leaves. */
  function MapMemory(filled: Memory, ups: seq<Place>, cur: nat, i: nat, e: Entry): Memory {
    Put(UpgradeAll(filled, ups), cur, i, e)
  }

  /** A root entry that is user-accessible already is not pending. */
  lemma NotPending(sh: Shape, mem: Memory, v: View, root: nat, page: nat, user: bool, u: nat, ups: seq<Place>, d: nat,
                   r: nat, i: nat)
    requires Distinct(v) && Pending(sh, mem, v, root, page, user, u, ups, d)
    requires Key(r, 0, 0) in v.nodes && v.nodes[Key(r, 0, 0)] == r
    requires r == root && i == Digit(sh.levels, page, 0) && user ==>
      sh.levels > 0 && Link(mem, v, PathKey(sh.levels, root, page, 1)).perms.user
    ensures Place(r, i) !in ups
  {
    forall x | 0 <= x < |ups|
      ensures ups[x] != Place(r, i)
    {
      var k := PathKey(sh.levels, root, page, u + x);
      assert PendingAt(sh, mem, v, root, page, u + x, ups[x]);
      assert v.nodes[k] == v.nodes[Key(r, 0, 0)] ==> k == Key(r, 0, 0);
    }
  }

  /** Which entries of root tables `map` can touch. */
  lemma MapRootRows(
    mode: Mode, sh: Shape, mem: Memory, v: View, root: nat, page: nat, d: nat, user: bool, u: nat, ups: seq<Place>,
    e: Entry, r: nat, i: nat)
    requires Tree(sh, mem, v) && sh.levels == Depth(mode) && page < PageCount(mode)
    requires Pending(sh, mem, v, root, page, user, u, ups, d)
    requires Key(r, 0, 0) in v.nodes
    requires r == root && i == Digit(sh.levels, page, 0) ==>
      d > 0 && (user ==> Link(mem, v, PathKey(sh.levels, root, page, 1)).perms.user)
    ensures var cur := v.nodes[PathKey(sh.levels, root, page, d)];
            At(MapMemory(mem, ups, cur, Digit(sh.levels, page, d), e), r, i) == At(mem, r, i)
  {
    PathEnds(mode, root, page, sh);
    assert NodeOk(sh, mem, v, Key(r, 0, 0));
    assert NodeOk(sh, mem, v, Key(root, 0, 0));
    NotPending(sh, mem, v, root, page, user, u, ups, d, r, i);
    UpgradeFrame(mem, ups);
    assert v.nodes[PathKey(sh.levels, root, page, d)] == r ==> d == 0;
  }

  /** Unless the kernel's own upper half has to change, `map` keeps it shared. */
  lemma MapKeepsShared(
    mode: Mode, sh: Shape, mem: Memory, v: View, root: nat, page: nat, d: nat, user: bool, u: nat, ups: seq<Place>,
    e: Entry, v': View)
    requires Tree(sh, mem, v) && Shared(sh, mem, v) && sh.levels == Depth(mode) && page < PageCount(mode)
    requires Owns(sh, Key(root, 0, 0), Digit(sh.levels, page, 0)) && Key(sh.kernelRoot, 0, 0) in v.nodes
    requires Pending(sh, mem, v, root, page, user, u, ups, d)
    requires !ChangesKernelHalf(sh, mem, v, root, page, user)
    requires d < sh.levels ==> PathKey(sh.levels, root, page, d + 1) !in v.nodes
    requires forall r :: Key(r, 0, 0) in v'.nodes ==> Key(r, 0, 0) in v.nodes
    ensures var cur := v.nodes[PathKey(sh.levels, root, page, d)];
            Shared(sh, MapMemory(mem, ups, cur, Digit(sh.levels, page, d), e), v')
  {
    var cur := v.nodes[PathKey(sh.levels, root, page, d)];
    var mem' := MapMemory(mem, ups, cur, Digit(sh.levels, page, d), e);
    forall r | Key(r, 0, 0) in v'.nodes
      ensures SharedRow(sh, mem', r)
    {
      assert SharedRow(sh, mem, r);
      forall i | 256 <= i < 512
        ensures At(mem', r, i) == At(mem', sh.kernelRoot, i)
      {
        MapRootRows(mode, sh, mem, v, root, page, d, user, u, ups, e, r, i);
        MapRootRows(mode, sh, mem, v, root, page, d, user, u, ups, e, sh.kernelRoot, i);
      }
    }
  }

  lemma FreeOutsideTables(sh: Shape, mem: Memory, mem': Memory, v: View, s: seq<FrameState>)
    requires Tree(sh, mem, v) && Backed(v, s) && OnlyFreeChanged(mem, mem', s)
    ensures SameOnTables(mem, mem', v)
  {
    forall k | k in v.nodes
      ensures v.nodes[k] in mem' && v.nodes[k] in mem && mem'[v.nodes[k]] == mem[v.nodes[k]]
    {
      assert NodeOk(sh, mem, v, k);
    }
  }

  lemma PrivateOutsideTables(v: View, s: seq<FrameState>, s': seq<FrameState>, privs: seq<nat>)
    requires Backed(v, s) && TakenFrom(s, s', privs)
    ensures forall x :: 0 <= x < |privs| ==> privs[x] !in v.nodes.Values
  {
  }

  lemma FilledOutsideTables(sh: Shape, mem: Memory, mem': Memory, v: View, privs: seq<nat>)
    requires Tree(sh, mem, v) && mem'.Keys == mem.Keys
    requires forall x :: 0 <= x < |privs| ==> privs[x] !in v.nodes.Values
    requires forall f :: f in mem' && f !in privs ==> mem'[f] == mem[f]
    ensures SameOnTables(mem, mem', v)
  {
    forall k | k in v.nodes
      ensures v.nodes[k] in mem' && v.nodes[k] in mem && mem'[v.nodes[k]] == mem[v.nodes[k]]
    {
      assert NodeOk(sh, mem, v, k);
      assert v.nodes[k] in v.nodes.Values;
    }
  }

  lemma SameTwice(mem: Memory, mem': Memory, mem'': Memory, v: View)
    requires SameOnTables(mem, mem', v) && SameOnTables(mem', mem'', v)
    ensures SameOnTables(mem, mem'', v)
  {
  }

  lemma SharedOnTables(sh: Shape, mem: Memory, mem': Memory, v: View)
    requires Tree(sh, mem, v) && SameOnTables(mem, mem', v) && Key(sh.kernelRoot, 0, 0) in v.nodes
    ensures Shared(sh, mem, v) ==> Shared(sh, mem', v)
  {
    if Shared(sh, mem, v) {
      assert NodeOk(sh, mem, v, Key(sh.kernelRoot, 0, 0));
      forall r | Key(r, 0, 0) in v.nodes
        ensures SharedRow(sh, mem', r)
      {
        assert NodeOk(sh, mem, v, Key(r, 0, 0));
        assert SharedRow(sh, mem, r);
        forall i | 256 <= i < 512
          ensures At(mem', r, i) == At(mem', sh.kernelRoot, i)
        {
          assert At(mem, r, i) == At(mem, sh.kernelRoot, i);
        }
      }
    }
  }

  /** The state of `map` between its walk and its first write. */
  ghost predicate MapReady(
    mode: Mode, sh: Shape, mem: Memory, v: View, root: nat, page: nat, d: nat, user: bool, u: nat, ups: seq<Place>)
  {
    && Tree(sh, mem, v) && NoEmpty(mem, v, {})
    && sh.levels == Depth(mode) && page < PageCount(mode)
    && Key(sh.kernelRoot, 0, 0) in v.nodes && Owns(sh, Key(root, 0, 0), Digit(sh.levels, page, 0))
    && Pending(sh, mem, v, root, page, user, u, ups, d)
    && !At(mem, v.nodes[PathKey(sh.levels, root, page, d)], Digit(sh.levels, page, d)).present
  }

  /** Memory after the private tables were taken and filled. */
  ghost predicate FilledFrom(
    levels: nat, mem: Memory, s: seq<FrameState>, prepared: Memory, s': seq<FrameState>, filled: Memory,
    page: nat, d: nat, privs: seq<nat>, leaf: Entry, user: bool)
  {
    && d + |privs| == levels
    && Prepared(mem, s, prepared, s', privs)
    && filled.Keys == prepared.Keys && (forall f :: f in filled && f !in privs ==> filled[f] == prepared[f])
    && Filled(levels, filled, page, d, privs, leaf, user)
  }

  lemma FilledSameOnTables(
    sh: Shape, mem: Memory, v: View, s: seq<FrameState>, prepared: Memory, s': seq<FrameState>, filled: Memory,
    page: nat, d: nat, privs: seq<nat>, leaf: Entry, user: bool)
    requires Tree(sh, mem, v) && Backed(v, s)
    requires FilledFrom(sh.levels, mem, s, prepared, s', filled, page, d, privs, leaf, user)
    ensures SameOnTables(mem, filled, v)
    ensures forall x :: 0 <= x < |privs| ==> privs[x] !in v.nodes.Values
  {
    FreeOutsideTables(sh, mem, prepared, v, s);
    SameTables(sh, mem, prepared, v);
    PrivateOutsideTables(v, s, s', privs);
    FilledOutsideTables(sh, prepared, filled, v, privs);
    SameTwice(mem, prepared, filled, v);
  }

  lemma MapReadySame(
    mode: Mode, sh: Shape, mem: Memory, mem': Memory, v: View, root: nat, page: nat, d: nat, user: bool, u: nat,
    ups: seq<Place>)
    requires MapReady(mode, sh, mem, v, root, page, d, user, u, ups) && SameOnTables(mem, mem', v)
    ensures MapReady(mode, sh, mem', v, root, page, d, user, u, ups)
  {
    TablesSame(sh, mem, mem', v);
    PendingSame(sh, mem, mem', v, root, page, user, u, ups, d);
  }

  /** What `map` has done to the forest after its last write. */
  lemma MapFinish(
    mode: Mode, sh: Shape, mem: Memory, v: View, s: seq<FrameState>, prepared: Memory, s': seq<FrameState>,
    filled: Memory,
    root: nat, page: nat, d: nat, privs: seq<nat>, leaf: Entry, user: bool, u: nat, ups: seq<Place>)
    requires MapReady(mode, sh, mem, v, root, page, d, user, u, ups) && Backed(v, s)
    requires leaf.present && leaf.perms.user == user
    requires FilledFrom(sh.levels, mem, s, prepared, s', filled, page, d, privs, leaf, user)
    ensures var cur := v.nodes[PathKey(sh.levels, root, page, d)];
            var mem' := MapMemory(filled, ups, cur, Digit(sh.levels, page, d), NextEntry(privs, leaf, user));
            var v' := GraftView(sh.levels, v, root, page, d, privs, leaf);
            Tree(sh, mem', v') && NoEmpty(mem', v', {})
  {
    FilledSameOnTables(sh, mem, v, s, prepared, s', filled, page, d, privs, leaf, user);
    MapReadySame(mode, sh, mem, filled, v, root, page, d, user, u, ups);
    MapForest(mode, sh, filled, v, root, page, d, privs, leaf, user, u, ups);
  }

  lemma MapFinishShared(
    mode: Mode, sh: Shape, mem: Memory, v: View, s: seq<FrameState>, prepared: Memory, s': seq<FrameState>,
    filled: Memory,
    root: nat, page: nat, d: nat, privs: seq<nat>, leaf: Entry, user: bool, u: nat, ups: seq<Place>)
    requires MapReady(mode, sh, mem, v, root, page, d, user, u, ups) && Backed(v, s)
    requires FilledFrom(sh.levels, mem, s, prepared, s', filled, page, d, privs, leaf, user)
    requires Shared(sh, mem, v) && !ChangesKernelHalf(sh, mem, v, root, page, user)
    ensures var cur := v.nodes[PathKey(sh.levels, root, page, d)];
            var mem' := MapMemory(filled, ups, cur, Digit(sh.levels, page, d), NextEntry(privs, leaf, user));
            Shared(sh, mem', GraftView(sh.levels, v, root, page, d, privs, leaf))
  {
    FilledSameOnTables(sh, mem, v, s, prepared, s', filled, page, d, privs, leaf, user);
    MissingBelow(mode, sh, mem, v, root, page, d);
    GraftAdds(sh.levels, v, root, page, d, privs, leaf);
    SharedOnTables(sh, mem, filled, v);
    MapReadySame(mode, sh, mem, filled, v, root, page, d, user, u, ups);
    var v' := GraftView(sh.levels, v, root, page, d, privs, leaf);
    MapKeepsShared(mode, sh, filled, v, root, page, d, user, u, ups, NextEntry(privs, leaf, user), v');
  }

  /** Some free frame lies above what an entry can hold. */
  ghost predicate FreeAbove(s: seq<FrameState>, limit: nat) {
    exists f :: f in FreeSet(s) && f >= limit
  }

  ghost predicate Sized(mem: Memory) {
    forall f :: f in mem ==> |mem[f]| == 512
  }

  lemma MapSizes(prepared: Memory, filled: Memory, privs: seq<nat>, levels: nat, page: nat, d: nat, leaf: Entry,
                 user: bool, ups: seq<Place>, cur: nat, i: nat, e: Entry)
    requires Sized(prepared) && filled.Keys == prepared.Keys && d + |privs| == levels
    requires forall f :: f in filled && f !in privs ==> filled[f] == prepared[f]
    requires Filled(levels, filled, page, d, privs, leaf, user)
    ensures Sized(MapMemory(filled, ups, cur, i, e)) && MapMemory(filled, ups, cur, i, e).Keys == prepared.Keys
  {
    forall f | f in filled
      ensures |filled[f]| == 512
    {
      if f in privs {
        var x :| 0 <= x < |privs| && privs[x] == f;
        assert filled[privs[x]] == FilledTable(levels, page, d, privs, leaf, user, x);
      }
    }
    UpgradeFrame(filled, ups);
  }
}
