/** Who owns what: handles in every task's table, address spaces, page tables, kernel stacks and
    boot memory.  `CapsOk` is what every system call keeps. */
module Caps {
  import opened Outcomes
  import opened Addresses
  import opened Frames
  import opened Forest
  import opened Grafts
  import opened Tasks
  import opened AddressSpaces

  const MAX_ADDRESS_SPACES: nat := 32

  /** A slot of a task's handle table. */
  datatype Pos = Pos(task: nat, slot: nat)

  /** The pages and frames set up at boot stay as they are. */
  datatype Caps = Caps(
    mode: Mode, kernelRoot: nat, view: View, states: seq<FrameState>,
    tasks: seq<Option<Tcb>>, spaces: seq<Option<AddressSpace>>,
    stacks: set<nat>, boot: set<nat>, bootPages: set<Loc>)

  predicate HasSlot(tasks: seq<Option<Tcb>>, p: Pos) {
    p.task < |tasks| && tasks[p.task].Some? && p.slot < |tasks[p.task].value.handles|
  }

  function ObjectAt(tasks: seq<Option<Tcb>>, p: Pos): Option<KernelObject> {
    if HasSlot(tasks, p) && tasks[p.task].value.handles[p.slot].Some?
    then Some(tasks[p.task].value.handles[p.slot].value.target) else None
  }

  /** The frame a handle owns. */
  function FrameAt(tasks: seq<Option<Tcb>>, p: Pos): Option<nat> {
    match ObjectAt(tasks, p)
    case Some(FrameObject(f)) => Some(f)
    case Some(MappingObject(f, _, _)) => Some(f)
    case _ => None
  }

  function SetHandle(tasks: seq<Option<Tcb>>, p: Pos, h: Option<Handle>): seq<Option<Tcb>>
    requires HasSlot(tasks, p)
  {
    var x := tasks[p.task].value;
    tasks[p.task := Some(x.(handles := x.handles[p.slot := h]))]
  }

  // ---- The invariant ----

  /** An allocated frame that is no table, no kernel stack page and no boot page. */
  predicate Loose(c: Caps, f: nat) {
    f < |c.states| && c.states[f] == Allocated && f !in c.view.nodes.Values && f !in c.stacks && f !in c.boot
  }

  predicate SpaceLives(c: Caps, id: nat) {
    id < |c.spaces| && c.spaces[id].Some?
  }

  function PageIn(c: Caps, id: nat, addr: nat): Loc
    requires SpaceLives(c, id)
  {
    Loc(c.spaces[id].value.root, PageOf(c.mode, addr))
  }

  /** What a handle may name: a Mapping handle names a live address space that maps exactly that
      address to exactly that frame. */
  predicate ObjectOk(c: Caps, o: KernelObject) {
    match o
    case AddressSpaceObject(id) => SpaceLives(c, id)
    case FrameObject(f) => Loose(c, f)
    case MappingObject(f, id, addr) =>
      && Loose(c, f) && SpaceLives(c, id) && addr % PAGE_SIZE == 0 && addr < USER_SPACE_END
      && PageIn(c, id, addr) in c.view.maps && c.view.maps[PageIn(c, id, addr)].frame == f
    case ThreadObject(t) => t < |c.tasks| && c.tasks[t].Some?
  }

  predicate HandleOk(c: Caps, p: Pos) {
    ObjectAt(c.tasks, p).Some? ==> ObjectOk(c, ObjectAt(c.tasks, p).value)
  }

  /** No frame has two handles. */
  predicate Apart(tasks: seq<Option<Tcb>>, p: Pos, q: Pos) {
    FrameAt(tasks, p).Some? && FrameAt(tasks, p) == FrameAt(tasks, q) ==> p == q
  }

  predicate TcbOk(c: Caps, t: nat) {
    t < |c.tasks| && c.tasks[t].Some? ==>
      SpaceLives(c, c.tasks[t].value.space) && |c.tasks[t].value.handles| == MAX_HANDLES
  }

  predicate SpaceOk(c: Caps, id: nat) {
    SpaceLives(c, id) ==>
      && c.spaces[id].value.kind == User && c.spaces[id].value.root != c.kernelRoot
      && Key(c.spaces[id].value.root, 0, 0) in c.view.nodes
  }

  predicate SpacesApart(c: Caps, i: nat, j: nat) {
    SpaceLives(c, i) && SpaceLives(c, j) && c.spaces[i].value.root == c.spaces[j].value.root ==> i == j
  }

  /** Handle p is for page l. */
  predicate Covers(c: Caps, p: Pos, l: Loc) {
    match ObjectAt(c.tasks, p)
    case Some(MappingObject(_, id, addr)) => SpaceLives(c, id) && PageIn(c, id, addr) == l
    case _ => false
  }

  /** A frame that no later allocation hands out: boot memory, or outside what can be allocated. */
  predicate Fixed(c: Caps, f: nat) {
    f in c.boot || f >= |c.states| || c.states[f] == Reserved
  }

  /** Every user page was mapped at boot or has its handle. */
  ghost predicate PageOk(c: Caps, l: Loc) {
    && (l in c.view.maps && l.root != c.kernelRoot && l !in c.bootPages ==> exists p :: Covers(c, p, l))
    && (l in c.bootPages ==> l in c.view.maps && Fixed(c, c.view.maps[l].frame) && l.root != c.kernelRoot)
  }

  /** Every allocated frame has an owner. */
  ghost predicate Accounted(c: Caps, f: nat) {
    f < |c.states| && c.states[f] == Allocated ==>
      || f in c.view.nodes.Values || f in c.stacks || f in c.boot
      || exists p :: FrameAt(c.tasks, p) == Some(f)
  }

  ghost predicate SetsOk(c: Caps) {
    && c.stacks !! c.boot && c.view.nodes.Values !! (c.stacks + c.boot)
    && AllAllocated(c.view.nodes.Values, c.states) && AllAllocated(c.stacks, c.states) && AllAllocated(c.boot, c.states)
  }

  ghost predicate CapsOk(c: Caps) {
    && |c.spaces| == MAX_ADDRESS_SPACES && SetsOk(c)
    && (forall p {:trigger HandleOk(c, p)} :: HandleOk(c, p))
    && (forall p, q {:trigger Apart(c.tasks, p, q)} :: Apart(c.tasks, p, q))
    && (forall t: nat {:trigger TcbOk(c, t)} :: TcbOk(c, t))
    && (forall id: nat {:trigger SpaceOk(c, id)} :: SpaceOk(c, id))
    && (forall i: nat, j: nat {:trigger SpacesApart(c, i, j)} :: SpacesApart(c, i, j))
    && (forall l {:trigger PageOk(c, l)} :: PageOk(c, l))
    && (forall f: nat {:trigger Accounted(c, f)} :: Accounted(c, f))
  }

  // ---- What the invariant means ----

  datatype Owner = TableOwner(key: Key) | StackOwner | BootOwner | HandleOwner(pos: Pos)

  predicate OwnedBy(c: Caps, f: nat, o: Owner) {
    match o
    case TableOwner(k) => k in c.view.nodes && c.view.nodes[k] == f
    case StackOwner => f in c.stacks
    case BootOwner => f in c.boot
    case HandleOwner(p) => FrameAt(c.tasks, p) == Some(f)
  }

  /** Every allocated frame has exactly one owner. */
  lemma OneOwner(c: Caps, f: nat) returns (o: Owner)
    requires CapsOk(c) && Distinct(c.view) && f < |c.states| && c.states[f] == Allocated
    ensures OwnedBy(c, f, o) && forall o' :: OwnedBy(c, f, o') ==> o' == o
  {
    assert Accounted(c, f);
    if f in c.view.nodes.Values {
      var k :| k in c.view.nodes && c.view.nodes[k] == f;
      o := TableOwner(k);
    } else if f in c.stacks {
      o := StackOwner;
    } else if f in c.boot {
      o := BootOwner;
    } else {
      var p :| FrameAt(c.tasks, p) == Some(f);
      o := HandleOwner(p);
    }
    forall o' | OwnedBy(c, f, o')
      ensures o' == o
    {
      if o'.HandleOwner? {
        assert HandleOk(c, o'.pos);
        assert o.HandleOwner? ==> Apart(c.tasks, o.pos, o'.pos);
      }
      if o'.TableOwner? {
        assert c.view.nodes[o'.key] in c.view.nodes.Values;
      }
      if o.HandleOwner? {
        assert HandleOk(c, o.pos);
      }
    }
  }

  /** Owners only own allocated frames: a free frame is no table, no stack page and in no handle. */
  lemma FreeUnowned(c: Caps, f: nat, o: Owner)
    requires CapsOk(c) && OwnedBy(c, f, o)
    ensures f < |c.states| && c.states[f] == Allocated
  {
    if o.HandleOwner? {
      assert HandleOk(c, o.pos);
    } else if o.TableOwner? {
      assert c.view.nodes[o.key] in c.view.nodes.Values;
    }
  }

  /** Two Mapping handles never share a frame, nor an address in one address space. */
  lemma MappingsApart(c: Caps, p: Pos, q: Pos, f: nat, id: nat, addr: nat, g: nat, other: nat, addr': nat)
    requires CapsOk(c)
    requires ObjectAt(c.tasks, p) == Some(MappingObject(f, id, addr))
    requires ObjectAt(c.tasks, q) == Some(MappingObject(g, other, addr'))
    requires f == g || (id == other && addr == addr')
    ensures p == q
  {
    assert HandleOk(c, p);
    assert HandleOk(c, q);
    assert Apart(c.tasks, p, q);
  }

  /** What a user space maps is never a page table, a kernel stack page or a free frame, and no
      Frame handle is left for it. */
  lemma UserPagesSafe(c: Caps, l: Loc)
    requires CapsOk(c) && l in c.view.maps && l.root != c.kernelRoot
    ensures var f := c.view.maps[l].frame;
            && f !in c.view.nodes.Values && f !in c.stacks
            && (f < |c.states| ==> c.states[f] != Free)
            && forall p :: ObjectAt(c.tasks, p) != Some(FrameObject(f))
  {
    var f := c.view.maps[l].frame;
    assert PageOk(c, l);
    if l in c.bootPages {
      forall p
        ensures ObjectAt(c.tasks, p) != Some(FrameObject(f))
      {
        assert HandleOk(c, p);
      }
    } else {
      var q :| Covers(c, q, l);
      assert HandleOk(c, q);
      forall p
        ensures ObjectAt(c.tasks, p) != Some(FrameObject(f))
      {
        assert Apart(c.tasks, p, q);
      }
    }
  }

  // ---- One slot changes ----

  lemma SetHandleAt(tasks: seq<Option<Tcb>>, p: Pos, h: Option<Handle>, q: Pos)
    requires HasSlot(tasks, p)
    ensures ObjectAt(SetHandle(tasks, p, h), q)
         == if q == p then (if h.Some? then Some(h.value.target) else None) else ObjectAt(tasks, q)
  {
  }

  /** Apart from the frame of handle p, the same frames are loose. */
  ghost predicate SameLoose(c: Caps, c': Caps, p: Pos) {
    forall f: nat {:trigger Loose(c, f)} {:trigger Loose(c', f)} ::
      (Loose(c, f) && FrameAt(c.tasks, p) != Some(f)) <==> (Loose(c', f) && FrameAt(c'.tasks, p) != Some(f))
  }

  ghost predicate SamePagesBut(c: Caps, c': Caps, l: Option<Loc>) {
    forall k: Loc :: Some(k) != l ==>
      (k in c'.view.maps <==> k in c.view.maps) && (k in c.view.maps ==> c'.view.maps[k] == c.view.maps[k])
  }

  ghost predicate Kept(c: Caps, c': Caps) {
    && c'.mode == c.mode && c'.kernelRoot == c.kernelRoot && c'.boot == c.boot && c'.bootPages == c.bootPages
    && |c'.states| == |c.states|
    && (forall f :: 0 <= f < |c.states| && c.states[f] == Reserved ==> c'.states[f] == Reserved)
    && (forall r :: Key(r, 0, 0) in c.view.nodes ==> Key(r, 0, 0) in c'.view.nodes)
  }

  /** Handle p becomes h, the page l it was or will be for may change, and so may the frames that
      are tables. */
  ghost predicate Turns(c: Caps, c': Caps, p: Pos, h: Option<Handle>, l: Option<Loc>) {
    && HasSlot(c.tasks, p) && c'.tasks == SetHandle(c.tasks, p, h)
    && Kept(c, c') && c'.spaces == c.spaces && c'.stacks == c.stacks && SetsOk(c')
    && SameLoose(c, c', p) && SamePagesBut(c, c', l)
    && (h.Some? ==> ObjectOk(c', h.value.target))
    && (forall k: Loc {:trigger Covers(c, p, k)} :: Covers(c, p, k) ==> l == Some(k))
    && (l.Some? ==>
          && l.value.root != c.kernelRoot && l.value !in c.bootPages
          && (l.value in c.view.maps ==> Covers(c, p, l.value))
          && (l.value in c'.view.maps ==> Covers(c', p, l.value)))
  }

  lemma TurnsHandle(c: Caps, c': Caps, p: Pos, h: Option<Handle>, l: Option<Loc>, q: Pos)
    requires CapsOk(c) && Turns(c, c', p, h, l)
    ensures HandleOk(c', q)
  {
    SetHandleAt(c.tasks, p, h, q);
    assert HandleOk(c, q);
    if q != p && ObjectAt(c.tasks, q).Some? && ObjectAt(c.tasks, q).value.MappingObject? {
      assert HandleOk(c, p);
      assert Apart(c.tasks, p, q);
    } else if q != p {
      assert Apart(c.tasks, p, q);
    }
  }

  lemma TurnsApart(c: Caps, c': Caps, p: Pos, h: Option<Handle>, l: Option<Loc>, q: Pos, r: Pos)
    requires CapsOk(c) && Turns(c, c', p, h, l)
    ensures Apart(c'.tasks, q, r)
  {
    SetHandleAt(c.tasks, p, h, q);
    SetHandleAt(c.tasks, p, h, r);
    assert Apart(c.tasks, q, r);
    assert Apart(c.tasks, p, q);
    assert Apart(c.tasks, p, r);
    assert HandleOk(c, q);
    assert HandleOk(c, r);
    if q != p && FrameAt(c.tasks, q).Some? {
      assert Loose(c, FrameAt(c.tasks, q).value);
    }
    if r != p && FrameAt(c.tasks, r).Some? {
      assert Loose(c, FrameAt(c.tasks, r).value);
    }
  }

  lemma TurnsPage(c: Caps, c': Caps, p: Pos, h: Option<Handle>, l: Option<Loc>, k: Loc)
    requires CapsOk(c) && Turns(c, c', p, h, l)
    ensures PageOk(c', k)
  {
    assert PageOk(c, k);
    if Some(k) == l {
      assert k in c'.view.maps ==> Covers(c', p, k);
    } else if k in c.view.maps && k.root != c.kernelRoot && k !in c.bootPages {
      var q :| Covers(c, q, k);
      SetHandleAt(c.tasks, p, h, q);
      assert Covers(c', q, k);
    }
  }

  lemma TurnsFrame(c: Caps, c': Caps, p: Pos, h: Option<Handle>, l: Option<Loc>, f: nat)
    requires CapsOk(c) && Turns(c, c', p, h, l)
    ensures Accounted(c', f)
  {
    if Loose(c', f) && FrameAt(c'.tasks, p) != Some(f) {
      assert Loose(c, f);
      assert Accounted(c, f);
      var q :| FrameAt(c.tasks, q) == Some(f);
      SetHandleAt(c.tasks, p, h, q);
      assert FrameAt(c'.tasks, q) == Some(f);
    }
  }

  /** A change of one handle that keeps to these rules keeps the invariant. */
  lemma TurnsKeeps(c: Caps, c': Caps, p: Pos, h: Option<Handle>, l: Option<Loc>)
    requires CapsOk(c) && Turns(c, c', p, h, l)
    ensures CapsOk(c')
  {
    forall q
      ensures HandleOk(c', q)
    {
      TurnsHandle(c, c', p, h, l, q);
    }
    forall q, r
      ensures Apart(c'.tasks, q, r)
    {
      TurnsApart(c, c', p, h, l, q, r);
    }
    forall t: nat
      ensures TcbOk(c', t)
    {
      assert TcbOk(c, t);
    }
    forall id: nat
      ensures SpaceOk(c', id)
    {
      assert SpaceOk(c, id);
    }
    forall i: nat, j: nat
      ensures SpacesApart(c', i, j)
    {
      assert SpacesApart(c, i, j);
    }
    forall k: Loc
      ensures PageOk(c', k)
    {
      TurnsPage(c, c', p, h, l, k);
    }
    forall f: nat
      ensures Accounted(c', f)
    {
      TurnsFrame(c, c', p, h, l, f);
    }
  }
}
