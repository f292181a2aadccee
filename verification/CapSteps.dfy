/** The steps of the system calls on handles, spaces, frames and stacks keep `CapsOk`. */
module CapSteps {
  import opened Outcomes
  import opened Addresses
  import opened Frames
  import opened Forest
  import opened Grafts
  import opened Tasks
  import opened AddressSpaces
  import opened Caps
  import opened PageTables

  // ---- Frames ----

  ghost function GainedFrame(c: Caps, p: Pos, f: nat): Caps
    requires HasSlot(c.tasks, p) && f < |c.states|
  {
    c.(states := c.states[f := Allocated], tasks := SetHandle(c.tasks, p, Some(Handle(FrameObject(f), FRAME_RIGHTS))))
  }

  /** A free frame becomes a Frame handle. */
  lemma GainFrame(c: Caps, p: Pos, f: nat)
    requires CapsOk(c) && HasSlot(c.tasks, p) && ObjectAt(c.tasks, p).None?
    requires f < |c.states| && c.states[f] == Free
    ensures CapsOk(GainedFrame(c, p, f))
  {
    TurnsKeeps(c, GainedFrame(c, p, f), p, Some(Handle(FrameObject(f), FRAME_RIGHTS)), None);
  }

  ghost function LostFrame(c: Caps, p: Pos, f: nat): Caps
    requires HasSlot(c.tasks, p) && f < |c.states|
  {
    c.(states := c.states[f := Free], tasks := SetHandle(c.tasks, p, None))
  }

  /** A Frame handle goes, and its frame is free again; it was allocated and nothing else used it. */
  lemma LoseFrame(c: Caps, p: Pos, f: nat)
    requires CapsOk(c) && ObjectAt(c.tasks, p) == Some(FrameObject(f))
    ensures Loose(c, f) && CapsOk(LostFrame(c, p, f))
  {
    assert HandleOk(c, p);
    TurnsKeeps(c, LostFrame(c, p, f), p, None, None);
  }

  // ---- Mappings ----

  /** The same frames stay loose when tables come and go. */
  lemma TablesMove(c: Caps, v': View, s': seq<FrameState>, f: nat)
    requires SetsOk(c) && Exchanged(c.view, c.states, v', s')
    ensures var c' := c.(view := v', states := s'); Loose(c, f) <==> Loose(c', f)
  {
  }

  lemma TablesMoveSets(c: Caps, v': View, s': seq<FrameState>)
    requires SetsOk(c) && Exchanged(c.view, c.states, v', s')
    ensures SetsOk(c.(view := v', states := s'))
  {
  }

  ghost function MappedFrame(c: Caps, p: Pos, f: nat, rights: set<Right>, id: nat, addr: nat, v': View,
                             s': seq<FrameState>): Caps
    requires HasSlot(c.tasks, p)
  {
    c.(view := v', states := s', tasks := SetHandle(c.tasks, p, Some(Handle(MappingObject(f, id, addr), rights))))
  }

  /** A Frame handle becomes a Mapping handle when its frame is mapped. */
  lemma MapFrame(
    c: Caps, p: Pos, f: nat, rights: set<Right>, id: nat, addr: nat, leaf: Entry, v': View, s': seq<FrameState>)
    requires CapsOk(c) && ObjectAt(c.tasks, p) == Some(FrameObject(f)) && SpaceLives(c, id)
    requires addr % PAGE_SIZE == 0 && addr < USER_SPACE_END && leaf.frame == f
    requires PageIn(c, id, addr) !in c.view.maps
    requires Added(c.view, c.states, v', s', PageIn(c, id, addr), leaf)
    ensures CapsOk(MappedFrame(c, p, f, rights, id, addr, v', s'))
  {
    var c', l := MappedFrame(c, p, f, rights, id, addr, v', s'), PageIn(c, id, addr);
    assert HandleOk(c, p);
    assert SpaceOk(c, id);
    assert PageOk(c, l);
    TablesMoveSets(c, v', s');
    forall g: nat
      ensures Loose(c, g) <==> Loose(c', g)
    {
      TablesMove(c, v', s', g);
    }
    TurnsKeeps(c, c', p, Some(Handle(MappingObject(f, id, addr), rights)), Some(l));
  }

  ghost function UnmappedFrame(c: Caps, p: Pos, f: nat, rights: set<Right>, v': View, s': seq<FrameState>): Caps
    requires HasSlot(c.tasks, p)
  {
    c.(view := v', states := s', tasks := SetHandle(c.tasks, p, Some(Handle(FrameObject(f), rights))))
  }

  /** A Mapping handle becomes a Frame handle when its page is unmapped. */
  lemma UnmapFrame(c: Caps, p: Pos, f: nat, rights: set<Right>, id: nat, addr: nat, v': View, s': seq<FrameState>)
    requires CapsOk(c) && ObjectAt(c.tasks, p) == Some(MappingObject(f, id, addr)) && SpaceLives(c, id)
    requires Removed(c.view, c.states, v', s', PageIn(c, id, addr))
    ensures CapsOk(UnmappedFrame(c, p, f, rights, v', s'))
  {
    var c', l := UnmappedFrame(c, p, f, rights, v', s'), PageIn(c, id, addr);
    assert HandleOk(c, p);
    assert SpaceOk(c, id);
    assert PageOk(c, l);
    TablesMoveSets(c, v', s');
    forall g: nat
      ensures Loose(c, g) <==> Loose(c', g)
    {
      TablesMove(c, v', s', g);
    }
    TurnsKeeps(c, c', p, Some(Handle(FrameObject(f), rights)), Some(l));
  }

  /** A handle for something that is not a frame goes into an empty slot. */
  lemma GiveHandle(c: Caps, p: Pos, h: Handle)
    requires CapsOk(c) && HasSlot(c.tasks, p) && ObjectAt(c.tasks, p).None?
    requires (h.target.AddressSpaceObject? || h.target.ThreadObject?) && ObjectOk(c, h.target)
    ensures CapsOk(c.(tasks := SetHandle(c.tasks, p, Some(h))))
  {
    TurnsKeeps(c, c.(tasks := SetHandle(c.tasks, p, Some(h))), p, Some(h), None);
  }

  // ---- What handles do not see ----

  predicate SameHolding(x: Tcb, y: Tcb) {
    y.handles == x.handles && y.space == x.space && y.stackTop == x.stackTop
  }

  /** The same tasks with the same handles and address spaces. */
  ghost predicate SameHolder(tasks: seq<Option<Tcb>>, tasks': seq<Option<Tcb>>, t: nat) {
    t < |tasks| ==>
      && t < |tasks'| && (tasks[t].Some? <==> tasks'[t].Some?)
      && (tasks[t].Some? ==> SameHolding(tasks[t].value, tasks'[t].value))
  }

  ghost predicate SameHolders(tasks: seq<Option<Tcb>>, tasks': seq<Option<Tcb>>) {
    |tasks'| == |tasks| && forall t: nat {:trigger SameHolder(tasks, tasks', t)} :: SameHolder(tasks, tasks', t)
  }

  /** Scheduling and messages do not matter to the handles. */
  lemma HoldersKeep(c: Caps, tasks': seq<Option<Tcb>>)
    requires CapsOk(c) && SameHolders(c.tasks, tasks')
    ensures CapsOk(c.(tasks := tasks'))
  {
    var c' := c.(tasks := tasks');
    forall p
      ensures ObjectAt(c'.tasks, p) == ObjectAt(c.tasks, p)
    {
      assert SameHolder(c.tasks, tasks', p.task);
    }
    forall t: nat
      ensures TcbOk(c', t) && (t < |c.tasks| ==> (c.tasks[t].Some? <==> tasks'[t].Some?))
    {
      assert SameHolder(c.tasks, tasks', t);
      assert TcbOk(c, t);
    }
    SameObjects(c, c');
  }

  /** The invariant depends on the tables only through the objects in them. */
  lemma SameObjects(c: Caps, c': Caps)
    requires CapsOk(c) && c' == c.(tasks := c'.tasks)
    requires forall p :: ObjectAt(c'.tasks, p) == ObjectAt(c.tasks, p)
    requires forall t: nat {:trigger TcbOk(c', t)} :: TcbOk(c', t)
    requires forall t: nat :: t < |c.tasks| && c.tasks[t].Some? ==> t < |c'.tasks| && c'.tasks[t].Some?
    ensures CapsOk(c')
  {
    forall p
      ensures HandleOk(c', p)
    {
      assert HandleOk(c, p);
    }
    forall p, q
      ensures Apart(c'.tasks, p, q)
    {
      assert Apart(c.tasks, p, q);
    }
    forall l: Loc
      ensures PageOk(c', l)
    {
      SameObjectsPage(c, c', l);
    }
    forall f: nat
      ensures Accounted(c', f)
    {
      assert Accounted(c, f);
      if p: Pos :| FrameAt(c.tasks, p) == Some(f) {
        assert FrameAt(c'.tasks, p) == Some(f);
      }
    }
    forall id: nat
      ensures SpaceOk(c', id)
    {
      assert SpaceOk(c, id);
    }
    forall i: nat, j: nat
      ensures SpacesApart(c', i, j)
    {
      assert SpacesApart(c, i, j);
    }
  }

  lemma SameObjectsPage(c: Caps, c': Caps, l: Loc)
    requires PageOk(c, l) && c' == c.(tasks := c'.tasks)
    requires forall p :: ObjectAt(c'.tasks, p) == ObjectAt(c.tasks, p)
    ensures PageOk(c', l)
  {
    if p: Pos :| Covers(c, p, l) {
      assert Covers(c', p, l);
    }
  }

  // ---- Spaces, tasks and stacks ----

  ghost function WithSpace(c: Caps, id: nat, f: nat): Caps
    requires id < |c.spaces| && f < |c.states|
  {
    c.(view := RootView(c.view, f), states := c.states[f := Allocated],
       spaces := c.spaces[id := Some(AddressSpace(f, User))])
  }

  lemma RootValues(nodes: map<Key, nat>, k: Key, f: nat)
    requires k !in nodes
    ensures nodes[k := f].Values == nodes.Values + {f}
  {
    var nodes' := nodes[k := f];
    forall g | g in nodes.Values + {f}
      ensures g in nodes'.Values
    {
      if g in nodes.Values {
        var j :| j in nodes && nodes[j] == g;
        assert nodes'[j] == g;
      } else {
        assert nodes'[k] == g;
      }
    }
  }

  /** A new address space has a free frame as its root and no pages. */
  lemma GainSpace(c: Caps, id: nat, f: nat)
    requires CapsOk(c) && id < |c.spaces| && c.spaces[id].None?
    requires f < |c.states| && c.states[f] == Free
    requires c.kernelRoot in c.view.nodes.Values && forall r :: Key(r, 0, 0) in c.view.nodes ==>
      c.view.nodes[Key(r, 0, 0)] == r
    requires Key(f, 0, 0) !in c.view.nodes
    ensures CapsOk(WithSpace(c, id, f))
  {
    var c' := WithSpace(c, id, f);
    RootValues(c.view.nodes, Key(f, 0, 0), f);
    forall g: nat
      ensures Loose(c, g) <==> Loose(c', g)
    {
    }
    forall p
      ensures HandleOk(c', p)
    {
      assert HandleOk(c, p);
    }
    forall i: nat
      ensures SpaceOk(c', i)
    {
      assert SpaceOk(c, i);
    }
    forall i: nat, j: nat
      ensures SpacesApart(c', i, j)
    {
      assert SpacesApart(c, i, j);
      assert SpaceOk(c, i);
      assert SpaceOk(c, j);
    }
    forall t: nat
      ensures TcbOk(c', t)
    {
      assert TcbOk(c, t);
    }
    forall l: Loc
      ensures PageOk(c', l)
    {
      assert PageOk(c, l);
      if p: Pos :| Covers(c, p, l) {
        assert Covers(c', p, l);
      }
    }
    forall g: nat
      ensures Accounted(c', g)
    {
      assert Accounted(c, g);
    }
    forall p, q
      ensures Apart(c'.tasks, p, q)
    {
      assert Apart(c.tasks, p, q);
    }
  }

  /** A handle of a task that has just been made names its address space or the task itself. */
  predicate NewHandle(c: Caps, t: nat, h: Option<Handle>) {
    h.Some? ==> match h.value.target
                case AddressSpaceObject(id) => SpaceLives(c, id)
                case ThreadObject(u) => u == t
                case _ => false
  }

  /** A new task holds no frames. */
  lemma GainTask(c: Caps, t: nat, x: Tcb)
    requires CapsOk(c) && t < |c.tasks| && c.tasks[t].None? && SpaceLives(c, x.space) && |x.handles| == MAX_HANDLES
    requires forall i :: 0 <= i < MAX_HANDLES ==> NewHandle(c, t, x.handles[i])
    ensures CapsOk(c.(tasks := c.tasks[t := Some(x)]))
  {
    var c' := c.(tasks := c.tasks[t := Some(x)]);
    forall p
      ensures HandleOk(c', p)
      ensures FrameAt(c'.tasks, p) == FrameAt(c.tasks, p)
      ensures p.task != t ==> ObjectAt(c'.tasks, p) == ObjectAt(c.tasks, p)
    {
      assert HandleOk(c, p);
      if p.task == t && p.slot < MAX_HANDLES {
        assert NewHandle(c, t, x.handles[p.slot]);
      }
    }
    GainTaskRest(c, c', t, x);
  }

  lemma GainTaskRest(c: Caps, c': Caps, t: nat, x: Tcb)
    requires CapsOk(c) && t < |c.tasks| && c.tasks[t].None? && SpaceLives(c, x.space) && |x.handles| == MAX_HANDLES
    requires c' == c.(tasks := c.tasks[t := Some(x)])
    requires forall p {:trigger HandleOk(c', p)} :: HandleOk(c', p)
    requires forall p {:trigger FrameAt(c'.tasks, p)} {:trigger FrameAt(c.tasks, p)} ::
      FrameAt(c'.tasks, p) == FrameAt(c.tasks, p)
    ensures CapsOk(c')
  {
    forall p, q
      ensures Apart(c'.tasks, p, q)
    {
      assert Apart(c.tasks, p, q);
    }
    forall u: nat
      ensures TcbOk(c', u)
    {
      assert TcbOk(c, u);
    }
    forall id: nat
      ensures SpaceOk(c', id)
    {
      assert SpaceOk(c, id);
    }
    forall i: nat, j: nat
      ensures SpacesApart(c', i, j)
    {
      assert SpacesApart(c, i, j);
    }
    forall l: Loc
      ensures PageOk(c', l)
    {
      assert PageOk(c, l);
      if p: Pos :| Covers(c, p, l) {
        assert Covers(c', p, l);
      }
    }
    forall f: nat
      ensures Accounted(c', f)
    {
      assert Accounted(c, f);
      if p: Pos :| FrameAt(c.tasks, p) == Some(f) {
        assert FrameAt(c'.tasks, p) == Some(f);
      }
    }
  }

  ghost predicate SameUserPages(c: Caps, v': View) {
    forall l: Loc :: l.root != c.kernelRoot ==>
      (l in v'.maps <==> l in c.view.maps) && (l in c.view.maps ==> v'.maps[l] == c.view.maps[l])
  }

  ghost function WithStack(c: Caps, v': View, s': seq<FrameState>, held: set<nat>): Caps {
    c.(view := v', states := s', stacks := c.stacks + held)
  }

  /** Free frames become the pages of a kernel stack and the tables that lead to them. */
  lemma GainStack(c: Caps, v': View, s': seq<FrameState>, held: set<nat>)
    requires CapsOk(c) && SameUserPages(c, v') && Grown(c.view, v', c.kernelRoot)
    requires held !! v'.nodes.Values && held !! c.view.nodes.Values
    requires Moved(c.view.nodes.Values, c.states, v'.nodes.Values + held, s')
    ensures CapsOk(WithStack(c, v', s', held))
  {
    var c' := WithStack(c, v', s', held);
    StackSets(c, v', s', held);
    forall g: nat
      ensures Loose(c, g) <==> Loose(c', g)
    {
      StackLoose(c, v', s', held, g);
    }
    forall p
      ensures HandleOk(c', p)
    {
      StackHandle(c, v', s', held, p);
    }
    forall l: Loc
      ensures PageOk(c', l)
    {
      assert PageOk(c, l);
      if p: Pos :| Covers(c, p, l) {
        assert Covers(c', p, l);
      }
    }
    forall g: nat
      ensures Accounted(c', g)
    {
      assert Accounted(c, g);
    }
    GainStackRest(c, c');
  }

  lemma StackSets(c: Caps, v': View, s': seq<FrameState>, held: set<nat>)
    requires SetsOk(c) && held !! v'.nodes.Values && held !! c.view.nodes.Values
    requires Moved(c.view.nodes.Values, c.states, v'.nodes.Values + held, s')
    ensures SetsOk(WithStack(c, v', s', held))
  {
  }

  lemma StackLoose(c: Caps, v': View, s': seq<FrameState>, held: set<nat>, g: nat)
    requires SetsOk(c) && held !! v'.nodes.Values && held !! c.view.nodes.Values
    requires Moved(c.view.nodes.Values, c.states, v'.nodes.Values + held, s')
    ensures Loose(c, g) <==> Loose(WithStack(c, v', s', held), g)
  {
  }

  lemma StackHandle(c: Caps, v': View, s': seq<FrameState>, held: set<nat>, p: Pos)
    requires CapsOk(c) && SameUserPages(c, v')
    requires forall g: nat {:trigger Loose(c, g)} :: Loose(c, g) <==> Loose(WithStack(c, v', s', held), g)
    ensures HandleOk(WithStack(c, v', s', held), p)
  {
    assert HandleOk(c, p);
    var o := ObjectAt(c.tasks, p);
    if o.Some? && o.value.MappingObject? {
      assert SpaceOk(c, o.value.id);
    }
  }

  lemma GainStackRest(c: Caps, c': Caps)
    requires CapsOk(c) && c'.tasks == c.tasks && c'.spaces == c.spaces && c'.kernelRoot == c.kernelRoot
    requires c.view.nodes.Keys <= c'.view.nodes.Keys
    ensures forall p, q {:trigger Apart(c'.tasks, p, q)} :: Apart(c'.tasks, p, q)
    ensures forall t: nat {:trigger TcbOk(c', t)} :: TcbOk(c', t)
    ensures forall id: nat {:trigger SpaceOk(c', id)} :: SpaceOk(c', id)
    ensures forall i: nat, j: nat {:trigger SpacesApart(c', i, j)} :: SpacesApart(c', i, j)
  {
    forall t: nat
      ensures TcbOk(c', t)
    {
      assert TcbOk(c, t);
    }
    forall id: nat
      ensures SpaceOk(c', id)
    {
      assert SpaceOk(c, id);
    }
    forall i: nat, j: nat
      ensures SpacesApart(c', i, j)
    {
      assert SpacesApart(c, i, j);
    }
  }
}
