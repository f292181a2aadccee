/** The physical frame allocator as a value: one state per frame and a search hint.
    `FrameBitmap.FrameAllocator` implements it with a packed bitmap; the page tables
    and the system calls are stated over this value. */
module Frames {
  import opened Outcomes

  datatype FrameState = Reserved | Free | Allocated

  datatype Pool = Pool(states: seq<FrameState>, hint: nat)

  /** The search always starts at a frame index, or just past the last one. */
  predicate PoolOk(p: Pool) {
    p.hint <= |p.states|
  }

  ghost function FreeSet(states: seq<FrameState>): (r: set<nat>)
    ensures forall f :: f in r <==> 0 <= f < |states| && states[f] == Free
  {
    set f: nat | f < |states| && states[f] == Free
  }

  /** First free frame in [lo, hi). */
  function FindFreeIn(states: seq<FrameState>, lo: nat, hi: nat): (r: Option<nat>)
    requires lo <= hi <= |states|
    ensures r.Some? ==> lo <= r.value < hi && states[r.value] == Free
    ensures r.Some? ==> forall j :: lo <= j < r.value ==> states[j] != Free
    ensures r.None? ==> forall j :: lo <= j < hi ==> states[j] != Free
    decreases hi - lo
  {
    if lo == hi then None
    else if states[lo] == Free then Some(lo)
    else FindFreeIn(states, lo + 1, hi)
  }

  /** The frame the allocator picks: first from the hint up, then from the bottom. */
  function FindFree(p: Pool): (r: Option<nat>)
    requires PoolOk(p)
    ensures r.Some? ==> r.value < |p.states| && p.states[r.value] == Free
    ensures r.None? <==> FreeSet(p.states) == {}
  {
    var above := FindFreeIn(p.states, p.hint, |p.states|);
    if above.Some? then
      assert above.value in FreeSet(p.states);
      above
    else
      var below := FindFreeIn(p.states, 0, p.hint);
      assert below.Some? ==> below.value in FreeSet(p.states);
      below
  }

  function Take(p: Pool, f: nat): (r: Pool)
    requires PoolOk(p) && f < |p.states|
    ensures PoolOk(r)
  {
    Pool(p.states[f := Allocated], f + 1)
  }

  function Give(p: Pool, f: nat): (r: Pool)
    requires PoolOk(p) && f < |p.states|
    ensures PoolOk(r)
  {
    Pool(p.states[f := Free], if p.hint <= f then p.hint else f)
  }

  lemma TakeFree(states: seq<FrameState>, f: nat)
    requires f < |states| && states[f] == Free
    ensures FreeSet(states[f := Allocated]) == FreeSet(states) - {f}
    ensures |FreeSet(states[f := Allocated])| == |FreeSet(states)| - 1
  {
    assert FreeSet(states[f := Allocated]) == FreeSet(states) - {f};
    assert f in FreeSet(states);
  }

  lemma GiveFree(states: seq<FrameState>, f: nat)
    requires f < |states| && states[f] != Free
    ensures FreeSet(states[f := Free]) == FreeSet(states) + {f}
    ensures |FreeSet(states[f := Free])| == |FreeSet(states)| + 1
  {
    assert FreeSet(states[f := Free]) == FreeSet(states) + {f};
    assert f !in FreeSet(states);
  }

  /** Giving back a frame just taken undoes the change of states, whatever the hint became. */
  lemma GiveUndoesTake(p: Pool, f: nat)
    requires PoolOk(p) && f < |p.states| && p.states[f] == Free
    ensures Give(Take(p, f), f).states == p.states
  {
    assert p.states[f := Allocated][f := Free] == p.states;
  }
}
