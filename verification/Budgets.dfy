/** How many frames it takes to map a list of pages: each page the missing tables on its way, and
    perhaps a frame of its own. */
module Budgets {
  import opened Frames
  import opened Forest
  import opened Walks
  import opened MapSteps

  /** The frames needed for pages one after the other, each with `each` frames of its own. */
  ghost function Need(levels: nat, keys: set<Key>, root: nat, pages: seq<nat>, each: nat): nat
    decreases |pages|
  {
    if pages == [] then 0
    else
      each + Missing(levels, keys, root, pages[0], 0)
      + Need(levels, keys + Way(levels, root, pages[0]), root, pages[1..], each)
  }

  /** How many frames would be left; negative if there are too few. */
  ghost function Margin(levels: nat, v: View, s: seq<FrameState>, root: nat, pages: seq<nat>, each: nat): int {
    |FreeSet(s)| - Need(levels, v.nodes.Keys, root, pages, each)
  }

  /** Mapping the first page leaves the margin as it was. */
  lemma MarginKept(
    levels: nat, v: View, s: seq<FrameState>, s1: seq<FrameState>, v': View, s': seq<FrameState>, root: nat,
    pages: seq<nat>, each: nat)
    requires pages != [] && |FreeSet(s1)| + each == |FreeSet(s)| && Paid(levels, v, s1, v', s', root, pages[0])
    ensures Margin(levels, v', s', root, pages[1..], each) == Margin(levels, v, s, root, pages, each)
  {
  }

  lemma MarginShort(levels: nat, v: View, s: seq<FrameState>, root: nat, pages: seq<nat>, each: nat)
    requires pages != [] && |FreeSet(s)| < each + Missing(levels, v.nodes.Keys, root, pages[0], 0)
    ensures Margin(levels, v, s, root, pages, each) < 0
  {
  }

  lemma {:induction false} MissingBound(levels: nat, keys: set<Key>, root: nat, page: nat, d: nat)
    requires d <= levels + 1
    ensures Missing(levels, keys, root, page, d) <= levels + 1 - d
    decreases levels + 1 - d
  {
    if d <= levels {
      MissingBound(levels, keys, root, page, d + 1);
    }
  }

  /** No page needs more than all tables below the root and its own frames. */
  lemma {:induction false} NeedBound(levels: nat, keys: set<Key>, root: nat, pages: seq<nat>, each: nat)
    requires forall page <- pages :: PathKey(levels, root, page, 0) in keys
    ensures Need(levels, keys, root, pages, each) <= |pages| * (levels + each)
    decreases |pages|
  {
    if pages != [] {
      assert pages[0] in pages;
      MissingBound(levels, keys, root, pages[0], 1);
      assert Missing(levels, keys, root, pages[0], 0) <= levels;
      NeedBound(levels, keys + Way(levels, root, pages[0]), root, pages[1..], each);
      assert |pages| * (levels + each) == (levels + each) + (|pages| - 1) * (levels + each);
    }
  }
}
