/** Fixed-capacity ring buffers, as used for the ready queue (with removal) and for mailboxes. */
module Rings {
  import opened Outcomes

  /** The sequence without the first occurrence of x. */
  function Without<T(==)>(s: seq<T>, x: T): seq<T> {
    if s == [] then [] else if s[0] == x then s[1..] else [s[0]] + Without(s[1..], x)
  }

  /** The sequence without its i-th element. */
  function RemoveAt<T>(s: seq<T>, i: nat): seq<T>
    requires i < |s|
  {
    s[..i] + s[i + 1..]
  }

  lemma GapMoves<T>(s: seq<T>, j: nat)
    requires j + 1 < |s|
    ensures RemoveAt(s[j := s[j + 1]], j + 1) == RemoveAt(s, j)
  {
  }

  lemma {:induction false} WithoutAt<T>(s: seq<T>, x: T, k: nat)
    requires k < |s| && s[k] == x && forall j :: 0 <= j < k ==> s[j] != x
    ensures Without(s, x) == RemoveAt(s, k)
  {
    if k > 0 {
      WithoutAt(s[1..], x, k - 1);
    }
  }

  lemma {:induction false} WithoutAbsent<T>(s: seq<T>, x: T)
    requires x !in s
    ensures Without(s, x) == s
  {
    if s != [] {
      WithoutAbsent(s[1..], x);
    }
  }

  lemma Wrap(n: nat, cap: nat)
    requires cap > 0 && n < 2 * cap
    ensures n % cap == if n < cap then n else n - cap
  {
    if n >= cap {
      assert (n - cap) % cap == n - cap;
      assert n == (n - cap) + cap;
    }
  }

  /** Where the i-th queued element is. */
  function Place(head: nat, cap: nat, i: nat): int {
    if head + i < cap then head + i else head + i - cap
  }

  class Ring<T(0,==)> {
    const entries: array<T>
    var head: nat
    var len: nat

    ghost predicate Valid()
      reads this
    {
      entries.Length > 0 && head < entries.Length && len <= entries.Length
    }

    /** The queued elements, oldest first. */
    ghost function Contents(): (s: seq<T>)
      requires Valid()
      reads this, entries
      ensures |s| == len
    {
      if head + len <= entries.Length then entries[head..head + len]
      else entries[head..] + entries[..head + len - entries.Length]
    }

    constructor (capacity: nat)
      requires capacity > 0
      ensures Valid() && fresh(entries) && entries.Length == capacity && Contents() == []
    {
      entries := new T[capacity];
      head, len := 0, 0;
    }

    method PushBack(x: T) returns (ok: bool)
      requires Valid()
      modifies this`len, entries
      ensures Valid()
      ensures ok <==> old(len) < entries.Length
      ensures Contents() == if ok then old(Contents()) + [x] else old(Contents())
    {
      if len == entries.Length {
        return false;
      }
      Wrap(head + len, entries.Length);
      var tail := (head + len) % entries.Length;
      entries[tail] := x;
      len := len + 1;
      assert Contents()[..len - 1] == old(Contents());
      return true;
    }

    method PopFront() returns (r: Option<T>)
      requires Valid()
      modifies this`head, this`len
      ensures Valid()
      ensures r.None? <==> old(Contents()) == []
      ensures r.None? ==> Contents() == old(Contents())
      ensures r.Some? ==> old(Contents()) == [r.value] + Contents()
    {
      if len == 0 {
        return None;
      }
      var x := entries[head];
      Wrap(head + 1, entries.Length);
      head := (head + 1) % entries.Length;
      len := len - 1;
      return Some(x);
    }

    /** Removes the first occurrence of x, closing the gap. */
    method Remove(x: T) returns (found: bool)
      requires Valid()
      modifies this`len, entries
      ensures Valid()
      ensures found <==> x in old(Contents())
      ensures Contents() == Without(old(Contents()), x)
    {
      ghost var before := Contents();
      var i := 0;
      while i < len
        invariant 0 <= i <= len == old(len) && Contents() == before
        invariant forall j :: 0 <= j < i ==> before[j] != x
      {
        Wrap(head + i, entries.Length);
        var idx := (head + i) % entries.Length;
        assert entries[idx] == before[i];
        if entries[idx] == x {
          CloseGap(i);
          WithoutAt(before, x, i);
          return true;
        }
        i := i + 1;
      }
      WithoutAbsent(before, x);
      return false;
    }

    /** Removes the i-th element by moving those behind it one place forward. */
    method CloseGap(i: nat)
      requires Valid() && i < len
      modifies this`len, entries
      ensures Valid() && len == old(len) - 1
      ensures Contents() == RemoveAt(old(Contents()), i)
    {
      ShiftDown(i);
      DropLast();
    }

    /** Each step leaves the gap one place further on. */
    method ShiftDown(i: nat)
      requires Valid() && i < len
      modifies entries
      ensures Contents()[..len - 1] == RemoveAt(old(Contents()), i)
    {
      ghost var rest := RemoveAt(Contents(), i);
      var j := i;
      while j < len - 1
        invariant i <= j <= len - 1 && Valid()
        invariant RemoveAt(Contents(), j) == rest
      {
        GapMoves(Contents(), j);
        MoveForward(j);
        j := j + 1;
      }
      assert Contents()[j + 1..] == [];
    }

    method MoveForward(j: nat)
      requires Valid() && j + 1 < len
      modifies entries
      ensures Contents() == old(Contents())[j := old(Contents())[j + 1]]
    {
      Wrap(head + j + 1, entries.Length);
      Wrap(head + j, entries.Length);
      var src := (head + j + 1) % entries.Length;
      var dst := (head + j) % entries.Length;
      PlacesApart(j);
      AllPlaced();
      entries[dst] := entries[src];
      AllPlaced();
    }

    /** Each queued element is in its place. */
    lemma AllPlaced()
      requires Valid()
      ensures forall k {:trigger Place(head, entries.Length, k)} {:trigger Contents()[k]} :: 0 <= k < len ==>
        0 <= Place(head, entries.Length, k) < entries.Length && Contents()[k] == entries[Place(head, entries.Length, k)]
    {
    }

    /** Different elements are in different places. */
    lemma PlacesApart(j: nat)
      requires Valid() && j < len
      ensures forall k {:trigger Place(head, entries.Length, k)} :: 0 <= k < len && k != j ==>
        Place(head, entries.Length, k) != Place(head, entries.Length, j)
    {
    }

    method DropLast()
      requires Valid() && len > 0
      modifies this`len
      ensures Valid() && len == old(len) - 1 && Contents() == old(Contents())[..len]
    {
      len := len - 1;
    }
  }
}
