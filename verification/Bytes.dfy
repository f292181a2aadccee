/** Bytes and the numbers they spell. */
module Bytes {
  type byte = x: nat | x < 256

  /** Least significant byte first. */
  function Little(b: seq<byte>): nat {
    if b == [] then 0 else b[0] + 256 * Little(b[1..])
  }

  /** Most significant byte first. */
  function Big(b: seq<byte>): nat {
    if b == [] then 0 else 256 * Big(b[..|b| - 1]) + b[|b| - 1]
  }

  /** The bytes of `s` from `off`, n of them. */
  function Slice(s: seq<byte>, off: nat, n: nat): (r: seq<byte>)
    requires off + n <= |s|
    ensures |r| == n
  {
    s[off..off + n]
  }

  lemma SliceOfSlice(s: seq<byte>, a: nat, n: nat, off: nat, k: nat)
    requires a + n <= |s| && off + k <= n
    ensures Slice(Slice(s, a, n), off, k) == Slice(s, a + off, k)
  {
    var inner := s[a..a + n];
    var x, y := inner[off..off + k], s[a + off..a + off + k];
    forall i | 0 <= i < k
      ensures x[i] == y[i]
    {
      assert inner[off + i] == s[a + off + i];
    }
  }
}
