/** Sorted lists of numbers, for the hashes of a filter and the times of blocks. */
module Sorting {
  predicate Sorted(s: seq<nat>) {
    forall i, j | 0 <= i < j < |s| :: s[i] <= s[j]
  }

  /** How many of the first n values are below v. */
  function Place(s: seq<nat>, v: nat, n: nat): (k: nat)
    requires Sorted(s) && n <= |s|
    ensures k <= n && (forall i | 0 <= i < k :: s[i] < v) && forall i | k <= i < n :: v <= s[i]
  {
    if n == 0 || s[n - 1] < v then n else Place(s, v, n - 1)
  }

  /** One more value in its place, as sorting would leave it. */
  function Inserted(s: seq<nat>, v: nat): (r: seq<nat>)
    requires Sorted(s)
    ensures Sorted(r) && |r| == |s| + 1 && multiset(r) == multiset(s) + multiset{v}
  {
    var k := Place(s, v, |s|);
    assert s == s[..k] + s[k..];
    s[..k] + [v] + s[k..]
  }

  function Sort(s: seq<nat>): (r: seq<nat>)
    ensures |r| == |s| && Sorted(r) && multiset(r) == multiset(s)
  {
    if s == [] then []
    else
      assert s == s[..|s| - 1] + [s[|s| - 1]];
      Inserted(Sort(s[..|s| - 1]), s[|s| - 1])
  }
}
