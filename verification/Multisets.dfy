/** A law of sums of multisets, for the checks in flight and the elements of a cache. */
module Multisets {
  /** Equal sums stay equal when the same is added to both. */
  lemma WithMore<T>(m: multiset<T>, a: multiset<T>, b: multiset<T>, c: multiset<T>, d: multiset<T>)
    requires a + b == c + d
    ensures m + a + b == m + c + d
  {
    assert m + a + b == m + (a + b);
    assert m + c + d == m + (c + d);
  }
}
