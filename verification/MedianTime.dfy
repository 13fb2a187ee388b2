/**
 * The median time past of a block (src/chain.h) and the rule that a block's time exceeds it. The rule is what
 * bounds the number of blocks that fit into a span of time: the median moves at least once in six blocks.
 */
module MedianTime {
  import opened Sorting

  const MEDIAN_TIME_SPAN := 11
  const MAX_FUTURE_BLOCK_TIME := 2 * 60 * 60

  // ---------------------------------------------------------------------------------------
  // Sorted times

  /** How many values lie above v. */
  function Above(s: seq<nat>, v: int): nat {
    if s == [] then 0 else Above(s[..|s| - 1], v) + if s[|s| - 1] > v then 1 else 0
  }

  lemma {:induction false} AboveParts(a: seq<nat>, b: seq<nat>, v: int)
    ensures Above(a + b, v) == Above(a, v) + Above(b, v)
  {
    if b == [] {
      assert a + b == a;
    } else {
      var n := |b| - 1;
      assert (a + b)[..|a + b| - 1] == a + b[..n];
      AboveParts(a, b[..n], v);
    }
  }

  lemma AboveInserted(s: seq<nat>, x: nat, v: int)
    requires Sorted(s)
    ensures Above(Inserted(s, x), v) == Above(s, v) + if x > v then 1 else 0
  {
    hide Above;
    var k := Place(s, x, |s|);
    assert s == s[..k] + s[k..];
    AboveParts(s[..k], s[k..], v);
    AboveParts(s[..k] + [x], s[k..], v);
    AboveParts(s[..k], [x], v);
    OneAbove(x, v);
  }

  lemma {:induction false} AboveSorted(s: seq<nat>, v: int)
    ensures Above(Sort(s), v) == Above(s, v)
  {
    hide Inserted;
    if s != [] {
      AboveSorted(s[..|s| - 1], v);
      AboveInserted(Sort(s[..|s| - 1]), s[|s| - 1], v);
    }
  }

  /** In a sorted list the k-th value lies above v exactly when all but k do. */
  lemma {:induction false} AboveAt(s: seq<nat>, k: nat, v: int)
    requires Sorted(s) && k < |s|
    ensures s[k] > v <==> Above(s, v) >= |s| - k
    ensures Above(s, v) <= |s|
  {
    var n := |s| - 1;
    if k < n {
      AboveAt(s[..n], k, v);
    } else {
      AboveFew(s[..n], v);
      if s[n] <= v {
        NoneAbove(s[..n], v);
      }
    }
  }

  lemma {:induction false} AboveFew(s: seq<nat>, v: int)
    ensures Above(s, v) <= |s|
  {
    if s != [] {
      AboveFew(s[..|s| - 1], v);
    }
  }

  lemma {:induction false} NoneAbove(s: seq<nat>, v: int)
    requires forall i | 0 <= i < |s| :: s[i] <= v
    ensures Above(s, v) == 0
  {
    if s != [] {
      NoneAbove(s[..|s| - 1], v);
    }
  }

  lemma {:induction false} AllAbove(s: seq<nat>, v: int)
    requires forall i | 0 <= i < |s| :: s[i] > v
    ensures Above(s, v) == |s|
  {
    if s != [] {
      AllAbove(s[..|s| - 1], v);
    }
  }

  // ---------------------------------------------------------------------------------------
  // The median time past

  /** The times that count: those of the last eleven blocks, or of all there are. */
  function Window(times: seq<nat>): (w: seq<nat>)
    ensures |w| == if |times| < MEDIAN_TIME_SPAN then |times| else MEDIAN_TIME_SPAN
  {
    if |times| < MEDIAN_TIME_SPAN then times else times[|times| - MEDIAN_TIME_SPAN..]
  }

  /** The median time past of the last block of a chain with these block times. */
  function MedianTimePast(times: seq<nat>): nat
    requires times != []
  {
    var w := Window(times);
    Sort(w)[|w| / 2]
  }

  /** It lies above v exactly when the larger half of the window does. */
  lemma MedianAbove(times: seq<nat>, v: int)
    requires times != []
    ensures MedianTimePast(times) > v <==> Above(Window(times), v) >= |Window(times)| - |Window(times)| / 2
  {
    var w := Window(times);
    AboveSorted(w, v);
    AboveAt(Sort(w), |w| / 2, v);
  }

  lemma MedianOfEqual(n: nat, t: nat)
    requires n > 0
    ensures MedianTimePast(seq(n, _ => t)) == t
  {
    hide Sort;
    var w := Window(seq(n, _ => t));
    assert forall x | x in w :: x == t;
    assert Sort(w)[|w| / 2] in multiset(w);
  }

  /** A block after these may have this time. */
  predicate MayFollow(times: seq<nat>, t: nat, now: int)
    requires times != []
  {
    MedianTimePast(times) < t <= now + MAX_FUTURE_BLOCK_TIME
  }

  /** Every block keeps the rule. */
  predicate Keeps(past: seq<nat>, times: seq<nat>, now: int)
    requires past != []
  {
    forall i | 0 <= i < |times| :: MayFollow(past + times[..i], times[i], now)
  }

  lemma WindowGrows(times: seq<nat>, t: nat, v: int)
    requires times != []
    ensures var w, w' := Window(times), Window(times + [t]);
            && (|w'| == |w| || |w'| == |w| + 1)
            && Above(w', v) >= Above(w, v) + (if t > v then 1 else 0) - (if |w'| == |w| then 1 else 0)
  {
    var w, w' := Window(times), Window(times + [t]);
    if |times| < MEDIAN_TIME_SPAN - 1 {
      AboveParts(times, [t], v);
      assert w' == w + [t];
    } else if |times| == MEDIAN_TIME_SPAN - 1 {
      AboveParts(times, [t], v);
      assert w' == w + [t];
    } else {
      assert w == [w[0]] + w[1..] && w' == w[1..] + [t];
      AboveParts([w[0]], w[1..], v);
      AboveParts(w[1..], [t], v);
      AboveFew([w[0]], v);
    }
    OneAbove(t, v);
  }

  lemma OneAbove(t: nat, v: int)
    ensures Above([t], v) == if t > v then 1 else 0
  {
    assert [t][..0] == [];
  }

  /** The median never moves back. */
  lemma MedianGrows(times: seq<nat>, t: nat)
    requires times != [] && MedianTimePast(times) < t
    ensures MedianTimePast(times) <= MedianTimePast(times + [t])
  {
    hide Above, MedianTimePast, Window;
    var m: int := MedianTimePast(times);
    MedianAbove(times, m - 1);
    MedianAbove(times + [t], m - 1);
    WindowGrows(times, t, m - 1);
  }

  lemma {:induction false} MedianKeepsGrowing(past: seq<nat>, times: seq<nat>, now: int)
    requires past != [] && Keeps(past, times, now)
    ensures MedianTimePast(past) <= MedianTimePast(past + times)
  {
    hide MedianTimePast;
    if times == [] {
      assert past + times == past;
    } else {
      var n := |times| - 1;
      KeepsPart(past, times, now, n);
      MedianKeepsGrowing(past, times[..n], now);
      assert MayFollow(past + times[..n], times[n], now);
      assert past + times == (past + times[..n]) + [times[n]];
      MedianGrows(past + times[..n], times[n]);
    }
  }

  lemma KeepsPart(past: seq<nat>, times: seq<nat>, now: int, n: nat)
    requires past != [] && Keeps(past, times, now) && n <= |times|
    ensures Keeps(past, times[..n], now) && Keeps(past + times[..n], times[n..], now)
  {
    hide MayFollow;
    forall i | 0 <= i < n ensures MayFollow(past + times[..n][..i], times[..n][i], now) {
      assert times[..n][..i] == times[..i];
    }
    forall i | 0 <= i < |times| - n ensures MayFollow(past + times[..n] + times[n..][..i], times[n..][i], now) {
      assert past + times[..n] + times[n..][..i] == past + times[..n + i];
    }
  }

  /** Six blocks move the median. */
  lemma MedianMoves(past: seq<nat>, times: seq<nat>, now: int)
    requires past != [] && |times| == 6 && Keeps(past, times, now)
    ensures MedianTimePast(past) < MedianTimePast(past + times)
  {
    hide Above, MedianTimePast, Sort;
    var m, all := MedianTimePast(past), past + times;
    forall i | 0 <= i < 6 ensures times[i] > m {
      KeepsPart(past, times, now, i);
      MedianKeepsGrowing(past, times[..i], now);
      assert MayFollow(past + times[..i], times[i], now);
    }
    AllAbove(times, m);
    var w := Window(all);
    assert w == w[..|w| - 6] + times;
    AboveParts(w[..|w| - 6], times, m);
    MedianAbove(all, m);
  }

  lemma {:induction false} MedianPaces(past: seq<nat>, times: seq<nat>, now: int, k: nat)
    requires past != [] && Keeps(past, times, now) && 6 * k <= |times|
    ensures MedianTimePast(past) + k <= MedianTimePast(past + times[..6 * k])
  {
    hide MedianTimePast, Keeps;
    if k == 0 {
      assert past + times[..0] == past;
    } else {
      var n := 6 * (k - 1);
      MedianPaces(past, times, now, k - 1);
      KeepsPart(past, times, now, 6 * k);
      KeepsPart(past, times[..6 * k], now, n);
      assert times[..6 * k][..n] == times[..n];
      assert past + times[..6 * k] == past + times[..n] + times[..6 * k][n..];
      MedianMoves(past + times[..n], times[..6 * k][n..], now);
    }
  }

  /** The seconds a chain may still cover: from the median time past to the latest time a block may have. */
  function Span(past: seq<nat>, now: int): int
    requires past != []
  {
    now - MedianTimePast(past) + MAX_FUTURE_BLOCK_TIME
  }

  /** At most six blocks fit into each second. */
  lemma SixPerSecond(past: seq<nat>, times: seq<nat>, now: int)
    requires past != [] && Keeps(past, times, now)
    ensures times != [] ==> Span(past, now) > 0
    ensures |times| <= 6 * (if Span(past, now) > 0 then Span(past, now) else 0)
  {
    hide MedianTimePast;
    if times != [] {
      var k := (|times| - 1) / 6;
      MedianPaces(past, times, now, k);
      assert MayFollow(past + times[..6 * k], times[6 * k], now);
    }
  }

  // ---------------------------------------------------------------------------------------
  // The longest chain

  /** Lists that are nowhere later have no more values above v. */
  lemma {:induction false} AbovePointwise(a: seq<nat>, b: seq<nat>, v: int)
    requires |a| == |b| && forall i | 0 <= i < |a| :: a[i] <= b[i]
    ensures Above(a, v) <= Above(b, v)
  {
    if a != [] {
      AbovePointwise(a[..|a| - 1], b[..|b| - 1], v);
    }
  }

  /** The median of times that are nowhere later is not later. */
  lemma MedianPointwise(a: seq<nat>, b: seq<nat>)
    requires |a| == |b| > 0 && forall i | 0 <= i < |a| :: a[i] <= b[i]
    ensures MedianTimePast(a) <= MedianTimePast(b)
  {
    hide MedianTimePast, Above;
    var m: int := MedianTimePast(a);
    MedianAbove(a, m - 1);
    MedianAbove(b, m - 1);
    AbovePointwise(Window(a), Window(b), m - 1);
  }

  /** Each block as early as the median allows. */
  function Earliest(past: seq<nat>, n: nat): (r: seq<nat>)
    requires past != []
    ensures |r| == n
  {
    if n == 0 then []
    else
      var e := Earliest(past, n - 1);
      e + [MedianTimePast(past + e) + 1]
  }

  lemma {:induction false} EarliestPrefix(past: seq<nat>, n: nat, k: nat)
    requires past != [] && k <= n
    ensures Earliest(past, n)[..k] == Earliest(past, k)
  {
    hide MedianTimePast;
    if k < n {
      EarliestPrefix(past, n - 1, k);
      var e := Earliest(past, n - 1);
      assert (e + [MedianTimePast(past + e) + 1])[..k] == e[..k];
    } else {
      assert Earliest(past, n)[..n] == Earliest(past, n);
    }
  }

  /** No chain that keeps the rule is earlier anywhere. */
  lemma {:induction false} EarliestIsEarliest(past: seq<nat>, times: seq<nat>, now: int)
    requires past != [] && Keeps(past, times, now)
    ensures forall i | 0 <= i < |times| :: Earliest(past, |times|)[i] <= times[i]
  {
    hide MedianTimePast, Keeps;
    if times != [] {
      var n := |times| - 1;
      KeepsPart(past, times, now, n);
      EarliestIsEarliest(past, times[..n], now);
      MedianPointwise(past + Earliest(past, n), past + times[..n]);
      KeepsAt(past, times, now, n);
    }
  }

  lemma KeepsAt(past: seq<nat>, times: seq<nat>, now: int, i: nat)
    requires past != [] && Keeps(past, times, now) && i < |times|
    ensures MayFollow(past + times[..i], times[i], now)
  {
  }

  /** So where a chain of some length keeps the rules, the earliest one of that length does. */
  lemma EarliestKeeps(past: seq<nat>, times: seq<nat>, now: int)
    requires past != [] && Keeps(past, times, now)
    ensures Keeps(past, Earliest(past, |times|), now)
  {
    hide MedianTimePast;
    var e := Earliest(past, |times|);
    EarliestIsEarliest(past, times, now);
    forall i | 0 <= i < |times| ensures MayFollow(past + e[..i], e[i], now) {
      EarliestPrefix(past, |times|, i);
      EarliestPrefix(past, |times|, i + 1);
      assert e[i] == e[..i + 1][i];
      KeepsAt(past, times, now, i);
    }
  }

  /** The length of the longest chain that keeps the rules, among those of at most n blocks. */
  function LongestUpTo(past: seq<nat>, now: int, n: nat): (r: nat)
    requires past != []
    ensures r <= n && Keeps(past, Earliest(past, r), now)
  {
    if n == 0 || Keeps(past, Earliest(past, n), now) then n else LongestUpTo(past, now, n - 1)
  }

  lemma {:induction false} NoneLonger(past: seq<nat>, now: int, n: nat, k: nat)
    requires past != [] && k <= n && Keeps(past, Earliest(past, k), now)
    ensures k <= LongestUpTo(past, now, n)
  {
    hide Keeps, Earliest;
    if k < n {
      NoneLonger(past, now, n - 1, k);
    }
  }

  /** The length of the longest chain that keeps the rules. */
  function Longest(past: seq<nat>, now: int): (r: nat)
    requires past != []
    ensures Keeps(past, Earliest(past, r), now)
  {
    LongestUpTo(past, now, if Span(past, now) > 0 then 6 * Span(past, now) else 0)
  }

  lemma LongestIsLongest(past: seq<nat>, times: seq<nat>, now: int)
    requires past != [] && Keeps(past, times, now)
    ensures |times| <= Longest(past, now)
  {
    hide Span, Keeps, Earliest;
    SixPerSecond(past, times, now);
    EarliestKeeps(past, times, now);
    NoneLonger(past, now, if Span(past, now) > 0 then 6 * Span(past, now) else 0, |times|);
  }

  // ---------------------------------------------------------------------------------------
  // A chain at full speed

  /** Six blocks for each second after m. */
  function FullSpeed(m: nat, n: nat): (r: seq<nat>)
    ensures |r| == n && forall i | 0 <= i < n :: r[i] == m + 1 + i / 6
  {
    seq(n, i => m + 1 + i / 6)
  }

  lemma {:induction false} FullSpeedAbove(m: nat, n: nat, k: int)
    requires k >= 0
    ensures Above(FullSpeed(m, n), m + k) == if n <= 6 * k then 0 else n - 6 * k
  {
    if n > 0 {
      FullSpeedAbove(m, n - 1, k);
      assert FullSpeed(m, n)[..n - 1] == FullSpeed(m, n - 1);
    }
  }

  lemma AboveSuffix(s: seq<nat>, n: nat, v: int)
    requires n <= |s|
    ensures Above(s[n..], v) <= Above(s, v)
  {
    AboveParts(s[..n], s[n..], v);
    assert s == s[..n] + s[n..];
  }

  /** After eleven blocks none of which is later than the median, a chain can go at full speed to the end. */
  lemma FullSpeedKeeps(past: seq<nat>, now: int)
    requires |past| >= MEDIAN_TIME_SPAN && forall i | 0 <= i < |past| :: past[i] <= MedianTimePast(past)
    requires Span(past, now) > 0
    ensures Keeps(past, FullSpeed(MedianTimePast(past), 6 * Span(past, now)), now)
  {
    hide MedianTimePast, Above, FullSpeed, Sort;
    var m := MedianTimePast(past);
    var ts := FullSpeed(m, 6 * Span(past, now));
    forall i | 0 <= i < |ts| ensures MayFollow(past + ts[..i], ts[i], now) {
      var k := i / 6;
      var all := past + ts[..i];
      assert ts[..i] == FullSpeed(m, i);
      FullSpeedAbove(m, i, k);
      NoneAbove(past, m + k);
      AboveParts(past, ts[..i], m + k);
      AboveSuffix(all, |all| - MEDIAN_TIME_SPAN, m + k);
      MedianAbove(all, m + k);
    }
  }

  /** From such a start the longest chain has six blocks for every second. */
  lemma FullSpeedIsLongest(past: seq<nat>, now: int)
    requires |past| >= MEDIAN_TIME_SPAN && forall i | 0 <= i < |past| :: past[i] <= MedianTimePast(past)
    ensures Longest(past, now) == if Span(past, now) > 0 then 6 * Span(past, now) else 0
  {
    hide Keeps, Earliest, FullSpeed;
    if Span(past, now) > 0 {
      FullSpeedKeeps(past, now);
      LongestIsLongest(past, FullSpeed(MedianTimePast(past), 6 * Span(past, now)), now);
    }
  }
}
