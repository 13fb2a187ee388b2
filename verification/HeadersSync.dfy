/**
 * The two-phase headers download (src/headerssync.cpp, src/headerssync.h).
 *
 * In PRESYNC a peer's headers are only summed and sampled into one-bit commitments; once they
 * show enough work they are downloaded again in REDOWNLOAD, compared with the commitments, and
 * released from a lookahead buffer. The block hash, the salted commitment bit, the difficulty rule and
 * the work of a target are arbitrary functions.
 *
 * Ghost fields keep the two header sequences in full. Valid() says that every stored field is a
 * function of those two sequences and of how many headers have been released; each method is
 * specified by what it does to them.
 */
module HeadersSync {
  import opened MedianTime
  import opened Words

  const HEADER_COMMITMENT_PERIOD := 584
  const REDOWNLOAD_BUFFER_SIZE := 13959
  const WORK_MODULUS: nat := 0x1_0000000000000000_0000000000000000_0000000000000000_0000000000000000

  type Hash = nat

  const NULL_HASH: Hash := 0

  datatype Header = Header(nVersion: int, hashPrevBlock: Hash, hashMerkleRoot: Hash, nTime: nat, nBits: nat,
                           nNonce: nat)

  const NULL_HEADER := Header(0, NULL_HASH, NULL_HASH, 0, 0, 0)

  /** A header without the hash of its predecessor. */
  datatype CompressedHeader = CompressedHeader(nVersion: int, hashMerkleRoot: Hash, nTime: nat, nBits: nat,
                                               nNonce: nat) {
    function GetFullHeader(prev: Hash): (h: Header)
      ensures h.hashPrevBlock == prev
    {
      Header(nVersion, prev, hashMerkleRoot, nTime, nBits, nNonce)
    }
  }

  function Compress(h: Header): (c: CompressedHeader)
    ensures c.GetFullHeader(h.hashPrevBlock) == h
  {
    CompressedHeader(h.nVersion, h.hashMerkleRoot, h.nTime, h.nBits, h.nNonce)
  }

  /**
   * What stays fixed during one sync: the block the peer's chain starts from, the work asked for,
   * the secret offset of the committed heights, the bound on commitments, and the functions of
   * headers that this protocol only calls.
   */
  datatype Config = Config(
    start: Header, startHeight: nat, startWork: nat, minimumWork: nat,
    commitOffset: nat, maxCommitments: nat,
    hash: Header -> Hash, bit: Hash -> bool, permitted: (int, nat, nat) -> bool, proof: nat -> nat)
  {
    predicate Committed(height: int) {
      height % HEADER_COMMITMENT_PERIOD == commitOffset
    }

    /** The height of the header at an index of a downloaded sequence. */
    function Height(i: nat): nat {
      startHeight + 1 + i
    }

    function Bit(h: Header): bool {
      bit(hash(h))
    }

    /** The last header of a downloaded sequence, or the block it starts from. */
    function Last(hs: seq<Header>): Header {
      if hs == [] then start else hs[|hs| - 1]
    }

    /** Addition in 256-bit arithmetic. */
    static function AddWork(work: nat, proof: nat): (r: nat)
      ensures r < WORK_MODULUS
    {
      (work + proof) % WORK_MODULUS
    }

    /** The chain work at the end of a downloaded sequence, in 256-bit arithmetic. */
    function Work(hs: seq<Header>): nat {
      if hs == [] then startWork else AddWork(Work(hs[..|hs| - 1]), proof(hs[|hs| - 1].nBits))
    }

    /** Some header of the sequence reached the work asked for. */
    predicate Reached(hs: seq<Header>) {
      hs != [] && (Reached(hs[..|hs| - 1]) || Work(hs) >= minimumWork)
    }

    /** Each header names the one before it. */
    predicate Linked(hs: seq<Header>) {
      hs == [] || (Linked(hs[..|hs| - 1]) && hs[|hs| - 1].hashPrevBlock == hash(Last(hs[..|hs| - 1])))
    }

    /** The commitments to the headers at index `k` and above. */
    function Commitments(hs: seq<Header>, k: nat): seq<bool>
      decreases |hs| - k
    {
      if k >= |hs| then [] else
        (if Committed(Height(k)) then [Bit(hs[k])] else []) + Commitments(hs, k + 1)
    }

    /** How many of the heights in [lo, hi) are committed. */
    function CommittedCount(lo: int, hi: int): nat
      decreases hi - lo
    {
      if lo >= hi then 0 else (if Committed(lo) then 1 else 0) + CommittedCount(lo + 1, hi)
    }

    /** The first phase takes this header after these. */
    predicate PresyncTakes(hs: seq<Header>, x: Header) {
      permitted(Height(|hs|), Last(hs).nBits, x.nBits) &&
      (Committed(Height(|hs|)) ==> |Commitments(hs + [x], 0)| <= maxCommitments)
    }

    predicate PresyncTakesAll(hs: seq<Header>) {
      hs == [] || (PresyncTakesAll(hs[..|hs| - 1]) && PresyncTakes(hs[..|hs| - 1], hs[|hs| - 1]))
    }

    /** This header agrees with what was committed to at its height, if anything was to be. */
    predicate Agrees(presync: seq<Header>, i: nat, x: Header) {
      Committed(Height(i)) ==> i < |presync| && Bit(x) == Bit(presync[i])
    }

    /** The second phase takes this header after these. */
    predicate RedownloadTakes(presync: seq<Header>, hs: seq<Header>, x: Header) {
      && x.hashPrevBlock == hash(Last(hs))
      && permitted(Height(|hs|), Last(hs).nBits, x.nBits)
      && (!Reached(hs + [x]) ==> Agrees(presync, |hs|, x))
    }

    predicate RedownloadTakesAll(presync: seq<Header>, hs: seq<Header>) {
      || hs == []
      || (RedownloadTakesAll(presync, hs[..|hs| - 1]) && RedownloadTakes(presync, hs[..|hs| - 1], hs[|hs| - 1]))
    }

    /** How many of the redownloaded headers are out of the buffer, when `before` already were. */
    function ReleasedCount(hs: seq<Header>, before: nat): nat {
      if Reached(hs) then |hs|
      else if |hs| - before > REDOWNLOAD_BUFFER_SIZE then |hs| - REDOWNLOAD_BUFFER_SIZE
      else before
    }
  }

  // ---------------------------------------------------------------------------------------
  // The bound on commitments

  /** Six blocks for each second there is, one commitment a period; a negative product is read as unsigned. */
  function MaxCommitments(past: seq<nat>, now: int): nat
    requires past != []
  {
    (6 * Span(past, now)) % UINT64 / HEADER_COMMITMENT_PERIOD
  }

  function Times(hs: seq<Header>): (r: seq<nat>)
    ensures |r| == |hs| && forall i | 0 <= i < |hs| :: r[i] == hs[i].nTime
  {
    seq(|hs|, i requires 0 <= i < |hs| => hs[i].nTime)
  }

  /** How many heights from this one on come before the next committed one. */
  function Until(c: Config, lo: int): (e: nat)
    ensures e < HEADER_COMMITMENT_PERIOD
  {
    (c.commitOffset - lo) % HEADER_COMMITMENT_PERIOD
  }

  /** The exact number of committed heights in a run. */
  lemma {:induction false} CommittedExactly(c: Config, lo: int, n: nat)
    requires c.commitOffset < HEADER_COMMITMENT_PERIOD
    ensures c.CommittedCount(lo, lo + n) ==
            if n <= Until(c, lo) then 0 else (n - 1 - Until(c, lo)) / HEADER_COMMITMENT_PERIOD + 1
    decreases n
  {
    hide Until, Config.Committed;
    if n > 0 {
      UntilStep(c, lo);
      CommittedExactly(c, lo + 1, n - 1);
    }
  }

  lemma UntilStep(c: Config, lo: int)
    requires c.commitOffset < HEADER_COMMITMENT_PERIOD
    ensures Until(c, lo) == 0 <==> c.Committed(lo)
    ensures Until(c, lo + 1) == if Until(c, lo) == 0 then HEADER_COMMITMENT_PERIOD - 1 else Until(c, lo) - 1
  {
    var q, e := (c.commitOffset - lo) / HEADER_COMMITMENT_PERIOD, Until(c, lo);
    if e == 0 {
      Remainder(c.commitOffset - lo - 1, q - 1, HEADER_COMMITMENT_PERIOD - 1);
      Remainder(lo, -q, c.commitOffset);
    } else {
      Remainder(c.commitOffset - lo - 1, q, e - 1);
      if c.Committed(lo) {
        Remainder(c.commitOffset - lo, -(lo / HEADER_COMMITMENT_PERIOD), 0);
      }
    }
  }

  lemma Remainder(x: int, q: int, r: int)
    requires x == q * HEADER_COMMITMENT_PERIOD + r && 0 <= r < HEADER_COMMITMENT_PERIOD
    ensures x % HEADER_COMMITMENT_PERIOD == r
  {
  }

  /** A run of n heights may hold one committed height more than it has whole periods. */
  lemma CommittedAtMost(c: Config, lo: int, n: nat)
    requires c.commitOffset < HEADER_COMMITMENT_PERIOD
    ensures c.CommittedCount(lo, lo + n) == n / HEADER_COMMITMENT_PERIOD +
            if Until(c, lo) < n % HEADER_COMMITMENT_PERIOD then 1 else 0
  {
    hide Until, Config.CommittedCount;
    CommittedExactly(c, lo, n);
  }

  lemma MaxIs(past: seq<nat>, now: int)
    requires past != [] && 0 <= 6 * Span(past, now) < UINT64
    ensures MaxCommitments(past, now) == 6 * Span(past, now) / HEADER_COMMITMENT_PERIOD
  {
    hide Span;
  }

  lemma {:induction false} CountGrows(c: Config, lo: int, hi: int, more: int)
    requires lo <= hi <= more
    ensures c.CommittedCount(lo, hi) <= c.CommittedCount(lo, more)
  {
    CountSplit(c, lo, hi, more);
  }

  /** The chain's block times keep the consensus rules. */
  predicate Honest(past: seq<nat>, now: int, hs: seq<Header>)
    requires past != []
  {
    Keeps(past, Times(hs), now)
  }

  /**
   * Whether the bound has room for every chain that keeps the rules: for the committed heights of the longest one,
   * which follows from the block times before the start and the clock.
   */
  predicate Suffices(c: Config, past: seq<nat>, now: int)
    requires past != []
  {
    c.CommittedCount(c.Height(0), c.Height(0) + Longest(past, now)) <= c.maxCommitments
  }

  lemma HonestCount(c: Config, past: seq<nat>, now: int, hs: seq<Header>)
    requires past != [] && Honest(past, now, hs)
    ensures |c.Commitments(hs, 0)| <= c.CommittedCount(c.Height(0), c.Height(0) + Longest(past, now))
  {
    hide Longest, Keeps, Config.CommittedCount;
    LongestIsLongest(past, Times(hs), now);
    CommitmentsInOrder(c, hs, 0, 0);
    CountGrows(c, c.Height(0), c.Height(0) + |hs|, c.Height(0) + Longest(past, now));
  }

  /** The bound of a new sync falls short by one commitment at most. */
  lemma HonestFits(c: Config, past: seq<nat>, now: int, hs: seq<Header>)
    requires past != [] && c.commitOffset < HEADER_COMMITMENT_PERIOD && c.maxCommitments == MaxCommitments(past, now)
    requires 6 * Span(past, now) < UINT64 && Honest(past, now, hs)
    ensures |c.Commitments(hs, 0)| <= c.maxCommitments + 1
  {
    hide Span, Keeps, MaxCommitments, Until, Config.CommittedCount;
    SixPerSecond(past, Times(hs), now);
    CommitmentsInOrder(c, hs, 0, 0);
    var lo := c.Height(0);
    if hs != [] {
      var n := 6 * Span(past, now);
      MaxIs(past, now);
      CountGrows(c, lo, lo + |hs|, lo + n);
      CommittedAtMost(c, lo, n);
    }
  }

  /** The difficulty of every header may follow the one before it. */
  ghost predicate Permits(c: Config, hs: seq<Header>) {
    forall i | 0 <= i < |hs| :: c.permitted(c.Height(i), c.Last(hs[..i]).nBits, hs[i].nBits)
  }

  lemma PermitsPart(c: Config, hs: seq<Header>, n: nat)
    requires Permits(c, hs) && n < |hs|
    ensures Permits(c, hs[..n]) && c.permitted(c.Height(n), c.Last(hs[..n]).nBits, hs[n].nBits)
  {
    hide Config.Last;
    forall i | 0 <= i < n ensures c.permitted(c.Height(i), c.Last(hs[..n][..i]).nBits, hs[..n][i].nBits) {
      assert hs[..n][..i] == hs[..i];
    }
  }

  lemma PermitsMore(c: Config, hs: seq<Header>, n: nat)
    requires |hs| == n + 1 && Permits(c, hs[..n]) && c.permitted(c.Height(n), c.Last(hs[..n]).nBits, hs[n].nBits)
    ensures Permits(c, hs)
  {
    hide Config.Last;
    forall i | 0 <= i < |hs| ensures c.permitted(c.Height(i), c.Last(hs[..i]).nBits, hs[i].nBits) {
      if i < n {
        assert hs[..n][..i] == hs[..i] && hs[..n][i] == hs[i];
      }
    }
  }

  /** The first phase takes exactly the chains of permitted difficulty whose commitments there is room for. */
  lemma {:induction false} PresyncTakesIff(c: Config, hs: seq<Header>)
    ensures c.PresyncTakesAll(hs) <==> Permits(c, hs) && |c.Commitments(hs, 0)| <= c.maxCommitments
  {
    hide Permits, Config.Last, Config.Commitments;
    if hs != [] {
      var n := |hs| - 1;
      PresyncTakesIff(c, hs[..n]);
      assert hs == hs[..n] + [hs[n]];
      CommitmentsGrow(c, hs[..n], hs[n], 0);
      if Permits(c, hs) {
        PermitsPart(c, hs, n);
      } else if c.PresyncTakesAll(hs) {
        PermitsMore(c, hs, n);
      }
    } else {
      NoneTaken(c);
    }
  }

  /** Where the bound suffices, the first phase takes every chain that keeps the rules on time and difficulty. */
  lemma HonestIsTaken(c: Config, past: seq<nat>, now: int, hs: seq<Header>)
    requires past != [] && Honest(past, now, hs) && Permits(c, hs) && Suffices(c, past, now)
    ensures c.PresyncTakesAll(hs)
  {
    hide Honest, Permits, Longest, Config.Commitments, Config.CommittedCount, Config.PresyncTakesAll;
    HonestCount(c, past, now, hs);
    PresyncTakesIff(c, hs);
  }

  lemma NoneTaken(c: Config)
    ensures c.PresyncTakesAll([]) && Permits(c, []) && c.Commitments([], 0) == []
  {
  }

  /** A hash chain from the start block with these block times, at the difficulty of the start. */
  function Chained(c: Config, ts: seq<nat>): (hs: seq<Header>)
    ensures |hs| == |ts| && forall i | 0 <= i < |ts| :: hs[i].nTime == ts[i] && hs[i].nBits == c.start.nBits
  {
    if ts == [] then []
    else
      var hs := Chained(c, ts[..|ts| - 1]);
      hs + [Header(0, c.hash(c.Last(hs)), NULL_HASH, ts[|ts| - 1], c.start.nBits, 0)]
  }

  lemma {:induction false} ChainedIsLinked(c: Config, ts: seq<nat>)
    ensures c.Linked(Chained(c, ts))
  {
    if ts != [] {
      ChainedIsLinked(c, ts[..|ts| - 1]);
      var hs := Chained(c, ts);
      assert hs[..|hs| - 1] == Chained(c, ts[..|ts| - 1]);
    }
  }

  /** Where it does not, a linked chain of constant difficulty that keeps the rules on time is refused. */
  lemma OneTooMany(c: Config, past: seq<nat>, now: int) returns (hs: seq<Header>)
    requires past != [] && !Suffices(c, past, now)
    ensures Honest(past, now, hs) && c.Linked(hs) && forall i | 0 <= i < |hs| :: hs[i].nBits == c.start.nBits
    ensures |c.Commitments(hs, 0)| > c.maxCommitments && !c.PresyncTakesAll(hs)
  {
    hide Longest, Keeps, Earliest, Config.CommittedCount, Config.PresyncTakesAll, Chained, Config.Linked;
    var ts := Earliest(past, Longest(past, now));
    hs := Chained(c, ts);
    ChainedIsLinked(c, ts);
    assert Times(hs) == ts;
    CommitmentsInOrder(c, hs, 0, 0);
    if c.PresyncTakesAll(hs) {
      PresyncTakesIff(c, hs);
    }
  }

  /** No chain that keeps the rules exceeds the bound, if and only if the bound suffices. */
  lemma BoundHoldsIff(c: Config, past: seq<nat>, now: int)
    requires past != []
    ensures Suffices(c, past, now) <==>
            forall hs | Honest(past, now, hs) :: |c.Commitments(hs, 0)| <= c.maxCommitments
  {
    hide Longest, Honest, Config.CommittedCount, Config.Commitments;
    if Suffices(c, past, now) {
      forall hs | Honest(past, now, hs) ensures |c.Commitments(hs, 0)| <= c.maxCommitments {
        HonestCount(c, past, now, hs);
      }
    } else {
      var hs := OneTooMany(c, past, now);
    }
  }

  /**
   * In closed form, for a start after eleven blocks none of which is later than their median: the bound of a new
   * sync suffices exactly when no committed height falls into the last, partial period at six blocks a second.
   */
  lemma SufficesAtFullSpeed(c: Config, past: seq<nat>, now: int)
    requires |past| >= MEDIAN_TIME_SPAN && forall i | 0 <= i < |past| :: past[i] <= MedianTimePast(past)
    requires c.commitOffset < HEADER_COMMITMENT_PERIOD && c.maxCommitments == MaxCommitments(past, now)
    requires 0 < 6 * Span(past, now) < UINT64
    ensures Suffices(c, past, now) <==>
            Until(c, c.Height(0)) >= 6 * Span(past, now) % HEADER_COMMITMENT_PERIOD
  {
    hide Span, Longest, MaxCommitments, Until, Config.CommittedCount, MedianTimePast;
    FullSpeedIsLongest(past, now);
    MaxIs(past, now);
    CommittedAtMost(c, c.Height(0), 6 * Span(past, now));
  }

  /**
   * A start for which it does not: eleven blocks of the same time, now, and a committed height right after the start.
   * The bound is 73 commitments, and 43200 blocks with 74 committed heights keep the rules.
   */
  lemma BoundFallsShort(c: Config)
    requires c.startHeight == 10 && c.commitOffset == 11
    requires c.maxCommitments == MaxCommitments(seq(MEDIAN_TIME_SPAN, _ => 1_600_000_000), 1_600_000_000)
    ensures c.maxCommitments == 73 && !Suffices(c, seq(MEDIAN_TIME_SPAN, _ => 1_600_000_000), 1_600_000_000)
  {
    hide MedianTimePast, Longest, Config.CommittedCount;
    var past := seq<nat>(MEDIAN_TIME_SPAN, _ => 1_600_000_000);
    MedianOfEqual(MEDIAN_TIME_SPAN, 1_600_000_000);
    SufficesAtFullSpeed(c, past, 1_600_000_000);
  }

  // ---------------------------------------------------------------------------------------
  // Laws of the sequences

  lemma Grown(c: Config, presync: seq<Header>, hs: seq<Header>, x: Header)
    ensures c.Last(hs + [x]) == x
    ensures c.Work(hs + [x]) == Config.AddWork(c.Work(hs), c.proof(x.nBits))
    ensures c.Reached(hs + [x]) <==> c.Reached(hs) || c.Work(hs + [x]) >= c.minimumWork
    ensures c.PresyncTakesAll(hs + [x]) <==> c.PresyncTakesAll(hs) && c.PresyncTakes(hs, x)
    ensures c.RedownloadTakesAll(presync, hs + [x]) <==>
            c.RedownloadTakesAll(presync, hs) && c.RedownloadTakes(presync, hs, x)
  {
    var all := hs + [x];
    assert all[..|all| - 1] == hs && all[|all| - 1] == x;
  }

  /** A new header adds its own commitment at the end of the queue, if its height is committed. */
  lemma {:induction false} CommitmentsGrow(c: Config, hs: seq<Header>, x: Header, k: nat)
    requires k <= |hs|
    ensures c.Commitments(hs + [x], k) ==
            c.Commitments(hs, k) + if c.Committed(c.Height(|hs|)) then [c.Bit(x)] else []
    decreases |hs| - k
  {
    hide Config.Committed, Config.Bit;
    if k < |hs| {
      CommitmentsGrow(c, hs, x, k + 1);
      assert (hs + [x])[k] == hs[k];
    } else {
      assert c.Commitments(hs + [x], k + 1) == [];
    }
  }

  /** The queue holds one bit per committed height, in the order of the heights. */
  lemma {:induction false} CommitmentsInOrder(c: Config, hs: seq<Header>, k: nat, j: nat)
    requires k <= |hs|
    ensures |c.Commitments(hs, k)| == c.CommittedCount(c.Height(k), c.Height(|hs|))
    ensures k <= j < |hs| && c.Committed(c.Height(j)) ==>
              var at := c.CommittedCount(c.Height(k), c.Height(j));
              at < |c.Commitments(hs, k)| && c.Commitments(hs, k)[at] == c.Bit(hs[j])
    decreases |hs| - k
  {
    if k < |hs| {
      CommitmentsInOrder(c, hs, k + 1, j);
      assert c.Height(k) + 1 == c.Height(k + 1);
    }
  }

  /** A run of heights holds at least one committed height per period. */
  lemma {:induction false} CommittedOften(c: Config, lo: int, hi: int)
    requires 0 <= lo <= hi && c.commitOffset < HEADER_COMMITMENT_PERIOD
    ensures c.CommittedCount(lo, hi) >= (hi - lo) / HEADER_COMMITMENT_PERIOD
    decreases hi - lo
  {
    if hi - lo >= HEADER_COMMITMENT_PERIOD {
      var mid := lo + HEADER_COMMITMENT_PERIOD;
      var ahead := c.commitOffset + HEADER_COMMITMENT_PERIOD - lo % HEADER_COMMITMENT_PERIOD;
      var at := lo + ahead % HEADER_COMMITMENT_PERIOD;
      assert c.Committed(at) && lo <= at < mid;
      CountSplit(c, lo, at, mid);
      CountSplit(c, lo, mid, hi);
      CommittedOften(c, mid, hi);
    }
  }

  lemma {:induction false} CountSplit(c: Config, lo: int, mid: int, hi: int)
    requires lo <= mid <= hi
    ensures c.CommittedCount(lo, hi) == c.CommittedCount(lo, mid) + c.CommittedCount(mid, hi)
    decreases mid - lo
  {
    if lo < mid {
      CountSplit(c, lo + 1, mid, hi);
    }
  }

  /** What the second phase accepted, it accepted prefix by prefix. */
  lemma {:induction false} PrefixTaken(c: Config, presync: seq<Header>, hs: seq<Header>, k: nat)
    requires c.RedownloadTakesAll(presync, hs) && k <= |hs|
    ensures c.RedownloadTakesAll(presync, hs[..k])
    decreases |hs|
  {
    if k < |hs| {
      PrefixTaken(c, presync, hs[..|hs| - 1], k);
      assert hs[..|hs| - 1][..k] == hs[..k];
    } else {
      assert hs[..k] == hs;
    }
  }

  lemma {:induction false} PresyncPrefixTaken(c: Config, hs: seq<Header>, k: nat)
    requires c.PresyncTakesAll(hs) && k <= |hs|
    ensures c.PresyncTakesAll(hs[..k])
    decreases |hs|
  {
    if k < |hs| {
      PresyncPrefixTaken(c, hs[..|hs| - 1], k);
      assert hs[..|hs| - 1][..k] == hs[..k];
    } else {
      assert hs[..k] == hs;
    }
  }

  lemma {:induction false} PrefixLinked(c: Config, hs: seq<Header>, k: nat)
    requires c.Linked(hs) && k <= |hs|
    ensures c.Linked(hs[..k])
    decreases |hs|
  {
    if k < |hs| {
      PrefixLinked(c, hs[..|hs| - 1], k);
      assert hs[..|hs| - 1][..k] == hs[..k];
    } else {
      assert hs[..k] == hs;
    }
  }

  /** Work once reached stays reached. */
  lemma {:induction false} ReachedStays(c: Config, hs: seq<Header>, k: nat)
    requires k <= |hs| && c.Reached(hs[..k])
    ensures c.Reached(hs)
    decreases |hs|
  {
    if k < |hs| {
      assert hs[..|hs| - 1][..k] == hs[..k];
      ReachedStays(c, hs[..|hs| - 1], k);
    } else {
      assert hs[..k] == hs;
    }
  }

  lemma {:induction false} LinkAt(c: Config, hs: seq<Header>, i: nat)
    requires c.Linked(hs) && i < |hs|
    ensures hs[i].hashPrevBlock == c.hash(c.Last(hs[..i]))
  {
    if i < |hs| - 1 {
      LinkAt(c, hs[..|hs| - 1], i);
      assert hs[..|hs| - 1][..i] == hs[..i];
    }
  }

  lemma ReachedAtEnd(c: Config, hs: seq<Header>)
    requires hs != [] && c.Work(hs) >= c.minimumWork
    ensures c.Reached(hs)
  {
  }

  /** The work is reached exactly when it is at some header of the sequence. */
  lemma {:induction false} ReachedIff(c: Config, hs: seq<Header>)
    ensures c.Reached(hs) <==> exists k :: 0 < k <= |hs| && c.Work(hs[..k]) >= c.minimumWork
  {
    hide Config.Work;
    if hs != [] {
      var n := |hs| - 1;
      ReachedIff(c, hs[..n]);
      assert hs[..|hs|] == hs;
      if k :| 0 < k <= n && c.Work(hs[..n][..k]) >= c.minimumWork {
        assert hs[..n][..k] == hs[..k];
      }
      if k :| 0 < k <= n && c.Work(hs[..k]) >= c.minimumWork {
        assert hs[..n][..k] == hs[..k];
      }
    }
  }

  /** The work of the headers themselves. */
  function Proofs(c: Config, hs: seq<Header>): nat {
    if hs == [] then 0 else c.proof(hs[0].nBits) + Proofs(c, hs[1..])
  }

  /** Chain work is the work of the start and of all the headers, modulo 2^256. */
  lemma {:induction false} WorkIsSum(c: Config, hs: seq<Header>)
    requires c.startWork < WORK_MODULUS
    ensures c.Work(hs) == (c.startWork + Proofs(c, hs)) % WORK_MODULUS
  {
    if hs != [] {
      var n := |hs| - 1;
      WorkIsSum(c, hs[..n]);
      ProofsMore(c, hs[..n], hs[n]);
      assert hs[..n] + [hs[n]] == hs;
      AddModulo(c.startWork + Proofs(c, hs[..n]), c.proof(hs[n].nBits));
    }
  }

  lemma {:induction false} ProofsMore(c: Config, hs: seq<Header>, x: Header)
    ensures Proofs(c, hs + [x]) == Proofs(c, hs) + c.proof(x.nBits)
  {
    if hs == [] {
      assert hs + [x] == [x] && [x][1..] == [];
    } else {
      assert (hs + [x])[1..] == hs[1..] + [x];
      ProofsMore(c, hs[1..], x);
    }
  }

  lemma AddModulo(a: nat, b: nat)
    ensures Config.AddWork(a % WORK_MODULUS, b) == (a + b) % WORK_MODULUS
  {
    var q := a / WORK_MODULUS;
    assert a + b == q * WORK_MODULUS + (a % WORK_MODULUS + b);
    ModuloShift(a % WORK_MODULUS + b, q);
  }

  lemma ModuloShift(x: nat, q: nat)
    ensures (q * WORK_MODULUS + x) % WORK_MODULUS == x % WORK_MODULUS
  {
    var k, r := x / WORK_MODULUS, x % WORK_MODULUS;
    assert q * WORK_MODULUS + x == (q + k) * WORK_MODULUS + r;
  }

  lemma NotReachedBelow(c: Config, hs: seq<Header>, k: nat)
    requires !c.Reached(hs) && k <= |hs|
    ensures !c.Reached(hs[..k])
  {
    if c.Reached(hs[..k]) {
      ReachedStays(c, hs, k);
    }
  }

  /** The redownloaded headers form a hash chain from the start block. */
  lemma {:induction false} TakenIsLinked(c: Config, presync: seq<Header>, hs: seq<Header>)
    requires c.RedownloadTakesAll(presync, hs)
    ensures c.Linked(hs)
  {
    if hs != [] {
      TakenIsLinked(c, presync, hs[..|hs| - 1]);
    }
  }

  /** Until the work is reached each header at a committed height has the bit stored for that height. */
  ghost predicate Compared(c: Config, presync: seq<Header>, hs: seq<Header>) {
    forall i | 0 <= i < |hs| && c.Committed(c.Height(i)) && !c.Reached(hs[..i + 1]) ::
      i < |presync| && c.Bit(hs[i]) == c.Bit(presync[i])
  }

  lemma ComparedPart(c: Config, presync: seq<Header>, hs: seq<Header>, n: nat)
    requires Compared(c, presync, hs) && |hs| == n + 1
    ensures Compared(c, presync, hs[..n]) && (!c.Reached(hs) ==> c.Agrees(presync, n, hs[n]))
  {
    hide Config.Reached;
    forall i | 0 <= i < n && c.Committed(c.Height(i)) && !c.Reached(hs[..n][..i + 1])
      ensures i < |presync| && c.Bit(hs[..n][i]) == c.Bit(presync[i])
    {
      assert hs[..n][..i + 1] == hs[..i + 1];
    }
    assert hs[..n + 1] == hs;
  }

  lemma ComparedMore(c: Config, presync: seq<Header>, hs: seq<Header>, n: nat)
    requires |hs| == n + 1 && Compared(c, presync, hs[..n]) && (!c.Reached(hs) ==> c.Agrees(presync, n, hs[n]))
    ensures Compared(c, presync, hs)
  {
    hide Config.Reached;
    forall i | 0 <= i < |hs| && c.Committed(c.Height(i)) && !c.Reached(hs[..i + 1])
      ensures i < |presync| && c.Bit(hs[i]) == c.Bit(presync[i])
    {
      if i < n {
        assert hs[..n][..i + 1] == hs[..i + 1] && hs[..n][i] == hs[i];
      } else {
        assert hs[..n + 1] == hs;
      }
    }
  }

  /**
   * The second phase takes exactly the hash chains of permitted difficulty that agree with the commitments until
   * the work is reached.
   */
  lemma {:induction false} RedownloadTakesIff(c: Config, presync: seq<Header>, hs: seq<Header>)
    ensures c.RedownloadTakesAll(presync, hs) <==> c.Linked(hs) && Permits(c, hs) && Compared(c, presync, hs)
  {
    hide Permits, Compared, Config.Last, Config.Reached, Config.Agrees;
    if hs == [] {
      NoneCompared(c, presync);
    } else {
      var n := |hs| - 1;
      RedownloadTakesIff(c, presync, hs[..n]);
      assert hs == hs[..n] + [hs[n]];
      if c.RedownloadTakesAll(presync, hs) {
        PermitsMore(c, hs, n);
        ComparedMore(c, presync, hs, n);
      } else if Permits(c, hs) && Compared(c, presync, hs) {
        PermitsPart(c, hs, n);
        ComparedPart(c, presync, hs, n);
      }
    }
  }

  lemma NoneCompared(c: Config, presync: seq<Header>)
    ensures Permits(c, []) && Compared(c, presync, [])
  {
  }

  /** Before the work is reached every committed height has been compared with its commitment. */
  lemma TakenAgrees(c: Config, presync: seq<Header>, hs: seq<Header>, j: nat)
    requires c.RedownloadTakesAll(presync, hs) && !c.Reached(hs) && j < |hs|
    ensures c.Committed(c.Height(j)) ==> j < |presync| && c.Bit(hs[j]) == c.Bit(presync[j])
  {
    hide Config.Reached, Config.RedownloadTakesAll;
    RedownloadTakesIff(c, presync, hs);
    NotReachedBelow(c, hs, j + 1);
  }

  /**
   * A header with a whole buffer of headers above it, all received before the work was reached, has
   * at least 23 committed heights above it, and each header there agrees with its commitment.
   */
  lemma BufferedIsBacked(c: Config, presync: seq<Header>, hs: seq<Header>, i: nat)
    requires c.commitOffset < HEADER_COMMITMENT_PERIOD
    requires c.RedownloadTakesAll(presync, hs) && !c.Reached(hs)
    requires i + REDOWNLOAD_BUFFER_SIZE < |hs|
    ensures c.CommittedCount(c.Height(i) + 1, c.Height(|hs|)) >= 23
    ensures forall j | i < j < |hs| && c.Committed(c.Height(j)) :: j < |presync| && c.Bit(hs[j]) == c.Bit(presync[j])
  {
    hide Config.CommittedCount, Config.Reached, Config.RedownloadTakesAll, Config.Committed;
    CommittedOften(c, c.Height(i) + 1, c.Height(|hs|));
    forall j | i < j < |hs| && c.Committed(c.Height(j)) ensures j < |presync| && c.Bit(hs[j]) == c.Bit(presync[j]) {
      TakenAgrees(c, presync, hs, j);
    }
  }

  /** Headers that the first phase took are taken again, in any prefix, by the second. */
  lemma {:induction false} ReplayIsTaken(c: Config, presync: seq<Header>, k: nat)
    requires c.PresyncTakesAll(presync) && c.Linked(presync) && k <= |presync|
    ensures c.RedownloadTakesAll(presync, presync[..k])
  {
    if k > 0 {
      ReplayIsTaken(c, presync, k - 1);
      PresyncPrefixTaken(c, presync, k);
      PrefixLinked(c, presync, k);
      assert presync[..k][..k - 1] == presync[..k - 1];
      assert presync[..k][k - 1] == presync[k - 1];
    }
  }

  // ---------------------------------------------------------------------------------------
  // What the stored fields mean, as functions of the headers taken

  function CompressAll(hs: seq<Header>): (cs: seq<CompressedHeader>)
    ensures |cs| == |hs| && forall i | 0 <= i < |hs| :: cs[i] == Compress(hs[i])
  {
    seq(|hs|, i requires 0 <= i < |hs| => Compress(hs[i]))
  }

  /**
   * What holds of the headers whatever became of the sync: the redownloaded headers were all taken
   * by the rules, and the first `early` of the `out` handed out had a whole buffer above them before
   * the work was reached.
   */
  ghost predicate HistoryOk(c: Config, presync: seq<Header>, hs: seq<Header>, out: nat, early: nat) {
    && c.commitOffset < HEADER_COMMITMENT_PERIOD
    && c.RedownloadTakesAll(presync, hs)
    && early <= out <= |hs|
    && (early > 0 ==> early + REDOWNLOAD_BUFFER_SIZE <= |hs| && !c.Reached(hs[..early + REDOWNLOAD_BUFFER_SIZE]))
  }

  ghost predicate PresyncOk(c: Config, hs: seq<Header>, work: nat, last: Header, height: nat) {
    && c.PresyncTakesAll(hs)
    && work == c.Work(hs)
    && last == c.Last(hs)
    && height == c.startHeight + |hs|
  }

  /** The buffer holds the headers not yet handed out, and the fields beside it describe its two ends. */
  ghost predicate BufferOk(c: Config, hs: seq<Header>, out: nat, buffer: seq<CompressedHeader>,
                           lastHeight: nat, lastHash: Hash, firstPrevHash: Hash, work: nat, all: bool) {
    && out <= |hs|
    && buffer == CompressAll(hs[out..])
    && lastHeight == c.startHeight + |hs|
    && lastHash == c.hash(c.Last(hs))
    && firstPrevHash == c.hash(c.Last(hs[..out]))
    && work == c.Work(hs)
    && (all <==> c.Reached(hs))
  }

  /** The second phase starts from nothing. */
  lemma StartOver(c: Config, presync: seq<Header>)
    requires c.commitOffset < HEADER_COMMITMENT_PERIOD
    ensures HistoryOk(c, presync, [], 0, 0) && !c.Reached([])
    ensures BufferOk(c, [], 0, [], c.startHeight, c.hash(c.start), c.hash(c.start), c.startWork, false)
  {
  }

  lemma HistoryTakes(c: Config, presync: seq<Header>, hs: seq<Header>, out: nat, early: nat, x: Header)
    requires HistoryOk(c, presync, hs, out, early) && c.RedownloadTakes(presync, hs, x)
    ensures HistoryOk(c, presync, hs + [x], out, early)
  {
    hide Config.RedownloadTakes, Config.Reached, Config.RedownloadTakesAll;
    Grown(c, presync, hs, x);
    if early > 0 {
      assert (hs + [x])[..early + REDOWNLOAD_BUFFER_SIZE] == hs[..early + REDOWNLOAD_BUFFER_SIZE];
    }
  }

  /** Handing out more before the work is reached leaves a whole buffer above what is handed out. */
  lemma HistoryReleases(c: Config, presync: seq<Header>, hs: seq<Header>, before: nat, out: nat)
    requires HistoryOk(c, presync, hs, before, before) && !c.Reached(hs)
    requires out == before || (before < out && out + REDOWNLOAD_BUFFER_SIZE <= |hs|)
    ensures HistoryOk(c, presync, hs, out, out)
  {
    hide Config.Reached, Config.RedownloadTakesAll;
    if out > 0 {
      NotReachedBelow(c, hs, out + REDOWNLOAD_BUFFER_SIZE);
    }
  }

  lemma HistoryReleasesAll(c: Config, presync: seq<Header>, hs: seq<Header>, before: nat, out: nat)
    requires HistoryOk(c, presync, hs, before, before) && before <= out <= |hs|
    ensures HistoryOk(c, presync, hs, out, before)
  {
  }

  lemma HistoryIsLinked(c: Config, presync: seq<Header>, hs: seq<Header>, out: nat, early: nat)
    requires HistoryOk(c, presync, hs, out, early)
    ensures c.Linked(hs) && c.RedownloadTakesAll(presync, hs)
  {
    TakenIsLinked(c, presync, hs);
  }

  lemma BufferSays(c: Config, hs: seq<Header>, out: nat, buffer: seq<CompressedHeader>,
                   lastHeight: nat, lastHash: Hash, firstPrevHash: Hash, work: nat, all: bool)
    requires BufferOk(c, hs, out, buffer, lastHeight, lastHash, firstPrevHash, work, all)
    ensures out <= |hs| && |buffer| == |hs| - out && (all <==> c.Reached(hs))
  {
  }

  lemma PresyncSays(c: Config, hs: seq<Header>, work: nat, last: Header, height: nat)
    requires PresyncOk(c, hs, work, last, height)
    ensures c.PresyncTakesAll(hs) && work == c.Work(hs) && last == c.Last(hs)
  {
  }

  lemma PresyncNotTaken(c: Config, all: seq<Header>, before: seq<Header>, x: Header)
    requires before + [x] <= all && !c.PresyncTakes(before, x)
    ensures !c.PresyncTakesAll(all)
  {
    if c.PresyncTakesAll(all) {
      PresyncPrefixTaken(c, all, |before| + 1);
      assert all[..|before| + 1] == before + [x];
      Grown(c, [], before, x);
    }
  }

  lemma RedownloadNotTaken(c: Config, presync: seq<Header>, all: seq<Header>, before: seq<Header>, x: Header)
    requires before + [x] <= all && !c.RedownloadTakes(presync, before, x)
    ensures !c.RedownloadTakesAll(presync, all)
  {
    if c.RedownloadTakesAll(presync, all) {
      PrefixTaken(c, presync, all, |before| + 1);
      assert all[..|before| + 1] == before + [x];
      Grown(c, presync, before, x);
    }
  }

  lemma BufferTakes(c: Config, hs: seq<Header>, out: nat, buffer: seq<CompressedHeader>,
                    lastHeight: nat, lastHash: Hash, firstPrevHash: Hash, work: nat, all: bool, x: Header)
    requires BufferOk(c, hs, out, buffer, lastHeight, lastHash, firstPrevHash, work, all)
    ensures var work' := Config.AddWork(work, c.proof(x.nBits));
            BufferOk(c, hs + [x], out, buffer + [Compress(x)], lastHeight + 1, c.hash(x), firstPrevHash, work',
                     all || work' >= c.minimumWork)
    ensures buffer != [] ==> buffer[|buffer| - 1].nBits == c.Last(hs).nBits
    ensures lastHash == c.hash(c.Last(hs)) && lastHeight + 1 == c.Height(|hs|)
    ensures c.Reached(hs + [x]) <==> all || Config.AddWork(work, c.proof(x.nBits)) >= c.minimumWork
  {
    hide Config.Work, Config.Reached, Config.AddWork;
    Grown(c, [], hs, x);
    assert (hs + [x])[out..] == hs[out..] + [x];
    assert (hs + [x])[..out] == hs[..out];
  }

  /** What leaves the front of the buffer is the header that came in, its predecessor's hash restored. */
  lemma BufferPops(c: Config, hs: seq<Header>, out: nat, buffer: seq<CompressedHeader>,
                   lastHeight: nat, lastHash: Hash, firstPrevHash: Hash, work: nat, all: bool)
    requires BufferOk(c, hs, out, buffer, lastHeight, lastHash, firstPrevHash, work, all)
    requires c.Linked(hs) && buffer != []
    ensures |buffer| == |hs| - out && buffer[0].GetFullHeader(firstPrevHash) == hs[out]
    ensures BufferOk(c, hs, out + 1, buffer[1..], lastHeight, lastHash, c.hash(hs[out]), work, all)
  {
    hide Config.Work, Config.Reached, Config.Linked;
    LinkAt(c, hs, out);
    assert hs[out + 1..] == hs[out..][1..];
  }

  /** The front of the queue is the commitment at the next committed height, if one was stored. */
  lemma QueueFront(c: Config, presync: seq<Header>, k: nat)
    ensures !c.Committed(c.Height(k)) ==> c.Commitments(presync, k + 1) == c.Commitments(presync, k)
    ensures c.Committed(c.Height(k)) ==> (c.Commitments(presync, k) == [] <==> k >= |presync|)
    ensures c.Committed(c.Height(k)) && k < |presync| ==>
              c.Commitments(presync, k) == [c.Bit(presync[k])] + c.Commitments(presync, k + 1)
  {
  }

  lemma SliceMore(hs: seq<Header>, from: nat, to: nat)
    requires from <= to < |hs|
    ensures hs[from..to + 1] == hs[from..to] + [hs[to]]
  {
  }

  // ---------------------------------------------------------------------------------------
  // The download

  datatype Phase = PRESYNC | REDOWNLOAD | FINAL

  datatype ProcessingResult = ProcessingResult(powValidatedHeaders: seq<Header>, success: bool, requestMore: bool)

  class HeadersSyncState {
    const config: Config
    var downloadState: Phase
    var currentChainWork: nat
    var headerCommitments: seq<bool>
    var lastHeaderReceived: Header
    var currentHeight: nat
    var redownloadedHeaders: seq<CompressedHeader>
    var bufferLastHeight: nat
    var bufferLastHash: Hash
    var bufferFirstPrevHash: Hash
    var redownloadChainWork: nat
    var processAllRemainingHeaders: bool

    // Every header taken in each phase, how many of the redownloaded ones were handed out, and how many of
    // those before the work was reached.
    ghost var presync: seq<Header>
    ghost var redownloaded: seq<Header>
    ghost var out: nat
    ghost var early: nat

    ghost predicate History()
      reads this
    {
      HistoryOk(config, presync, redownloaded, out, early)
    }

    ghost predicate PresyncFields()
      reads this
    {
      PresyncOk(config, presync, currentChainWork, lastHeaderReceived, currentHeight)
    }

    ghost predicate BufferFields()
      reads this
    {
      BufferOk(config, redownloaded, out, redownloadedHeaders, bufferLastHeight, bufferLastHash,
               bufferFirstPrevHash, redownloadChainWork, processAllRemainingHeaders)
    }

    /** The headers handed out so far. */
    ghost function Released(): seq<Header>
      requires out <= |redownloaded|
      reads this
    {
      redownloaded[..out]
    }

    /** Between calls: in the second phase the queue is what was committed to above the last redownloaded height. */
    ghost predicate Valid()
      reads this
    {
      && History() && config.commitOffset < HEADER_COMMITMENT_PERIOD && out <= |redownloaded|
      && |headerCommitments| <= config.maxCommitments
      && (downloadState == PRESYNC ==>
            && PresyncFields()
            && headerCommitments == config.Commitments(presync, 0)
            && (presync != [] ==> config.Work(presync) < config.minimumWork)
            && redownloaded == [] && out == early == 0 && !processAllRemainingHeaders)
      && (downloadState == REDOWNLOAD ==>
            && PresyncFields() && BufferFields()
            && config.Reached(presync) && !config.Reached(redownloaded)
            && headerCommitments == config.Commitments(presync, |redownloaded|)
            && early == out
            && |redownloaded| - out <= REDOWNLOAD_BUFFER_SIZE
            && (out == |redownloaded| ==> redownloaded == []))
      && (downloadState == FINAL ==> headerCommitments == [] && redownloadedHeaders == [])
    }

    /** A sync that starts now, from a block whose chain has these block times. */
    constructor (config: Config, past: seq<nat>, now: int)
      requires config.commitOffset < HEADER_COMMITMENT_PERIOD && past != []
      ensures Valid() && this.config == config.(maxCommitments := MaxCommitments(past, now)) && downloadState == PRESYNC
      ensures presync == [] && redownloaded == []
    {
      this.config := config.(maxCommitments := MaxCommitments(past, now));
      downloadState := PRESYNC;
      currentChainWork := config.startWork;
      headerCommitments := [];
      lastHeaderReceived := config.start;
      currentHeight := config.startHeight;
      redownloadedHeaders := [];
      bufferLastHeight := 0;
      bufferLastHash := NULL_HASH;
      bufferFirstPrevHash := NULL_HASH;
      redownloadChainWork := 0;
      processAllRemainingHeaders := false;
      presync, redownloaded, out, early := [], [], 0, 0;
    }

    method Finalize()
      requires History() && config.commitOffset < HEADER_COMMITMENT_PERIOD && out <= |redownloaded|
      modifies this`headerCommitments, this`lastHeaderReceived, this`redownloadedHeaders, this`bufferLastHash,
               this`bufferFirstPrevHash, this`processAllRemainingHeaders, this`currentHeight, this`downloadState
      ensures downloadState == FINAL && Valid()
      ensures headerCommitments == [] && redownloadedHeaders == [] && lastHeaderReceived == NULL_HEADER
      ensures bufferLastHash == bufferFirstPrevHash == NULL_HASH && !processAllRemainingHeaders && currentHeight == 0
    {
      hide HistoryOk;
      headerCommitments := [];
      lastHeaderReceived := NULL_HEADER;
      redownloadedHeaders := [];
      bufferLastHash := NULL_HASH;
      bufferFirstPrevHash := NULL_HASH;
      processAllRemainingHeaders := false;
      currentHeight := 0;
      downloadState := FINAL;
    }

    /** Takes one more header of the first phase exactly when the rules of that phase allow it. */
    method ValidateAndProcessSingleHeader(current: Header) returns (ok: bool)
      requires PresyncFields() && downloadState == PRESYNC
      requires headerCommitments == config.Commitments(presync, 0) && |headerCommitments| <= config.maxCommitments
      modifies this`headerCommitments, this`currentChainWork, this`lastHeaderReceived, this`currentHeight, this`presync
      ensures ok <==> config.PresyncTakes(old(presync), current)
      ensures presync == if ok then old(presync) + [current] else old(presync)
      ensures ok ==> PresyncFields() && headerCommitments == config.Commitments(presync, 0) &&
                     |headerCommitments| <= config.maxCommitments
    {
      hide Config.AddWork, Config.Work, Config.Commitments, Config.PresyncTakesAll;
      hide Config.Reached, Config.RedownloadTakesAll;
      Grown(config, [], presync, current);
      CommitmentsGrow(config, presync, current, 0);
      var nextHeight := currentHeight + 1;
      if !config.permitted(nextHeight, lastHeaderReceived.nBits, current.nBits) {
        return false;
      }
      if config.Committed(nextHeight) {
        headerCommitments := headerCommitments + [config.Bit(current)];
        if |headerCommitments| > config.maxCommitments {
          return false;
        }
      }
      currentChainWork := Config.AddWork(currentChainWork, config.proof(current.nBits));
      lastHeaderReceived := current;
      currentHeight := nextHeight;
      presync := presync + [current];
      return true;
    }

    method ProcessEachHeader(headers: seq<Header>) returns (ok: bool)
      requires PresyncFields() && downloadState == PRESYNC
      requires headerCommitments == config.Commitments(presync, 0) && |headerCommitments| <= config.maxCommitments
      modifies this`headerCommitments, this`currentChainWork, this`lastHeaderReceived, this`currentHeight, this`presync
      ensures ok <==> config.PresyncTakesAll(old(presync) + headers)
      ensures ok ==> presync == old(presync) + headers && PresyncFields()
      ensures ok ==> headerCommitments == config.Commitments(presync, 0) && |headerCommitments| <= config.maxCommitments
    {
      hide Config.Commitments, Config.PresyncTakesAll, Config.PresyncTakes, PresyncOk;
      var i := 0;
      assert old(presync) + headers[..0] == old(presync);
      while i < |headers|
        invariant 0 <= i <= |headers|
        invariant presync == old(presync) + headers[..i]
        invariant PresyncFields() && headerCommitments == config.Commitments(presync, 0)
        invariant |headerCommitments| <= config.maxCommitments
      {
        ghost var before := presync;
        ok := ValidateAndProcessSingleHeader(headers[i]);
        assert headers[..i + 1] == headers[..i] + [headers[i]];
        assert old(presync) + headers[..i + 1] == before + [headers[i]];
        if !ok {
          PresyncNotTaken(config, old(presync) + headers, before, headers[i]);
          return false;
        }
        i := i + 1;
      }
      assert headers[..|headers|] == headers;
      PresyncSays(config, presync, currentChainWork, lastHeaderReceived, currentHeight);
      return true;
    }

    /** Takes a whole message of the first phase, or fails. */
    method ValidateAndStoreHeadersCommitments(headers: seq<Header>) returns (ok: bool)
      requires Valid() && downloadState == PRESYNC && headers != []
      modifies this
      ensures ok <==> headers[0].hashPrevBlock == config.hash(config.Last(old(presync))) &&
                      config.PresyncTakesAll(old(presync) + headers)
      ensures redownloaded == [] && out == early == 0 && History()
      ensures ok ==> Valid() && presync == old(presync) + headers
      ensures ok ==> downloadState == if config.Work(presync) >= config.minimumWork then REDOWNLOAD else PRESYNC
    {
      hide Config.Work, Config.Commitments, Config.PresyncTakesAll, Config.Reached, HistoryOk, BufferOk, PresyncOk;
      PresyncSays(config, presync, currentChainWork, lastHeaderReceived, currentHeight);
      if headers[0].hashPrevBlock != config.hash(lastHeaderReceived) {
        return false;
      }
      ok := ProcessEachHeader(headers);
      StartOver(config, presync);
      if !ok {
        return false;
      }
      PresyncSays(config, presync, currentChainWork, lastHeaderReceived, currentHeight);
      if currentChainWork >= config.minimumWork {
        ReachedAtEnd(config, presync);
        redownloadedHeaders := [];
        bufferLastHeight := config.startHeight;
        bufferFirstPrevHash := config.hash(config.start);
        bufferLastHash := config.hash(config.start);
        redownloadChainWork := config.startWork;
        downloadState := REDOWNLOAD;
      }
      return true;
    }

    /** The state of the second phase while a message is being taken. */
    ghost predicate Taking()
      reads this
    {
      && History() && config.commitOffset < HEADER_COMMITMENT_PERIOD
      && PresyncFields() && BufferFields() && downloadState == REDOWNLOAD
      && |headerCommitments| <= config.maxCommitments
      && (!processAllRemainingHeaders ==> headerCommitments == config.Commitments(presync, |redownloaded|))
      && early == out <= |redownloaded| && |redownloadedHeaders| == |redownloaded| - out
      && (out == |redownloaded| ==> redownloaded == [])
    }

    /** Takes one more header of the second phase exactly when the rules of that phase allow it. */
    method ValidateAndStoreRedownloadedHeader(header: Header) returns (ok: bool)
      requires Taking()
      modifies this`headerCommitments, this`redownloadedHeaders, this`bufferLastHeight, this`bufferLastHash,
               this`redownloadChainWork, this`processAllRemainingHeaders, this`redownloaded
      ensures ok <==> config.RedownloadTakes(presync, old(redownloaded), header)
      ensures redownloaded == if ok then old(redownloaded) + [header] else old(redownloaded)
      ensures ok ==> Taking()
      ensures History()
    {
      hide Config.AddWork, Config.Work, Config.Commitments, Config.Reached, Config.RedownloadTakesAll;
      hide HistoryOk, PresyncOk, BufferOk, Compress, Config.Committed;
      BufferTakes(config, redownloaded, out, redownloadedHeaders, bufferLastHeight, bufferLastHash,
                  bufferFirstPrevHash, redownloadChainWork, processAllRemainingHeaders, header);
      QueueFront(config, presync, |redownloaded|);
      var nextHeight := bufferLastHeight + 1;
      if header.hashPrevBlock != bufferLastHash {
        return false;
      }
      var previousBits := if redownloadedHeaders != [] then redownloadedHeaders[|redownloadedHeaders| - 1].nBits
                          else config.start.nBits;
      if !config.permitted(nextHeight, previousBits, header.nBits) {
        return false;
      }
      redownloadChainWork := Config.AddWork(redownloadChainWork, config.proof(header.nBits));
      if redownloadChainWork >= config.minimumWork {
        processAllRemainingHeaders := true;
      }
      if !processAllRemainingHeaders && config.Committed(nextHeight) {
        if |headerCommitments| == 0 {
          return false;
        }
        var commitment := config.Bit(header);
        var expected := headerCommitments[0];
        headerCommitments := headerCommitments[1..];
        if commitment != expected {
          return false;
        }
      }
      redownloadedHeaders := redownloadedHeaders + [Compress(header)];
      bufferLastHeight := nextHeight;
      bufferLastHash := config.hash(header);
      HistoryTakes(config, presync, redownloaded, out, early, header);
      redownloaded := redownloaded + [header];
      return true;
    }

    /** Hands out what may leave the buffer, field for field as it was received. */
    method PopHeadersReadyForAcceptance() returns (ret: seq<Header>)
      requires Taking()
      modifies this`redownloadedHeaders, this`bufferFirstPrevHash, this`out, this`early
      ensures History() && BufferFields()
      ensures out == config.ReleasedCount(redownloaded, old(out))
      ensures old(out) <= out <= |redownloaded| && ret == redownloaded[old(out)..out]
      ensures |redownloadedHeaders| == |redownloaded| - out
      ensures processAllRemainingHeaders <==> config.Reached(redownloaded)
      ensures !config.Reached(redownloaded) ==> early == out
    {
      hide Config.Linked, Config.Reached, HistoryOk, BufferOk, PresyncOk, Config.Commitments;
      BufferSays(config, redownloaded, out, redownloadedHeaders, bufferLastHeight, bufferLastHash,
                 bufferFirstPrevHash, redownloadChainWork, processAllRemainingHeaders);
      HistoryIsLinked(config, presync, redownloaded, out, early);
      ret := [];
      while |redownloadedHeaders| > REDOWNLOAD_BUFFER_SIZE || (|redownloadedHeaders| > 0 && processAllRemainingHeaders)
        invariant BufferFields() && |redownloadedHeaders| == |redownloaded| - out && early == old(early)
        invariant old(out) <= out <= |redownloaded| && ret == redownloaded[old(out)..out]
        invariant !processAllRemainingHeaders ==> out == old(out) || out + REDOWNLOAD_BUFFER_SIZE <= |redownloaded|
        decreases |redownloadedHeaders|
      {
        BufferPops(config, redownloaded, out, redownloadedHeaders, bufferLastHeight, bufferLastHash,
                   bufferFirstPrevHash, redownloadChainWork, processAllRemainingHeaders);
        SliceMore(redownloaded, old(out), out);
        ret := ret + [redownloadedHeaders[0].GetFullHeader(bufferFirstPrevHash)];
        redownloadedHeaders := redownloadedHeaders[1..];
        bufferFirstPrevHash := config.hash(ret[|ret| - 1]);
        out := out + 1;
      }
      if processAllRemainingHeaders {
        HistoryReleasesAll(config, presync, redownloaded, early, out);
      } else {
        HistoryReleases(config, presync, redownloaded, early, out);
        early := out;
      }
    }

    /** Takes a whole message of the second phase, or fails. */
    method StoreRedownloadedHeaders(headers: seq<Header>) returns (ok: bool)
      requires Taking()
      modifies this`headerCommitments, this`redownloadedHeaders, this`bufferLastHeight, this`bufferLastHash,
               this`redownloadChainWork, this`processAllRemainingHeaders, this`redownloaded
      ensures ok <==> config.RedownloadTakesAll(presync, old(redownloaded) + headers)
      ensures ok ==> Taking() && redownloaded == old(redownloaded) + headers
      ensures History() && out <= |redownloaded| && old(redownloaded) <= redownloaded
    {
      hide HistoryOk, PresyncOk, BufferOk, Config.Commitments, Config.RedownloadTakes, Config.RedownloadTakesAll;
      var i := 0;
      assert old(redownloaded) + headers[..0] == old(redownloaded);
      while i < |headers|
        invariant 0 <= i <= |headers|
        invariant redownloaded == old(redownloaded) + headers[..i] && Taking()
      {
        ghost var before := redownloaded;
        ok := ValidateAndStoreRedownloadedHeader(headers[i]);
        assert headers[..i + 1] == headers[..i] + [headers[i]];
        assert old(redownloaded) + headers[..i + 1] == before + [headers[i]];
        if !ok {
          RedownloadNotTaken(config, presync, old(redownloaded) + headers, before, headers[i]);
          return false;
        }
        i := i + 1;
      }
      assert headers[..|headers|] == headers;
      HistoryIsLinked(config, presync, redownloaded, out, early);
      return true;
    }

    /**
     * One message from the peer. Whatever arrives, the headers handed out so far stay a prefix of
     * the redownloaded ones; success, the next request and the phase are decided by the two
     * sequences alone.
     */
    method ProcessNextHeaders(receivedHeaders: seq<Header>, fullHeadersMessage: bool) returns (ret: ProcessingResult)
      requires Valid()
      modifies this
      ensures Valid()
      ensures Released() == old(Released()) + ret.powValidatedHeaders
      ensures receivedHeaders == [] || old(downloadState) == FINAL ==>
                ret == ProcessingResult([], false, false) && unchanged(this)
      ensures receivedHeaders != [] && old(downloadState) == PRESYNC ==>
                var all := old(presync) + receivedHeaders;
                var ok := receivedHeaders[0].hashPrevBlock == config.hash(config.Last(old(presync))) &&
                          config.PresyncTakesAll(all);
                var enough := config.Work(all) >= config.minimumWork;
                && ret == ProcessingResult([], ok, ok && (fullHeadersMessage || enough))
                && redownloaded == []
                && (ok ==> presync == all)
                && downloadState == if !ret.requestMore then FINAL else if enough then REDOWNLOAD else PRESYNC
      ensures receivedHeaders != [] && old(downloadState) == REDOWNLOAD ==>
                var all := old(redownloaded) + receivedHeaders;
                && presync == old(presync)
                && (ret.success <==> config.RedownloadTakesAll(presync, all))
                && (ret.success ==> redownloaded == all && out == config.ReleasedCount(all, old(out)))
                && (!ret.success ==> ret.powValidatedHeaders == [])
                && (ret.requestMore <==> ret.success && fullHeadersMessage && !config.Reached(all))
                && downloadState == if ret.requestMore then REDOWNLOAD else FINAL
    {
      hide Config.Work, Config.Reached, Config.Commitments, Config.PresyncTakesAll, Config.RedownloadTakesAll;
      hide HistoryOk, PresyncOk, BufferOk;
      ret := ProcessingResult([], false, false);
      if receivedHeaders == [] || downloadState == FINAL {
        return;
      }
      if downloadState == PRESYNC {
        var ok := ValidateAndStoreHeadersCommitments(receivedHeaders);
        ret := ret.(success := ok);
        if ok && (fullHeadersMessage || downloadState == REDOWNLOAD) {
          ret := ret.(requestMore := true);
        }
      } else {
        BufferSays(config, redownloaded, out, redownloadedHeaders, bufferLastHeight, bufferLastHash,
                   bufferFirstPrevHash, redownloadChainWork, processAllRemainingHeaders);
        var ok := StoreRedownloadedHeaders(receivedHeaders);
        ret := ret.(success := ok);
        assert redownloaded[..old(out)] == old(redownloaded)[..old(out)];
        if ok {
          var headers := PopHeadersReadyForAcceptance();
          assert redownloaded[..out] == redownloaded[..old(out)] + headers;
          ret := ret.(powValidatedHeaders := headers);
          if redownloadedHeaders == [] && processAllRemainingHeaders {
          } else if fullHeadersMessage {
            ret := ret.(requestMore := true);
          }
        }
      }
      if !(ret.success && ret.requestMore) {
        Finalize();
      }
    }
  }

  // ---------------------------------------------------------------------------------------
  // Whole runs

  /** Every header handed out before the work was reached had at least 23 checked commitments above it. */
  lemma ReleasedEarlyIsBacked(s: HeadersSyncState, i: nat)
    requires s.Valid() && i < s.early
    ensures var checked := s.redownloaded[..s.early + REDOWNLOAD_BUFFER_SIZE];
            && !s.config.Reached(checked)
            && s.config.CommittedCount(s.config.Height(i) + 1, s.config.Height(|checked|)) >= 23
            && (forall j | i < j < |checked| && s.config.Committed(s.config.Height(j)) ::
                  j < |s.presync| && s.config.Bit(checked[j]) == s.config.Bit(s.presync[j]))
  {
    hide Config.CommittedCount, Config.Reached, Config.RedownloadTakesAll, Config.Committed, Config.Commitments;
    var k := s.early + REDOWNLOAD_BUFFER_SIZE;
    PrefixTaken(s.config, s.presync, s.redownloaded, k);
    BufferedIsBacked(s.config, s.presync, s.redownloaded[..k], i);
  }

  /** The headers handed out form a hash chain from the start block. */
  lemma ReleasedIsLinked(s: HeadersSyncState)
    requires s.Valid()
    ensures s.config.Linked(s.Released())
  {
    TakenIsLinked(s.config, s.presync, s.redownloaded);
    PrefixLinked(s.config, s.redownloaded, s.out);
  }

  /** And their difficulty changed only as permitted. */
  lemma ReleasedIsPermitted(s: HeadersSyncState)
    requires s.Valid()
    ensures Permits(s.config, s.Released())
  {
    hide Permits, Compared, Config.Linked, Config.Reached, Config.RedownloadTakesAll;
    PrefixTaken(s.config, s.presync, s.redownloaded, s.out);
    RedownloadTakesIff(s.config, s.presync, s.Released());
  }

  /** A message whose headers each name the one before. */
  predicate Continuous(c: Config, headers: seq<Header>) {
    forall i | 0 < i < |headers| :: headers[i].hashPrevBlock == c.hash(headers[i - 1])
  }

  lemma {:induction false} ContinuousKeepsLinked(c: Config, hs: seq<Header>, headers: seq<Header>)
    requires c.Linked(hs) && Continuous(c, headers)
    requires headers != [] ==> headers[0].hashPrevBlock == c.hash(c.Last(hs))
    ensures c.Linked(hs + headers)
    decreases |headers|
  {
    if headers == [] {
      assert hs + headers == hs;
    } else {
      var n := |headers| - 1;
      ContinuousKeepsLinked(c, hs, headers[..n]);
      assert (hs + headers)[..|hs| + n] == hs + headers[..n];
      assert c.Last(hs + headers[..n]) == if n == 0 then c.Last(hs) else headers[n - 1];
    }
  }

  function Concat(batches: seq<seq<Header>>): seq<Header> {
    if batches == [] then [] else Concat(batches[..|batches| - 1]) + batches[|batches| - 1]
  }

  lemma {:induction false} ConcatPrefix(batches: seq<seq<Header>>, k: nat)
    requires k <= |batches|
    ensures Concat(batches[..k]) <= Concat(batches)
    decreases |batches|
  {
    if k < |batches| {
      assert batches[..|batches| - 1][..k] == batches[..k];
      ConcatPrefix(batches[..|batches| - 1], k);
    } else {
      assert batches[..k] == batches;
    }
  }

  lemma NoneLinked(c: Config)
    ensures c.Linked([])
  {
  }

  lemma ServedIsTaken(c: Config, batches: seq<seq<Header>>, k: nat)
    requires c.PresyncTakesAll(Concat(batches)) && c.Linked(Concat(batches)) && k < |batches| && batches[k] != []
    ensures c.PresyncTakesAll(Concat(batches[..k]) + batches[k])
    ensures batches[k][0].hashPrevBlock == c.hash(c.Last(Concat(batches[..k])))
  {
    hide Config.PresyncTakesAll, Config.Linked;
    var all, before := Concat(batches), Concat(batches[..k]);
    assert batches[..k + 1][..k] == batches[..k];
    ConcatPrefix(batches, k + 1);
    var n := |before + batches[k]|;
    assert all[..n] == before + batches[k] && all[..|before|] == before && all[|before|] == batches[k][0];
    PresyncPrefixTaken(c, all, n);
    LinkAt(c, all, |before|);
  }

  /**
   * The first phase, served by a peer whose messages are continuous and full. Unless a message fails,
   * the headers taken are those served, they are linked, and the phase ends with the work reached. No message
   * of a linked chain that the rules of the phase allow fails.
   */
  method Serve(s: HeadersSyncState, batches: seq<seq<Header>>) returns (ok: bool, served: nat)
    requires s.Valid() && s.downloadState == PRESYNC && s.presync == []
    requires forall i | 0 <= i < |batches| :: batches[i] != [] && Continuous(s.config, batches[i])
    modifies s
    ensures s.Valid() && served <= |batches|
    ensures ok ==> s.presync == Concat(batches[..served]) && s.config.Linked(s.presync)
    ensures ok ==> s.downloadState == REDOWNLOAD || (s.downloadState == PRESYNC && served == |batches|)
    ensures ok && s.downloadState == PRESYNC && batches != [] ==> s.config.Work(Concat(batches)) < s.config.minimumWork
    ensures s.downloadState == REDOWNLOAD ==> s.redownloaded == [] && s.config.Reached(s.presync)
    ensures !ok ==> s.downloadState == FINAL && s.redownloaded == []
    ensures s.config.PresyncTakesAll(Concat(batches)) && s.config.Linked(Concat(batches)) ==> ok
  {
    hide Config.Work, Config.Reached, Config.Commitments, Config.PresyncTakesAll, Config.Linked, HistoryOk, BufferOk;
    assert s.config.Linked([]) by {
      NoneLinked(s.config);
    }
    served, ok := 0, true;
    while served < |batches| && s.downloadState == PRESYNC
      invariant 0 <= served <= |batches| && ok
      invariant s.Valid() && s.presync == Concat(batches[..served]) && s.config.Linked(s.presync)
      invariant s.downloadState != FINAL && s.redownloaded == [] && (served > 0 ==> s.presync != [])
    {
      ghost var before := s.presync;
      if s.config.PresyncTakesAll(Concat(batches)) && s.config.Linked(Concat(batches)) {
        ServedIsTaken(s.config, batches, served);
      }
      var ret := s.ProcessNextHeaders(batches[served], true);
      if !ret.success {
        return false, served;
      }
      ContinuousKeepsLinked(s.config, before, batches[served]);
      assert batches[..served + 1][..served] == batches[..served];
      served := served + 1;
    }
    assert batches[..|batches|] == batches;
  }

  /**
   * The second phase, served by a peer that repeats the headers of the first in messages cut anywhere,
   * each flagged full until the one that reaches the work asked for: nothing fails, more is asked for until
   * that message, and everything through it is handed out.
   */
  method Replay(s: HeadersSyncState, batches: seq<seq<Header>>, lastIsFull: bool)
    returns (answers: seq<ProcessingResult>, handedOut: seq<Header>)
    requires s.Valid() && s.downloadState == REDOWNLOAD && s.redownloaded == [] && s.config.Linked(s.presync)
    requires batches != [] && forall i | 0 <= i < |batches| :: batches[i] != []
    requires Concat(batches) <= s.presync
    requires s.config.Reached(Concat(batches)) && !s.config.Reached(Concat(batches[..|batches| - 1]))
    modifies s
    ensures |answers| == |batches|
    ensures forall i | 0 <= i < |batches| :: answers[i].success && (answers[i].requestMore <==> i < |batches| - 1)
    ensures s.Valid() && handedOut == Concat(batches) && s.Released() == handedOut && s.downloadState == FINAL
  {
    hide HistoryOk, BufferOk, Config.Work, Config.Reached, Config.Commitments, Config.PresyncTakesAll;
    hide Config.RedownloadTakesAll, Config.Linked;
    answers, handedOut := [], [];
    var i := 0;
    assert batches[..0] == [];
    while i < |batches|
      invariant 0 <= i <= |batches| && |answers| == i
      invariant s.Valid() && s.presync == old(s.presync) && s.redownloaded == Concat(batches[..i])
      invariant s.Released() == handedOut
      invariant s.downloadState == if i < |batches| then REDOWNLOAD else FINAL
      invariant forall j | 0 <= j < i :: answers[j].success && (answers[j].requestMore <==> j < |batches| - 1)
      invariant i == |batches| ==> handedOut == Concat(batches)
    {
      ReplayedMessage(s.config, s.presync, batches, i);
      var last := i == |batches| - 1;
      var ret := s.ProcessNextHeaders(batches[i], !last || lastIsFull);
      answers := answers + [ret];
      handedOut := handedOut + ret.powValidatedHeaders;
      i := i + 1;
    }
  }

  lemma ReplayedMessage(c: Config, presync: seq<Header>, batches: seq<seq<Header>>, i: nat)
    requires c.PresyncTakesAll(presync) && c.Linked(presync) && i < |batches|
    requires Concat(batches) <= presync
    requires c.Reached(Concat(batches)) && !c.Reached(Concat(batches[..|batches| - 1]))
    ensures Concat(batches[..i + 1]) == Concat(batches[..i]) + batches[i]
    ensures c.RedownloadTakesAll(presync, Concat(batches[..i + 1]))
    ensures c.Reached(Concat(batches[..i + 1])) <==> i == |batches| - 1
    ensures i == |batches| - 1 ==> Concat(batches[..i + 1]) == Concat(batches)
  {
    hide Config.Reached, Config.RedownloadTakesAll, Config.PresyncTakesAll, Config.Linked;
    assert batches[..i + 1][..i] == batches[..i];
    ConcatPrefix(batches, i + 1);
    var all := Concat(batches[..i + 1]);
    ReplayIsTaken(c, presync, |all|);
    assert presync[..|all|] == all;
    if i < |batches| - 1 {
      var rest := batches[..|batches| - 1];
      assert rest[..i + 1] == batches[..i + 1];
      ConcatPrefix(rest, i + 1);
      NotReachedBelow(c, Concat(rest), |all|);
      assert Concat(rest)[..|all|] == all;
    } else {
      assert batches[..i + 1] == batches;
    }
  }
}
