/**
 * The cuckoo cache (src/cuckoocache.h): a table in which every element has eight possible slots, with
 * garbage flags that let slots be reused lazily and epoch flags that age elements out.
 *
 * The table, the flags and the counter are changed in place by the methods below. Their meaning is the
 * sequence of slots given by Slots(); what insertion does to the live elements, and how many of them
 * there can be, is stated and proved about that sequence.
 */
module CuckooCache {
  import opened Wrappers
  import opened Multisets
  import opened Words

  /** Elements are 256-bit values; the table is first filled with the zero one. */
  type Element = nat

  const DEFAULT: Element := 0

  /** Maps a 32-bit value onto [0, n). */
  function FastRange32(x: nat, n: nat): (r: nat)
    requires x < UINT32 && n > 0
    ensures r < n && r * UINT32 <= x * n < (r + 1) * UINT32
  {
    ScaledBelow(x, n);
    (x * n) / UINT32
  }

  lemma ScaledBelow(x: nat, n: nat)
    requires x < UINT32 && n > 0
    ensures var r := (x * n) / UINT32; 0 <= r < n && r * UINT32 <= x * n < (r + 1) * UINT32
  {
    assert x * n < UINT32 * n;
  }

  // ---------------------------------------------------------------------------------------
  // The packed garbage flags

  function Mask(k: nat): bv8
    requires k < 8
  {
    if k == 0 then 1 else if k == 1 then 2 else if k == 2 then 4 else if k == 3 then 8
    else if k == 4 then 16 else if k == 5 then 32 else if k == 6 then 64 else 128
  }

  lemma SetBit(b: bv8, k: nat, j: nat)
    requires k < 8 && j < 8
    ensures (b | Mask(k)) & Mask(j) == if j == k then Mask(k) else b & Mask(j)
    ensures Mask(k) != 0
  {
    var m, o := Mask(k), Mask(j);
    assert j != k ==> m & o == 0;
    assert m & o == 0 ==> (b | m) & o == b & o;
    assert (b | m) & m == m;
  }

  lemma ClearBit(b: bv8, k: nat, j: nat)
    requires k < 8 && j < 8
    ensures (b & !Mask(k)) & Mask(j) == if j == k then 0 else b & Mask(j)
  {
    var m, o := Mask(k), Mask(j);
    assert j != k ==> m & o == 0;
    assert m & o == 0 ==> (b & !m) & o == b & o;
    assert (b & !m) & m == 0;
  }

  lemma FullByte(k: nat)
    requires k < 8
    ensures 0xFF & Mask(k) != 0
  {
  }

  class BitPackedFlags {
    const count: nat
    const mem: array<bv8>

    predicate Valid() {
      mem.Length == (count + 7) / 8
    }

    predicate BitIsSet(s: nat)
      requires Valid() && s < count
      reads mem
    {
      mem[s / 8] & Mask(s % 8) != 0
    }

    /**
     * At first every entry is marked as collectable. There is room for all of them unless padding the count
     * leaves 32 bits.
     */
    constructor (count: nat)
      requires count < UINT32
      ensures this.count == count && fresh(mem)
      ensures Valid() <==> count < UINT32 - 7
      ensures Valid() ==> forall s | 0 <= s < count :: BitIsSet(s)
    {
      this.count := count;
      mem := new bv8[(count + 7) % UINT32 / 8](_ => 0xFF);
      new;
      if Valid() {
        forall s | 0 <= s < count ensures BitIsSet(s) {
          FullByte(s % 8);
        }
      }
    }

    method BitSet(s: nat)
      requires Valid() && s < count
      modifies mem
      ensures forall t | 0 <= t < count :: BitIsSet(t) == (t == s || old(BitIsSet(t)))
    {
      hide Mask;
      ghost var was := mem[s / 8];
      mem[s / 8] := mem[s / 8] | Mask(s % 8);
      forall t | 0 <= t < count ensures BitIsSet(t) == (t == s || old(BitIsSet(t))) {
        if t / 8 == s / 8 {
          SetBit(was, s % 8, t % 8);
        }
      }
    }

    method BitUnset(s: nat)
      requires Valid() && s < count
      modifies mem
      ensures forall t | 0 <= t < count :: BitIsSet(t) == (t != s && old(BitIsSet(t)))
    {
      hide Mask;
      ghost var was := mem[s / 8];
      mem[s / 8] := mem[s / 8] & !Mask(s % 8);
      forall t | 0 <= t < count ensures BitIsSet(t) == (t != s && old(BitIsSet(t))) {
        if t / 8 == s / 8 {
          ClearBit(was, s % 8, t % 8);
        }
      }
    }
  }

  // ---------------------------------------------------------------------------------------
  // Slots

  datatype Slot = Slot(element: Element, garbage: bool, recent: bool)

  /** The live elements of the current epoch, or of the one before, with their multiplicity. */
  function Epoch(s: seq<Slot>, recent: bool): multiset<Element> {
    if s == [] then multiset{} else EpochAt(s[0], recent) + Epoch(s[1..], recent)
  }

  function EpochAt(x: Slot, recent: bool): multiset<Element> {
    One(x.element, !x.garbage && x.recent == recent)
  }

  function One(e: Element, there: bool): multiset<Element> {
    if there then multiset{e} else multiset{}
  }

  /** The live elements of both epochs. */
  function Live(s: seq<Slot>): multiset<Element> {
    Epoch(s, true) + Epoch(s, false)
  }

  /** How many live elements belong to the current epoch, or to the one before. */
  function Count(s: seq<Slot>, recent: bool): nat {
    |Epoch(s, recent)|
  }

  lemma {:induction false} EpochUpdate(s: seq<Slot>, i: nat, x: Slot, recent: bool)
    requires i < |s|
    ensures Epoch(s[i := x], recent) + EpochAt(s[i], recent) == Epoch(s, recent) + EpochAt(x, recent)
  {
    if i == 0 {
      assert s[i := x][1..] == s[1..];
    } else {
      hide EpochAt;
      assert s[i := x][1..] == s[1..][i - 1 := x];
      EpochUpdate(s[1..], i - 1, x, recent);
      WithMore(EpochAt(s[0], recent), Epoch(s[1..][i - 1 := x], recent), EpochAt(s[i], recent), Epoch(s[1..], recent),
               EpochAt(x, recent));
    }
  }

  ghost predicate Holds(s: seq<Slot>, i: int, x: Element, recent: bool) {
    0 <= i < |s| && s[i] == Slot(x, false, recent)
  }

  /** The live elements of an epoch are those that some live slot of that epoch holds. */
  lemma {:induction false} EpochHolders(s: seq<Slot>, x: Element, recent: bool)
    ensures x in Epoch(s, recent) <==> exists i :: Holds(s, i, x, recent)
  {
    if s != [] {
      EpochHolders(s[1..], x, recent);
      if i :| Holds(s[1..], i, x, recent) {
        assert Holds(s, i + 1, x, recent);
      }
      if i :| Holds(s, i, x, recent) {
        if i > 0 {
          assert Holds(s[1..], i - 1, x, recent);
        }
      }
      assert s[0] == Slot(x, false, recent) ==> Holds(s, 0, x, recent);
    }
  }

  /** The live elements are those that some live slot holds. */
  lemma LiveHolders(s: seq<Slot>, x: Element)
    ensures x in Live(s) <==> exists i :: 0 <= i < |s| && !s[i].garbage && s[i].element == x
  {
    hide Epoch;
    EpochHolders(s, x, true);
    EpochHolders(s, x, false);
    if i :| 0 <= i < |s| && !s[i].garbage && s[i].element == x {
      assert Holds(s, i, x, s[i].recent);
    }
  }

  /** A new epoch: the current elements become old and the old ones collectable. */
  function Aged(s: seq<Slot>): (r: seq<Slot>)
    ensures |r| == |s| && forall i | 0 <= i < |s| :: r[i] == AgedSlot(s[i])
  {
    seq(|s|, i requires 0 <= i < |s| => AgedSlot(s[i]))
  }

  function AgedSlot(x: Slot): Slot {
    if x.recent then x.(recent := false) else x.(garbage := true)
  }

  /** Aging leaves no current element, and exactly the former current ones as old: the old ones go. */
  lemma {:induction false} AgedEpochs(s: seq<Slot>)
    ensures Epoch(Aged(s), true) == multiset{} && Epoch(Aged(s), false) == Epoch(s, true)
  {
    if s != [] {
      assert Aged(s)[1..] == Aged(s[1..]);
      AgedEpochs(s[1..]);
    }
  }

  // ---------------------------------------------------------------------------------------
  // The size of an epoch

  /** 45% of the slots, computed with 32-bit wrap-around, and at least one. */
  function EpochSize(size: nat): (r: nat)
    ensures 1 <= r < UINT32
  {
    Max(1, ((45 * size) % UINT32) / 100)
  }

  /** No more than this many live elements are of the current epoch. */
  function EpochBound(epochSize: nat): nat {
    epochSize + Max(1, epochSize / 16)
  }

  /** The slots and the counter after the check made before an insertion. */
  function Checked(s: seq<Slot>, counter: nat, epochSize: nat): (seq<Slot>, nat) {
    if counter != 0 then (s, counter - 1)
    else if Count(s, true) >= epochSize then (Aged(s), epochSize)
    else (s, Max(1, Max(epochSize / 16, epochSize - Count(s, true))))
  }

  /** The counter bounds how far the current epoch may still grow before the next scan. */
  ghost predicate Bounded(s: seq<Slot>, counter: nat, epochSize: nat) {
    Count(s, true) + counter <= EpochBound(epochSize) && Count(s, false) <= EpochBound(epochSize)
  }

  /** After the check there is room for one more current element. */
  lemma CheckedIsBounded(s: seq<Slot>, counter: nat, epochSize: nat)
    requires Bounded(s, counter, epochSize) && epochSize >= 1
    ensures var (s', counter') := Checked(s, counter, epochSize);
            Count(s', true) + 1 + counter' <= EpochBound(epochSize) && Count(s', false) <= EpochBound(epochSize)
  {
    AgedEpochs(s);
  }

  /**
   * An epoch ends only at a scan that finds at least an epoch's worth of current elements; otherwise the check
   * changes no slot. When it ends, exactly the live elements of the epoch before go, and the current ones are then
   * the old ones.
   */
  lemma CheckedExactly(s: seq<Slot>, counter: nat, epochSize: nat)
    ensures var t := Checked(s, counter, epochSize).0;
            if counter == 0 && |Epoch(s, true)| >= epochSize
            then Live(t) == Epoch(t, false) == Epoch(s, true)
                 && forall i | 0 <= i < |s| :: i < |t| && t[i].element == s[i].element
            else t == s
  {
    AgedEpochs(s);
  }

  /** The next scan is put off until the current epoch can be full, and for a sixteenth of an epoch at least. */
  lemma ScansAreRare(s: seq<Slot>, epochSize: nat)
    requires epochSize >= 1
    ensures var (t, counter) := Checked(s, 0, epochSize);
            counter >= 1 && counter >= epochSize / 16 && Count(t, true) + counter >= epochSize
  {
    AgedEpochs(s);
  }

  /** Neither epoch, nor the two together, can outgrow the bound. */
  lemma LiveIsBounded(s: seq<Slot>, counter: nat, epochSize: nat)
    requires Bounded(s, counter, epochSize)
    ensures Count(s, true) <= EpochBound(epochSize) && |Live(s)| <= 2 * EpochBound(epochSize)
  {
  }

  /** An epoch is 45 per cent of the slots, rounded down, where that product fits in 32 bits. */
  lemma EpochShare(size: nat)
    requires size < UINT32 / 45
    ensures 100 * EpochSize(size) <= Max(100, 45 * size) && 45 * size < 100 * (EpochSize(size) + 1)
  {
  }

  /** Two epochs always leave room in the table, whatever its size but the smallest. */
  lemma EpochsFit(size: nat)
    requires 20 <= size < UINT32
    ensures 2 * EpochBound(EpochSize(size)) <= size
  {
    WholeHundreds((45 * size) % UINT32);
    RemainderBelow(45 * size);
  }

  lemma WholeHundreds(x: nat)
    ensures 100 * (x / 100) <= x
  {
  }

  lemma RemainderBelow(x: nat)
    ensures x % UINT32 <= x
  {
  }

  // ---------------------------------------------------------------------------------------
  // Where elements may be

  const INVALID: nat := UINT32 - 1

  /** The eight hash functions and the size of the table. */
  datatype Hashing = Hashing(size: nat, hash: (nat, Element) -> nat) {
    function Locs(e: Element): (r: seq<nat>)
      requires size > 0
      ensures |r| == 8 && forall k | 0 <= k < 8 :: r[k] < size
    {
      seq(8, (k: nat) => Loc(k, e))
    }

    function Loc(k: nat, e: Element): (r: nat)
      requires size > 0
      ensures r < size
    {
      FastRange32(hash(k, e) % UINT32, size)
    }
  }

  /** Every slot holds an element at one of that element's locations, or has never been used. */
  ghost predicate Placed(h: Hashing, s: seq<Slot>) {
    h.size > 0 && |s| == h.size &&
    forall i | 0 <= i < |s| :: (s[i].element == DEFAULT && s[i].garbage) || i in h.Locs(s[i].element)
  }

  /** No element other than the default one is in two slots. */
  ghost predicate Unique(s: seq<Slot>) {
    forall i, j | 0 <= i < j < |s| && s[i].element == s[j].element :: s[i].element == DEFAULT
  }

  ghost predicate Absent(s: seq<Slot>, e: Element) {
    e == DEFAULT || forall i | 0 <= i < |s| :: s[i].element != e
  }

  ghost predicate Known(s: seq<Slot>, inserted: set<Element>) {
    forall i | 0 <= i < |s| :: (s[i].element == DEFAULT && s[i].garbage) || s[i].element in inserted
  }

  ghost predicate Sound(h: Hashing, s: seq<Slot>, inserted: set<Element>) {
    Placed(h, s) && Unique(s) && Known(s, inserted)
  }

  /** An element that none of its own locations holds is nowhere in the table. */
  lemma NotAtHome(h: Hashing, s: seq<Slot>, inserted: set<Element>, e: Element)
    requires Sound(h, s, inserted) && forall k | 0 <= k < 8 :: s[h.Locs(e)[k]].element != e
    ensures Absent(s, e)
  {
    forall i | 0 <= i < |s| && e != DEFAULT ensures s[i].element != e {
      if i in h.Locs(e) {
        var k :| 0 <= k < 8 && h.Locs(e)[k] == i;
      }
    }
  }

  /** Putting an absent element into one of its locations; what it pushes out is absent afterwards. */
  lemma PutKeepsSound(h: Hashing, s: seq<Slot>, inserted: set<Element>, loc: nat, e: Element, recent: bool)
    requires Sound(h, s, inserted) && Absent(s, e) && e in inserted && loc in h.Locs(e)
    ensures loc < |s| && Sound(h, s[loc := Slot(e, false, recent)], inserted)
    ensures !s[loc].garbage ==>
              Absent(s[loc := Slot(e, false, recent)], s[loc].element) && loc in h.Locs(s[loc].element)
  {
    assert loc < h.size;
    var t := s[loc := Slot(e, false, recent)];
    forall i, j | 0 <= i < j < |t| && t[i].element == t[j].element ensures t[i].element == DEFAULT {
      if i != loc && j != loc {
        assert s[i].element == s[j].element;
      }
    }
    forall i | 0 <= i < |t| && t[i].element == s[loc].element && !s[loc].garbage ensures s[loc].element == DEFAULT {
      if i != loc {
        assert s[i].element == s[loc].element;
      } else {
        assert s[loc].element == e;
      }
    }
  }

  /** Reviving the slot that already holds the element. */
  lemma RefreshKeepsSound(h: Hashing, s: seq<Slot>, inserted: set<Element>, loc: nat, e: Element, recent: bool)
    requires Sound(h, s, inserted) && e in inserted && loc in h.Locs(e) && loc < |s| && s[loc].element == e
    ensures Sound(h, s[loc := Slot(e, false, recent)], inserted)
  {
    var t := s[loc := Slot(e, false, recent)];
    assert forall i | 0 <= i < |s| :: t[i].element == s[i].element;
    forall i, j | 0 <= i < j < |t| && t[i].element == t[j].element ensures t[i].element == DEFAULT {
      assert s[i].element == s[j].element;
    }
  }

  lemma CheckedKeepsSound(h: Hashing, s: seq<Slot>, inserted: set<Element>, counter: nat, epochSize: nat)
    requires Sound(h, s, inserted)
    ensures Sound(h, Checked(s, counter, epochSize).0, inserted)
  {
    var t := Aged(s);
    assert forall i | 0 <= i < |s| :: t[i].element == s[i].element;
    forall i, j | 0 <= i < j < |t| && t[i].element == t[j].element ensures t[i].element == DEFAULT {
      assert s[i].element == s[j].element;
    }
  }

  lemma CollectKeepsSound(h: Hashing, s: seq<Slot>, inserted: set<Element>, loc: nat)
    requires Sound(h, s, inserted) && loc < |s|
    ensures Sound(h, s[loc := s[loc].(garbage := true)], inserted)
  {
    var t := s[loc := s[loc].(garbage := true)];
    assert forall i | 0 <= i < |s| :: t[i].element == s[i].element;
    forall i, j | 0 <= i < j < |t| && t[i].element == t[j].element ensures t[i].element == DEFAULT {
      assert s[i].element == s[j].element;
    }
  }

  lemma MoreKnown(h: Hashing, s: seq<Slot>, inserted: set<Element>, e: Element)
    requires Sound(h, s, inserted)
    ensures Sound(h, s, inserted + {e})
  {
  }

  // ---------------------------------------------------------------------------------------
  // The cache

  /** What became of an insertion: the element was there, found room, or some element had to go. */
  datatype Outcome = Refreshed(was: Slot) | Stored | Dropped(element: Element, recent: bool)

  /**
   * The live elements of each epoch after an insertion: the new one is current, at most one is lost, and no other
   * element changes its epoch.
   */
  ghost predicate Accounted(outcome: Outcome, before: seq<Slot>, after: seq<Slot>, e: Element) {
    && (outcome.Refreshed? ==> outcome.was.element == e)
    && Epoch(after, true) + Lost(outcome, true) == Epoch(before, true) + multiset{e}
    && Epoch(after, false) + Lost(outcome, false) == Epoch(before, false)
  }

  /** What an insertion takes from an epoch. */
  function Lost(outcome: Outcome, recent: bool): multiset<Element> {
    match outcome
    case Refreshed(was) => EpochAt(was, recent)
    case Stored => multiset{}
    case Dropped(x, epoch) => One(x, epoch == recent)
  }

  /**
   * The elements inserted since the current epoch began account for its live elements, and no live element of the
   * epoch before is among them.
   */
  ghost predicate Ordered(s: seq<Slot>, current: seq<Element>) {
    && Count(s, true) <= |current|
    && forall i | 0 <= i < |s| && !s[i].garbage ::
         if s[i].recent then s[i].element in current else s[i].element == DEFAULT || s[i].element !in current
  }

  /** The slots and the element in hand, with its epoch. */
  datatype Hand = Hand(slots: seq<Slot>, element: Element, recent: bool)

  ghost predicate InTable(path: seq<nat>, size: nat) {
    forall i | 0 <= i < |path| :: path[i] < size
  }

  /** The element in hand takes each slot on the path from the one it finds there. */
  ghost function Pushed(s: seq<Slot>, e: Element, path: seq<nat>): (r: Hand)
    requires InTable(path, |s|)
    ensures |r.slots| == |s|
  {
    if path == [] then Hand(s, e, true)
    else
      var h, loc := Pushed(s, e, path[..|path| - 1]), path[|path| - 1];
      Hand(h.slots[loc := Slot(h.element, false, h.recent)], h.slots[loc].element, h.slots[loc].recent)
  }

  /** The location after the last one used, cyclically; the second one when that is not among them. */
  ghost predicate Follows(locs: seq<nat>, last: nat, loc: nat)
    requires |locs| == 8
  {
    && loc in locs
    && (last !in locs ==> loc == locs[1])
    && (last in locs ==> exists k | 0 <= k < 8 :: locs[k] == last && last !in locs[..k] && loc == locs[(k + 1) % 8])
  }

  ghost predicate AllTaken(h: Hashing, s: seq<Slot>, e: Element)
    requires h.size > 0 && |s| == h.size
  {
    forall k | 0 <= k < 8 :: !s[h.Locs(e)[k]].garbage
  }

  /** An element is pushed on only where none of the eight locations of the one in hand can be reused. */
  ghost predicate Crowded(h: Hashing, s: seq<Slot>, e: Element, path: seq<nat>)
    requires h.size > 0 && |s| == h.size && InTable(path, |s|)
  {
    path == [] ||
    (var n := |path| - 1;
     var hand := Pushed(s, e, path[..n]);
     && Crowded(h, s, e, path[..n]) && AllTaken(h, hand.slots, hand.element)
     && Follows(h.Locs(hand.element), if n == 0 then INVALID else path[n - 1], path[n]))
  }

  /**
   * An insertion along a path: the element in hand at its end goes into the first of its locations that can be
   * reused, or is dropped when the path is as long as it may be.
   */
  ghost predicate Displaces(h: Hashing, limit: nat, before: seq<Slot>, after: seq<Slot>, e: Element, outcome: Outcome,
                            path: seq<nat>) {
    && h.size > 0 && |before| == h.size && InTable(path, |before|)
    && Crowded(h, before, e, path)
    && var hand := Pushed(before, e, path);
       match outcome
       case Refreshed(_) => false
       case Stored =>
         && |path| < limit && !AllTaken(h, hand.slots, hand.element)
         && exists k | 0 <= k < 8 ::
              var locs := h.Locs(hand.element);
              && hand.slots[locs[k]].garbage && (forall j | 0 <= j < k :: !hand.slots[locs[j]].garbage)
              && after == hand.slots[locs[k] := Slot(hand.element, false, hand.recent)]
       case Dropped(x, epoch) => |path| == limit && after == hand.slots && x == hand.element && epoch == hand.recent
  }

  /** What an insertion and the check before it depend on and change. */
  datatype State = State(slots: seq<Slot>, counter: nat, current: seq<Element>)

  /** One insertion, with the check before it. */
  ghost predicate Inserts(a: State, b: State, e: Element, outcome: Outcome, epochSize: nat) {
    var (checked, counter) := Checked(a.slots, a.counter, epochSize);
    && b.counter == counter
    && b.current == (if a.counter == 0 && Count(a.slots, true) >= epochSize then [e] else a.current + [e])
    && Ordered(b.slots, b.current)
    && Accounted(outcome, checked, b.slots, e)
  }

  class Cache {
    const hashing: Hashing
    const table: array<Element>
    const collectionFlags: BitPackedFlags
    const epochFlags: array<bool>
    const epochSize: nat
    const depthLimit: nat
    var epochHeuristicCounter: nat

    // Every element ever passed to Insert, and those since the current epoch began, in order.
    ghost var inserted: set<Element>
    ghost var current: seq<Element>

    ghost predicate Shaped() {
      && 2 <= hashing.size < UINT32 && table.Length == hashing.size && epochFlags.Length == hashing.size
      && collectionFlags.count == hashing.size && collectionFlags.Valid()
      && epochSize >= 1 && depthLimit >= 1
    }

    ghost function SlotAt(i: int): Slot
      requires Shaped() && 0 <= i < hashing.size
      reads table, collectionFlags.mem, epochFlags
    {
      Slot(table[i], collectionFlags.BitIsSet(i), epochFlags[i])
    }

    ghost function Slots(): (s: seq<Slot>)
      requires Shaped()
      reads table, collectionFlags.mem, epochFlags
      ensures |s| == hashing.size && forall i | 0 <= i < |s| :: s[i] == SlotAt(i)
    {
      seq(hashing.size, i requires 0 <= i < hashing.size reads table, collectionFlags.mem, epochFlags => SlotAt(i))
    }

    ghost function Value(): State
      requires Shaped()
      reads this, table, collectionFlags.mem, epochFlags
    {
      State(Slots(), epochHeuristicCounter, current)
    }

    /** Holds between operations, in every run. */
    ghost predicate Valid()
      reads this, table, collectionFlags.mem, epochFlags
    {
      && Shaped()
      && Sound(hashing, Slots(), inserted)
      && Bounded(Slots(), epochHeuristicCounter, epochSize)
      && Ordered(Slots(), current)
    }

    constructor (newSize: nat, depthLimit: nat, hash: (nat, Element) -> nat)
      requires newSize < UINT32 && 1 <= depthLimit
      ensures hashing.size == Max(2, newSize) && epochSize == EpochSize(hashing.size)
      ensures inserted == {} && current == []
      ensures Valid() <==> newSize < UINT32 - 7
      ensures Valid() ==> Live(Slots()) == multiset{} && forall i | 0 <= i < hashing.size :: !Slots()[i].recent
      ensures this.depthLimit == depthLimit && epochHeuristicCounter == epochSize
      ensures fresh(table) && fresh(epochFlags) && fresh(collectionFlags.mem)
    {
      var size := Max(2, newSize);
      hashing := Hashing(size, hash);
      this.depthLimit := depthLimit;
      table := new Element[size](_ => DEFAULT);
      collectionFlags := new BitPackedFlags(size);
      epochFlags := new bool[size](_ => false);
      epochSize := EpochSize(size);
      epochHeuristicCounter := EpochSize(size);
      inserted, current := {}, [];
      new;
      if Shaped() {
        hide Sound, Bounded, Ordered, Epoch;
        NewIsFine(hashing, Slots(), epochSize);
      }
    }

    method AllowErase(n: nat)
      requires Shaped() && n < hashing.size
      modifies collectionFlags.mem
      ensures Slots() == old(Slots())[n := old(Slots())[n].(garbage := true)]
    {
      collectionFlags.BitSet(n);
    }

    /** The cheap counter first; when it runs out, a scan that may start a new epoch. */
    method EpochCheck()
      requires Shaped()
      modifies this`epochHeuristicCounter, collectionFlags.mem, epochFlags
      ensures (Slots(), epochHeuristicCounter) == Checked(old(Slots()), old(epochHeuristicCounter), epochSize)
    {
      if epochHeuristicCounter != 0 {
        epochHeuristicCounter := epochHeuristicCounter - 1;
        return;
      }
      var unused := CountUnused();
      if unused >= epochSize {
        Age();
        epochHeuristicCounter := epochSize;
      } else {
        epochHeuristicCounter := Max(1, Max(epochSize / 16, epochSize - unused));
      }
    }

    method CountUnused() returns (unused: nat)
      requires Shaped()
      ensures unused == Count(Slots(), true)
    {
      hide Epoch, Count, BitPackedFlags.BitIsSet;
      unused := 0;
      var i := 0;
      CountNone(true);
      while i < hashing.size
        invariant 0 <= i <= hashing.size && unused == Count(Slots()[..i], true)
      {
        CountMore(Slots(), i, true);
        unused := unused + if epochFlags[i] && !collectionFlags.BitIsSet(i) then 1 else 0;
        i := i + 1;
      }
      assert Slots()[..i] == Slots();
    }

    method Age()
      requires Shaped()
      modifies collectionFlags.mem, epochFlags
      ensures Slots() == Aged(old(Slots()))
    {
      var i := 0;
      while i < hashing.size
        invariant 0 <= i <= hashing.size
        invariant forall j | 0 <= j < hashing.size ::
                    SlotAt(j) == if j < i then AgedSlot(old(SlotAt(j))) else old(SlotAt(j))
      {
        if epochFlags[i] {
          epochFlags[i] := false;
        } else {
          collectionFlags.BitSet(i);
        }
        i := i + 1;
      }
    }

    /** The first of these locations that holds the element, or their number. */
    method IndexOfElement(locs: seq<nat>, e: Element) returns (k: nat)
      requires Shaped() && |locs| == 8 && forall j | 0 <= j < 8 :: locs[j] < hashing.size
      ensures k <= 8 && (k < 8 ==> Slots()[locs[k]].element == e)
      ensures forall j | 0 <= j < k :: Slots()[locs[j]].element != e
    {
      k := 0;
      while k < 8 && table[locs[k]] != e
        invariant k <= 8 && forall j | 0 <= j < k :: Slots()[locs[j]].element != e
      {
        k := k + 1;
      }
    }

    method IndexOfGarbage(locs: seq<nat>) returns (k: nat)
      requires Shaped() && |locs| == 8 && forall j | 0 <= j < 8 :: locs[j] < hashing.size
      ensures k <= 8 && (k < 8 ==> Slots()[locs[k]].garbage)
      ensures forall j | 0 <= j < k :: !Slots()[locs[j]].garbage
    {
      k := 0;
      while k < 8 && !collectionFlags.BitIsSet(locs[k])
        invariant k <= 8 && forall j | 0 <= j < k :: !Slots()[locs[j]].garbage
      {
        k := k + 1;
      }
    }

    /** Makes sure the element in a slot does not get deleted. */
    method Refresh(loc: nat)
      requires Shaped() && loc < hashing.size
      modifies collectionFlags.mem, epochFlags
      ensures Slots() == old(Slots())[loc := Slot(old(Slots())[loc].element, false, true)]
    {
      collectionFlags.BitUnset(loc);
      epochFlags[loc] := true;
    }

    /** Puts an element that is nowhere in the table into one of its locations. */
    method Store(loc: nat, e: Element, recent: bool)
      requires Shaped() && loc < hashing.size
      modifies table, collectionFlags.mem, epochFlags
      ensures Slots() == old(Slots())[loc := Slot(e, false, recent)]
    {
      table[loc] := e;
      collectionFlags.BitUnset(loc);
      epochFlags[loc] := recent;
    }

    /** Exchanges the element in hand, and its epoch, with those of a live slot. */
    method Swap(loc: nat, e: Element, recent: bool) returns (pushed: Element, pushedRecent: bool)
      requires Shaped() && loc < hashing.size && !Slots()[loc].garbage
      modifies table, epochFlags
      ensures Slots() == old(Slots())[loc := Slot(e, false, recent)]
      ensures pushed == old(Slots())[loc].element && pushedRecent == old(Slots())[loc].recent
    {
      pushed, pushedRecent := table[loc], epochFlags[loc];
      table[loc] := e;
      epochFlags[loc] := recent;
    }

    /**
     * Inserts an element. The live elements left by the epoch check are kept, each in its epoch, and the new one is
     * current, except that at most one element, the last one in hand, is dropped when the depth runs out.
     */
    method Insert(e: Element) returns (ghost outcome: Outcome, ghost path: seq<nat>)
      requires Valid()
      modifies this, table, collectionFlags.mem, epochFlags
      ensures Valid() && inserted == old(inserted) + {e}
      ensures Inserts(old(Value()), Value(), e, outcome, epochSize)
      ensures var checked := Checked(old(Slots()), old(epochHeuristicCounter), epochSize).0;
              && (outcome.Refreshed? <==> exists k | 0 <= k < 8 :: checked[hashing.Locs(e)[k]].element == e)
              && (!outcome.Refreshed? ==> Displaces(hashing, depthLimit, checked, Slots(), e, outcome, path))
      ensures !(outcome.Dropped? && outcome.element == e) ==> e in Epoch(Slots(), true)
    {
      hide Sound, Live, Count, Checked, Ordered, Epoch;
      CheckedIsBounded(Slots(), epochHeuristicCounter, epochSize);
      CheckedKeepsSound(hashing, Slots(), inserted, epochHeuristicCounter, epochSize);
      CheckedKeepsOrder(Slots(), current, epochHeuristicCounter, epochSize);
      current := if epochHeuristicCounter == 0 && Count(Slots(), true) >= epochSize then [] else current;
      EpochCheck();
      MoreKnown(hashing, Slots(), inserted, e);
      inserted, current := inserted + {e}, current + [e];
      outcome, path := Place(e);
    }

    /** Makes sure the element is not there already before finding a place for it. */
    method Place(e: Element) returns (ghost outcome: Outcome, ghost path: seq<nat>)
      requires Shaped() && Sound(hashing, Slots(), inserted) && e in inserted
      requires Count(Slots(), true) + 1 + epochHeuristicCounter <= EpochBound(epochSize)
      requires Count(Slots(), false) <= EpochBound(epochSize)
      requires current != [] && current[|current| - 1] == e && Ordered(Slots(), current[..|current| - 1])
      modifies table, collectionFlags.mem, epochFlags
      ensures Sound(hashing, Slots(), inserted) && Bounded(Slots(), epochHeuristicCounter, epochSize)
      ensures Ordered(Slots(), current)
      ensures Accounted(outcome, old(Slots()), Slots(), e)
      ensures outcome.Refreshed? <==> exists k | 0 <= k < 8 :: old(Slots())[hashing.Locs(e)[k]].element == e
      ensures !outcome.Refreshed? ==> Displaces(hashing, depthLimit, old(Slots()), Slots(), e, outcome, path)
      ensures !(outcome.Dropped? && outcome.element == e) ==> e in Epoch(Slots(), true)
    {
      hide Epoch, Count, Absent, Sound, Accounted, Bounded, Ordered, Displaces, Hashing.Locs;
      path := [];
      var locs := hashing.Locs(e);
      var k := IndexOfElement(locs, e);
      if k < 8 {
        RefreshKeepsSound(hashing, Slots(), inserted, locs[k], e, true);
        Refreshing(Slots(), locs[k], e, epochHeuristicCounter, epochSize);
        RefreshKeepsOrder(hashing, Slots(), inserted, current, locs[k], e);
        outcome := Refreshed(Slots()[locs[k]]);
        Refresh(locs[k]);
      } else {
        NotAtHome(hashing, Slots(), inserted, e);
        outcome, path := Displace(e);
        OrderedAfter(old(Slots()), Slots(), current, outcome, e);
      }
    }

    /** The displacement chain. */
    method Displace(e: Element) returns (ghost outcome: Outcome, ghost path: seq<nat>)
      requires Shaped() && Sound(hashing, Slots(), inserted) && Absent(Slots(), e) && e in inserted
      requires Count(Slots(), true) + 1 + epochHeuristicCounter <= EpochBound(epochSize)
      requires Count(Slots(), false) <= EpochBound(epochSize)
      modifies table, collectionFlags.mem, epochFlags
      ensures Sound(hashing, Slots(), inserted) && Bounded(Slots(), epochHeuristicCounter, epochSize)
      ensures !outcome.Refreshed? && Accounted(outcome, old(Slots()), Slots(), e)
      ensures Displaces(hashing, depthLimit, old(Slots()), Slots(), e, outcome, path)
      ensures !(outcome.Dropped? && outcome.element == e) ==> e in Epoch(Slots(), true)
    {
      hide Sound, Epoch, Count, Absent, Chain, Accounted, Bounded, Follows, Hashing.Locs;
      var hand, lastEpoch, lastLoc, depth := e, true, INVALID, 0;
      path := [];
      ChainStarts(Slots(), e);
      while depth < depthLimit
        invariant depth == |path| <= depthLimit && InTable(path, hashing.size)
        invariant lastLoc == if path == [] then INVALID else path[|path| - 1]
        invariant Crowded(hashing, old(Slots()), e, path)
        invariant Pushed(old(Slots()), e, path) == Hand(Slots(), hand, lastEpoch)
        invariant Sound(hashing, Slots(), inserted) && Absent(Slots(), hand) && hand in inserted
        invariant depth > 0 ==> lastLoc in hashing.Locs(hand)
        invariant Chain(Slots(), hand, lastEpoch, old(Slots()), e)
      {
        var locs := hashing.Locs(hand);
        var k := IndexOfGarbage(locs);
        if k < 8 {
          PutKeepsSound(hashing, Slots(), inserted, locs[k], hand, lastEpoch);
          ChainEnds(Slots(), locs[k], hand, lastEpoch, old(Slots()), e, epochHeuristicCounter, epochSize);
          Store(locs[k], hand, lastEpoch);
          outcome := Stored;
          return;
        }
        lastLoc := NextLoc(locs, lastLoc);
        PutKeepsSound(hashing, Slots(), inserted, lastLoc, hand, lastEpoch);
        KnownElement(hashing, Slots(), inserted, lastLoc);
        ChainGrows(Slots(), lastLoc, hand, lastEpoch, old(Slots()), e);
        PushedMore(hashing, old(Slots()), e, path, lastLoc);
        path := path + [lastLoc];
        hand, lastEpoch := Swap(lastLoc, hand, lastEpoch);
        depth := depth + 1;
      }
      outcome := Dropped(hand, lastEpoch);
      ChainBreaks(Slots(), hand, lastEpoch, old(Slots()), e, epochHeuristicCounter, epochSize);
    }

    method NextLoc(locs: seq<nat>, lastLoc: nat) returns (loc: nat)
      requires |locs| == 8
      ensures Follows(locs, lastLoc, loc) && loc in locs
    {
      var k := 0;
      while k < 8 && locs[k] != lastLoc
        invariant k <= 8 && lastLoc !in locs[..k]
      {
        k := k + 1;
      }
      loc := locs[(1 + k) % 8];
    }

    /** Looks an element up, whatever its garbage flag says, and may mark it as collectable. */
    method Contains(e: Element, erase: bool) returns (found: bool)
      requires Valid()
      modifies collectionFlags.mem
      ensures Valid()
      ensures found <==> exists k | 0 <= k < 8 :: table[hashing.Locs(e)[k]] == e
      ensures e != DEFAULT ==> (found <==> e in table[..])
      ensures found ==> e in inserted || e == DEFAULT
      ensures !(found && erase) ==> Slots() == old(Slots())
      ensures found && erase ==> exists loc | 0 <= loc < hashing.size ::
                old(Slots())[loc].element == e && Slots() == old(Slots())[loc := old(Slots())[loc].(garbage := true)]
    {
      hide Sound, Ordered, Bounded;
      var locs := hashing.Locs(e);
      var k := IndexOfElement(locs, e);
      if k < 8 {
        KnownElsewhere(hashing, Slots(), inserted, locs[k]);
        assert table[hashing.Locs(e)[k]] == e;
        if erase {
          CollectKeepsSound(hashing, Slots(), inserted, locs[k]);
          CollectKeepsOrder(Slots(), current, locs[k], epochHeuristicCounter, epochSize);
          AllowErase(locs[k]);
        }
        return true;
      }
      NotAtHome(hashing, Slots(), inserted, e);
      assert forall i | 0 <= i < hashing.size :: Slots()[i].element == table[i];
      return false;
    }
  }

  lemma {:induction false} AllGarbage(s: seq<Slot>)
    requires forall i | 0 <= i < |s| :: s[i].garbage
    ensures Epoch(s, true) == Epoch(s, false) == multiset{}
  {
    if s != [] {
      AllGarbage(s[1..]);
    }
  }

  /** A table never used is sound, with nothing live. */
  lemma NewIsFine(h: Hashing, s: seq<Slot>, epochSize: nat)
    requires h.size > 0 && |s| == h.size && forall i | 0 <= i < |s| :: s[i].garbage && s[i].element == DEFAULT
    ensures Sound(h, s, {}) && Bounded(s, epochSize, epochSize) && Ordered(s, []) && Live(s) == multiset{}
  {
    AllGarbage(s);
  }

  lemma {:induction false} EpochGrow(s: seq<Slot>, x: Slot, recent: bool)
    ensures Epoch(s + [x], recent) == Epoch(s, recent) + EpochAt(x, recent)
  {
    if s == [] {
      assert s + [x] == [x];
    } else {
      assert (s + [x])[1..] == s[1..] + [x];
      EpochGrow(s[1..], x, recent);
    }
  }

  lemma CountNone(recent: bool)
    ensures Count([], recent) == 0
  {
  }

  lemma CountMore(s: seq<Slot>, i: nat, recent: bool)
    requires i < |s|
    ensures Count(s[..i + 1], recent) == Count(s[..i], recent) + if !s[i].garbage && s[i].recent == recent then 1 else 0
  {
    hide Epoch;
    EpochGrow(s[..i], s[i], recent);
    assert s[..i + 1] == s[..i] + [s[i]];
  }

  /** Along the displacement chain nothing is lost but what is in hand, and the hand carries its epoch. */
  ghost predicate Chain(s: seq<Slot>, hand: Element, recent: bool, start: seq<Slot>, e: Element) {
    && Epoch(s, true) + One(hand, recent) == Epoch(start, true) + multiset{e}
    && Epoch(s, false) + One(hand, !recent) == Epoch(start, false)
  }

  lemma ChainStarts(s: seq<Slot>, e: Element)
    ensures Chain(s, e, true, s, e)
  {
  }

  lemma PushedMore(h: Hashing, s: seq<Slot>, e: Element, path: seq<nat>, loc: nat)
    requires h.size > 0 && |s| == h.size && InTable(path, |s|) && loc < |s|
    requires Crowded(h, s, e, path)
    requires var hand := Pushed(s, e, path);
             && AllTaken(h, hand.slots, hand.element)
             && Follows(h.Locs(hand.element), if path == [] then INVALID else path[|path| - 1], loc)
    ensures InTable(path + [loc], |s|) && Crowded(h, s, e, path + [loc])
    ensures var hand := Pushed(s, e, path);
            Pushed(s, e, path + [loc]) ==
            Hand(hand.slots[loc := Slot(hand.element, false, hand.recent)], hand.slots[loc].element,
                 hand.slots[loc].recent)
  {
    hide AllTaken, Follows;
    assert (path + [loc])[..|path|] == path;
  }

  lemma ChainGrows(s: seq<Slot>, loc: nat, hand: Element, recent: bool, start: seq<Slot>, e: Element)
    requires Chain(s, hand, recent, start, e) && loc < |s| && !s[loc].garbage
    ensures Chain(s[loc := Slot(hand, false, recent)], s[loc].element, s[loc].recent, start, e)
  {
    hide Epoch;
    var x := Slot(hand, false, recent);
    EpochUpdate(s, loc, x, true);
    EpochUpdate(s, loc, x, false);
  }

  lemma ChainEnds(s: seq<Slot>, loc: nat, hand: Element, recent: bool, start: seq<Slot>, e: Element, counter: nat,
                  epochSize: nat)
    requires Chain(s, hand, recent, start, e) && loc < |s| && s[loc].garbage
    requires Count(start, true) + 1 + counter <= EpochBound(epochSize) && Count(start, false) <= EpochBound(epochSize)
    ensures var t := s[loc := Slot(hand, false, recent)];
            Accounted(Stored, start, t, e) && e in Epoch(t, true) && Bounded(t, counter, epochSize)
  {
    hide Epoch;
    var x := Slot(hand, false, recent);
    EpochUpdate(s, loc, x, true);
    EpochUpdate(s, loc, x, false);
    assert (Epoch(start, true) + multiset{e})[e] > 0;
    AccountedCounts(Stored, start, s[loc := x], e);
  }

  lemma ChainBreaks(s: seq<Slot>, hand: Element, recent: bool, start: seq<Slot>, e: Element, counter: nat,
                    epochSize: nat)
    requires Chain(s, hand, recent, start, e)
    requires Count(start, true) + 1 + counter <= EpochBound(epochSize) && Count(start, false) <= EpochBound(epochSize)
    ensures Bounded(s, counter, epochSize) && Accounted(Dropped(hand, recent), start, s, e)
    ensures hand != e ==> e in Epoch(s, true)
  {
    hide Epoch;
    assert (Epoch(start, true) + multiset{e})[e] > 0;
    AccountedCounts(Dropped(hand, recent), start, s, e);
  }

  lemma Refreshing(s: seq<Slot>, loc: nat, e: Element, counter: nat, epochSize: nat)
    requires loc < |s| && s[loc].element == e
    requires Count(s, true) + 1 + counter <= EpochBound(epochSize) && Count(s, false) <= EpochBound(epochSize)
    ensures var t := s[loc := Slot(e, false, true)];
            Accounted(Refreshed(s[loc]), s, t, e) && e in Epoch(t, true) && Bounded(t, counter, epochSize)
  {
    hide Epoch;
    var x := Slot(e, false, true);
    EpochUpdate(s, loc, x, true);
    EpochUpdate(s, loc, x, false);
    EpochHolders(s[loc := x], e, true);
    assert Holds(s[loc := x], loc, e, true);
    AccountedCounts(Refreshed(s[loc]), s, s[loc := x], e);
  }

  /** An insertion adds at most one current element, and no old one. */
  lemma AccountedCounts(outcome: Outcome, before: seq<Slot>, after: seq<Slot>, e: Element)
    requires Accounted(outcome, before, after, e)
    ensures Count(after, true) <= Count(before, true) + 1 && Count(after, false) <= Count(before, false)
  {
    hide Epoch, Lost;
    assert |Epoch(after, true) + Lost(outcome, true)| == |Epoch(before, true) + multiset{e}|;
    assert |Epoch(after, false) + Lost(outcome, false)| == |Epoch(before, false)|;
  }

  // ---------------------------------------------------------------------------------------
  // The order of the epochs

  lemma CheckedKeepsOrder(s: seq<Slot>, current: seq<Element>, counter: nat, epochSize: nat)
    requires Ordered(s, current)
    ensures Ordered(Checked(s, counter, epochSize).0,
                    if counter == 0 && Count(s, true) >= epochSize then [] else current)
  {
    AgedEpochs(s);
  }

  lemma RefreshKeepsOrder(h: Hashing, s: seq<Slot>, inserted: set<Element>, current: seq<Element>, loc: nat, e: Element)
    requires Sound(h, s, inserted) && loc < |s| && s[loc].element == e
    requires current != [] && current[|current| - 1] == e && Ordered(s, current[..|current| - 1])
    ensures Ordered(s[loc := Slot(e, false, true)], current)
  {
    hide Epoch;
    var before, t := current[..|current| - 1], s[loc := Slot(e, false, true)];
    assert current == before + [e];
    assert Count(t, true) <= Count(s, true) + 1 by {
      EpochUpdate(s, loc, t[loc], true);
      assert |Epoch(t, true) + EpochAt(s[loc], true)| == |Epoch(s, true) + EpochAt(t[loc], true)|;
    }
    forall i | 0 <= i < |t| && !t[i].garbage && !t[i].recent
      ensures t[i].element == DEFAULT || t[i].element !in current
    {
      assert s[i].element == s[loc].element ==> s[i].element == DEFAULT;
    }
  }

  lemma OrderedAfter(s: seq<Slot>, t: seq<Slot>, current: seq<Element>, outcome: Outcome, e: Element)
    requires current != [] && current[|current| - 1] == e && Ordered(s, current[..|current| - 1])
    requires Absent(s, e) && !outcome.Refreshed? && Accounted(outcome, s, t, e)
    ensures Ordered(t, current)
  {
    hide Epoch;
    var before := current[..|current| - 1];
    assert current == before + [e];
    AccountedCounts(outcome, s, t, e);
    assert Epoch(t, true) <= Epoch(s, true) + multiset{e} && Epoch(t, false) <= Epoch(s, false);
    forall i | 0 <= i < |t| && !t[i].garbage
      ensures if t[i].recent then t[i].element in current else t[i].element == DEFAULT || t[i].element !in current
    {
      var x := t[i].element;
      EpochHolders(t, x, t[i].recent);
      assert Holds(t, i, x, t[i].recent);
      EpochHolders(s, x, t[i].recent);
      if x in Epoch(s, t[i].recent) {
        var k :| Holds(s, k, x, t[i].recent);
      }
    }
  }

  /** No element is lost from an epoch but the one dropped; one inserted again is current. */
  lemma AccountedKeeps(outcome: Outcome, before: seq<Slot>, after: seq<Slot>, e: Element, x: Element, recent: bool)
    requires Accounted(outcome, before, after, e) && !(outcome.Dropped? && outcome.element == x)
    requires x in Epoch(before, recent)
    ensures x in Epoch(after, recent) || x in Epoch(after, true)
  {
    hide Epoch;
    assert (Epoch(after, true) + Lost(outcome, true))[x] == (Epoch(before, true) + multiset{e})[x];
    assert (Epoch(after, false) + Lost(outcome, false))[x] == Epoch(before, false)[x];
  }

  /**
   * A current element outlasts as many insertions as an epoch has elements, whatever is inserted, unless a
   * displacement drops it: the check takes no element before that.
   */
  lemma {:induction false} Outlasts(run: seq<State>, es: seq<Element>, outcomes: seq<Outcome>, epochSize: nat,
                                    x: Element)
    requires |run| == |es| + 1 && |outcomes| == |es| <= epochSize
    requires forall i | 0 <= i < |es| :: Inserts(run[i], run[i + 1], es[i], outcomes[i], epochSize)
    requires x in Epoch(run[0].slots, true)
    requires forall i | 0 <= i < |es| :: !(outcomes[i].Dropped? && outcomes[i].element == x)
    ensures x in Live(run[|es|].slots)
    ensures x in Epoch(run[|es|].slots, true) ||
            (|run[|es|].current| <= |es| && Ordered(run[|es|].slots, run[|es|].current))
    decreases |es|
  {
    hide Epoch, Checked, Ordered, Accounted;
    if es != [] {
      var n := |es| - 1;
      Outlasts(run[..n + 1], es[..n], outcomes[..n], epochSize, x);
      var a, b := run[n], run[n + 1];
      assert Inserts(a, b, es[n], outcomes[n], epochSize);
      var checked := Checked(a.slots, a.counter, epochSize).0;
      CheckedExactly(a.slots, a.counter, epochSize);
      if x !in Epoch(a.slots, true) {
        OrderedCounts(a.slots, a.current);
      }
      AccountedKeeps(outcomes[n], checked, b.slots, es[n], x, x in Epoch(checked, true));
    }
  }

  lemma OrderedCounts(s: seq<Slot>, current: seq<Element>)
    requires Ordered(s, current)
    ensures |Epoch(s, true)| <= |current|
  {
  }

  lemma CollectKeepsOrder(s: seq<Slot>, current: seq<Element>, loc: nat, counter: nat, epochSize: nat)
    requires Ordered(s, current) && Bounded(s, counter, epochSize) && loc < |s|
    ensures var t := s[loc := s[loc].(garbage := true)]; Ordered(t, current) && Bounded(t, counter, epochSize)
  {
    hide Epoch;
    var x := s[loc].(garbage := true);
    EpochUpdate(s, loc, x, true);
    EpochUpdate(s, loc, x, false);
    assert forall recent ::
        |Epoch(s[loc := x], recent) + EpochAt(s[loc], recent)| == |Epoch(s, recent) + EpochAt(x, recent)|;
  }

  lemma KnownElsewhere(h: Hashing, s: seq<Slot>, inserted: set<Element>, loc: nat)
    requires Sound(h, s, inserted) && loc < |s|
    ensures s[loc].element in inserted || s[loc].element == DEFAULT
  {
  }

  lemma KnownElement(h: Hashing, s: seq<Slot>, inserted: set<Element>, loc: nat)
    requires Sound(h, s, inserted) && loc < |s| && !s[loc].garbage
    ensures s[loc].element in inserted
  {
  }
}
