/**
 Writing the address manager to disk and reading it back. Ids, the random order and both
 indexes are not stored; they are rebuilt, and the tables must come back unchanged.
 */
module AddrManCodec {
  import opened Wrappers
  import opened AddrManState
  import opened AddrManOps
  import opened AddrManRuns
  import opened AddrMan

  const INCOMPATIBILITY_BASE := 32
  const V1_DETERMINISTIC := 1
  const V2_ASMAP := 2
  const FILE_FORMAT := 4

  /** The stored part of an entry. */
  datatype Record = Record(addr: Service, time: int, services: set<nat>, source: Host, lastSuccess: int, attempts: int)

  /** The stored items, in the order in which they are written. */
  datatype Stream = Stream(
    format: nat,
    compat: nat,
    key: nat,
    nNew: int,
    nTried: int,
    nBuckets: int,
    newRecords: seq<Record>,
    triedRecords: seq<Record>,
    buckets: seq<seq<int>>,
    asmap: nat)

  function ToRecord(x: Info): Record {
    Record(x.addr, x.time, x.services, x.source, x.lastSuccess, x.attempts)
  }

  function FromRecord(r: Record): Info {
    Info(r.addr, r.time, r.services, r.source, 0, 0, r.lastSuccess, r.attempts, 0, false, -1)
  }

  /** Exclusive or with 2^30. */
  function FlipBit30(x: int): int {
    if (x / 0x4000_0000) % 2 == 0 then x + 0x4000_0000 else x - 0x4000_0000
  }

  lemma FlipBit30Twice(x: int)
    ensures FlipBit30(FlipBit30(x)) == x
  {
    assert (x + 0x4000_0000) / 0x4000_0000 == x / 0x4000_0000 + 1;
    assert (x - 0x4000_0000) / 0x4000_0000 == x / 0x4000_0000 - 1;
  }

  // ---------------------------------------------------------------------------------------
  // What a stored state looks like

  /** Lists the members of a set, each once. */
  ghost predicate Enumerates(ids: seq<int>, members: set<int>) {
    && (forall id :: id in ids <==> id in members)
    && (forall i, j | 0 <= i < j < |ids| :: ids[i] != ids[j])
  }

  ghost predicate RecordsOf(s: State, ids: seq<int>, records: seq<Record>) {
    && |records| == |ids|
    && forall i | 0 <= i < |ids| :: ids[i] in s.info && records[i] == ToRecord(s.info[ids[i]])
  }

  /** The slot of a bucket in which the entry stored under an index belongs. */
  ghost function SlotIn(s: State, id: int, b: int): Slot
    requires id in s.info
  {
    (b, s.env.Position(s.key, s.info[id].addr, true, b))
  }

  /** The ids that a list of indexes stands for. */
  ghost function Named(newIds: seq<int>, indexes: seq<int>): seq<int>
    requires forall k | 0 <= k < |indexes| :: 0 <= indexes[k] < |newIds|
  {
    seq(|indexes|, k requires 0 <= k < |indexes| => newIds[indexes[k]])
  }

  /** The ids are those in the slots of bucket `b` below position `upTo`, each listed once. */
  ghost predicate BucketHolds(s: State, b: int, ids: seq<int>, upTo: int) {
    && (forall k | 0 <= k < |ids| ::
          && ids[k] in s.info && SlotIn(s, ids[k], b) in s.new_ && SlotIn(s, ids[k], b).1 < upTo
          && s.new_[SlotIn(s, ids[k], b)] == ids[k])
    && (forall j, k | 0 <= j < k < |ids| :: ids[j] != ids[k])
    && (forall slot | slot in s.new_ && slot.0 == b && slot.1 < upTo :: s.new_[slot] in ids)
  }

  ghost predicate BucketListed(s: State, newIds: seq<int>, b: int, indexes: seq<int>, upTo: int) {
    && (forall k | 0 <= k < |indexes| :: 0 <= indexes[k] < |newIds|)
    && BucketHolds(s, b, Named(newIds, indexes), upTo)
  }

  ghost predicate Stored(st: Stream, s: State, newIds: seq<int>, triedIds: seq<int>, asmap: nat) {
    && st.format == FILE_FORMAT && st.compat == INCOMPATIBILITY_BASE + FILE_FORMAT
    && st.key == s.key && st.nNew == s.nNew && st.nTried == s.nTried
    && st.nBuckets == FlipBit30(NEW_BUCKET_COUNT) && st.asmap == asmap
    && Enumerates(newIds, NewIds(s.info)) && Enumerates(triedIds, TriedIds(s.info))
    && RecordsOf(s, newIds, st.newRecords) && RecordsOf(s, triedIds, st.triedRecords)
    && |newIds| == s.nNew && |triedIds| == s.nTried
    && |st.buckets| == NEW_BUCKET_COUNT
    && forall b | 0 <= b < NEW_BUCKET_COUNT :: BucketListed(s, newIds, b, st.buckets[b], BUCKET_SIZE)
  }

  // ---------------------------------------------------------------------------------------
  // Serialize

  /** The members of a set among the first `n` of an order, each once. */
  ghost predicate Filtered(order: seq<int>, n: int, chosen: set<int>, out: seq<int>) {
    && 0 <= n <= |order|
    && (forall id :: id in out <==> id in order[..n] && id in chosen)
    && (forall i, j | 0 <= i < j < |out| :: out[i] != out[j])
  }

  lemma FilteredStep(order: seq<int>, n: int, chosen: set<int>, out: seq<int>)
    requires Filtered(order, n, chosen, out) && n < |order|
    requires forall i, j | 0 <= i < j < |order| :: order[i] != order[j]
    ensures Filtered(order, n + 1, chosen, if order[n] in chosen then out + [order[n]] else out)
  {
    assert order[..n + 1] == order[..n] + [order[n]];
    assert order[n] !in order[..n];
  }

  lemma FilteredNone(order: seq<int>, chosen: set<int>)
    ensures Filtered(order, 0, chosen, [])
  {
  }

  lemma FilteredFresh(order: seq<int>, members: set<int>, n: int, chosen: set<int>, out: seq<int>)
    requires Enumerates(order, members) && Filtered(order, n, chosen, out) && n < |order|
    ensures order[n] in members && order[n] !in out
  {
    assert order[n] in order;
  }

  lemma FilteredAll(order: seq<int>, members: set<int>, chosen: set<int>, out: seq<int>)
    requires Enumerates(order, members) && Filtered(order, |order|, chosen, out) && chosen <= members
    ensures Enumerates(out, chosen) && |out| == |chosen|
  {
    assert order[..|order|] == order;
    Enumerated(out, |out|);
    var ids := set i | 0 <= i < |out| :: out[i];
    forall id ensures id in ids <==> id in chosen {
    }
    assert ids == chosen;
  }

  /** Fewer than all chosen ids have been met while one is still to come. */
  lemma FilteredRoom(order: seq<int>, members: set<int>, n: int, chosen: set<int>, out: seq<int>)
    requires Enumerates(order, members) && Filtered(order, n, chosen, out)
    requires n < |order| && order[n] in chosen
    ensures |out| < |chosen|
  {
    FilteredStep(order, n, chosen, out);
    var next := out + [order[n]];
    Enumerated(next, |next|);
    var ids := set i | 0 <= i < |next| :: next[i];
    forall id | id in ids ensures id in chosen {
    }
    SubsetSize(ids, chosen);
  }

  /** Stores the state; `order` is the order in which the entry map is walked. */
  method Serialize(m: AddrManager, order: seq<int>, asmap: nat)
    returns (st: Stream, ghost newIds: seq<int>, ghost triedIds: seq<int>)
    requires m.Shaped() && Consistent(m.Value())
    requires Enumerates(order, m.mapInfo.Keys)
    ensures Stored(st, m.Value(), newIds, triedIds, asmap)
    ensures st.key == m.nKey && st.nNew == |st.newRecords| && st.nTried == |st.triedRecords|
    ensures |st.buckets| == NEW_BUCKET_COUNT
  {
    hide IdsOk, AddrOk, RandomOk, NewOk, TriedOk, RefsOk, CountsOk, TimesOk, CollisionsOk, Contents;
    var index, newRecords;
    index, newRecords, newIds := WriteNew(m, order);
    var triedRecords;
    triedRecords, triedIds := WriteTried(m, order);
    var buckets := WriteBuckets(m, index, newIds);
    CountersAre(m.Value());
    st := Stream(FILE_FORMAT, INCOMPATIBILITY_BASE + FILE_FORMAT, m.nKey, m.nNew, m.nTried,
                 FlipBit30(NEW_BUCKET_COUNT), newRecords, triedRecords, buckets, asmap);
  }

  lemma CountersAre(s: State)
    requires Consistent(s)
    ensures s.nNew == |NewIds(s.info)| && s.nTried == |TriedIds(s.info)|
  {
  }

  lemma ReferencedIsNew(s: State, id: int)
    requires Consistent(s) && id in s.info
    ensures s.info[id].refCount != 0 <==> id in NewIds(s.info)
  {
  }

  /** Writes the new entries and remembers the index of each. */
  method WriteNew(m: AddrManager, order: seq<int>)
    returns (index: map<int, int>, records: seq<Record>, ghost newIds: seq<int>)
    requires Consistent(m.Value()) && Enumerates(order, m.mapInfo.Keys)
    ensures Enumerates(newIds, NewIds(m.mapInfo)) && |newIds| == |NewIds(m.mapInfo)|
    ensures RecordsOf(m.Value(), newIds, records) && |records| == |NewIds(m.mapInfo)|
    ensures |records| == m.nNew
    ensures forall i | 0 <= i < |newIds| :: newIds[i] in index && index[newIds[i]] == i
  {
    hide IdsOk, AddrOk, RandomOk, NewOk, TriedOk, RefsOk, CountsOk, TimesOk, CollisionsOk, Contents, NewIds, Filtered;
    ghost var chosen := NewIds(m.mapInfo);
    index, records, newIds := map[], [], [];
    FilteredNone(order, chosen);
    var nIds := 0;
    for k := 0 to |order|
      invariant Filtered(order, k, chosen, newIds)
      invariant nIds == |newIds| && RecordsOf(m.Value(), newIds, records)
      invariant forall i | 0 <= i < |newIds| :: newIds[i] in index && index[newIds[i]] == i
    {
      var id := order[k];
      FilteredFresh(order, m.mapInfo.Keys, k, chosen, newIds);
      index := index[id := nIds];
      ReferencedIsNew(m.Value(), id);
      FilteredStep(order, k, chosen, newIds);
      if m.mapInfo[id].refCount != 0 {
        FilteredRoom(order, m.mapInfo.Keys, k, chosen, newIds);
        CountersAre(m.Value());
        assert nIds != m.nNew;
        records := records + [ToRecord(m.mapInfo[id])];
        newIds := newIds + [id];
        nIds := nIds + 1;
      }
    }
    NewIdsAreKeys(m.mapInfo);
    FilteredAll(order, m.mapInfo.Keys, chosen, newIds);
    CountersAre(m.Value());
  }

  lemma NewIdsAreKeys(info: map<int, Info>)
    ensures NewIds(info) <= info.Keys && TriedIds(info) <= info.Keys
  {
  }

  lemma TriedIsTried(info: map<int, Info>, id: int)
    requires id in info
    ensures info[id].inTried <==> id in TriedIds(info)
  {
  }

  method WriteTried(m: AddrManager, order: seq<int>) returns (records: seq<Record>, ghost triedIds: seq<int>)
    requires Consistent(m.Value()) && Enumerates(order, m.mapInfo.Keys)
    ensures Enumerates(triedIds, TriedIds(m.mapInfo)) && |triedIds| == |TriedIds(m.mapInfo)|
    ensures RecordsOf(m.Value(), triedIds, records)
    ensures |records| == m.nTried
  {
    hide IdsOk, AddrOk, RandomOk, NewOk, TriedOk, RefsOk, CountsOk, TimesOk, CollisionsOk, Contents, TriedIds, Filtered;
    ghost var chosen := TriedIds(m.mapInfo);
    records, triedIds := [], [];
    FilteredNone(order, chosen);
    var nIds := 0;
    for k := 0 to |order|
      invariant Filtered(order, k, chosen, triedIds)
      invariant nIds == |triedIds| && RecordsOf(m.Value(), triedIds, records)
    {
      var id := order[k];
      FilteredFresh(order, m.mapInfo.Keys, k, chosen, triedIds);
      TriedIsTried(m.mapInfo, id);
      FilteredStep(order, k, chosen, triedIds);
      if m.mapInfo[id].inTried {
        FilteredRoom(order, m.mapInfo.Keys, k, chosen, triedIds);
        CountersAre(m.Value());
        assert nIds != m.nTried;
        records := records + [ToRecord(m.mapInfo[id])];
        triedIds := triedIds + [id];
        nIds := nIds + 1;
      }
    }
    NewIdsAreKeys(m.mapInfo);
    FilteredAll(order, m.mapInfo.Keys, chosen, triedIds);
    CountersAre(m.Value());
  }

  method WriteBuckets(m: AddrManager, index: map<int, int>, ghost newIds: seq<int>) returns (buckets: seq<seq<int>>)
    requires m.Shaped() && Consistent(m.Value())
    requires Enumerates(newIds, NewIds(m.mapInfo))
    requires forall i | 0 <= i < |newIds| :: newIds[i] in index && index[newIds[i]] == i
    ensures |buckets| == NEW_BUCKET_COUNT
    ensures forall b | 0 <= b < NEW_BUCKET_COUNT :: BucketListed(m.Value(), newIds, b, buckets[b], BUCKET_SIZE)
  {
    hide IdsOk, AddrOk, RandomOk, TriedOk, RefsOk, CountsOk, TimesOk, CollisionsOk, Contents, BucketListed;
    buckets := [];
    for b := 0 to NEW_BUCKET_COUNT
      invariant |buckets| == b
      invariant forall c | 0 <= c < b :: BucketListed(m.Value(), newIds, c, buckets[c], BUCKET_SIZE)
    {
      var indexes := [];
      BucketEmpty(m.vvNew, m.Value(), newIds, b);
      for i := 0 to BUCKET_SIZE
        invariant BucketListed(m.Value(), newIds, b, indexes, i)
      {
        ContentsAt(m.vvNew, b, i);
        ListedIndex(m.Value(), newIds, (b, i));
        BucketStep(m.Value(), newIds, b, indexes, i);
        if m.vvNew[b, i] != -1 {
          indexes := indexes + [index[m.vvNew[b, i]]];
        }
      }
      buckets := buckets + [indexes];
    }
  }

  lemma BucketEmpty(t: array2<int>, s: State, newIds: seq<int>, b: int)
    requires s.new_ == Contents(t)
    ensures BucketListed(s, newIds, b, [], 0)
  {
    forall slot | slot in s.new_ ensures slot.1 >= 0 {
      ContentsInRange(t, slot);
    }
  }

  /** Where the holder of a new slot stands in the list of new entries. */
  ghost function IndexAt(s: State, newIds: seq<int>, slot: Slot): (i: int)
    requires slot in s.new_ && s.new_[slot] in newIds
    ensures 0 <= i < |newIds| && newIds[i] == s.new_[slot]
  {
    var i :| 0 <= i < |newIds| && newIds[i] == s.new_[slot];
    i
  }

  lemma ListedIndex(s: State, newIds: seq<int>, slot: Slot)
    requires Consistent(s) && Enumerates(newIds, NewIds(s.info))
    ensures slot in s.new_ ==> s.new_[slot] in newIds && s.new_[slot] in s.info
                               && SlotIn(s, s.new_[slot], slot.0) == slot
  {
    if slot in s.new_ {
      var id := s.new_[slot];
      assert id in NewIds(s.info);
    }
  }

  lemma BucketStep(s: State, newIds: seq<int>, b: int, indexes: seq<int>, i: int)
    requires BucketListed(s, newIds, b, indexes, i)
    requires (b, i) in s.new_ ==>
               s.new_[(b, i)] in newIds && s.new_[(b, i)] in s.info && SlotIn(s, s.new_[(b, i)], b) == (b, i)
    ensures BucketListed(s, newIds, b,
                         if (b, i) in s.new_ then indexes + [IndexAt(s, newIds, (b, i))] else indexes, i + 1)
  {
    BucketHoldsStep(s, b, Named(newIds, indexes), i);
    if (b, i) in s.new_ {
      var next := indexes + [IndexAt(s, newIds, (b, i))];
      assert Named(newIds, next) == Named(newIds, indexes) + [s.new_[(b, i)]];
    }
  }

  lemma BucketHoldsStep(s: State, b: int, ids: seq<int>, i: int)
    requires BucketHolds(s, b, ids, i)
    requires (b, i) in s.new_ ==> s.new_[(b, i)] in s.info && SlotIn(s, s.new_[(b, i)], b) == (b, i)
    ensures BucketHolds(s, b, if (b, i) in s.new_ then ids + [s.new_[(b, i)]] else ids, i + 1)
  {
    forall slot | slot in s.new_ && slot.0 == b && slot.1 < i + 1 ensures slot == (b, i) || slot.1 < i {
      assert slot == (b, slot.1);
    }
    if (b, i) in s.new_ {
      var id := s.new_[(b, i)];
      assert forall k | 0 <= k < |ids| :: ids[k] != id;
      var next := ids + [id];
      assert forall k | 0 <= k < |next| :: next[k] == id || next[k] in ids;
    }
  }

  // ---------------------------------------------------------------------------------------
  // Unserialize, for any stream

  datatype Outcome = Restored | Failed(reason: string)

  /** Every indexed address leads to the entry of that address. */
  ghost predicate AddrBack(info: map<int, Info>, addr: map<Service, int>) {
    forall a | a in addr :: addr[a] in info && info[addr[a]].addr == a
  }

  /** What holds while a stream, good or bad, is being read. */
  ghost predicate Loading(s: State) {
    && IdsOk(s.info, s.idCount) && RandomOk(s.info, s.random) && AddrBack(s.info, s.addr)
    && s.collisions == {}
  }

  lemma CheckedTables(s: State)
    requires CheckOk(s) && forall slot | slot in s.new_ :: 0 <= slot.0 < NEW_BUCKET_COUNT
    ensures NewOk(s.env, s.key, s.info, s.new_) && TriedOk(s.env, s.key, s.info, s.tried)
  {
    forall slot | slot in s.new_
      ensures s.new_[slot] in s.info && !s.info[s.new_[slot]].inTried
              && slot.1 == s.env.Position(s.key, s.info[s.new_[slot]].addr, true, slot.0)
    {
      assert NewSlotChecks(s, slot);
    }
    forall id | id in s.info && s.info[id].inTried
      ensures s.env.TriedSlot(s.key, s.info[id].addr) in s.tried
      ensures s.tried[s.env.TriedSlot(s.key, s.info[id].addr)] == id
    {
      assert id in TriedIds(s.info);
      var slot := Element(Refs(s.tried, id));
      assert TriedSlotChecks(s, slot);
    }
    forall slot | slot in s.tried
      ensures s.tried[slot] in s.info && s.info[s.tried[slot]].inTried
              && slot == s.env.TriedSlot(s.key, s.info[s.tried[slot]].addr)
    {
      assert TriedSlotChecks(s, slot);
    }
  }

  lemma CheckedRefs(s: State)
    requires CheckOk(s) && NewOk(s.env, s.key, s.info, s.new_)
    ensures RefsOk(s.info, s.new_, {}) && TimesOk(s.info)
    ensures forall id | id in s.info :: s.info[id].addr in s.addr && s.addr[s.info[id].addr] == id
  {
    forall id | id in s.info
      ensures s.info[id].refCount == |Refs(s.new_, id)| <= NEW_BUCKETS_PER_ADDRESS
      ensures s.info[id].refCount == 0 <==> s.info[id].inTried
    {
      assert EntryChecks(s, id);
      if s.info[id].inTried {
        assert Refs(s.new_, id) == {};
      } else {
        assert id in NewIds(s.info);
      }
    }
    assert forall id | id in s.info :: EntryChecks(s, id);
  }

  /** Passing the self-check at the end of a load means full consistency. */
  lemma CheckedIsConsistent(s: State)
    requires Loading(s) && CheckOk(s)
    requires forall slot | slot in s.new_ :: 0 <= slot.0 < NEW_BUCKET_COUNT
    ensures Consistent(s)
  {
    CheckedTables(s);
    CheckedRefs(s);
    hide EntryChecks, TriedSlotChecks, NewSlotChecks, NewOk, TriedOk, RefsOk, RandomOk, IdsOk, TimesOk;
  }

  // ---------------------------------------------------------------------------------------
  // Reading the entries

  /** The entries after the new records have been read. */
  ghost predicate NewRead(st: Stream, info: map<int, Info>, addr: map<Service, int>, random: seq<int>, n: int) {
    && 0 <= n == |random| <= |st.newRecords|
    && (forall i | 0 <= i < n :: random[i] == i)
    && (forall id :: id in info <==> 0 <= id < n)
    && (forall id | 0 <= id < n :: info[id] == FromRecord(st.newRecords[id]).(randomPos := id) && info[id].addr in addr)
    && AddrBack(info, addr)
  }

  method ReadNew(m: AddrManager, st: Stream)
    requires m.mapInfo == map[] && m.mapAddr == map[] && m.vRandom == []
    requires 0 <= st.nNew <= |st.newRecords|
    modifies m`mapInfo, m`mapAddr, m`vRandom, m`nIdCount
    ensures NewRead(st, m.mapInfo, m.mapAddr, m.vRandom, st.nNew) && m.nIdCount == st.nNew
  {
    for n := 0 to st.nNew
      invariant NewRead(st, m.mapInfo, m.mapAddr, m.vRandom, n)
    {
      m.mapInfo := m.mapInfo[n := FromRecord(st.newRecords[n])];
      m.mapAddr := m.mapAddr[m.mapInfo[n].addr := n];
      m.mapInfo := m.mapInfo[n := m.mapInfo[n].(randomPos := |m.vRandom|)];
      m.vRandom := m.vRandom + [n];
    }
    m.nIdCount := st.nNew;
  }

  /** The entry that a tried record becomes. */
  ghost function TriedEntry(r: Record, pos: int): Info {
    FromRecord(r).(randomPos := pos, inTried := true)
  }

  method ReadTriedOne(m: AddrManager, r: Record) returns (kept: bool)
    requires m.Shaped() && m.nIdCount >= 0
    modifies m`mapInfo, m`mapAddr, m`vRandom, m`nIdCount, m.vvTried
    ensures kept <==> m.env.valid(r.addr) && m.env.TriedSlot(m.nKey, r.addr) !in old(Contents(m.vvTried))
    ensures kept ==>
              && m.mapInfo == old(m.mapInfo)[old(m.nIdCount) := TriedEntry(r, |old(m.vRandom)|)]
              && m.mapAddr == old(m.mapAddr)[r.addr := old(m.nIdCount)]
              && m.vRandom == old(m.vRandom) + [old(m.nIdCount)]
              && m.nIdCount == old(m.nIdCount) + 1
              && Contents(m.vvTried) == old(Contents(m.vvTried))[m.env.TriedSlot(m.nKey, r.addr) := old(m.nIdCount)]
    ensures !kept ==>
              && m.mapInfo == old(m.mapInfo) && m.mapAddr == old(m.mapAddr) && m.vRandom == old(m.vRandom)
              && m.nIdCount == old(m.nIdCount) && Contents(m.vvTried) == old(Contents(m.vvTried))
  {
    hide Contents;
    var x := FromRecord(r);
    var bucket := m.env.TriedBucket(m.nKey, x.addr);
    var pos := m.env.Position(m.nKey, x.addr, false, bucket);
    ContentsAt(m.vvTried, bucket, pos);
    kept := m.env.valid(x.addr) && m.vvTried[bucket, pos] == -1;
    if kept {
      x := x.(randomPos := |m.vRandom|, inTried := true);
      m.vRandom := m.vRandom + [m.nIdCount];
      m.mapInfo := m.mapInfo[m.nIdCount := x];
      m.mapAddr := m.mapAddr[x.addr := m.nIdCount];
      SetSlot(m.vvTried, bucket, pos, m.nIdCount);
      m.nIdCount := m.nIdCount + 1;
    }
  }

  /** The entries while the tried records are being read. */
  ghost predicate Reading(st: Stream, info: map<int, Info>, addr: map<Service, int>, random: seq<int>, idCount: int) {
    && 0 <= st.nNew <= |st.newRecords| && st.nNew <= idCount == |random|
    && (forall id :: id in info <==> 0 <= id < idCount)
    && RandomOk(info, random)
    && AddrBack(info, addr)
    && (forall id | id in info :: info[id].addr in addr)
    && (forall id | id in info && id < st.nNew :: info[id] == FromRecord(st.newRecords[id]).(randomPos := id))
  }

  lemma ReadingStart(st: Stream, info: map<int, Info>, addr: map<Service, int>, random: seq<int>)
    requires NewRead(st, info, addr, random, st.nNew)
    ensures Reading(st, info, addr, random, st.nNew)
  {
  }

  lemma ReadingStep(st: Stream, info: map<int, Info>, addr: map<Service, int>, random: seq<int>, idCount: int,
                    r: Record)
    requires Reading(st, info, addr, random, idCount)
    ensures Reading(st, info[idCount := TriedEntry(r, |random|)], addr[r.addr := idCount], random + [idCount],
                    idCount + 1)
  {
    CreatedRandom(info, random, idCount, TriedEntry(r, |random|));
  }

  // ---------------------------------------------------------------------------------------
  // What any stream leaves

  /** The tried table that holds these records under the ids from `first` on. */
  ghost function TriedTable(env: Env, key: nat, kept: seq<Record>, first: int): Table {
    if kept == [] then map[]
    else
      var n := |kept| - 1;
      TriedTable(env, key, kept[..n], first)[env.TriedSlot(key, kept[n].addr) := first + n]
  }

  /** The tried records that are kept: the address is valid and its slot is free. */
  ghost function KeptTried(env: Env, key: nat, records: seq<Record>): (r: seq<Record>)
    ensures |r| <= |records|
  {
    if records == [] then []
    else
      var n := |records| - 1;
      var kept := KeptTried(env, key, records[..n]);
      if env.valid(records[n].addr) && env.TriedSlot(key, records[n].addr) !in TriedTable(env, key, kept, 0) then
        kept + [records[n]]
      else kept
  }

  lemma {:induction false} TriedTableHolds(env: Env, key: nat, kept: seq<Record>, first: int, slot: Slot)
    ensures slot in TriedTable(env, key, kept, first) <==>
            exists j :: 0 <= j < |kept| && env.TriedSlot(key, kept[j].addr) == slot
    ensures slot in TriedTable(env, key, kept, first) <==> slot in TriedTable(env, key, kept, 0)
  {
    if kept != [] {
      var n := |kept| - 1;
      TriedTableHolds(env, key, kept[..n], first, slot);
      if j :| 0 <= j < n && env.TriedSlot(key, kept[..n][j].addr) == slot {
        assert env.TriedSlot(key, kept[j].addr) == slot;
      }
      if j :| 0 <= j < |kept| && env.TriedSlot(key, kept[j].addr) == slot {
        assert j < n ==> env.TriedSlot(key, kept[..n][j].addr) == slot;
      }
    }
  }

  ghost predicate Claims(env: Env, key: nat, records: seq<Record>, slot: Slot) {
    exists j :: 0 <= j < |records| && env.valid(records[j].addr) && env.TriedSlot(key, records[j].addr) == slot
  }

  /** A slot is taken as soon as one valid record has asked for it. */
  lemma {:induction false} KeptClaims(env: Env, key: nat, records: seq<Record>, slot: Slot)
    ensures slot in TriedTable(env, key, KeptTried(env, key, records), 0) <==> Claims(env, key, records, slot)
  {
    if records != [] {
      var n := |records| - 1;
      var before := KeptTried(env, key, records[..n]);
      KeptClaims(env, key, records[..n], slot);
      assert (before + [records[n]])[..|before|] == before;
      if Claims(env, key, records[..n], slot) {
        var j :| 0 <= j < n && env.valid(records[..n][j].addr) && env.TriedSlot(key, records[..n][j].addr) == slot;
        assert records[j] == records[..n][j];
      }
      if Claims(env, key, records, slot) {
        var j :| 0 <= j < |records| && env.valid(records[j].addr) && env.TriedSlot(key, records[j].addr) == slot;
        assert j < n ==> records[j] == records[..n][j];
      }
    }
  }

  /** So a tried record is kept exactly when it is valid and no valid record before it has the same slot. */
  lemma KeptIsFirst(env: Env, key: nat, records: seq<Record>, n: nat)
    requires n < |records|
    ensures var before := KeptTried(env, key, records[..n]);
            KeptTried(env, key, records[..n + 1]) ==
            if env.valid(records[n].addr) && !Claims(env, key, records[..n], env.TriedSlot(key, records[n].addr)) then
              before + [records[n]]
            else before
  {
    assert records[..n + 1][..n] == records[..n];
    KeptClaims(env, key, records[..n], env.TriedSlot(key, records[n].addr));
  }

  /** The entries once all records are read: the new ones first, then the tried ones that are kept. */
  ghost function EntriesRead(newRecords: seq<Record>, kept: seq<Record>): map<int, Info> {
    map id | 0 <= id < |newRecords| + |kept| ::
      if id < |newRecords| then FromRecord(newRecords[id]).(randomPos := id)
      else TriedEntry(kept[id - |newRecords|], id)
  }

  lemma EntriesReadMore(newRecords: seq<Record>, kept: seq<Record>, r: Record)
    ensures EntriesRead(newRecords, kept + [r]) ==
            EntriesRead(newRecords, kept)[|newRecords| + |kept| := TriedEntry(r, |newRecords| + |kept|)]
  {
    hide TriedEntry;
  }

  // ---------------------------------------------------------------------------------------
  // Reading back a stored state

  /** Where a stored stream came from: the state, and the order in which its entries were written. */
  datatype Origin = Origin(s: State, newIds: seq<int>, triedIds: seq<int>)

  ghost predicate Genuine(st: Stream, o: Origin, env: Env, asmap: nat) {
    && Consistent(o.s) && o.s.env == env
    && Stored(st, o.s, o.newIds, o.triedIds, asmap)
    && forall id | id in o.s.info :: env.valid(o.s.info[id].addr)
  }

  /** The entry read back under an id, before its references are counted. */
  ghost predicate Rebuilt(x: Info, y: Info) {
    y == FromRecord(ToRecord(x)).(refCount := y.refCount, inTried := x.inTried, randomPos := y.randomPos)
  }

  /** The first `j` tried entries have come back. */
  ghost predicate TriedEntriesBack(o: Origin, info: map<int, Info>, j: int) {
    && 0 <= j <= |o.triedIds|
    && forall id | |o.newIds| <= id < |o.newIds| + j :: id in info && TriedEntryBack(o, id, info[id])
  }

  ghost predicate TriedEntryBack(o: Origin, id: int, x: Info)
    requires |o.newIds| <= id < |o.newIds| + |o.triedIds|
  {
    var was := o.triedIds[id - |o.newIds|];
    was in o.s.info && Rebuilt(o.s.info[was], x) && x.refCount == 0
  }

  /** The first `j` tried entries are back in the slots they had. */
  ghost predicate TriedSlotsBack(o: Origin, tried: Table, j: int) {
    && 0 <= j <= |o.triedIds|
    && (forall slot | slot in tried ::
          && |o.newIds| <= tried[slot] < |o.newIds| + j
          && slot in o.s.tried && o.s.tried[slot] == o.triedIds[tried[slot] - |o.newIds|])
    && (forall slot | slot in o.s.tried && o.s.tried[slot] in o.triedIds[..j] :: slot in tried)
  }

  ghost predicate TriedBack(o: Origin, info: map<int, Info>, tried: Table, idCount: int, j: int) {
    idCount == |o.newIds| + j && TriedEntriesBack(o, info, j) && TriedSlotsBack(o, tried, j)
  }

  /** The record stored for the j-th tried entry, and the slot that entry holds. */
  lemma GenuineTried(st: Stream, o: Origin, env: Env, asmap: nat, j: int)
    requires Genuine(st, o, env, asmap) && 0 <= j < |o.triedIds|
    ensures o.triedIds[j] in o.s.info && |st.triedRecords| == |o.triedIds|
    ensures st.triedRecords[j] == ToRecord(o.s.info[o.triedIds[j]]) && o.s.info[o.triedIds[j]].inTried
    ensures env.valid(st.triedRecords[j].addr)
    ensures var slot := o.s.env.TriedSlot(o.s.key, st.triedRecords[j].addr);
            slot in o.s.tried && o.s.tried[slot] == o.triedIds[j]
    ensures forall i, k | 0 <= i < k < |o.triedIds| :: o.triedIds[i] != o.triedIds[k]
    ensures TriedInjective(o.s)
  {
    var id := o.triedIds[j];
    assert id in o.triedIds && id in TriedIds(o.s.info);
    TriedHome(o.s, id);
  }

  lemma TriedBackStep(st: Stream, o: Origin, info: map<int, Info>, tried: Table, idCount: int, j: int, asmap: nat,
                      pos: int)
    requires Genuine(st, o, o.s.env, asmap) && TriedBack(o, info, tried, idCount, j) && 0 <= j < |o.triedIds|
    requires idCount !in info && j < |st.triedRecords|
    ensures var r := st.triedRecords[j];
            var slot := o.s.env.TriedSlot(o.s.key, r.addr);
            && o.s.env.valid(r.addr) && slot !in tried
            && TriedBack(o, info[idCount := TriedEntry(r, pos)], tried[slot := idCount], idCount + 1, j + 1)
  {
    hide Genuine, TriedEntriesBack, TriedSlotsBack;
    GenuineTried(st, o, o.s.env, asmap, j);
    var slot := o.s.env.TriedSlot(o.s.key, st.triedRecords[j].addr);
    TriedEntriesStep(o, info, j, TriedEntry(st.triedRecords[j], pos));
    TriedSlotsStep(o, tried, j, slot);
  }

  lemma TriedEntriesStep(o: Origin, info: map<int, Info>, j: int, x: Info)
    requires TriedEntriesBack(o, info, j) && j < |o.triedIds| && o.triedIds[j] in o.s.info
    requires |o.newIds| + j !in info && Rebuilt(o.s.info[o.triedIds[j]], x) && x.refCount == 0
    ensures TriedEntriesBack(o, info[|o.newIds| + j := x], j + 1)
  {
    var after := info[|o.newIds| + j := x];
    forall id | |o.newIds| <= id < |o.newIds| + j + 1 ensures id in after && TriedEntryBack(o, id, after[id]) {
      assert id < |o.newIds| + j ==> id in info && TriedEntryBack(o, id, info[id]);
    }
  }

  lemma TriedSlotsStep(o: Origin, tried: Table, j: int, slot: Slot)
    requires TriedSlotsBack(o, tried, j) && j < |o.triedIds|
    requires slot in o.s.tried && o.s.tried[slot] == o.triedIds[j]
    requires forall i, k | 0 <= i < k < |o.triedIds| :: o.triedIds[i] != o.triedIds[k]
    requires TriedInjective(o.s)
    ensures slot !in tried && TriedSlotsBack(o, tried[slot := |o.newIds| + j], j + 1)
  {
    assert o.triedIds[..j + 1] == o.triedIds[..j] + [o.triedIds[j]];
    var after := tried[slot := |o.newIds| + j];
    forall other | other in o.s.tried && o.s.tried[other] in o.triedIds[..j + 1] ensures other in after {
      if o.s.tried[other] == o.triedIds[j] {
        assert other == slot;
      } else {
        assert o.s.tried[other] in o.triedIds[..j];
      }
    }
  }

  /** No id holds two tried slots. */
  ghost predicate TriedInjective(s: State) {
    forall a, b | a in s.tried && b in s.tried && s.tried[a] == s.tried[b] :: a == b
  }

  lemma TriedHome(s: State, id: int)
    requires Consistent(s) && id in s.info && s.info[id].inTried
    ensures s.env.TriedSlot(s.key, s.info[id].addr) in s.tried
    ensures s.tried[s.env.TriedSlot(s.key, s.info[id].addr)] == id
  {
  }

  /** The entries and the tried table after `n` tried records. */
  ghost predicate TriedRead(st: Stream, env: Env, info: map<int, Info>, tried: Table, idCount: int, n: int) {
    && 0 <= st.nNew <= |st.newRecords| && 0 <= n <= |st.triedRecords|
    && var kept := KeptTried(env, st.key, st.triedRecords[..n]);
    && info == EntriesRead(st.newRecords[..st.nNew], kept)
    && tried == TriedTable(env, st.key, kept, st.nNew) && idCount == st.nNew + |kept|
  }

  lemma TriedReadStart(st: Stream, env: Env, info: map<int, Info>, addr: map<Service, int>, random: seq<int>)
    requires NewRead(st, info, addr, random, st.nNew)
    ensures TriedRead(st, env, info, map[], st.nNew, 0) && |KeptTried(env, st.key, st.triedRecords[..0])| == 0
  {
  }

  lemma TriedReadStep(st: Stream, env: Env, info: map<int, Info>, addr: map<Service, int>, random: seq<int>,
                      tried: Table,
                      idCount: int, n: int)
    requires Reading(st, info, addr, random, idCount) && TriedRead(st, env, info, tried, idCount, n)
    requires n < |st.triedRecords|
    ensures var r := st.triedRecords[n];
            var before := KeptTried(env, st.key, st.triedRecords[..n]);
            var after := KeptTried(env, st.key, st.triedRecords[..n + 1]);
            if env.valid(r.addr) && env.TriedSlot(st.key, r.addr) !in tried then
              && |after| == |before| + 1
              && TriedRead(st, env, info[idCount := TriedEntry(r, |random|)],
                           tried[env.TriedSlot(st.key, r.addr) := idCount], idCount + 1, n + 1)
            else |after| == |before| && TriedRead(st, env, info, tried, idCount, n + 1)
  {
    hide TriedEntry, EntriesRead, RandomOk, AddrBack;
    var r, kept := st.triedRecords[n], KeptTried(env, st.key, st.triedRecords[..n]);
    assert st.triedRecords[..n + 1][..n] == st.triedRecords[..n];
    TriedTableHolds(env, st.key, kept, st.nNew, env.TriedSlot(st.key, r.addr));
    EntriesReadMore(st.newRecords[..st.nNew], kept, r);
    assert (kept + [r])[..|kept|] == kept;
  }

  method ReadTried(m: AddrManager, st: Stream, ghost o: Origin, ghost asmap: nat) returns (lost: int)
    requires m.Shaped() && 0 <= st.nTried <= |st.triedRecords| && m.nKey == st.key
    requires NewRead(st, m.mapInfo, m.mapAddr, m.vRandom, st.nNew) && m.nIdCount == st.nNew
    requires Contents(m.vvTried) == map[]
    modifies m`mapInfo, m`mapAddr, m`vRandom, m`nIdCount, m.vvTried
    ensures Reading(st, m.mapInfo, m.mapAddr, m.vRandom, m.nIdCount)
    ensures Genuine(st, o, m.env, asmap) ==>
              lost == 0 && TriedBack(o, m.mapInfo, Contents(m.vvTried), m.nIdCount, st.nTried)
    ensures TriedRead(st, m.env, m.mapInfo, Contents(m.vvTried), m.nIdCount, st.nTried)
    ensures lost == st.nTried - |KeptTried(m.env, st.key, st.triedRecords[..st.nTried])|
  {
    hide Contents, Reading, TriedBack, Genuine, TriedEntry, NewRead, TriedRead, KeptTried;
    TriedReadStart(st, m.env, m.mapInfo, m.mapAddr, m.vRandom);
    ReadingStart(st, m.mapInfo, m.mapAddr, m.vRandom);
    TriedBackStart(st, o, m.mapInfo, m.env, asmap);
    lost := 0;
    for n := 0 to st.nTried
      invariant Reading(st, m.mapInfo, m.mapAddr, m.vRandom, m.nIdCount) && m.nIdCount >= 0
      invariant Genuine(st, o, m.env, asmap) ==>
                  lost == 0 && TriedBack(o, m.mapInfo, Contents(m.vvTried), m.nIdCount, n)
      invariant TriedRead(st, m.env, m.mapInfo, Contents(m.vvTried), m.nIdCount, n)
      invariant lost == n - |KeptTried(m.env, st.key, st.triedRecords[..n])|
    {
      TriedReadStep(st, m.env, m.mapInfo, m.mapAddr, m.vRandom, Contents(m.vvTried), m.nIdCount, n);
      ReadingStep(st, m.mapInfo, m.mapAddr, m.vRandom, m.nIdCount, st.triedRecords[n]);
      if Genuine(st, o, m.env, asmap) {
        ReadingFresh(st, o, m.mapInfo, m.mapAddr, m.vRandom, m.nIdCount, m.env, asmap);
        TriedBackStep(st, o, m.mapInfo, Contents(m.vvTried), m.nIdCount, n, asmap, |m.vRandom|);
      }
      var kept := ReadTriedOne(m, st.triedRecords[n]);
      if !kept {
        lost := lost + 1;
      }
    }
  }

  lemma TriedBackStart(st: Stream, o: Origin, info: map<int, Info>, env: Env, asmap: nat)
    ensures Genuine(st, o, env, asmap) ==> TriedBack(o, info, map[], st.nNew, 0)
  {
  }

  lemma ReadingFresh(st: Stream, o: Origin, info: map<int, Info>, addr: map<Service, int>, random: seq<int>,
                     idCount: int,
                     env: Env, asmap: nat)
    requires Reading(st, info, addr, random, idCount) && Genuine(st, o, env, asmap)
    ensures idCount !in info && o.s.env == env && o.s.key == st.key && |o.triedIds| == st.nTried == |st.triedRecords|
  {
  }

  // ---------------------------------------------------------------------------------------
  // Reading the buckets

  type Pair = (int, int)  // a bucket, and the index of an entry in it

  method CollectBucket(b: int, indexes: seq<int>, nNew: int) returns (out: seq<Pair>)
    ensures forall k | 0 <= k < |out| :: out[k].0 == b && 0 <= out[k].1 < nNew
    ensures (forall k | 0 <= k < |indexes| :: 0 <= indexes[k] < nNew) ==> out == Paired(b, indexes)
    ensures out == PairsIn(b, indexes, nNew)
  {
    out := [];
    for n := 0 to |indexes|
      invariant out == PairsIn(b, indexes[..n], nNew)
      invariant forall k | 0 <= k < |out| :: out[k].0 == b && 0 <= out[k].1 < nNew
      invariant (forall k | 0 <= k < |indexes| :: 0 <= indexes[k] < nNew) ==> out == Paired(b, indexes[..n])
    {
      assert indexes[..n + 1] == indexes[..n] + [indexes[n]] && indexes[..n + 1][..n] == indexes[..n];
      if 0 <= indexes[n] < nNew {
        out := out + [(b, indexes[n])];
      }
    }
    assert indexes[..|indexes|] == indexes;
  }

  /** The indexes of a bucket that stand for an entry, each with the bucket. */
  ghost function PairsIn(b: int, indexes: seq<int>, nNew: int): seq<Pair> {
    if indexes == [] then []
    else
      var n := |indexes| - 1;
      PairsIn(b, indexes[..n], nNew) + if 0 <= indexes[n] < nNew then [(b, indexes[n])] else []
  }

  ghost function PairsOf(buckets: seq<seq<int>>, nNew: int): seq<Pair> {
    if buckets == [] then []
    else
      var n := |buckets| - 1;
      PairsOf(buckets[..n], nNew) + PairsIn(n, buckets[n], nNew)
  }

  /** The part of a list that a count read from the stream asks for. */
  ghost function Front<T>(s: seq<T>, n: int): seq<T> {
    if n <= 0 then [] else if n <= |s| then s[..n] else s
  }

  ghost function Paired(b: int, indexes: seq<int>): seq<Pair> {
    seq(|indexes|, k requires 0 <= k < |indexes| => (b, indexes[k]))
  }

  /** The slot that a pair stands for. */
  ghost predicate PairHolds(o: Origin, pair: Pair) {
    && 0 <= pair.1 < |o.newIds| && o.newIds[pair.1] in o.s.info
    && SlotIn(o.s, o.newIds[pair.1], pair.0) in o.s.new_
    && o.s.new_[SlotIn(o.s, o.newIds[pair.1], pair.0)] == o.newIds[pair.1]
  }

  /** The pairs stand for the filled slots of the first `n` buckets, one each. */
  ghost predicate PairsHold(o: Origin, pairs: seq<Pair>, n: int) {
    && (forall k | 0 <= k < |pairs| :: pairs[k].0 < n && PairHolds(o, pairs[k]))
    && (forall j, k | 0 <= j < k < |pairs| :: pairs[j] != pairs[k])
    && (forall slot | slot in o.s.new_ && slot.0 < n ::
          exists i :: 0 <= i < |o.newIds| && o.newIds[i] == o.s.new_[slot] && (slot.0, i) in pairs)
  }

  lemma PairsMore(o: Origin, b: int, indexes: seq<int>)
    requires BucketListed(o.s, o.newIds, b, indexes, BUCKET_SIZE)
    ensures forall k | 0 <= k < |indexes| :: Paired(b, indexes)[k].0 == b && PairHolds(o, Paired(b, indexes)[k])
    ensures forall j, k | 0 <= j < k < |indexes| :: Paired(b, indexes)[j] != Paired(b, indexes)[k]
  {
    var more := Paired(b, indexes);
    var ids := Named(o.newIds, indexes);
    forall k | 0 <= k < |more| ensures PairHolds(o, more[k]) {
      assert ids[k] == o.newIds[indexes[k]];
    }
    forall j, k | 0 <= j < k < |more| ensures more[j] != more[k] {
      assert ids[j] != ids[k];
    }
  }

  lemma PairsStep(o: Origin, pairs: seq<Pair>, b: int, indexes: seq<int>)
    requires PairsHold(o, pairs, b) && BucketListed(o.s, o.newIds, b, indexes, BUCKET_SIZE)
    requires forall slot | slot in o.s.new_ :: slot.1 < BUCKET_SIZE
    ensures PairsHold(o, pairs + Paired(b, indexes), b + 1)
  {
    hide PairHolds, BucketListed;
    PairsMore(o, b, indexes);
    var all := pairs + Paired(b, indexes);
    forall slot | slot in o.s.new_ && slot.0 < b + 1
      ensures exists i :: 0 <= i < |o.newIds| && o.newIds[i] == o.s.new_[slot] && (slot.0, i) in all
    {
      var i := PairsCover(o, pairs, b, indexes, slot);
    }
  }

  lemma PairsCover(o: Origin, pairs: seq<Pair>, b: int, indexes: seq<int>, slot: Slot) returns (i: int)
    requires PairsHold(o, pairs, b) && BucketListed(o.s, o.newIds, b, indexes, BUCKET_SIZE)
    requires slot in o.s.new_ && slot.0 < b + 1 && slot.1 < BUCKET_SIZE
    ensures 0 <= i < |o.newIds| && o.newIds[i] == o.s.new_[slot] && (slot.0, i) in pairs + Paired(b, indexes)
  {
    if slot.0 < b {
      i :| 0 <= i < |o.newIds| && o.newIds[i] == o.s.new_[slot] && (slot.0, i) in pairs;
    } else {
      var ids := Named(o.newIds, indexes);
      assert o.s.new_[slot] in ids;
      var k :| 0 <= k < |ids| && ids[k] == o.s.new_[slot];
      i := indexes[k];
      assert Paired(b, indexes)[k] == (slot.0, i);
    }
  }

  method CollectPairs(st: Stream, nBuckets: int, ghost o: Origin, ghost env: Env,
                      ghost asmap: nat) returns (pairs: seq<Pair>)
    requires nBuckets <= |st.buckets|
    ensures forall k | 0 <= k < |pairs| :: 0 <= pairs[k].0 < nBuckets && 0 <= pairs[k].1 < st.nNew
    ensures Genuine(st, o, env, asmap) && nBuckets == NEW_BUCKET_COUNT ==> PairsHold(o, pairs, NEW_BUCKET_COUNT)
    ensures pairs == PairsOf(Front(st.buckets, nBuckets), st.nNew)
  {
    hide Genuine, PairsHold, BucketListed, PairsIn;
    pairs := [];
    var bucket := 0;
    PairsStart(st, o, env, asmap);
    while bucket < nBuckets
      invariant 0 <= bucket && bucket <= if nBuckets > 0 then nBuckets else 0
      invariant forall k | 0 <= k < |pairs| :: 0 <= pairs[k].0 < bucket && 0 <= pairs[k].1 < st.nNew
      invariant Genuine(st, o, env, asmap) && nBuckets == NEW_BUCKET_COUNT ==> PairsHold(o, pairs, bucket)
      invariant pairs == PairsOf(st.buckets[..bucket], st.nNew)
    {
      assert st.buckets[..bucket + 1][..bucket] == st.buckets[..bucket];
      var more := CollectBucket(bucket, st.buckets[bucket], st.nNew);
      if Genuine(st, o, env, asmap) && nBuckets == NEW_BUCKET_COUNT {
        GenuineBucket(st, o, env, asmap, bucket);
        PairsStep(o, pairs, bucket, st.buckets[bucket]);
      }
      pairs := pairs + more;
      bucket := bucket + 1;
    }
  }

  lemma NewSlotsInRange(s: State)
    requires Consistent(s)
    ensures forall slot | slot in s.new_ :: 0 <= slot.0 < NEW_BUCKET_COUNT && 0 <= slot.1 < BUCKET_SIZE
  {
  }

  lemma PairsStart(st: Stream, o: Origin, env: Env, asmap: nat)
    ensures Genuine(st, o, env, asmap) ==> PairsHold(o, [], 0)
  {
    if Genuine(st, o, env, asmap) {
      NewSlotsInRange(o.s);
    }
  }

  lemma GenuineBucket(st: Stream, o: Origin, env: Env, asmap: nat, b: int)
    requires Genuine(st, o, env, asmap) && 0 <= b < NEW_BUCKET_COUNT
    ensures |st.buckets| == NEW_BUCKET_COUNT && BucketListed(o.s, o.newIds, b, st.buckets[b], BUCKET_SIZE)
    ensures forall k | 0 <= k < |st.buckets[b]| :: 0 <= st.buckets[b][k] < st.nNew
    ensures forall slot | slot in o.s.new_ :: slot.1 < BUCKET_SIZE
  {
    NewSlotsInRange(o.s);
    assert BucketListed(o.s, o.newIds, b, st.buckets[b], BUCKET_SIZE);
  }

  // ---------------------------------------------------------------------------------------
  // Filling the new table

  /** The entries agree except for their reference counts. */
  ghost predicate SameButCount(info: map<int, Info>, after: map<int, Info>) {
    && (forall id :: id in after <==> id in info)
    && forall id | id in info :: after[id] == info[id].(refCount := after[id].refCount)
  }

  /** The entries, and the new table as far as it is filled. */
  datatype Shelf = Shelf(info: map<int, Info>, new_: Table)

  /** The slot an entry gets for a stored reference: the one it had, or failing that the one of its own source. */
  ghost function SlotFor(env: Env, key: nat, x: Info, bucket: int, restore: bool, new_: Table): Option<Slot> {
    var had, home := (bucket, env.Position(key, x.addr, true, bucket)), env.NewSlot(key, x.addr, x.source);
    if !env.valid(x.addr) || x.refCount >= NEW_BUCKETS_PER_ADDRESS then None
    else if restore && had !in new_ then Some(had)
    else if home !in new_ then Some(home)
    else None
  }

  ghost function Shelve(env: Env, key: nat, f: Shelf, pair: Pair, restore: bool): (g: Shelf)
    ensures SameButCount(f.info, g.info)
  {
    if pair.1 !in f.info then f
    else
      var x := f.info[pair.1];
      match SlotFor(env, key, x, pair.0, restore, f.new_)
      case None => f
      case Some(slot) => Shelf(WithCount(f.info, pair.1, x.refCount + 1), f.new_[slot := pair.1])
  }

  /** The stored references one after the other. */
  ghost function ShelveAll(env: Env, key: nat, f: Shelf, pairs: seq<Pair>, restore: bool): (g: Shelf)
    ensures SameButCount(f.info, g.info)
  {
    hide Shelve;
    if pairs == [] then f
    else
      var n := |pairs| - 1;
      Shelve(env, key, ShelveAll(env, key, f, pairs[..n], restore), pairs[n], restore)
  }

  method PlacePair(m: AddrManager, pair: Pair, restore: bool)
    requires m.Shaped() && pair.1 in m.mapInfo && pair.1 >= 0
    requires restore ==> 0 <= pair.0 < NEW_BUCKET_COUNT
    modifies m`mapInfo, m.vvNew
    ensures Shelf(m.mapInfo, Contents(m.vvNew)) ==
            Shelve(m.env, m.nKey, Shelf(old(m.mapInfo), old(Contents(m.vvNew))), pair, restore)
  {
    hide Contents;
    var bucket, id := pair.0, pair.1;
    var x := m.mapInfo[id];
    if !m.env.valid(x.addr) {
      return;
    }
    if x.refCount >= NEW_BUCKETS_PER_ADDRESS {
      return;
    }
    var pos := m.env.Position(m.nKey, x.addr, true, bucket);
    if restore {
      ContentsAt(m.vvNew, bucket, pos);
    }
    if restore && m.vvNew[bucket, pos] == -1 {
      SetSlot(m.vvNew, bucket, pos, id);
      m.mapInfo := m.mapInfo[id := x.(refCount := x.refCount + 1)];
    } else {
      bucket := m.env.NewBucket(m.nKey, x.addr, x.source);
      pos := m.env.Position(m.nKey, x.addr, true, bucket);
      ContentsAt(m.vvNew, bucket, pos);
      if m.vvNew[bucket, pos] == -1 {
        SetSlot(m.vvNew, bucket, pos, id);
        m.mapInfo := m.mapInfo[id := x.(refCount := x.refCount + 1)];
      }
    }
  }

  /** The new entries, as read; only their reference counts may have changed. */
  ghost predicate NewEntriesBack(o: Origin, info: map<int, Info>) {
    forall n | 0 <= n < |o.newIds| ::
      && o.newIds[n] in o.s.info && n in info
      && Rebuilt(o.s.info[o.newIds[n]], info[n]) && info[n].randomPos == n
  }

  /** The slots of the first `k` pairs are filled as before, the others still empty. */
  ghost predicate NewSlotsBack(o: Origin, new_: Table, pairs: seq<Pair>, k: int) {
    && 0 <= k <= |pairs|
    && (forall slot | slot in new_ ::
          0 <= new_[slot] < |o.newIds| && slot in o.s.new_ && o.s.new_[slot] == o.newIds[new_[slot]])
    && (forall j | 0 <= j < |pairs| :: PairHolds(o, pairs[j]))
    && (forall j | 0 <= j < |pairs| :: SlotIn(o.s, o.newIds[pairs[j].1], pairs[j].0) in new_ <==> j < k)
  }

  ghost predicate CountsBack(o: Origin, info: map<int, Info>, new_: Table) {
    forall n | 0 <= n < |o.newIds| :: n in info && info[n].refCount == |Refs(new_, n)|
  }

  lemma NewSlotsStep(o: Origin, new_: Table, pairs: seq<Pair>, k: int)
    requires NewSlotsBack(o, new_, pairs, k) && k < |pairs|
    requires forall i, j | 0 <= i < j < |pairs| :: pairs[i] != pairs[j]
    requires forall i, j | 0 <= i < j < |o.newIds| :: o.newIds[i] != o.newIds[j]
    ensures NewSlotsBack(o, new_[SlotIn(o.s, o.newIds[pairs[k].1], pairs[k].0) := pairs[k].1], pairs, k + 1)
  {
    var slot := SlotIn(o.s, o.newIds[pairs[k].1], pairs[k].0);
    forall j | 0 <= j < |pairs| && j != k ensures SlotIn(o.s, o.newIds[pairs[j].1], pairs[j].0) != slot {
      assert pairs[j] != pairs[k];
      assert pairs[j].1 != pairs[k].1 ==> o.newIds[pairs[j].1] != o.newIds[pairs[k].1];
    }
  }

  lemma CountsStep(o: Origin, info: map<int, Info>, new_: Table, slot: Slot, n: int)
    requires CountsBack(o, info, new_) && slot !in new_ && 0 <= n < |o.newIds|
    ensures CountsBack(o, WithCount(info, n, info[n].refCount + 1), new_[slot := n])
  {
    forall i | 0 <= i < |o.newIds| ensures |Refs(new_[slot := n], i)| == |Refs(new_, i)| + if i == n then 1 else 0 {
      RefsInsert(new_, slot, n, i);
    }
  }

  /** An entry that still misses a slot has not reached the maximum number of references. */
  lemma CountsRoom(o: Origin, info: map<int, Info>, new_: Table, pairs: seq<Pair>, k: int)
    requires Consistent(o.s) && NewSlotsBack(o, new_, pairs, k) && k < |pairs| && CountsBack(o, info, new_)
    ensures info[pairs[k].1].refCount < NEW_BUCKETS_PER_ADDRESS
  {
    var n := pairs[k].1;
    var id := o.newIds[n];
    var slot := SlotIn(o.s, id, pairs[k].0);
    assert slot !in Refs(new_, n);
    SubsetSize(Refs(new_, n) + {slot}, Refs(o.s.new_, id));
    assert o.s.info[id].refCount == |Refs(o.s.new_, id)|;
  }

  /** All that has been restored once every entry is read. */
  ghost predicate Filling(o: Origin, info: map<int, Info>, new_: Table, pairs: seq<Pair>, k: int) {
    NewEntriesBack(o, info) && NewSlotsBack(o, new_, pairs, k) && CountsBack(o, info, new_)
  }

  lemma FillingStep(st: Stream, o: Origin, info: map<int, Info>, new_: Table, pairs: seq<Pair>, k: int, env: Env,
                    asmap: nat)
    requires Genuine(st, o, env, asmap) && Filling(o, info, new_, pairs, k) && 0 <= k < |pairs|
    requires PairsHold(o, pairs, NEW_BUCKET_COUNT)
    ensures pairs[k].1 in info
    ensures var x := info[pairs[k].1];
            var slot := (pairs[k].0, env.Position(o.s.key, x.addr, true, pairs[k].0));
            && env.valid(x.addr) && x.refCount < NEW_BUCKETS_PER_ADDRESS && slot !in new_
            && Filling(o, WithCount(info, pairs[k].1, x.refCount + 1), new_[slot := pairs[k].1], pairs, k + 1)
  {
    hide Genuine, Consistent, PairsHold, NewSlotsBack, CountsBack, NewEntriesBack;
    GenuineNew(st, o, env, asmap);
    GenuineConsistent(st, o, env, asmap);
    PairsDistinct(o, pairs);
    NextSlotFree(o, new_, pairs, k);
    NewEntryBack(o, info, pairs[k].1);
    CountsRoom(o, info, new_, pairs, k);
    NewSlotsStep(o, new_, pairs, k);
    CountsStep(o, info, new_, SlotIn(o.s, o.newIds[pairs[k].1], pairs[k].0), pairs[k].1);
    NewEntriesKept(o, info, WithCount(info, pairs[k].1, info[pairs[k].1].refCount + 1));
  }

  lemma GenuineConsistent(st: Stream, o: Origin, env: Env, asmap: nat)
    requires Genuine(st, o, env, asmap)
    ensures Consistent(o.s)
  {
  }

  lemma PairsDistinct(o: Origin, pairs: seq<Pair>)
    requires PairsHold(o, pairs, NEW_BUCKET_COUNT)
    ensures forall i, j | 0 <= i < j < |pairs| :: pairs[i] != pairs[j]
  {
  }

  lemma NewEntryBack(o: Origin, info: map<int, Info>, n: int)
    requires NewEntriesBack(o, info) && 0 <= n < |o.newIds|
    ensures o.newIds[n] in o.s.info && n in info && info[n].addr == o.s.info[o.newIds[n]].addr
  {
  }

  lemma NewEntriesKept(o: Origin, info: map<int, Info>, after: map<int, Info>)
    requires NewEntriesBack(o, info) && SameButCount(info, after)
    ensures NewEntriesBack(o, after)
  {
  }

  lemma NextSlotFree(o: Origin, new_: Table, pairs: seq<Pair>, k: int)
    requires NewSlotsBack(o, new_, pairs, k) && 0 <= k < |pairs|
    ensures PairHolds(o, pairs[k]) && SlotIn(o.s, o.newIds[pairs[k].1], pairs[k].0) !in new_
  {
  }

  lemma GenuineNew(st: Stream, o: Origin, env: Env, asmap: nat)
    requires Genuine(st, o, env, asmap)
    ensures o.s.env == env && |st.newRecords| == |o.newIds| == st.nNew && st.key == o.s.key
    ensures forall i, j | 0 <= i < j < |o.newIds| :: o.newIds[i] != o.newIds[j]
    ensures forall n | 0 <= n < |o.newIds| ::
              o.newIds[n] in o.s.info && !o.s.info[o.newIds[n]].inTried && env.valid(o.s.info[o.newIds[n]].addr)
              && st.newRecords[n] == ToRecord(o.s.info[o.newIds[n]])
  {
    forall n | 0 <= n < |o.newIds|
      ensures o.newIds[n] in o.s.info && !o.s.info[o.newIds[n]].inTried && env.valid(o.s.info[o.newIds[n]].addr)
      ensures st.newRecords[n] == ToRecord(o.s.info[o.newIds[n]])
    {
      var id := o.newIds[n];
      assert id in o.newIds && id in NewIds(o.s.info);
    }
  }

  method FillNew(m: AddrManager, pairs: seq<Pair>, restore: bool, ghost st: Stream, ghost o: Origin, ghost asmap: nat)
    requires m.Shaped() && m.nKey == st.key
    requires forall k | 0 <= k < |pairs| :: pairs[k].1 in m.mapInfo && pairs[k].1 >= 0
    requires restore ==> forall k | 0 <= k < |pairs| :: 0 <= pairs[k].0 < NEW_BUCKET_COUNT
    modifies m`mapInfo, m.vvNew
    ensures SameButCount(old(m.mapInfo), m.mapInfo)
    ensures restore && Genuine(st, o, m.env, asmap) && PairsHold(o, pairs, NEW_BUCKET_COUNT)
            && old(Filling(o, m.mapInfo, Contents(m.vvNew), pairs, 0)) ==>
              && Filling(o, m.mapInfo, Contents(m.vvNew), pairs, |pairs|)
              && forall id | id in m.mapInfo && id >= |o.newIds| :: m.mapInfo[id] == old(m.mapInfo)[id]
    ensures Shelf(m.mapInfo, Contents(m.vvNew)) ==
            ShelveAll(m.env, m.nKey, Shelf(old(m.mapInfo), old(Contents(m.vvNew))), pairs, restore)
  {
    hide Contents, Filling, Genuine, PairsHold, Shelve, ShelveAll, SameButCount;
    SameCountStart(m.mapInfo);
    ghost var f0 := Shelf(m.mapInfo, Contents(m.vvNew));
    ghost var genuine := restore && Genuine(st, o, m.env, asmap) && PairsHold(o, pairs, NEW_BUCKET_COUNT)
                         && Filling(o, m.mapInfo, Contents(m.vvNew), pairs, 0);
    assert pairs[..0] == [];
    ShelveNone(m.env, m.nKey, f0, restore);
    for k := 0 to |pairs|
      invariant SameButCount(f0.info, m.mapInfo)
      invariant genuine ==> Filling(o, m.mapInfo, Contents(m.vvNew), pairs, k)
      invariant genuine ==> LaterKept(o, f0.info, m.mapInfo)
      invariant Shelf(m.mapInfo, Contents(m.vvNew)) == ShelveAll(m.env, m.nKey, f0, pairs[..k], restore)
    {
      ghost var f := Shelf(m.mapInfo, Contents(m.vvNew));
      if genuine {
        FillingGoesOn(st, o, f0.info, f, pairs, k, m.env, asmap);
      }
      ShelveMore(m.env, m.nKey, f0, pairs, k, restore);
      StillThere(f0.info, m.mapInfo, pairs[k].1);
      PlacePair(m, pairs[k], restore);
    }
    assert pairs[..|pairs|] == pairs;
    if genuine {
      LaterStays(o, f0.info, m.mapInfo);
    }
  }

  lemma SameCountStart(info: map<int, Info>)
    ensures SameButCount(info, info)
  {
  }

  lemma StillThere(info: map<int, Info>, after: map<int, Info>, id: int)
    requires SameButCount(info, after) && id in info
    ensures id in after
  {
  }

  lemma ShelveNone(env: Env, key: nat, f: Shelf, restore: bool)
    ensures ShelveAll(env, key, f, [], restore) == f
  {
  }

  lemma ShelveMore(env: Env, key: nat, f: Shelf, pairs: seq<Pair>, k: nat, restore: bool)
    requires k < |pairs|
    ensures ShelveAll(env, key, f, pairs[..k + 1], restore) ==
            Shelve(env, key, ShelveAll(env, key, f, pairs[..k], restore), pairs[k], restore)
  {
    hide Shelve;
    assert pairs[..k + 1][..k] == pairs[..k];
  }

  /** The entries after those of the new table have not changed. */
  ghost predicate LaterKept(o: Origin, info: map<int, Info>, after: map<int, Info>) {
    forall id | id in after && id >= |o.newIds| :: id in info && after[id] == info[id]
  }

  lemma LaterStays(o: Origin, info: map<int, Info>, after: map<int, Info>)
    requires LaterKept(o, info, after)
    ensures forall id | id in after && id >= |o.newIds| :: id in info && after[id] == info[id]
  {
  }

  /** For a stored state the next reference gets the slot it had. */
  lemma FillingGoesOn(st: Stream, o: Origin, info0: map<int, Info>, f: Shelf, pairs: seq<Pair>, k: int, env: Env,
                      asmap: nat)
    requires Genuine(st, o, env, asmap) && Filling(o, f.info, f.new_, pairs, k) && 0 <= k < |pairs|
    requires PairsHold(o, pairs, NEW_BUCKET_COUNT) && LaterKept(o, info0, f.info)
    ensures var g := Shelve(env, st.key, f, pairs[k], true);
            Filling(o, g.info, g.new_, pairs, k + 1) && LaterKept(o, info0, g.info)
  {
    hide Genuine, Filling, PairsHold;
    FillingStep(st, o, f.info, f.new_, pairs, k, env, asmap);
    GenuineNew(st, o, env, asmap);
    FillingIndex(o, f.info, f.new_, pairs, k);
  }

  lemma FillingIndex(o: Origin, info: map<int, Info>, new_: Table, pairs: seq<Pair>, k: int)
    requires Filling(o, info, new_, pairs, k) && 0 <= k < |pairs|
    ensures 0 <= pairs[k].1 < |o.newIds|
  {
    assert PairHolds(o, pairs[k]);
  }

  lemma FillingStart(st: Stream, o: Origin, info: map<int, Info>, addr: map<Service, int>, random: seq<int>,
                     idCount: int,
                     pairs: seq<Pair>, env: Env, asmap: nat)
    requires Genuine(st, o, env, asmap) && Reading(st, info, addr, random, idCount)
    requires PairsHold(o, pairs, NEW_BUCKET_COUNT)
    ensures Filling(o, info, map[], pairs, 0)
  {
    GenuineNew(st, o, env, asmap);
    forall n ensures Refs(map[], n) == {} {
    }
  }

  // ---------------------------------------------------------------------------------------
  // Pruning and the whole load

  lemma DeletedKeepsLoading(s: State, id: int)
    requires Loading(s) && id in s.info
    ensures Loading(Deleted(s, id)) && SameButPosition(s.info - {id}, Deleted(s, id).info)
    ensures SameTables(s, Deleted(s, id))
  {
    hide IdsOk, AddrBack;
    var pos, last := s.info[id].randomPos, |s.random| - 1;
    var t := Swapped(s, pos, last);
    SwappedInfo(s, pos, last);
    SwappedRandom(s, pos, last);
    assert t.random[last] == id;
    DroppedRandom(t.info, t.random, id);
    DroppedIndexes(s.info, t.info, s.addr, s.idCount, id);
  }

  lemma DroppedIndexes(info: map<int, Info>, after: map<int, Info>, addr: map<Service, int>, idCount: int, id: int)
    requires IdsOk(info, idCount) && AddrBack(info, addr) && SameButPosition(info, after) && id in info
    ensures IdsOk(after - {id}, idCount) && AddrBack(after - {id}, addr - {info[id].addr})
    ensures after[id].addr == info[id].addr && SameButPosition(info - {id}, after - {id})
  {
    var rest := addr - {info[id].addr};
    forall a | a in rest ensures rest[a] in after - {id} && (after - {id})[rest[a]].addr == a {
      var other := addr[a];
      assert other in info && other != id;
    }
  }

  /** The entries that are in a table. */
  ghost function Shelved(info: map<int, Info>): map<int, Info> {
    map id | id in info && (info[id].inTried || info[id].refCount != 0) :: info[id]
  }

  /** Some entries without a table are gone; the rest is as it was, up to its place in the random order. */
  ghost predicate Pruning(was: map<int, Info>, info: map<int, Info>) {
    && (forall id | id in info :: id in was && info[id] == was[id].(randomPos := info[id].randomPos))
    && (forall id | id in Shelved(was) :: id in info)
  }

  lemma PruningStep(was: map<int, Info>, info: map<int, Info>, id: int, after: map<int, Info>)
    requires Pruning(was, info) && id in info && !info[id].inTried && info[id].refCount == 0
    requires SameButPosition(info - {id}, after)
    ensures Pruning(was, after)
  {
    forall x | x in Shelved(was) ensures x in after {
      assert x in info && x != id;
    }
    forall x | x in after ensures x in was && after[x] == was[x].(randomPos := after[x].randomPos) {
      assert x in info - {id};
    }
  }

  lemma PruningDone(was: map<int, Info>, info: map<int, Info>)
    requires Pruning(was, info) && forall id | id in info :: info[id].inTried || info[id].refCount != 0
    ensures SameButPosition(Shelved(was), info)
  {
  }

  /** Removes the entries that ended up in neither table, in any order, and no others. */
  method Prune(m: AddrManager)
    requires Loading(m.Value())
    modifies m`mapInfo, m`mapAddr, m`vRandom, m`nNew
    ensures Loading(m.Value()) && SameButPosition(Shelved(old(m.mapInfo)), m.mapInfo)
    ensures old(forall id | id in m.mapInfo :: m.mapInfo[id].inTried || m.mapInfo[id].refCount != 0) ==>
              m.Value() == old(m.Value())
  {
    hide Loading, Contents, SameButPosition, Pruning, Shelved;
    ghost var clean := forall id | id in m.mapInfo :: m.mapInfo[id].inTried || m.mapInfo[id].refCount != 0;
    ghost var was := m.mapInfo;
    PruningStart(was);
    var todo := m.mapInfo.Keys;
    while todo != {}
      invariant Loading(m.Value()) && todo <= m.mapInfo.Keys
      invariant clean ==> m.Value() == old(m.Value())
      invariant Pruning(was, m.mapInfo)
      invariant forall id | id in m.mapInfo && id !in todo :: m.mapInfo[id].inTried || m.mapInfo[id].refCount != 0
      decreases |todo|
    {
      ghost var some := Element(todo);
      assert some in todo;
      var id :| id in todo;
      todo := todo - {id};
      if !m.mapInfo[id].inTried && m.mapInfo[id].refCount == 0 {
        DeletedKeepsLoading(m.Value(), id);
        DeletedKeys(m.Value(), id);
        ghost var after := Deleted(m.Value(), id).info;
        PruningStep(was, m.mapInfo, id, after);
        DeletedOthers(m.mapInfo, id, after);
        m.Delete(id);
      }
    }
    PruningDone(was, m.mapInfo);
  }

  lemma PruningStart(info: map<int, Info>)
    ensures Pruning(info, info)
  {
  }

  lemma DeletedOthers(info: map<int, Info>, id: int, after: map<int, Info>)
    requires SameButPosition(info - {id}, after)
    ensures forall x | x in after ::
              x in info && after[x].inTried == info[x].inTried && after[x].refCount == info[x].refCount
  {
    forall x | x in after ensures x in info && after[x] == info[x].(randomPos := after[x].randomPos) {
      assert x in info - {id};
    }
  }

  lemma DeletedKeys(s: State, id: int)
    requires Loading(s) && id in s.info
    ensures RandomOk(s.info, s.random) && Deleted(s, id).info.Keys == s.info.Keys - {id}
  {
    DeletedKeepsLoading(s, id);
    forall x ensures x in Deleted(s, id).info.Keys <==> x in s.info.Keys - {id} {
      assert x in Deleted(s, id).info <==> x in s.info - {id};
    }
  }

  /** The id that an id read back had before it was stored. */
  ghost function OldId(o: Origin, id: int): int
    requires 0 <= id < |o.newIds| + |o.triedIds|
  {
    if id < |o.newIds| then o.newIds[id] else o.triedIds[id - |o.newIds|]
  }

  /** `ids` renames the entries: it is a bijection from the ids read back to the old ones. */
  ghost predicate Renames(o: Origin) {
    && (forall id | 0 <= id < |o.newIds| + |o.triedIds| ::
          OldId(o, id) in o.s.info && (o.s.info[OldId(o, id)].inTried <==> id >= |o.newIds|))
    && (forall i, j | 0 <= i < j < |o.newIds| + |o.triedIds| :: OldId(o, i) != OldId(o, j))
    && (forall known | known in o.s.info :: known in o.newIds + o.triedIds)
  }

  ghost predicate EntriesRestored(o: Origin, t: State) {
    && t.idCount == |o.newIds| + |o.triedIds|
    && (forall id :: id in t.info <==> 0 <= id < t.idCount)
    && (forall id | 0 <= id < t.idCount ::
          && OldId(o, id) in o.s.info && id in t.info
          && t.info[id] == FromRecord(ToRecord(o.s.info[OldId(o, id)])).(
                             refCount := o.s.info[OldId(o, id)].refCount,
                             inTried := o.s.info[OldId(o, id)].inTried,
                             randomPos := t.info[id].randomPos))
  }

  /** A table with the same slots filled by the same entries under their new ids. */
  ghost predicate TableRestored(o: Origin, before: Table, after: Table) {
    && (forall slot :: slot in after <==> slot in before)
    && (forall slot | slot in before ::
          0 <= after[slot] < |o.newIds| + |o.triedIds| && OldId(o, after[slot]) == before[slot])
  }

  /** The state read back is the stored one up to ids, the random order and unstored times. */
  ghost predicate StateRestored(o: Origin, t: State) {
    && t.env == o.s.env && t.key == o.s.key && t.nNew == o.s.nNew && t.nTried == o.s.nTried && t.collisions == {}
    && Renames(o) && EntriesRestored(o, t)
    && TableRestored(o, o.s.new_, t.new_) && TableRestored(o, o.s.tried, t.tried)
  }

  lemma GenuineRenames(st: Stream, o: Origin, env: Env, asmap: nat)
    requires Genuine(st, o, env, asmap)
    ensures Renames(o) && |o.newIds| == st.nNew == o.s.nNew && |o.triedIds| == st.nTried == o.s.nTried
  {
    forall id | 0 <= id < |o.newIds| + |o.triedIds|
      ensures OldId(o, id) in (if id < |o.newIds| then NewIds(o.s.info) else TriedIds(o.s.info))
    {
      assert id < |o.newIds| ==> o.newIds[id] in o.newIds;
      assert id >= |o.newIds| ==> o.triedIds[id - |o.newIds|] in o.triedIds;
    }
    forall known | known in o.s.info ensures known in o.newIds + o.triedIds {
      assert known in NewIds(o.s.info) || known in TriedIds(o.s.info);
    }
  }

  lemma NewTableRestored(st: Stream, o: Origin, info: map<int, Info>, new_: Table, pairs: seq<Pair>, env: Env,
                         asmap: nat)
    requires Genuine(st, o, env, asmap) && Filling(o, info, new_, pairs, |pairs|)
    requires PairsHold(o, pairs, NEW_BUCKET_COUNT)
    ensures TableRestored(o, o.s.new_, new_)
    ensures forall n | 0 <= n < |o.newIds| ::
              n in info && o.newIds[n] in o.s.info && info[n].refCount == o.s.info[o.newIds[n]].refCount
  {
    hide Genuine, Consistent, PairsHold, NewEntriesBack, NewSlotsBack, Refs;
    GenuineNew(st, o, env, asmap);
    GenuineConsistent(st, o, env, asmap);
    NewSlotsCovered(o, new_, pairs);
    forall n | 0 <= n < |o.newIds|
      ensures n in info && o.newIds[n] in o.s.info && info[n].refCount == o.s.info[o.newIds[n]].refCount
    {
      RefsRenamed(o, new_, n);
      EntryCounted(o.s, o.newIds[n]);
    }
  }

  lemma NewSlotsCovered(o: Origin, new_: Table, pairs: seq<Pair>)
    requires Consistent(o.s) && PairsHold(o, pairs, NEW_BUCKET_COUNT) && NewSlotsBack(o, new_, pairs, |pairs|)
    ensures forall slot :: slot in new_ <==> slot in o.s.new_
    ensures forall slot | slot in new_ :: 0 <= new_[slot] < |o.newIds| && o.s.new_[slot] == o.newIds[new_[slot]]
  {
    hide Consistent;
    forall slot | slot in o.s.new_ ensures slot in new_ {
      NewSlotsInRange(o.s);
      var i :| 0 <= i < |o.newIds| && o.newIds[i] == o.s.new_[slot] && (slot.0, i) in pairs;
      var k :| 0 <= k < |pairs| && pairs[k] == (slot.0, i);
      EntrySlot(o.s, slot);
      assert SlotIn(o.s, o.newIds[pairs[k].1], pairs[k].0) == slot;
    }
  }

  lemma EntrySlot(s: State, slot: Slot)
    requires Consistent(s) && slot in s.new_
    ensures s.new_[slot] in s.info && SlotIn(s, s.new_[slot], slot.0) == slot
  {
  }

  lemma EntryCounted(s: State, id: int)
    requires Consistent(s) && id in s.info
    ensures s.info[id].refCount == |Refs(s.new_, id)|
  {
  }

  lemma RefsRenamed(o: Origin, new_: Table, n: int)
    requires 0 <= n < |o.newIds| && forall i, j | 0 <= i < j < |o.newIds| :: o.newIds[i] != o.newIds[j]
    requires forall slot :: slot in new_ <==> slot in o.s.new_
    requires forall slot | slot in new_ :: 0 <= new_[slot] < |o.newIds| && o.s.new_[slot] == o.newIds[new_[slot]]
    ensures Refs(new_, n) == Refs(o.s.new_, o.newIds[n])
  {
    forall slot ensures slot in Refs(new_, n) <==> slot in Refs(o.s.new_, o.newIds[n]) {
      if slot in new_ {
        assert new_[slot] != n ==> o.newIds[new_[slot]] != o.newIds[n];
      }
    }
  }

  lemma TriedTableRestored(st: Stream, o: Origin, tried: Table, env: Env, asmap: nat)
    requires Genuine(st, o, env, asmap) && TriedSlotsBack(o, tried, |o.triedIds|)
    ensures TableRestored(o, o.s.tried, tried)
  {
    hide Genuine, Consistent;
    assert o.triedIds[..|o.triedIds|] == o.triedIds;
    forall slot | slot in o.s.tried ensures slot in tried {
      TriedIdListed(st, o, env, asmap, slot);
    }
  }

  lemma TriedIdListed(st: Stream, o: Origin, env: Env, asmap: nat, slot: Slot)
    requires Genuine(st, o, env, asmap) && slot in o.s.tried
    ensures o.s.tried[slot] in o.triedIds
  {
    var id := o.s.tried[slot];
    assert id in TriedIds(o.s.info);
  }

  /** A stored state comes back whole. */
  lemma LoadedIsRestored(st: Stream, o: Origin, t: State, pairs: seq<Pair>, asmap: nat)
    requires Genuine(st, o, t.env, asmap) && t.key == st.key
    requires t.nNew == st.nNew && t.nTried == st.nTried && t.collisions == {}
    requires forall id :: id in t.info <==> 0 <= id < t.idCount
    requires Filling(o, t.info, t.new_, pairs, |pairs|) && PairsHold(o, pairs, NEW_BUCKET_COUNT)
    requires TriedBack(o, t.info, t.tried, t.idCount, st.nTried)
    ensures StateRestored(o, t)
  {
    GenuineRenames(st, o, t.env, asmap);
    GenuineNew(st, o, t.env, asmap);
    NewTableRestored(st, o, t.info, t.new_, pairs, t.env, asmap);
    TriedTableRestored(st, o, t.tried, t.env, asmap);
    forall id | 0 <= id < t.idCount
      ensures OldId(o, id) in o.s.info && id in t.info
      ensures t.info[id] == FromRecord(ToRecord(o.s.info[OldId(o, id)])).(
                              refCount := o.s.info[OldId(o, id)].refCount,
                              inTried := o.s.info[OldId(o, id)].inTried,
                              randomPos := t.info[id].randomPos)
    {
      EntryRestored(st, o, t, pairs, asmap, id);
    }
  }

  lemma EntryRestored(st: Stream, o: Origin, t: State, pairs: seq<Pair>, asmap: nat, id: int)
    requires Genuine(st, o, t.env, asmap) && |o.triedIds| == st.nTried
    requires Filling(o, t.info, t.new_, pairs, |pairs|) && PairsHold(o, pairs, NEW_BUCKET_COUNT)
    requires TriedBack(o, t.info, t.tried, t.idCount, st.nTried)
    requires 0 <= id < |o.newIds| + |o.triedIds|
    ensures OldId(o, id) in o.s.info && id in t.info && Rebuilt(o.s.info[OldId(o, id)], t.info[id])
    ensures t.info[id].refCount == o.s.info[OldId(o, id)].refCount
  {
    hide NewSlotsBack, CountsBack, PairsHold, TriedSlotsBack, Genuine, Consistent;
    GenuineConsistent(st, o, t.env, asmap);
    if id < |o.newIds| {
      NewTableRestored(st, o, t.info, t.new_, pairs, t.env, asmap);
    } else {
      GenuineTried(st, o, t.env, asmap, id - |o.newIds|);
      TriedHasNoCount(o.s, OldId(o, id));
    }
  }

  lemma TriedHasNoCount(s: State, id: int)
    requires Consistent(s) && id in s.info && s.info[id].inTried
    ensures s.info[id].refCount == 0
  {
  }

  // ---------------------------------------------------------------------------------------
  // A restored state passes the self-check

  ghost function Range(lo: int, hi: int): (r: set<int>)
    requires lo <= hi
    ensures |r| == hi - lo && forall i :: i in r <==> lo <= i < hi
    decreases hi - lo
  {
    if lo == hi then {} else Range(lo, hi - 1) + {hi - 1}
  }

  lemma RestoredSizes(o: Origin, t: State)
    requires Renames(o) && EntriesRestored(o, t)
    ensures |NewIds(t.info)| == |o.newIds| && |TriedIds(t.info)| == |o.triedIds|
  {
    var low, high := Range(0, |o.newIds|), Range(|o.newIds|, |o.newIds| + |o.triedIds|);
    forall id ensures (id in NewIds(t.info) <==> id in low) && (id in TriedIds(t.info) <==> id in high) {
    }
    assert NewIds(t.info) == low && TriedIds(t.info) == high;
  }

  lemma RestoredEntryChecks(o: Origin, t: State, id: int)
    requires Consistent(o.s) && Renames(o) && EntriesRestored(o, t)
    requires RandomOk(t.info, t.random) && AddrBack(t.info, t.addr)
    requires forall x | x in t.info :: t.info[x].addr in t.addr
    requires id in t.info
    ensures EntryChecks(t, id)
  {
    var other := t.addr[t.info[id].addr];
    assert other in t.info && t.info[other].addr == t.info[id].addr;
    StoredEntry(o.s, OldId(o, id), OldId(o, other));
    assert OldId(o, other) == OldId(o, id);
    assert other == id;
  }

  lemma StoredEntry(s: State, id: int, other: int)
    requires Consistent(s) && id in s.info && other in s.info
    ensures s.info[id].addr == s.info[other].addr ==> id == other
    ensures s.info[id].inTried ==> s.info[id].lastSuccess != 0 && s.info[id].refCount == 0
    ensures !s.info[id].inTried ==> 0 < s.info[id].refCount <= NEW_BUCKETS_PER_ADDRESS
    ensures s.info[id].lastSuccess >= 0
  {
  }

  lemma RestoredNewChecks(o: Origin, t: State, slot: Slot)
    requires Consistent(o.s) && StateRestored(o, t) && slot in t.new_
    ensures NewSlotChecks(t, slot)
  {
    EntrySlot(o.s, slot);
    NewHolder(o.s, slot);
  }

  lemma NewHolder(s: State, slot: Slot)
    requires Consistent(s) && slot in s.new_
    ensures s.new_[slot] in s.info && !s.info[s.new_[slot]].inTried
  {
  }

  lemma RestoredTriedChecks(o: Origin, t: State, slot: Slot)
    requires Consistent(o.s) && StateRestored(o, t) && slot in t.tried
    ensures TriedSlotChecks(t, slot)
  {
    TriedHolder(o.s, slot);
  }

  lemma TriedHolder(s: State, slot: Slot)
    requires Consistent(s) && slot in s.tried
    ensures s.tried[slot] in s.info && s.info[s.tried[slot]].inTried
    ensures slot == s.env.TriedSlot(s.key, s.info[s.tried[slot]].addr)
  {
  }

  /** The slots of an entry are the ones it had. */
  lemma RestoredRefs(o: Origin, before: Table, after: Table, id: int)
    requires Renames(o) && TableRestored(o, before, after) && 0 <= id < |o.newIds| + |o.triedIds|
    ensures Refs(after, id) == Refs(before, OldId(o, id))
  {
    forall slot ensures slot in Refs(after, id) <==> slot in Refs(before, OldId(o, id)) {
      if slot in after {
        assert after[slot] != id ==> OldId(o, after[slot]) != OldId(o, id);
      }
    }
  }

  lemma RestoredPassesCheck(o: Origin, t: State)
    requires Consistent(o.s) && StateRestored(o, t) && o.s.nNew == |o.newIds| && o.s.nTried == |o.triedIds|
    requires RandomOk(t.info, t.random) && AddrBack(t.info, t.addr)
    requires forall id | id in t.info :: t.info[id].addr in t.addr
    ensures CheckOk(t)
  {
    hide Consistent, RandomOk, EntryChecks, NewSlotChecks, TriedSlotChecks, TableRestored, Refs;
    RestoredSizes(o, t);
    RandomSize(t.info, t.random);
    ConsistentKey(o.s);
    forall id | id in t.info ensures EntryChecks(t, id) {
      RestoredEntryChecks(o, t, id);
    }
    forall slot | slot in t.new_ ensures NewSlotChecks(t, slot) {
      RestoredNewChecks(o, t, slot);
    }
    forall slot | slot in t.tried ensures TriedSlotChecks(t, slot) {
      RestoredTriedChecks(o, t, slot);
    }
    forall id | id in t.info
      ensures t.info[id].inTried ==> Refs(t.tried, id) != {}
      ensures t.info[id].refCount == |Refs(t.new_, id)|
    {
      RestoredRefs(o, o.s.tried, t.tried, id);
      RestoredRefs(o, o.s.new_, t.new_, id);
      EntryCounted(o.s, OldId(o, id));
      TriedHasSlot(o.s, OldId(o, id));
    }
  }

  lemma ConsistentKey(s: State)
    requires Consistent(s)
    ensures s.key != 0
  {
  }

  lemma TriedHasSlot(s: State, id: int)
    requires Consistent(s) && id in s.info
    ensures s.info[id].inTried ==> Refs(s.tried, id) != {}
  {
    if s.info[id].inTried {
      TriedHome(s, id);
      assert s.env.TriedSlot(s.key, s.info[id].addr) in Refs(s.tried, id);
    }
  }

  // ---------------------------------------------------------------------------------------
  // Unserialize

  lemma LoadingAfterFill(s: State, info: map<int, Info>, new_: Table)
    requires Loading(s) && SameButCount(s.info, info)
    ensures Loading(s.(info := info, new_ := new_))
  {
    forall a | a in s.addr ensures s.addr[a] in info && info[s.addr[a]].addr == a {
      var id := s.addr[a];
      assert id in s.info;
    }
    forall i | 0 <= i < |s.random| ensures s.random[i] in info && info[s.random[i]].randomPos == i {
      var id := s.random[i];
      assert id in s.info;
    }
  }

  lemma ReadingIsLoading(st: Stream, s: State)
    requires Reading(st, s.info, s.addr, s.random, s.idCount) && s.collisions == {}
    ensures Loading(s)
  {
  }

  /** Reads entries and references into an empty object, and drops the entries that got none. */
  method LoadEntries(m: AddrManager, st: Stream, nBuckets: int, asmap: nat, ghost o: Origin)
    requires m.Shaped() && m.Value() == Initial(m.env, st.key).(nNew := st.nNew, nTried := st.nTried)
    requires 0 <= st.nNew <= |st.newRecords| && 0 <= st.nTried <= |st.triedRecords|
    requires nBuckets == BucketsStored(st) <= |st.buckets|
    modifies m, m.vvNew, m.vvTried
    ensures Loading(m.Value()) && LoadedFrom(st, asmap, m.Value())
    ensures Genuine(st, o, m.env, asmap) ==> StateRestored(o, m.Value()) && CheckOk(m.Value())
  {
    hide LoadedFrom, TriedRead, ShelveAll, PairsOf, Shelved, SameButPosition, Front;
    hide Genuine, Contents, Reading, NewRead, TriedBack, Filling;
    hide PairsHold, Loading, CheckOk, StateRestored, SameButCount;
    GenuineHeader(st, o, m.env, asmap);
    ReadNew(m, st);
    var lost := ReadTried(m, st, o, asmap);
    m.nTried := m.nTried - lost;
    var pairs := CollectPairs(st, nBuckets, o, m.env, asmap);
    var storedAsmap := if st.format >= V2_ASMAP then st.asmap else 0;
    var restore := nBuckets == NEW_BUCKET_COUNT && storedAsmap == asmap;
    ReadingKeys(st, m.Value());
    ReadingIsLoading(st, m.Value());
    ghost var loaded := m.Value();
    ReadCovers(st, m.env, m.mapInfo, Contents(m.vvTried), m.nIdCount);
    if Genuine(st, o, m.env, asmap) {
      FillingStart(st, o, m.mapInfo, m.mapAddr, m.vRandom, m.nIdCount, pairs, m.env, asmap);
    }
    FillNew(m, pairs, restore, st, o, asmap);
    LoadingAfterFill(loaded, m.mapInfo, Contents(m.vvNew));
    if Genuine(st, o, m.env, asmap) {
      FilledIsRestored(st, o, loaded, m.Value(), pairs, asmap);
    }
    ghost var filled := m.Value();
    Prune(m);
    LoadedIs(st, asmap, loaded, filled, m.Value());
  }

  /**
   Loads a stream into a fresh object. Whatever the stream holds, the load either fails or ends
   in a consistent state, made of exactly what the stream gives slots to; and a stream stored from a
   consistent state of valid addresses, under the same address map, always loads and restores that
   state, losing nothing.
   */
  method Unserialize(m: AddrManager, st: Stream, asmap: nat, ghost o: Origin) returns (r: Outcome)
    requires m.Shaped() && m.Value() == Initial(m.env, m.nKey)
    modifies m, m.vvNew, m.vvTried
    ensures r.Restored? ==> Consistent(m.Value())
    ensures Genuine(st, o, m.env, asmap) ==> r.Restored? && StateRestored(o, m.Value())
    ensures Readable(st) ==> LoadedFrom(st, asmap, m.Value()) && (r.Restored? <==> CheckOk(m.Value()))
    ensures !Readable(st) ==> r.Failed?
  {
    hide LoadedFrom, Genuine, Contents, Loading, CheckOk, StateRestored;
    GenuineHeader(st, o, m.env, asmap);
    if st.compat < INCOMPATIBILITY_BASE {
      return Failed("compat value too low");
    }
    if st.compat - INCOMPATIBILITY_BASE > FILE_FORMAT {
      return Failed("unsupported format");
    }
    m.nKey, m.nNew, m.nTried := st.key, st.nNew, st.nTried;
    var nBuckets := BucketsStored(st);
    if m.nNew > NEW_BUCKET_COUNT * BUCKET_SIZE || m.nNew < 0 {
      return Failed("nNew out of range");
    }
    if m.nTried > TRIED_BUCKET_COUNT * BUCKET_SIZE || m.nTried < 0 {
      return Failed("nTried out of range");
    }
    if st.nNew > |st.newRecords| || st.nTried > |st.triedRecords| || nBuckets > |st.buckets| {
      return Failed("end of data");
    }
    LoadEntries(m, st, nBuckets, asmap, o);
    var code := m.CheckAddrman();
    if code != 0 {
      return Failed("consistency check failed");
    }
    forall slot | slot in Contents(m.vvNew) ensures 0 <= slot.0 < NEW_BUCKET_COUNT {
      ContentsInRange(m.vvNew, slot);
    }
    CheckedIsConsistent(m.Value());
    r := Restored;
  }

  /** The format is known, the counts are in range, and the stream is as long as they say. */
  predicate Readable(st: Stream) {
    && INCOMPATIBILITY_BASE <= st.compat <= INCOMPATIBILITY_BASE + FILE_FORMAT
    && 0 <= st.nNew <= NEW_BUCKET_COUNT * BUCKET_SIZE && st.nNew <= |st.newRecords|
    && 0 <= st.nTried <= TRIED_BUCKET_COUNT * BUCKET_SIZE && st.nTried <= |st.triedRecords|
    && BucketsStored(st) <= |st.buckets|
  }

  /** The number of buckets as stored, and whether they are those of this manager. */
  function BucketsStored(st: Stream): int {
    if st.format >= V1_DETERMINISTIC then FlipBit30(st.nBuckets) else st.nBuckets
  }

  predicate Restores(st: Stream, asmap: nat) {
    BucketsStored(st) == NEW_BUCKET_COUNT && (if st.format >= V2_ASMAP then st.asmap else 0) == asmap
  }

  /** The entries and the new table once every reference has been offered its slots. */
  ghost function Offered(env: Env, st: Stream, asmap: nat): Shelf {
    var kept := KeptTried(env, st.key, Front(st.triedRecords, st.nTried));
    var news := Front(st.newRecords, st.nNew);
    var pairs := PairsOf(Front(st.buckets, BucketsStored(st)), st.nNew);
    var info := EntriesRead(news, kept);
    ShelveAll(env, st.key, Shelf(info, map[]), pairs, Restores(st, asmap))
  }

  /**
   What any stream leaves: the tried table holds the first valid record for each slot, the new table what the
   references were given, and the entries are those that are in one of the two, as they were stored.
   */
  ghost predicate LoadedFrom(st: Stream, asmap: nat, s: State) {
    var kept := KeptTried(s.env, st.key, Front(st.triedRecords, st.nTried));
    && s.key == st.key && s.nTried == |kept|
    && s.tried == TriedTable(s.env, st.key, kept, st.nNew)
    && s.new_ == Offered(s.env, st, asmap).new_
    && SameButPosition(Shelved(Offered(s.env, st, asmap).info), s.info)
  }

  lemma ReadCovers(st: Stream, env: Env, info: map<int, Info>, tried: Table, idCount: int)
    requires TriedRead(st, env, info, tried, idCount, st.nTried)
    ensures Front(st.newRecords, st.nNew) == st.newRecords[..st.nNew]
    ensures Front(st.triedRecords, st.nTried) == st.triedRecords[..st.nTried]
    ensures forall id :: id in info <==> 0 <= id < idCount
    ensures idCount >= st.nNew
  {
  }

  lemma LoadedIs(st: Stream, asmap: nat, loaded: State, filled: State, s: State)
    requires TriedRead(st, loaded.env, loaded.info, loaded.tried, loaded.idCount, st.nTried)
    requires loaded.new_ == map[] && loaded.key == st.key
    requires loaded.nTried == |KeptTried(loaded.env, st.key, st.triedRecords[..st.nTried])|
    requires filled == loaded.(info := filled.info, new_ := filled.new_)
    requires Shelf(filled.info, filled.new_) ==
             ShelveAll(loaded.env, st.key, Shelf(loaded.info, map[]),
                       PairsOf(Front(st.buckets, BucketsStored(st)), st.nNew), Restores(st, asmap))
    requires SameTables(filled, s) && SameButPosition(Shelved(filled.info), s.info)
    ensures LoadedFrom(st, asmap, s)
  {
    hide ShelveAll, PairsOf, Shelved, SameButPosition, KeptTried, TriedTable, EntriesRead;
    ReadCovers(st, loaded.env, loaded.info, loaded.tried, loaded.idCount);
  }

  lemma GenuineHeader(st: Stream, o: Origin, env: Env, asmap: nat)
    ensures Genuine(st, o, env, asmap) ==>
              && st.format == FILE_FORMAT && st.compat == INCOMPATIBILITY_BASE + FILE_FORMAT
              && FlipBit30(st.nBuckets) == NEW_BUCKET_COUNT == |st.buckets| && st.asmap == asmap
              && 0 <= st.nNew == |st.newRecords| <= NEW_BUCKET_COUNT * BUCKET_SIZE
              && 0 <= st.nTried == |st.triedRecords| <= TRIED_BUCKET_COUNT * BUCKET_SIZE
  {
    if Genuine(st, o, env, asmap) {
      FlipBit30Twice(NEW_BUCKET_COUNT);
      TablesBoundCounts(o.s);
    }
  }

  lemma ReadingKeys(st: Stream, s: State)
    requires Reading(st, s.info, s.addr, s.random, s.idCount)
    ensures forall id :: id in s.info <==> 0 <= id < s.idCount
    ensures st.nNew <= s.idCount && RandomOk(s.info, s.random) && AddrBack(s.info, s.addr)
    ensures forall id | id in s.info :: s.info[id].addr in s.addr
  {
  }

  /** What the stages of a load add up to for a stored state. */
  lemma FilledIsRestored(st: Stream, o: Origin, loaded: State, t: State, pairs: seq<Pair>, asmap: nat)
    requires Genuine(st, o, t.env, asmap) && PairsHold(o, pairs, NEW_BUCKET_COUNT)
    requires Reading(st, loaded.info, loaded.addr, loaded.random, loaded.idCount)
    requires TriedBack(o, loaded.info, loaded.tried, loaded.idCount, st.nTried)
    requires SameButCount(loaded.info, t.info) && Filling(o, t.info, t.new_, pairs, |pairs|)
    requires forall id | id in t.info && id >= |o.newIds| :: t.info[id] == loaded.info[id]
    requires t == loaded.(info := t.info, new_ := t.new_)
    requires t.key == st.key && t.nNew == st.nNew && t.nTried == st.nTried && t.collisions == {}
    ensures StateRestored(o, t) && CheckOk(t)
    ensures forall id | id in t.info :: t.info[id].inTried || t.info[id].refCount != 0
  {
    hide Genuine, PairsHold, Filling, TriedSlotsBack, CheckOk, Consistent;
    hide RandomOk, StateRestored, TriedEntriesBack, EntryChecks;
    ReadingKeys(st, loaded);
    FilledIndexes(loaded.info, t.info, loaded.addr, loaded.random, loaded.idCount);
    TriedEntriesKept(o, loaded.info, t.info, st.nTried);
    LoadedIsRestored(st, o, t, pairs, asmap);
    GenuineRenames(st, o, t.env, asmap);
    GenuineConsistent(st, o, t.env, asmap);
    RestoredPassesCheck(o, t);
    CheckedHasSlot(t);
  }

  lemma FilledIndexes(info: map<int, Info>, after: map<int, Info>, addr: map<Service, int>, random: seq<int>,
                      idCount: int)
    requires SameButCount(info, after) && RandomOk(info, random) && AddrBack(info, addr)
    requires forall id :: id in info <==> 0 <= id < idCount
    requires forall id | id in info :: info[id].addr in addr
    ensures RandomOk(after, random) && AddrBack(after, addr)
    ensures forall id :: id in after <==> 0 <= id < idCount
    ensures forall id | id in after :: after[id].addr in addr
  {
    forall a | a in addr ensures addr[a] in after && after[addr[a]].addr == a {
      var id := addr[a];
      assert id in info;
    }
    forall i | 0 <= i < |random| ensures random[i] in after && after[random[i]].randomPos == i {
      var id := random[i];
      assert id in info;
    }
  }

  lemma TriedEntriesKept(o: Origin, info: map<int, Info>, after: map<int, Info>, j: int)
    requires TriedEntriesBack(o, info, j) && SameButCount(info, after)
    requires forall id | id in after && id >= |o.newIds| :: after[id] == info[id]
    ensures TriedEntriesBack(o, after, j)
  {
    forall id | |o.newIds| <= id < |o.newIds| + j ensures id in after && after[id] == info[id] {
      assert id in info;
    }
  }

  lemma CheckedHasSlot(s: State)
    requires CheckOk(s)
    ensures forall id | id in s.info :: s.info[id].inTried || s.info[id].refCount != 0
  {
    forall id | id in s.info ensures s.info[id].inTried || s.info[id].refCount != 0 {
      assert EntryChecks(s, id);
    }
  }

  // ---------------------------------------------------------------------------------------
  // The counts never exceed the size of the tables

  /** The positions of one bucket. */
  ghost function Row(b: int, m: nat): (r: set<Slot>)
    ensures |r| == m && forall slot :: slot in r <==> slot.0 == b && 0 <= slot.1 < m
  {
    if m == 0 then {} else
      var fewer := Row(b, m - 1);
      assert forall slot: Slot | slot.0 == b && slot.1 == m - 1 :: slot == (b, m - 1);
      fewer + {(b, m - 1)}
  }

  /** The positions of the first `n` buckets. */
  ghost function Grid(n: nat): (r: set<Slot>)
    ensures |r| == n * BUCKET_SIZE && forall slot :: slot in r <==> 0 <= slot.0 < n && 0 <= slot.1 < BUCKET_SIZE
  {
    if n == 0 then {} else
      var fewer, row := Grid(n - 1), Row(n - 1, BUCKET_SIZE);
      assert fewer !! row;
      fewer + row
  }

  lemma {:induction false} HoldersBound(t: Table, ids: set<int>)
    requires forall id | id in ids :: Refs(t, id) != {}
    ensures |ids| <= |t.Keys|
    decreases |ids|
  {
    if ids != {} {
      var id := Element(ids);
      var rest := t - Refs(t, id);
      forall other | other in ids - {id} ensures Refs(rest, other) != {} {
        RefsEraseAll(t, id, other);
      }
      HoldersBound(rest, ids - {id});
      var slot := Element(Refs(t, id));
      SubsetSize(rest.Keys + {slot}, t.Keys);
    }
  }

  lemma TriedBound(s: State)
    requires Consistent(s)
    ensures |TriedIds(s.info)| <= TRIED_BUCKET_COUNT * BUCKET_SIZE
  {
    hide AddrOk, RandomOk, TimesOk, CollisionsOk, IdsOk, NewOk, RefsOk, CountsOk, Refs, Grid, Row;
    forall slot | slot in s.tried ensures slot in Grid(TRIED_BUCKET_COUNT) {
      TriedHolder(s, slot);
    }
    SubsetSize(s.tried.Keys, Grid(TRIED_BUCKET_COUNT));
    forall id | id in TriedIds(s.info) ensures Refs(s.tried, id) != {} {
      TriedHasSlot(s, id);
    }
    HoldersBound(s.tried, TriedIds(s.info));
  }

  lemma NewBound(s: State)
    requires Consistent(s)
    ensures |NewIds(s.info)| <= NEW_BUCKET_COUNT * BUCKET_SIZE
  {
    hide AddrOk, RandomOk, TimesOk, CollisionsOk, IdsOk, TriedOk, CountsOk, Refs, Grid, Row;
    NewSlotsInRange(s);
    SubsetSize(s.new_.Keys, Grid(NEW_BUCKET_COUNT));
    forall id | id in NewIds(s.info) ensures Refs(s.new_, id) != {} {
      assert id in s.info;
    }
    HoldersBound(s.new_, NewIds(s.info));
  }

  /** Each table's capacity bounds the count that is written out for it. */
  lemma TablesBoundCounts(s: State)
    requires Consistent(s)
    ensures 0 <= s.nNew <= NEW_BUCKET_COUNT * BUCKET_SIZE && 0 <= s.nTried <= TRIED_BUCKET_COUNT * BUCKET_SIZE
  {
    hide AddrOk, RandomOk, TimesOk, CollisionsOk, IdsOk, NewOk, TriedOk, RefsOk;
    TriedBound(s);
    NewBound(s);
  }

  /** Stored and read back: the state survives, up to the renaming of ids. */
  method RoundTrip(m: AddrManager, order: seq<int>, asmap: nat, n: AddrManager) returns (r: Outcome, ghost o: Origin)
    requires m.Shaped() && Consistent(m.Value()) && Enumerates(order, m.mapInfo.Keys)
    requires forall id | id in m.mapInfo :: m.env.valid(m.mapInfo[id].addr)
    requires n.Shaped() && n.env == m.env && n.Value() == Initial(n.env, n.nKey)
    requires {m, m.vvNew, m.vvTried} !! {n, n.vvNew, n.vvTried}
    modifies n, n.vvNew, n.vvTried
    ensures r.Restored? && o.s == m.Value() && StateRestored(o, n.Value()) && Consistent(n.Value())
  {
    hide Stored, Consistent, StateRestored, Contents;
    var st;
    ghost var newIds, triedIds;
    st, newIds, triedIds := Serialize(m, order, asmap);
    o := Origin(m.Value(), newIds, triedIds);
    r := Unserialize(n, st, asmap, o);
  }
}
