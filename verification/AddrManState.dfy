/**
 The address manager's tables as values: what its state is, what makes it consistent, and
 what each elementary update does to it.
 */
module AddrManState {
  import opened Wrappers

  const TRIED_BUCKET_COUNT := 256
  const NEW_BUCKET_COUNT := 1024
  const BUCKET_SIZE := 64
  const NEW_BUCKETS_PER_ADDRESS := 8
  const SET_TRIED_COLLISION_SIZE := 10

  // Durations, in seconds.
  const MINUTE := 60
  const HOUR := 3600
  const DAY := 86400
  const HORIZON := 30 * DAY
  const RETRIES := 3
  const MAX_FAILURES := 10
  const MIN_FAIL := 7 * DAY
  const REPLACEMENT := 4 * HOUR
  const TEST_WINDOW := 40 * MINUTE

  type Service = nat  // an address with its port
  type Host = nat     // an address without a port
  type Slot = (int, int)
  type Table = map<Slot, int>

  /**
   Everything outside the address manager that it consults: the keyed hashes (left arbitrary),
   the classification of addresses and the projection of a service to its host.
   */
  datatype Env = Env(
    triedHash: (nat, Service) -> nat,
    newHash: (nat, Service, Host) -> nat,
    positionHash: (nat, Service, bool, int) -> nat,
    valid: Service -> bool,
    routable: Service -> bool,
    host: Service -> Host,
    network: Service -> nat)
  {
    function TriedBucket(key: nat, a: Service): int {
      triedHash(key, a) % TRIED_BUCKET_COUNT
    }

    function NewBucket(key: nat, a: Service, source: Host): int {
      newHash(key, a, source) % NEW_BUCKET_COUNT
    }

    function Position(key: nat, a: Service, isNew: bool, bucket: int): int {
      positionHash(key, a, isNew, bucket) % BUCKET_SIZE
    }

    function TriedSlot(key: nat, a: Service): Slot {
      (TriedBucket(key, a), Position(key, a, false, TriedBucket(key, a)))
    }

    function NewSlot(key: nat, a: Service, source: Host): Slot {
      (NewBucket(key, a, source), Position(key, a, true, NewBucket(key, a, source)))
    }

    predicate IsRoutable(a: Service) { valid(a) && routable(a) }
  }

  datatype Info = Info(
    addr: Service,
    time: int,
    services: set<nat>,
    source: Host,
    lastTry: int,
    lastCountAttempt: int,
    lastSuccess: int,
    attempts: int,
    refCount: int,
    inTried: bool,
    randomPos: int)
  {
    predicate IsTerrible(now: int) {
      if now - lastTry <= MINUTE then false
      else if time > now + 10 * MINUTE then true
      else if now - time > HORIZON then true
      else if lastSuccess == 0 && attempts >= RETRIES then true
      else now - lastSuccess > MIN_FAIL && attempts >= MAX_FAILURES
    }
  }

  datatype State = State(
    env: Env,
    key: nat,
    idCount: int,
    info: map<int, Info>,
    addr: map<Service, int>,
    random: seq<int>,
    tried: Table,
    new_: Table,
    nTried: int,
    nNew: int,
    lastGood: int,
    collisions: set<int>)

  // ---------------------------------------------------------------------------------------
  // Consistency

  ghost function Refs(t: Table, id: int): set<Slot> {
    set slot | slot in t && t[slot] == id
  }

  ghost function TriedIds(info: map<int, Info>): set<int> {
    set id | id in info && info[id].inTried
  }

  ghost function NewIds(info: map<int, Info>): set<int> {
    set id | id in info && !info[id].inTried
  }

  ghost predicate IdsOk(info: map<int, Info>, idCount: int) {
    0 <= idCount && forall id | id in info :: 0 <= id < idCount
  }

  /** `addr` and `info` are mutually inverse. */
  ghost predicate AddrOk(info: map<int, Info>, addr: map<Service, int>) {
    && (forall id | id in info :: info[id].addr in addr && addr[info[id].addr] == id)
    && (forall a | a in addr :: addr[a] in info && info[addr[a]].addr == a)
  }

  /** `random` lists every id exactly once, at the position the entry records. */
  ghost predicate RandomOk(info: map<int, Info>, random: seq<int>) {
    && (forall id | id in info :: 0 <= info[id].randomPos < |random| && random[info[id].randomPos] == id)
    && (forall i | 0 <= i < |random| :: random[i] in info && info[random[i]].randomPos == i)
  }

  ghost predicate NewOk(env: Env, key: nat, info: map<int, Info>, new_: Table) {
    forall slot | slot in new_ ::
      && 0 <= slot.0 < NEW_BUCKET_COUNT
      && new_[slot] in info
      && !info[new_[slot]].inTried
      && slot.1 == env.Position(key, info[new_[slot]].addr, true, slot.0)
  }

  ghost predicate TriedOk(env: Env, key: nat, info: map<int, Info>, tried: Table) {
    && (forall slot | slot in tried ::
          && tried[slot] in info
          && info[tried[slot]].inTried
          && slot == env.TriedSlot(key, info[tried[slot]].addr))
    && (forall id | id in info && info[id].inTried ::
          && env.TriedSlot(key, info[id].addr) in tried
          && tried[env.TriedSlot(key, info[id].addr)] == id)
  }

  /**
   Reference counts equal the number of new slots held. Between operations `limbo` is empty:
   only an entry on its way into or out of a table may be in neither.
   */
  ghost predicate RefsOk(info: map<int, Info>, new_: Table, limbo: set<int>) {
    && limbo <= info.Keys
    && (forall id | id in info ::
          && info[id].refCount == |Refs(new_, id)| <= NEW_BUCKETS_PER_ADDRESS
          && (info[id].refCount == 0 <==> info[id].inTried || id in limbo)
          && (id in limbo ==> !info[id].inTried))
  }

  /** The counters; `extra` entries outside the tried table are momentarily not counted. */
  ghost predicate CountsOk(info: map<int, Info>, nNew: int, nTried: int, extra: int) {
    nTried == |TriedIds(info)| && nNew + extra == |NewIds(info)|
  }

  ghost predicate TimesOk(info: map<int, Info>) {
    forall id | id in info ::
      && info[id].lastTry >= 0
      && info[id].lastSuccess >= 0
      && (info[id].inTried ==> info[id].lastSuccess != 0)
  }

  /** A recorded collision that still names an entry names one whose tried slot is taken. */
  ghost predicate CollisionsOk(env: Env, key: nat, info: map<int, Info>, taken: set<Slot>, collisions: set<int>,
                               idCount: int) {
    forall id | id in collisions ::
      id < idCount && (id in info ==> env.TriedSlot(key, info[id].addr) in taken)
  }

  /**
   What an operation has left unfinished: entries in neither table, how many of them the count
   of new entries leaves out, and tried slots that were emptied and are about to be refilled.
   */
  datatype Pending = Pending(limbo: set<int>, extra: int, freed: set<Slot>)

  const SETTLED := Pending({}, 0, {})

  ghost predicate Inv(s: State, p: Pending) {
    && s.key != 0
    && IdsOk(s.info, s.idCount)
    && AddrOk(s.info, s.addr)
    && RandomOk(s.info, s.random)
    && NewOk(s.env, s.key, s.info, s.new_)
    && TriedOk(s.env, s.key, s.info, s.tried)
    && RefsOk(s.info, s.new_, p.limbo)
    && CountsOk(s.info, s.nNew, s.nTried, p.extra)
    && TimesOk(s.info)
    && CollisionsOk(s.env, s.key, s.info, s.tried.Keys + p.freed, s.collisions, s.idCount)
  }

  ghost predicate Consistent(s: State) {
    Inv(s, SETTLED)
  }

  // ---------------------------------------------------------------------------------------
  // Cardinality of the index sets

  lemma RefsInsert(t: Table, slot: Slot, id: int, other: int)
    requires slot !in t
    ensures Refs(t[slot := id], other) == Refs(t, other) + (if other == id then {slot} else {})
    ensures |Refs(t[slot := id], other)| == |Refs(t, other)| + (if other == id then 1 else 0)
  {
    assert Refs(t[slot := id], other) == Refs(t, other) + (if other == id then {slot} else {});
  }

  lemma RefsErase(t: Table, slot: Slot, other: int)
    requires slot in t
    ensures Refs(t - {slot}, other) == Refs(t, other) - {slot}
    ensures |Refs(t - {slot}, other)| == |Refs(t, other)| - (if other == t[slot] then 1 else 0)
  {
    assert Refs(t - {slot}, other) == Refs(t, other) - {slot};
    if other != t[slot] {
      assert Refs(t, other) - {slot} == Refs(t, other);
    } else {
      assert slot in Refs(t, other);
    }
  }

  lemma RefsEraseAll(t: Table, id: int, other: int)
    ensures Refs(t - Refs(t, id), other) == if other == id then {} else Refs(t, other)
  {
  }

  lemma IdsErase(info: map<int, Info>, id: int)
    requires id in info && !info[id].inTried
    ensures TriedIds(info - {id}) == TriedIds(info)
    ensures |NewIds(info - {id})| == |NewIds(info)| - 1
  {
    assert TriedIds(info - {id}) == TriedIds(info);
    assert NewIds(info - {id}) == NewIds(info) - {id};
    assert id in NewIds(info);
  }

  lemma IdsInsert(info: map<int, Info>, id: int, x: Info)
    requires id !in info && !x.inTried
    ensures TriedIds(info[id := x]) == TriedIds(info)
    ensures |NewIds(info[id := x])| == |NewIds(info)| + 1
  {
    var after := info[id := x];
    forall k ensures k in TriedIds(after) <==> k in TriedIds(info) {
      assert k != id ==> (k in after <==> k in info);
    }
    forall k ensures k in NewIds(after) <==> k in NewIds(info) + {id} {
      assert k != id ==> (k in after <==> k in info);
    }
    assert NewIds(after) == NewIds(info) + {id} && id !in NewIds(info);
  }

  lemma IdsMove(info: map<int, Info>, id: int, x: Info)
    requires id in info && info[id].inTried != x.inTried
    ensures |TriedIds(info[id := x])| == |TriedIds(info)| + (if x.inTried then 1 else -1)
    ensures |NewIds(info[id := x])| == |NewIds(info)| - (if x.inTried then 1 else -1)
  {
    if x.inTried {
      assert TriedIds(info[id := x]) == TriedIds(info) + {id};
      assert NewIds(info[id := x]) == NewIds(info) - {id};
      assert id in NewIds(info);
    } else {
      assert NewIds(info[id := x]) == NewIds(info) + {id};
      assert TriedIds(info[id := x]) == TriedIds(info) - {id};
      assert id in TriedIds(info);
    }
  }

  // ---------------------------------------------------------------------------------------
  // What survives a change of entry fields

  /** The same entries under the same addresses, each still in the same table. */
  ghost predicate SameShape(info: map<int, Info>, after: map<int, Info>) {
    && (forall id :: id in after <==> id in info)
    && forall id | id in info :: after[id].addr == info[id].addr && after[id].inTried == info[id].inTried
  }

  lemma ShapeAddr(info: map<int, Info>, after: map<int, Info>, addr: map<Service, int>)
    requires SameShape(info, after) && AddrOk(info, addr)
    ensures AddrOk(after, addr)
  {
    forall a | a in addr ensures addr[a] in after && after[addr[a]].addr == a {
      var id := addr[a];
      assert id in info;
    }
  }

  lemma ShapeTables(env: Env, key: nat, info: map<int, Info>, after: map<int, Info>, new_: Table, tried: Table)
    requires SameShape(info, after) && NewOk(env, key, info, new_) && TriedOk(env, key, info, tried)
    ensures NewOk(env, key, after, new_) && TriedOk(env, key, after, tried)
  {
    forall slot | slot in new_
      ensures new_[slot] in after && after[new_[slot]].addr == info[new_[slot]].addr && !after[new_[slot]].inTried
    {
      var id := new_[slot];
      assert id in info;
    }
    forall slot | slot in tried
      ensures tried[slot] in after && after[tried[slot]].addr == info[tried[slot]].addr && after[tried[slot]].inTried
    {
      var id := tried[slot];
      assert id in info;
    }
  }

  lemma ShapeCounts(info: map<int, Info>, after: map<int, Info>)
    requires SameShape(info, after)
    ensures TriedIds(after) == TriedIds(info) && NewIds(after) == NewIds(info)
  {
    forall id
      ensures id in TriedIds(after) <==> id in TriedIds(info)
      ensures id in NewIds(after) <==> id in NewIds(info)
    {
      assert id in after <==> id in info;
    }
  }

  lemma ShapeCollisions(env: Env, key: nat, info: map<int, Info>, after: map<int, Info>, taken: set<Slot>,
                        collisions: set<int>, idCount: int)
    requires SameShape(info, after) && CollisionsOk(env, key, info, taken, collisions, idCount)
    ensures CollisionsOk(env, key, after, taken, collisions, idCount)
  {
  }

  /** Everything but positions, reference counts and times carries over to the new entries. */
  lemma ShapeKeeps(s: State, after: map<int, Info>, p: Pending)
    requires SameShape(s.info, after)
    requires IdsOk(s.info, s.idCount) && AddrOk(s.info, s.addr)
    requires NewOk(s.env, s.key, s.info, s.new_) && TriedOk(s.env, s.key, s.info, s.tried)
    requires CountsOk(s.info, s.nNew, s.nTried, p.extra)
    requires CollisionsOk(s.env, s.key, s.info, s.tried.Keys + p.freed, s.collisions, s.idCount)
    ensures IdsOk(after, s.idCount) && AddrOk(after, s.addr)
    ensures NewOk(s.env, s.key, after, s.new_) && TriedOk(s.env, s.key, after, s.tried)
    ensures CountsOk(after, s.nNew, s.nTried, p.extra)
    ensures CollisionsOk(s.env, s.key, after, s.tried.Keys + p.freed, s.collisions, s.idCount)
  {
    hide AddrOk, NewOk, TriedOk, CollisionsOk;
    ShapeAddr(s.info, after, s.addr);
    ShapeTables(s.env, s.key, s.info, after, s.new_, s.tried);
    ShapeCounts(s.info, after);
    ShapeCollisions(s.env, s.key, s.info, after, s.tried.Keys + p.freed, s.collisions, s.idCount);
  }

  // ---------------------------------------------------------------------------------------
  // Elementary updates

  /** Replaces an entry by one with the same identity, table membership and position. */
  ghost predicate SameEntry(x: Info, y: Info) {
    x.addr == y.addr && x.source == y.source && x.refCount == y.refCount
    && x.inTried == y.inTried && x.randomPos == y.randomPos
  }

  ghost function Touched(s: State, id: int, x: Info): State {
    s.(info := s.info[id := x])
  }

  lemma TouchedKeepsInv(s: State, id: int, x: Info, p: Pending)
    requires Inv(s, p) && id in s.info && SameEntry(s.info[id], x)
    requires x.lastTry >= 0 && x.lastSuccess >= 0 && (x.inTried ==> x.lastSuccess != 0)
    ensures Inv(Touched(s, id, x), p)
  {
    hide AddrOk, NewOk, TriedOk, CollisionsOk, CountsOk, IdsOk;
    var after := s.info[id := x];
    assert SameShape(s.info, after);
    ShapeKeeps(s, after, p);
  }

  /** Appends an entry that is in neither table yet. */
  ghost function Created(s: State, a: Service, time: int, services: set<nat>, source: Host): State {
    s.(idCount := s.idCount + 1,
       info := s.info[s.idCount := Info(a, time, services, source, 0, 0, 0, 0, 0, false, |s.random|)],
       addr := s.addr[a := s.idCount],
       random := s.random + [s.idCount])
  }

  lemma CreatedRandom(info: map<int, Info>, random: seq<int>, id: int, x: Info)
    requires RandomOk(info, random) && id !in info && x.randomPos == |random|
    ensures RandomOk(info[id := x], random + [id])
  {
    var after, order := info[id := x], random + [id];
    forall i | 0 <= i < |order|
      ensures order[i] in after && after[order[i]].randomPos == i
    {
      if i < |random| {
        assert order[i] == random[i];
      }
    }
  }

  lemma CreatedTables(env: Env, key: nat, info: map<int, Info>, id: int, x: Info, new_: Table, tried: Table,
                      collisions: set<int>)
    requires NewOk(env, key, info, new_) && TriedOk(env, key, info, tried)
    requires id !in info && !x.inTried
    requires CollisionsOk(env, key, info, tried.Keys, collisions, id)
    ensures NewOk(env, key, info[id := x], new_) && TriedOk(env, key, info[id := x], tried)
    ensures CollisionsOk(env, key, info[id := x], tried.Keys, collisions, id + 1)
  {
  }

  lemma CreatedRefs(env: Env, key: nat, info: map<int, Info>, id: int, x: Info, new_: Table)
    requires NewOk(env, key, info, new_) && RefsOk(info, new_, {})
    requires id !in info && !x.inTried && x.refCount == 0
    ensures RefsOk(info[id := x], new_, {id})
  {
    assert Refs(new_, id) == {};
  }

  lemma CreatedAddr(info: map<int, Info>, addr: map<Service, int>, id: int, x: Info)
    requires AddrOk(info, addr) && id !in info && x.addr !in addr
    ensures AddrOk(info[id := x], addr[x.addr := id])
  {
  }

  lemma CreatedKeepsInv(s: State, a: Service, time: int, services: set<nat>, source: Host)
    requires Consistent(s) && a !in s.addr
    ensures Inv(Created(s, a, time, services, source), Pending({s.idCount}, 1, {}))
  {
    hide NewOk, TriedOk, CollisionsOk, RandomOk, RefsOk, AddrOk, Refs, TriedIds, NewIds;
    assert s.tried.Keys + {} == s.tried.Keys;
    var id := s.idCount;
    var x := Info(a, time, services, source, 0, 0, 0, 0, 0, false, |s.random|);
    IdsInsert(s.info, id, x);
    CreatedAddr(s.info, s.addr, id, x);
    CreatedRandom(s.info, s.random, id, x);
    CreatedTables(s.env, s.key, s.info, id, x, s.new_, s.tried, s.collisions);
    CreatedRefs(s.env, s.key, s.info, id, x, s.new_);
  }

  /** Exchanges two positions of the random order. */
  ghost function Swapped(s: State, i: int, j: int): State
    requires 0 <= i < |s.random| && 0 <= j < |s.random|
    requires s.random[i] in s.info && s.random[j] in s.info
  {
    if i == j then s
    else
      var id1, id2 := s.random[i], s.random[j];
      var info := s.info[id1 := s.info[id1].(randomPos := j)];
      s.(info := info[id2 := info[id2].(randomPos := i)],
         random := s.random[i := id2][j := id1])
  }

  /** The entries agree except for their positions in the random order. */
  ghost predicate SameButPosition(info: map<int, Info>, after: map<int, Info>) {
    && (forall id :: id in after <==> id in info)
    && forall id | id in info :: after[id] == info[id].(randomPos := after[id].randomPos)
  }

  lemma PositionRefs(info: map<int, Info>, after: map<int, Info>, new_: Table, limbo: set<int>)
    requires SameButPosition(info, after) && RefsOk(info, new_, limbo) && TimesOk(info)
    ensures SameShape(info, after) && RefsOk(after, new_, limbo) && TimesOk(after)
  {
    forall id | id in limbo ensures id in after {
      assert id in info;
    }
  }

  lemma SwappedInfo(s: State, i: int, j: int)
    requires 0 <= i < |s.random| && 0 <= j < |s.random|
    requires s.random[i] in s.info && s.random[j] in s.info
    ensures SameButPosition(s.info, Swapped(s, i, j).info)
  {
  }

  lemma SwappedRandom(s: State, i: int, j: int)
    requires RandomOk(s.info, s.random)
    requires 0 <= i < |s.random| && 0 <= j < |s.random|
    ensures RandomOk(Swapped(s, i, j).info, Swapped(s, i, j).random)
    ensures multiset(Swapped(s, i, j).random) == multiset(s.random)
  {
    var t := Swapped(s, i, j);
    if i != j {
      assert s.random[i] != s.random[j];
      forall id | id in t.info
        ensures 0 <= t.info[id].randomPos < |t.random| && t.random[t.info[id].randomPos] == id
      {
        if id != s.random[i] && id != s.random[j] {
          assert t.info[id] == s.info[id];
          assert s.info[id].randomPos != i && s.info[id].randomPos != j;
        }
      }
    }
  }

  lemma SwappedKeepsInv(s: State, i: int, j: int, p: Pending)
    requires Inv(s, p)
    requires 0 <= i < |s.random| && 0 <= j < |s.random|
    ensures Inv(Swapped(s, i, j), p)
    ensures SameButPosition(s.info, Swapped(s, i, j).info)
  {
    hide AddrOk, NewOk, TriedOk, CollisionsOk, CountsOk, IdsOk, RefsOk, TimesOk, SameShape, SameButPosition;
    SwappedInfo(s, i, j);
    SwappedRandom(s, i, j);
    var after := Swapped(s, i, j).info;
    PositionRefs(s.info, after, s.new_, p.limbo);
    ShapeKeeps(s, after, p);
  }

  /** Removes an entry that is in neither table. */
  ghost function Deleted(s: State, id: int): State
    requires RandomOk(s.info, s.random) && id in s.info
  {
    Dropped(Swapped(s, s.info[id].randomPos, |s.random| - 1), id)
  }

  /** The second half of a deletion: the entry is last in the random order. */
  ghost function Dropped(t: State, id: int): State
    requires id in t.info && |t.random| > 0
  {
    t.(random := t.random[..|t.random| - 1],
       addr := t.addr - {t.info[id].addr},
       info := t.info - {id},
       nNew := t.nNew - 1)
  }

  lemma DroppedAddr(info: map<int, Info>, addr: map<Service, int>, id: int)
    requires AddrOk(info, addr) && id in info
    ensures AddrOk(info - {id}, addr - {info[id].addr})
  {
  }

  lemma DroppedRandom(info: map<int, Info>, random: seq<int>, id: int)
    requires RandomOk(info, random) && id in info
    requires |random| > 0 && random[|random| - 1] == id
    ensures RandomOk(info - {id}, random[..|random| - 1])
  {
  }

  lemma DroppedTables(env: Env, key: nat, info: map<int, Info>, id: int, new_: Table, tried: Table, limbo: set<int>)
    requires NewOk(env, key, info, new_) && TriedOk(env, key, info, tried)
    requires RefsOk(info, new_, limbo) && id in limbo
    ensures NewOk(env, key, info - {id}, new_) && TriedOk(env, key, info - {id}, tried)
    ensures RefsOk(info - {id}, new_, limbo - {id})
  {
    assert Refs(new_, id) == {};
    forall slot | slot in new_ ensures new_[slot] != id {
      assert new_[slot] == id ==> slot in Refs(new_, id);
    }
  }

  lemma DroppedKeepsInv(t: State, id: int, p: Pending)
    requires Inv(t, p) && id in p.limbo && id in t.info
    requires |t.random| > 0 && t.random[|t.random| - 1] == id
    ensures Inv(Dropped(t, id), p.(limbo := p.limbo - {id}))
  {
    assert !t.info[id].inTried;
    hide AddrOk, NewOk, TriedOk, RefsOk, RandomOk;
    IdsErase(t.info, id);
    DroppedAddr(t.info, t.addr, id);
    DroppedRandom(t.info, t.random, id);
    DroppedTables(t.env, t.key, t.info, id, t.new_, t.tried, p.limbo);
  }

  /** Nothing but entries, addresses, the random order and the count of new entries differs. */
  ghost predicate SameTables(s: State, t: State) {
    t == s.(info := t.info, addr := t.addr, random := t.random, nNew := t.nNew)
  }

  lemma DeletedKeepsInv(s: State, id: int, p: Pending)
    requires Inv(s, p) && id in p.limbo && id in s.info
    ensures Inv(Deleted(s, id), p.(limbo := p.limbo - {id}))
    ensures SameButPosition(s.info - {id}, Deleted(s, id).info) && SameTables(s, Deleted(s, id))
  {
    hide AddrOk, NewOk, TriedOk, CollisionsOk, CountsOk, IdsOk, RefsOk, TimesOk;
    var pos, last := s.info[id].randomPos, |s.random| - 1;
    SwappedKeepsInv(s, pos, last, p);
    DroppedKeepsInv(Swapped(s, pos, last), id, p);
  }

  /** Sets the reference count of one entry. */
  ghost function WithCount(info: map<int, Info>, id: int, n: int): map<int, Info>
    requires id in info
  {
    info[id := info[id].(refCount := n)]
  }

  lemma WithCountKeeps(s: State, id: int, n: int, p: Pending)
    requires Inv(s, p) && id in s.info
    ensures var after := WithCount(s.info, id, n);
            && IdsOk(after, s.idCount) && AddrOk(after, s.addr) && RandomOk(after, s.random)
            && NewOk(s.env, s.key, after, s.new_) && TriedOk(s.env, s.key, after, s.tried)
            && CountsOk(after, s.nNew, s.nTried, p.extra) && TimesOk(after)
            && CollisionsOk(s.env, s.key, after, s.tried.Keys + p.freed, s.collisions, s.idCount)
  {
    hide AddrOk, NewOk, TriedOk, CollisionsOk, CountsOk, IdsOk, RefsOk;
    var after := WithCount(s.info, id, n);
    assert SameShape(s.info, after);
    ShapeKeeps(s, after, p);
  }

  /** Takes one reference away from the entry in a new slot. */
  ghost function Unreferenced(s: State, slot: Slot): State
    requires slot in s.new_ && s.new_[slot] in s.info
  {
    var id := s.new_[slot];
    s.(new_ := s.new_ - {slot}, info := WithCount(s.info, id, s.info[id].refCount - 1))
  }

  lemma UnreferencedRefs(info: map<int, Info>, new_: Table, slot: Slot, limbo: set<int>)
    requires RefsOk(info, new_, limbo) && slot in new_ && new_[slot] in info
    ensures info[new_[slot]].refCount > 0
    ensures var id := new_[slot];
            RefsOk(WithCount(info, id, info[id].refCount - 1), new_ - {slot},
                   limbo + (if info[id].refCount == 1 then {id} else {}))
  {
    var id := new_[slot];
    assert slot in Refs(new_, id);
    var after := WithCount(info, id, info[id].refCount - 1);
    forall x | x in after
      ensures |Refs(new_ - {slot}, x)| == |Refs(new_, x)| - if x == id then 1 else 0
    {
      RefsErase(new_, slot, x);
    }
  }

  lemma UnreferencedKeepsInv(s: State, slot: Slot, p: Pending)
    requires Inv(s, p) && slot in s.new_
    ensures s.new_[slot] in s.info && s.info[s.new_[slot]].refCount > 0 && s.new_[slot] !in p.limbo
    ensures var id := s.new_[slot];
            Inv(Unreferenced(s, slot), p.(limbo := p.limbo + (if s.info[id].refCount == 1 then {id} else {})))
  {
    var id := s.new_[slot];
    UnreferencedRefs(s.info, s.new_, slot, p.limbo);
    hide AddrOk, TriedOk, CollisionsOk, CountsOk, IdsOk, RandomOk, TimesOk;
    WithCountKeeps(s, id, s.info[id].refCount - 1, p);
  }

  /** Frees a new slot, deleting its entry when that was the last reference. */
  ghost function Cleared(s: State, slot: Slot): State
    requires RandomOk(s.info, s.random)
    requires slot in s.new_ ==> s.new_[slot] in s.info
  {
    if slot !in s.new_ then s
    else if s.info[s.new_[slot]].refCount == 1 then Deleted(Unreferenced(s, slot), s.new_[slot])
    else Unreferenced(s, slot)
  }

  /** The entries that clearing a slot leaves exactly as they were, positions aside. */
  ghost predicate OthersKept(s: State, t: State, slot: Slot) {
    forall x | x in s.info && (slot in s.new_ ==> x != s.new_[slot]) ::
      x in t.info && t.info[x] == s.info[x].(randomPos := t.info[x].randomPos)
  }

  lemma ClearedKeepsInv(s: State, slot: Slot, p: Pending)
    requires Inv(s, p)
    ensures slot in s.new_ ==> s.new_[slot] in s.info && s.new_[slot] !in p.limbo
    ensures Inv(Cleared(s, slot), p)
    ensures Cleared(s, slot).new_ == s.new_ - {slot} && slot !in Cleared(s, slot).new_
    ensures OthersKept(s, Cleared(s, slot), slot) && Cleared(s, slot).info.Keys <= s.info.Keys
    ensures SameTables(s.(new_ := s.new_ - {slot}), Cleared(s, slot))
  {
    hide AddrOk, TriedOk, CollisionsOk, CountsOk, IdsOk, NewOk, RefsOk, TimesOk, RandomOk, Deleted;
    if slot in s.new_ {
      UnreferencedKeepsInv(s, slot, p);
      var id := s.new_[slot];
      if s.info[id].refCount == 1 {
        DeletedKeepsInv(Unreferenced(s, slot), id, p.(limbo := p.limbo + {id}));
        assert p.limbo + {id} - {id} == p.limbo;
        forall x | x in Cleared(s, slot).info ensures x in s.info {
          assert x in Unreferenced(s, slot).info - {id};
        }
      } else {
        assert p.limbo + {} == p.limbo;
      }
    } else {
      assert s.new_ - {slot} == s.new_;
    }
  }

  /** Puts one more reference to an entry into a free new slot. */
  ghost function Referenced(s: State, slot: Slot, id: int): State
    requires id in s.info
  {
    s.(new_ := s.new_[slot := id], info := WithCount(s.info, id, s.info[id].refCount + 1))
  }

  lemma ReferencedRefs(info: map<int, Info>, new_: Table, slot: Slot, id: int, limbo: set<int>)
    requires RefsOk(info, new_, limbo) && slot !in new_
    requires id in info && !info[id].inTried && info[id].refCount < NEW_BUCKETS_PER_ADDRESS
    ensures RefsOk(WithCount(info, id, info[id].refCount + 1), new_[slot := id], limbo - {id})
  {
    var after := WithCount(info, id, info[id].refCount + 1);
    forall x | x in after
      ensures |Refs(new_[slot := id], x)| == |Refs(new_, x)| + if x == id then 1 else 0
    {
      RefsInsert(new_, slot, id, x);
    }
  }

  lemma ReferencedKeepsInv(s: State, slot: Slot, id: int, p: Pending)
    requires Inv(s, p) && slot !in s.new_
    requires id in s.info && !s.info[id].inTried && s.info[id].refCount < NEW_BUCKETS_PER_ADDRESS
    requires 0 <= slot.0 < NEW_BUCKET_COUNT
    requires slot.1 == s.env.Position(s.key, s.info[id].addr, true, slot.0)
    ensures Inv(Referenced(s, slot, id), p.(limbo := p.limbo - {id}))
  {
    hide AddrOk, TriedOk, CollisionsOk, CountsOk, IdsOk, RandomOk, TimesOk, RefsOk;
    ReferencedRefs(s.info, s.new_, slot, id, p.limbo);
    WithCountKeeps(s, id, s.info[id].refCount + 1, p);
  }
}
