/**
 The address manager as an object that updates its five indexes in place. Each method is
 proved to change the state exactly as the corresponding function of AddrManOps or
 AddrManRuns says, and to respect every assertion on the way.
 */
module AddrMan {
  import opened Wrappers
  import opened Powers
  import opened AddrManState
  import opened AddrManOps
  import opened AddrManRuns

  // ---------------------------------------------------------------------------------------
  // Bucket tables

  ghost function Slots(n: nat, m: nat): set<Slot> {
    set b, p | 0 <= b < n && 0 <= p < m :: (b, p)
  }

  lemma SlotsMember(n: nat, m: nat, slot: Slot)
    ensures slot in Slots(n, m) <==> 0 <= slot.0 < n && 0 <= slot.1 < m
  {
    if 0 <= slot.0 < n && 0 <= slot.1 < m {
      assert slot == (slot.0, slot.1);
    }
  }

  /** The filled slots of a table; -1 marks an empty one. */
  ghost function Contents(t: array2<int>): Table
    reads t
  {
    map slot | slot in Slots(t.Length0, t.Length1) && At(t, slot) != -1 :: At(t, slot)
  }

  ghost function At(t: array2<int>, slot: Slot): int
    reads t
  {
    if 0 <= slot.0 < t.Length0 && 0 <= slot.1 < t.Length1 then t[slot.0, slot.1] else -1
  }

  lemma ContentsAt(t: array2<int>, b: int, p: int)
    requires 0 <= b < t.Length0 && 0 <= p < t.Length1
    ensures (b, p) in Contents(t) <==> t[b, p] != -1
    ensures (b, p) in Contents(t) ==> Contents(t)[(b, p)] == t[b, p]
  {
    SlotsMember(t.Length0, t.Length1, (b, p));
  }

  lemma ContentsInRange(t: array2<int>, slot: Slot)
    requires slot in Contents(t)
    ensures 0 <= slot.0 < t.Length0 && 0 <= slot.1 < t.Length1
    ensures t[slot.0, slot.1] == Contents(t)[slot]
  {
    SlotsMember(t.Length0, t.Length1, slot);
  }

  method SetSlot(t: array2<int>, b: int, p: int, v: int)
    requires 0 <= b < t.Length0 && 0 <= p < t.Length1
    modifies t
    ensures Contents(t) == if v == -1 then old(Contents(t)) - {(b, p)} else old(Contents(t))[(b, p) := v]
  {
    SlotsMember(t.Length0, t.Length1, (b, p));
    t[b, p] := v;
    assert forall slot | slot in Slots(t.Length0, t.Length1) && slot != (b, p) :: At(t, slot) == old(At(t, slot));
  }

  // ---------------------------------------------------------------------------------------

  class AddrManager {
    const env: Env
    const vvTried: array2<int>
    const vvNew: array2<int>
    var nKey: nat
    var nIdCount: int
    var mapInfo: map<int, Info>
    var mapAddr: map<Service, int>
    var vRandom: seq<int>
    var nTried: int
    var nNew: int
    var lastGood: int
    var triedCollisions: set<int>

    ghost predicate Shaped() {
      && vvTried.Length0 == TRIED_BUCKET_COUNT && vvTried.Length1 == BUCKET_SIZE
      && vvNew.Length0 == NEW_BUCKET_COUNT && vvNew.Length1 == BUCKET_SIZE
    }

    ghost function Value(): State
      reads this, vvTried, vvNew
    {
      State(env, nKey, nIdCount, mapInfo, mapAddr, vRandom, Contents(vvTried), Contents(vvNew),
            nTried, nNew, lastGood, triedCollisions)
    }

    constructor (env: Env, key: nat)
      ensures Shaped() && fresh(vvTried) && fresh(vvNew)
      ensures Value() == Initial(env, key)
    {
      this.env := env;
      vvTried := new int[TRIED_BUCKET_COUNT, BUCKET_SIZE]((b, p) => -1);
      vvNew := new int[NEW_BUCKET_COUNT, BUCKET_SIZE]((b, p) => -1);
      nKey, nIdCount, mapInfo, mapAddr, vRandom := key, 0, map[], map[], [];
      nTried, nNew, lastGood, triedCollisions := 0, 0, 1, {};
      new;
      forall slot ensures slot !in Contents(vvTried) && slot !in Contents(vvNew) {
        if slot in Contents(vvTried) {
          ContentsInRange(vvTried, slot);
        }
        if slot in Contents(vvNew) {
          ContentsInRange(vvNew, slot);
        }
      }
      assert Contents(vvTried) == map[] && Contents(vvNew) == map[];
    }

    method Create(a: Service, time: int, services: set<nat>, source: Host) returns (id: int)
      modifies this
      ensures Value() == Created(old(Value()), a, time, services, source)
      ensures id == old(nIdCount)
    {
      id := nIdCount;
      nIdCount := nIdCount + 1;
      mapInfo := mapInfo[id := Info(a, time, services, source, 0, 0, 0, 0, 0, false, -1)];
      mapAddr := mapAddr[a := id];
      mapInfo := mapInfo[id := mapInfo[id].(randomPos := |vRandom|)];
      vRandom := vRandom + [id];
    }

    method SwapRandom(i: int, j: int)
      requires 0 <= i < |vRandom| && 0 <= j < |vRandom|
      requires vRandom[i] in mapInfo && vRandom[j] in mapInfo
      modifies this`mapInfo, this`vRandom
      ensures Value() == Swapped(old(Value()), i, j)
    {
      if i == j {
        return;
      }
      var id1, id2 := vRandom[i], vRandom[j];
      mapInfo := mapInfo[id1 := mapInfo[id1].(randomPos := j)];
      mapInfo := mapInfo[id2 := mapInfo[id2].(randomPos := i)];
      vRandom := vRandom[i := id2];
      vRandom := vRandom[j := id1];
    }

    method Delete(id: int)
      requires RandomOk(mapInfo, vRandom)
      requires id in mapInfo && !mapInfo[id].inTried && mapInfo[id].refCount == 0
      modifies this`mapInfo, this`mapAddr, this`vRandom, this`nNew
      ensures Value() == Deleted(old(Value()), id)
    {
      var a := mapInfo[id].addr;
      SwapRandom(mapInfo[id].randomPos, |vRandom| - 1);
      vRandom := vRandom[..|vRandom| - 1];
      mapAddr := mapAddr - {a};
      mapInfo := mapInfo - {id};
      nNew := nNew - 1;
    }

    method ClearNew(b: int, p: int)
      requires Shaped() && 0 <= b < NEW_BUCKET_COUNT && 0 <= p < BUCKET_SIZE
      requires RandomOk(mapInfo, vRandom)
      requires vvNew[b, p] != -1 ==> vvNew[b, p] in mapInfo && mapInfo[vvNew[b, p]].refCount > 0
                                     && !mapInfo[vvNew[b, p]].inTried
      modifies this, vvNew
      ensures (b, p) in old(Contents(vvNew)) ==> old(Contents(vvNew)[(b, p)] in mapInfo)
      ensures Value() == Cleared(old(Value()), (b, p))
    {
      ContentsAt(vvNew, b, p);
      if vvNew[b, p] != -1 {
        var id := vvNew[b, p];
        mapInfo := mapInfo[id := mapInfo[id].(refCount := mapInfo[id].refCount - 1)];
        SetSlot(vvNew, b, p, -1);
        assert Value() == Unreferenced(old(Value()), (b, p));
        if mapInfo[id].refCount == 0 {
          Delete(id);
        }
      }
    }

    /** Takes an entry out of one new slot if it holds it. */
    method DropReference(id: int, b: int, p: int) returns (held: bool)
      requires Shaped() && 0 <= b < NEW_BUCKET_COUNT && 0 <= p < BUCKET_SIZE
      requires id in mapInfo && id >= 0
      modifies this`mapInfo, vvNew
      ensures held <==> (b, p) in old(Contents(vvNew)) && old(Contents(vvNew)[(b, p)]) == id
      ensures held ==> mapInfo == WithCount(old(mapInfo), id, old(mapInfo[id].refCount) - 1)
                       && Contents(vvNew) == old(Contents(vvNew)) - {(b, p)}
      ensures !held ==> mapInfo == old(mapInfo) && Contents(vvNew) == old(Contents(vvNew))
    {
      ContentsAt(vvNew, b, p);
      held := vvNew[b, p] == id;
      if held {
        SetSlot(vvNew, b, p, -1);
        mapInfo := mapInfo[id := mapInfo[id].(refCount := mapInfo[id].refCount - 1)];
      }
    }

    /** Takes an entry out of one bucket, if it is there. */
    method VisitBucket(id: int, start: int, n: int, ghost before: State) returns (held: bool)
      requires Shaped() && before.env == env && before.key == nKey
      requires NewOk(env, nKey, before.info, before.new_) && id in before.info && id >= 0
      requires 0 <= start < NEW_BUCKET_COUNT && 0 <= n < NEW_BUCKET_COUNT
      requires id in mapInfo && mapInfo == WithCount(before.info, id, mapInfo[id].refCount)
      requires mapInfo[id].refCount == |Refs(Contents(vvNew), id)|
      requires Visited(before.new_, Contents(vvNew), id, start, n)
      modifies this`mapInfo, vvNew
      ensures id in mapInfo && mapInfo == WithCount(before.info, id, mapInfo[id].refCount)
      ensures mapInfo[id].refCount == |Refs(Contents(vvNew), id)|
      ensures Visited(before.new_, Contents(vvNew), id, start, n + 1)
      ensures !held ==> mapInfo == old(mapInfo)
    {
      hide NewOk, Visited, Refs, Contents;
      var x := mapInfo[id];
      var bucket := (start + n) % NEW_BUCKET_COUNT;
      var pos := env.Position(nKey, x.addr, true, bucket);
      ghost var table := Contents(vvNew);
      VisitedStep(before, table, id, start, n, (bucket, pos));
      held := DropReference(id, bucket, pos);
      if held {
        RefsErase(table, (bucket, pos), id);
      }
    }

    /** Removes an entry from all new buckets, visiting them from its own bucket onwards. */
    method RemoveFromNew(id: int)
      requires Shaped() && Consistent(Value())
      requires id in mapInfo && !mapInfo[id].inTried
      modifies this`mapInfo, vvNew
      ensures Contents(vvNew) == old(Contents(vvNew)) - Refs(old(Contents(vvNew)), id)
      ensures mapInfo == WithCount(old(mapInfo), id, 0)
    {
      hide IdsOk, AddrOk, RandomOk, NewOk, TriedOk, CountsOk, TimesOk, CollisionsOk, RefsOk, Visited, Refs, Contents;
      ghost var before := Value();
      ListedEntry(before, id);
      var start := env.NewBucket(nKey, mapInfo[id].addr, mapInfo[id].source);
      var n := 0;
      ghost var seen := 0;
      while n < NEW_BUCKET_COUNT
        invariant 0 <= n == seen <= NEW_BUCKET_COUNT
        invariant id in mapInfo && mapInfo == WithCount(before.info, id, mapInfo[id].refCount)
        invariant mapInfo[id].refCount == |Refs(Contents(vvNew), id)| > 0
        invariant Visited(before.new_, Contents(vvNew), id, start, n)
        decreases NEW_BUCKET_COUNT - n
      {
        var held := VisitBucket(id, start, n, before);
        seen := n + 1;
        if held && mapInfo[id].refCount == 0 {
          break;
        }
        n := n + 1;
      }
      VisitedAll(before, Contents(vvNew), id, start, n, seen, mapInfo[id].refCount);
    }

    /** Moves the entry of a tried slot back to the new table, to make space. */
    method Evict(b: int, p: int, ghost id: int)
      requires Shaped() && 0 <= b < TRIED_BUCKET_COUNT && 0 <= p < BUCKET_SIZE
      requires Inv(Value(), Pending({id}, 1, {})) && (b, p) in Contents(vvTried)
      modifies this, vvNew, vvTried
      ensures Value() == Readmitted(old(Value()), (b, p), id)
    {
      hide IdsOk, AddrOk, NewOk, TriedOk, CountsOk, TimesOk, CollisionsOk, RefsOk, Refs, Contents, Cleared;
      ContentsAt(vvTried, b, p);
      ghost var s := Value();
      EvictedKeepsInv(s, (b, p), Pending({id}, 1, {}));
      var evictId := vvTried[b, p];
      mapInfo := mapInfo[evictId := mapInfo[evictId].(inTried := false)];
      SetSlot(vvTried, b, p, -1);
      nTried := nTried - 1;
      assert Value() == Evicted(s, (b, p));

      var x := mapInfo[evictId];
      var bucket := env.NewBucket(nKey, x.addr, x.source);
      var pos := env.Position(nKey, x.addr, true, bucket);
      ghost var pending := Pending({id} + {evictId}, 2, {} + {(b, p)});
      PendingEntry(Value(), pending, evictId);
      ContentsAt(vvNew, bucket, pos);
      OccupantOf(Value(), (bucket, pos), pending);
      ClearedKeepsInv(Value(), (bucket, pos), pending);
      ClearNew(bucket, pos);
      ContentsAt(vvNew, bucket, pos);
      assert vvNew[bucket, pos] == -1;
      mapInfo := mapInfo[evictId := mapInfo[evictId].(refCount := 1)];
      SetSlot(vvNew, bucket, pos, evictId);
      nNew := nNew + 1;
    }

    method MakeTried(id: int)
      requires Shaped() && Consistent(Value()) && id in mapInfo && !mapInfo[id].inTried
      modifies this, vvNew, vvTried
      ensures Value() == MadeTried(old(Value()), id)
    {
      hide IdsOk, AddrOk, NewOk, TriedOk, CountsOk, TimesOk, CollisionsOk, RefsOk, Refs, RandomOk, Contents, Readmitted;
      ghost var s := Value();
      ListedEntry(s, id);
      UnlistedKeepsInv(s, id);
      RemoveFromNew(id);
      nNew := nNew - 1;
      assert Value() == Unlisted(s, id);
      assert mapInfo[id].refCount == 0;

      var bucket := env.TriedBucket(nKey, mapInfo[id].addr);
      var pos := env.Position(nKey, mapInfo[id].addr, false, bucket);
      ContentsAt(vvTried, bucket, pos);
      if vvTried[bucket, pos] != -1 {
        ReadmittedKeepsInv(Value(), (bucket, pos), id);
        Evict(bucket, pos, id);
        ContentsAt(vvTried, bucket, pos);
      }
      assert vvTried[bucket, pos] == -1;
      SetSlot(vvTried, bucket, pos, id);
      nTried := nTried + 1;
      mapInfo := mapInfo[id := mapInfo[id].(inTried := true)];
    }

    method Find(a: Service) returns (known: bool, id: int)
      requires AddrOk(mapInfo, mapAddr)
      ensures known <==> a in mapAddr
      ensures known ==> id in mapInfo && id == mapAddr[a] && mapInfo[id].addr == a
    {
      if a !in mapAddr {
        return false, 0;
      }
      id := mapAddr[a];
      known := id in mapInfo;
    }

    /** Tries to give an entry the new slot that a source selects for it. */
    method Place(id: int, source: Host, now: int) returns (inserted: bool)
      requires Shaped() && Placing(Value(), id)
      modifies this, vvNew
      ensures (Value(), inserted) == Placed(old(Value()), id, source, now)
    {
      hide IdsOk, AddrOk, TriedOk, CountsOk, TimesOk, CollisionsOk, RefsOk, Refs, Contents, Cleared, Deleted;
      ghost var s := Value();
      ghost var pending := Pending(if mapInfo[id].refCount == 0 then {id} else {}, 0, {});
      PlacingId(s, id);
      var bucket := env.NewBucket(nKey, mapInfo[id].addr, source);
      var pos := env.Position(nKey, mapInfo[id].addr, true, bucket);
      ContentsAt(vvNew, bucket, pos);
      OccupantOf(s, (bucket, pos), pending);
      inserted := vvNew[bucket, pos] == -1;
      if vvNew[bucket, pos] != id {
        if !inserted {
          var existing := mapInfo[vvNew[bucket, pos]];
          if existing.IsTerrible(now) || (existing.refCount > 1 && mapInfo[id].refCount == 0) {
            inserted := true;
          }
        }
        if inserted {
          PlacedCleared(s, id, (bucket, pos));
          ClearNew(bucket, pos);
          mapInfo := mapInfo[id := mapInfo[id].(refCount := mapInfo[id].refCount + 1)];
          SetSlot(vvNew, bucket, pos, id);
        } else {
          if mapInfo[id].refCount == 0 {
            Delete(id);
          }
        }
      }
    }

    /** Renews the time and the service bits of a known entry. */
    method Refresh(id: int, a: Address, penalty: int, now: int)
      requires id in mapInfo
      modifies this
      ensures Value() == Touched(old(Value()), id, Refreshed(old(mapInfo)[id], a, penalty, now))
    {
      var interval := if now - a.time < DAY then HOUR else DAY;
      if mapInfo[id].time < a.time - interval - penalty {
        mapInfo := mapInfo[id := mapInfo[id].(time := Max(0, a.time - penalty))];
      }
      mapInfo := mapInfo[id := mapInfo[id].(services := mapInfo[id].services + a.services)];
    }

    /** Creates and counts an entry for an address that was not known. */
    method Announce(a: Address, source: Host, penalty: int) returns (id: int)
      modifies this
      ensures Value() == Announced(old(Value()), a, source, penalty) && id == old(nIdCount)
    {
      id := Create(a.addr, a.time, a.services, source);
      mapInfo := mapInfo[id := mapInfo[id].(time := Max(0, mapInfo[id].time - penalty))];
      nNew := nNew + 1;
    }

    method AddSingle(a: Address, source: Host, penalty: int, now: int, draw: nat) returns (inserted: bool)
      requires Shaped() && Consistent(Value())
      modifies this, vvNew
      ensures (Value(), inserted) == Added(old(Value()), a, source, penalty, now, draw)
    {
      hide IdsOk, RandomOk, NewOk, TriedOk, CountsOk, CollisionsOk, RefsOk, Refs, Contents, Placed, Announced, Pow;
      if !env.IsRoutable(a.addr) {
        return false;
      }
      ghost var s := Value();
      var known, id := Find(a.addr);
      var pen := if env.host(a.addr) == source then 0 else penalty;
      if known {
        TouchedKeepsInv(s, id, Refreshed(mapInfo[id], a, pen, now), SETTLED);
        Refresh(id, a, pen, now);
        if a.time <= mapInfo[id].time || mapInfo[id].inTried || mapInfo[id].refCount == NEW_BUCKETS_PER_ADDRESS {
          return false;
        }
        CountInRange(Value(), id);
        var factor := ComputeFactor(mapInfo[id].refCount);
        if factor > 1 && draw % factor != 0 {
          return false;
        }
      } else {
        AnnouncedKeepsInv(s, a, source, pen);
        id := Announce(a, source, pen);
      }
      inserted := Place(id, source, now);
    }

    /** Adds a batch; `draws` and `now` are the random numbers and the time each address meets. */
    method Add(addresses: seq<Address>, source: Host, penalty: int, now: int -> int, draws: int -> nat)
      returns (any: bool)
      requires Shaped() && Consistent(Value())
      modifies this, vvNew
      ensures Consistent(Value()) && CheckOk(Value())
      ensures (Value(), any) == AddedAll(old(Value()), addresses, source, penalty, now, draws, |addresses|)
    {
      hide Consistent, Added;
      var added := 0;
      for i := 0 to |addresses|
        invariant Consistent(Value()) && added >= 0
        invariant (Value(), added > 0) == AddedAll(old(Value()), addresses, source, penalty, now, draws, i)
      {
        AddedKeepsInv(Value(), addresses[i], source, penalty, now(i), draws(i));
        var inserted := AddSingle(addresses[i], source, penalty, now(i), draws(i));
        added := added + if inserted then 1 else 0;
      }
      ConsistentPassesCheck(Value());
      any := added > 0;
    }

    method Good(a: Service, testBeforeEvict: bool, time: int) returns (moved: bool)
      requires Shaped() && Consistent(Value()) && time > 0
      modifies this, vvNew, vvTried
      ensures (Value(), moved) == MarkedGood(old(Value()), a, testBeforeEvict, time)
    {
      hide IdsOk, RandomOk, NewOk, TriedOk, CountsOk, TimesOk, CollisionsOk, RefsOk, Refs, Contents, MadeTried;
      ghost var s := Value();
      lastGood := time;
      var known, id := Find(a);
      if !known {
        return false;
      }
      ConnectedKeepsInv(s, id, time);
      mapInfo := mapInfo[id := mapInfo[id].(lastSuccess := time, lastTry := time, attempts := 0)];
      assert Value() == Touched(s.(lastGood := time), id, Connected_(s.info[id], time));
      if mapInfo[id].inTried {
        return false;
      }
      moved := MoveToTried(id, testBeforeEvict);
    }

    /** Moves a new entry to its tried slot, or only records that the slot is taken. */
    method MoveToTried(id: int, testBeforeEvict: bool) returns (moved: bool)
      requires Shaped() && Consistent(Value()) && id in mapInfo && !mapInfo[id].inTried
      modifies this, vvNew, vvTried
      ensures moved <==> !(testBeforeEvict && env.TriedSlot(old(nKey), old(mapInfo)[id].addr) in old(Contents(vvTried)))
      ensures moved ==> Value() == MadeTried(old(Value()), id)
      ensures !moved ==> Value() == if |old(triedCollisions)| < SET_TRIED_COLLISION_SIZE
                                    then old(Value()).(collisions := old(triedCollisions) + {id}) else old(Value())
    {
      hide IdsOk, RandomOk, NewOk, TriedOk, CountsOk, TimesOk, CollisionsOk, RefsOk, Refs, Contents, MadeTried;
      ListedEntry(Value(), id);
      if !(mapInfo[id].refCount > 0) {
        return false;
      }
      var bucket := env.TriedBucket(nKey, mapInfo[id].addr);
      var pos := env.Position(nKey, mapInfo[id].addr, false, bucket);
      ContentsAt(vvTried, bucket, pos);
      assert (bucket, pos) == env.TriedSlot(nKey, mapInfo[id].addr);
      if testBeforeEvict && vvTried[bucket, pos] != -1 {
        if |triedCollisions| < SET_TRIED_COLLISION_SIZE {
          triedCollisions := triedCollisions + {id};
        }
        moved := false;
      } else {
        MakeTried(id);
        moved := true;
      }
    }

    method Attempt(a: Service, countFailure: bool, time: int)
      requires AddrOk(mapInfo, mapAddr)
      modifies this
      ensures Value() == Attempted(old(Value()), a, countFailure, time)
    {
      var known, id := Find(a);
      if !known {
        return;
      }
      mapInfo := mapInfo[id := mapInfo[id].(lastTry := time)];
      if countFailure && mapInfo[id].lastCountAttempt < lastGood {
        mapInfo := mapInfo[id := mapInfo[id].(lastCountAttempt := time, attempts := mapInfo[id].attempts + 1)];
      }
    }

    method Connected(a: Service, time: int)
      requires AddrOk(mapInfo, mapAddr)
      modifies this
      ensures Value() == TimeRefreshed(old(Value()), a, time)
    {
      var known, id := Find(a);
      if !known {
        return;
      }
      if time - mapInfo[id].time > 20 * MINUTE {
        mapInfo := mapInfo[id := mapInfo[id].(time := time)];
      }
    }

    method SetServices(a: Service, services: set<nat>)
      requires AddrOk(mapInfo, mapAddr)
      modifies this
      ensures Value() == ServicesSet(old(Value()), a, services)
    {
      var known, id := Find(a);
      if !known {
        return;
      }
      mapInfo := mapInfo[id := mapInfo[id].(services := services)];
    }

    method ResolveOne(id: int, now: int)
      requires Shaped() && Consistent(Value()) && now > 0
      modifies this, vvNew, vvTried
      ensures Value() == ResolvedOne(old(Value()), id, now)
    {
      hide IdsOk, RandomOk, NewOk, CountsOk, TimesOk, CollisionsOk, RefsOk, Refs, Contents, MarkedGood, AddrOk;
      var erase := false;
      if id !in mapInfo {
        erase := true;
      } else {
        var x := mapInfo[id];
        var bucket := env.TriedBucket(nKey, x.addr);
        var pos := env.Position(nKey, x.addr, false, bucket);
        ContentsAt(vvTried, bucket, pos);
        if !env.valid(x.addr) {
          erase := true;
        } else if vvTried[bucket, pos] != -1 {
          var y := mapInfo[vvTried[bucket, pos]];
          if now - y.lastSuccess < REPLACEMENT {
            erase := true;
          } else if now - y.lastTry < REPLACEMENT {
            if now - y.lastTry > MINUTE {
              var _ := Good(x.addr, false, now);
              erase := true;
            }
          } else if now - x.lastSuccess > TEST_WINDOW {
            var _ := Good(x.addr, false, now);
            erase := true;
          }
        } else {
          var _ := Good(x.addr, false, now);
          erase := true;
        }
      }
      if erase {
        triedCollisions := triedCollisions - {id};
      }
    }

    /** Visits the recorded collisions in increasing order; `clock` gives the time of each visit. */
    method ResolveCollisions(clock: int -> int)
      requires Shaped() && Consistent(Value()) && forall id :: clock(id) > 0
      modifies this, vvNew, vvTried
      ensures Value() == Resolved(old(Value()), old(triedCollisions), clock)
    {
      hide Consistent, ResolvedOne;
      var todo := triedCollisions;
      while todo != {}
        invariant Consistent(Value())
        invariant Resolved(old(Value()), old(triedCollisions), clock) == Resolved(Value(), todo, clock)
        decreases |todo|
      {
        SmallestExists(todo);
        var id :| id in todo && forall x | x in todo :: id <= x;
        assert IsSmallest(todo, id) && id == Smallest(todo);
        ResolvedOneKeepsInv(Value(), id, clock(id));
        ResolveOne(id, clock(id));
        todo := todo - {id};
      }
    }

    /** Picks an arbitrary recorded collision and returns the entry it would evict. */
    method SelectTriedCollision() returns (picked: int, candidate: Option<Info>)
      requires Shaped() && Consistent(Value())
      modifies this
      ensures old(triedCollisions) != {} ==> picked in old(triedCollisions)
      ensures old(triedCollisions) == {} ==> Value() == old(Value()) && candidate == None
      ensures old(triedCollisions) != {} ==> (Value(), candidate) == CollisionSelected(old(Value()), picked)
      ensures candidate.Some? ==> candidate.value.inTried
    {
      if triedCollisions == {} {
        return 0, None;
      }
      ghost var pending := Element(triedCollisions);
      assert pending in triedCollisions;
      picked :| picked in triedCollisions;
      if picked !in mapInfo {
        triedCollisions := triedCollisions - {picked};
        return picked, None;
      }
      CollisionSelectedIsTried(Value(), picked);
      hide IdsOk, RandomOk, NewOk, CountsOk, TimesOk, CollisionsOk, RefsOk, AddrOk, TriedOk, Refs, Contents;
      var bucket := env.TriedBucket(nKey, mapInfo[picked].addr);
      var pos := env.Position(nKey, mapInfo[picked].addr, false, bucket);
      ContentsAt(vvTried, bucket, pos);
      candidate := Some(mapInfo[vvTried[bucket, pos]]);
    }

    method GetAddr(maxAddresses: nat, maxPct: nat, network: Option<nat>, now: int, draws: nat -> nat)
      returns (addresses: seq<Address>)
      requires Consistent(Value())
      modifies this
      ensures var q := Query(NodesWanted(|old(vRandom)|, maxAddresses, maxPct), network, now);
              (Value(), addresses) == Sampled(old(Value()), q, draws, 0, [])
    {
      hide IdsOk, NewOk, CountsOk, TimesOk, CollisionsOk, RefsOk, AddrOk, TriedOk, Refs, Contents;
      var nodes := NodesWanted(|vRandom|, maxAddresses, maxPct);
      ghost var q := Query(nodes, network, now);
      addresses := [];
      var n := 0;
      while n < |vRandom|
        invariant 0 <= n <= |vRandom|
        invariant RandomOk(mapInfo, vRandom)
        invariant Sampled(old(Value()), q, draws, 0, []) == Sampled(Value(), q, draws, n, addresses)
        decreases |vRandom| - n
      {
        if |addresses| >= nodes {
          break;
        }
        var pos := Drawn(draws, n, |vRandom|);
        ghost var t := Shuffled(Value(), n, pos);
        SwapRandom(n, pos);
        assert Value() == t;
        var x := mapInfo[vRandom[n]];
        n := n + 1;
        if network.Some? && env.network(x.addr) != network.value {
          continue;
        }
        if x.IsTerrible(now) {
          continue;
        }
        addresses := addresses + [Address(x.addr, x.time, x.services)];
      }
    }

    // -------------------------------------------------------------------------------------
    // The self-check

    method CheckEntry(id: int) returns (code: int)
      requires id in mapInfo
      ensures code == 0 <==> EntryChecks(Value(), id)
    {
      var x := mapInfo[id];
      if x.inTried {
        if x.lastSuccess == 0 {
          return -1;
        }
        if x.refCount != 0 {
          return -2;
        }
      } else {
        if x.refCount < 0 || x.refCount > NEW_BUCKETS_PER_ADDRESS {
          return -3;
        }
        if x.refCount == 0 {
          return -4;
        }
      }
      if x.addr !in mapAddr || mapAddr[x.addr] != id {
        return -5;
      }
      if x.randomPos < 0 || x.randomPos >= |vRandom| || vRandom[x.randomPos] != id {
        return -14;
      }
      if x.lastTry < 0 {
        return -6;
      }
      if x.lastSuccess < 0 {
        return -8;
      }
      return 0;
    }

    method CheckEntries() returns (code: int, setTried: set<int>, mapNew: map<int, int>)
      ensures code == 0 <==> forall id | id in mapInfo :: EntryChecks(Value(), id)
      ensures code == 0 ==> setTried == TriedIds(mapInfo)
      ensures code == 0 ==>
                mapNew.Keys == NewIds(mapInfo) && forall id | id in mapNew :: mapNew[id] == mapInfo[id].refCount
    {
      setTried, mapNew := {}, map[];
      var todo := mapInfo.Keys;
      while todo != {}
        invariant todo <= mapInfo.Keys
        invariant forall id | id in mapInfo && id !in todo :: EntryChecks(Value(), id)
        invariant setTried == TriedIds(mapInfo) - todo
        invariant mapNew.Keys == NewIds(mapInfo) - todo
        invariant forall id | id in mapNew :: mapNew[id] == mapInfo[id].refCount
        decreases |todo|
      {
        ghost var some := Element(todo);
        assert some in todo;
        var id :| id in todo;
        code := CheckEntry(id);
        if code != 0 {
          return;
        }
        if mapInfo[id].inTried {
          setTried := setTried + {id};
        } else {
          mapNew := mapNew[id := mapInfo[id].refCount];
        }
        todo := todo - {id};
      }
      code := 0;
    }

    method CheckTriedSlot(n: int, i: int, left: set<int>, ghost seen: Table)
      returns (code: int, left': set<int>, ghost seen': Table)
      requires Shaped() && 0 <= n < TRIED_BUCKET_COUNT && 0 <= i < BUCKET_SIZE
      requires SeenTo(Contents(vvTried), seen, n, i) && TriedSeen(Value(), seen, left)
      ensures code == 0 ==> SeenTo(Contents(vvTried), seen', n, i + 1) && TriedSeen(Value(), seen', left')
      ensures code != 0 ==> (n, i) in Contents(vvTried) && !TriedSlotChecks(Value(), (n, i))
    {
      hide Contents, TriedSeen, Refs;
      ContentsAt(vvTried, n, i);
      left', seen' := left, seen;
      if vvTried[n, i] != -1 {
        var id := vvTried[n, i];
        if id !in left {
          TriedTwice(Value(), seen, left, (n, i));
          return -11, left', seen';
        }
        if id !in mapInfo || env.TriedBucket(nKey, mapInfo[id].addr) != n {
          return -17, left', seen';
        }
        if env.Position(nKey, mapInfo[id].addr, false, n) != i {
          return -18, left', seen';
        }
        TriedLeft(Value(), seen, left, id);
        TriedSeenStep(Value(), seen, left, (n, i));
        left' := left - {id};
        seen' := seen[(n, i) := id];
      }
      code := 0;
    }

    /** Strikes every id found in the tried table off the expected ones. */
    method CheckTriedTable(expected: set<int>) returns (code: int, left: set<int>)
      requires Shaped() && expected == TriedIds(mapInfo)
      ensures code == 0 <==> forall slot | slot in Contents(vvTried) :: TriedSlotChecks(Value(), slot)
      ensures code == 0 ==> left == set id | id in expected && Refs(Contents(vvTried), id) == {}
    {
      left := expected;
      ghost var seen: Table := map[];
      TriedSeenStart(Value());
      SeenNone(vvTried);
      hide Contents, TriedSeen, SeenTo, Refs, TriedSlotChecks;
      for n := 0 to TRIED_BUCKET_COUNT
        invariant SeenTo(Contents(vvTried), seen, n, 0) && TriedSeen(Value(), seen, left)
      {
        for i := 0 to BUCKET_SIZE
          invariant SeenTo(Contents(vvTried), seen, n, i) && TriedSeen(Value(), seen, left)
        {
          code, left, seen := CheckTriedSlot(n, i, left, seen);
          if code != 0 {
            return;
          }
        }
        SeenRow(vvTried, seen, n);
      }
      SeenAll(vvTried, seen);
      TriedSeenAll(Value(), left);
      code := 0;
    }

    method CheckNewSlot(n: int, i: int, left: map<int, int>, ghost seen: Table)
      returns (code: int, left': map<int, int>, ghost seen': Table)
      requires Shaped() && 0 <= n < NEW_BUCKET_COUNT && 0 <= i < BUCKET_SIZE
      requires SeenTo(Contents(vvNew), seen, n, i) && NewSeen(Value(), seen, left)
      ensures code == 0 ==> SeenTo(Contents(vvNew), seen', n, i + 1) && NewSeen(Value(), seen', left')
      ensures code != 0 ==> !NewTableChecks(Value())
    {
      hide Contents, NewSeen, Refs;
      ContentsAt(vvNew, n, i);
      left', seen' := left, seen;
      if vvNew[n, i] != -1 {
        var id := vvNew[n, i];
        if id !in left {
          NewTooMany(Value(), seen, left, (n, i));
          return -12, left', seen';
        }
        if id !in mapInfo || env.Position(nKey, mapInfo[id].addr, true, n) != i {
          assert !NewSlotChecks(Value(), (n, i));
          return -19, left', seen';
        }
        NewLeft(Value(), seen, left, id);
        NewSeenStep(Value(), seen, left, (n, i));
        left' := left[id := left[id] - 1];
        if left'[id] == 0 {
          left' := left' - {id};
          assert left' == left - {id};
        }
        seen' := seen[(n, i) := id];
      }
      code := 0;
    }

    /** Counts every id found in the new table against its reference count. */
    method CheckNewTable(expected: map<int, int>) returns (code: int, left: map<int, int>)
      requires Shaped() && expected.Keys == NewIds(mapInfo)
      requires forall id | id in expected :: expected[id] == mapInfo[id].refCount > 0
      ensures code == 0 && left == map[] <==> NewTableChecks(Value())
    {
      left := expected;
      ghost var seen: Table := map[];
      NewSeenStart(Value(), expected);
      SeenNone(vvNew);
      hide Contents, NewSeen, SeenTo, Refs, NewTableChecks;
      for n := 0 to NEW_BUCKET_COUNT
        invariant SeenTo(Contents(vvNew), seen, n, 0) && NewSeen(Value(), seen, left)
      {
        for i := 0 to BUCKET_SIZE
          invariant SeenTo(Contents(vvNew), seen, n, i) && NewSeen(Value(), seen, left)
        {
          code, left, seen := CheckNewSlot(n, i, left, seen);
          if code != 0 {
            return;
          }
        }
        SeenRow(vvNew, seen, n);
      }
      SeenAll(vvNew, seen);
      NewSeenAll(Value(), left);
      code := 0;
    }

    /** Returns zero exactly for a state that meets every condition of the self-check. */
    method CheckAddrman() returns (code: int)
      requires Shaped()
      ensures code == 0 <==> CheckOk(Value())
    {
      hide EntryChecks, TriedSlotChecks, Contents;
      if |vRandom| != nTried + nNew {
        return -7;
      }
      var entryCode, setTried, mapNew := CheckEntries();
      if entryCode != 0 {
        return entryCode;
      }
      if |setTried| != nTried {
        return -9;
      }
      assert |mapNew.Keys| == |mapNew|;
      if |mapNew| != nNew {
        return -10;
      }
      var triedCode, triedLeft := CheckTriedTable(setTried);
      if triedCode != 0 {
        return triedCode;
      }
      EntriesCounted(Value());
      var newCode, newLeft := CheckNewTable(mapNew);
      if newCode != 0 {
        return newCode;
      }
      if triedLeft != {} {
        ghost var id := Element(triedLeft);
        assert Refs(Contents(vvTried), id) == {};
        return -13;
      }
      forall id | id in TriedIds(mapInfo) ensures Refs(Contents(vvTried), id) != {} {
        assert id !in triedLeft;
      }
      if newLeft != map[] {
        return -15;
      }
      if nKey == 0 {
        return -16;
      }
      return 0;
    }
  }

  /** How far a bucket lies behind the start, going round. */
  function Offset(bucket: int, start: int): int {
    if bucket >= start then bucket - start else bucket - start + NEW_BUCKET_COUNT
  }

  /** The first `n` buckets from the start have been rid of an entry; the rest is untouched. */
  ghost predicate Visited(before: Table, now: Table, id: int, start: int, n: int) {
    && (forall slot | slot in now :: slot in before && now[slot] == before[slot])
    && (forall slot | slot in before :: slot in now <==> before[slot] != id || Offset(slot.0, start) >= n)
  }

  lemma OccupantOf(s: State, slot: Slot, p: Pending)
    requires Inv(s, p)
    ensures slot in s.new_ ==> s.new_[slot] in s.info && s.info[s.new_[slot]].refCount > 0
                               && !s.info[s.new_[slot]].inTried
  {
    if slot in s.new_ {
      UnreferencedKeepsInv(s, slot, p);
    }
  }

  lemma ListedEntry(s: State, id: int)
    requires Consistent(s) && id in s.info && !s.info[id].inTried
    ensures id >= 0 && s.info[id].refCount == |Refs(s.new_, id)| > 0
    ensures forall start | 0 <= start < NEW_BUCKET_COUNT :: Visited(s.new_, s.new_, id, start, 0)
  {
  }

  lemma VisitedStep(s: State, now: Table, id: int, start: int, n: int, slot: Slot)
    requires NewOk(s.env, s.key, s.info, s.new_) && id in s.info
    requires 0 <= start < NEW_BUCKET_COUNT && 0 <= n < NEW_BUCKET_COUNT
    requires slot.0 == (start + n) % NEW_BUCKET_COUNT
    requires slot.1 == s.env.Position(s.key, s.info[id].addr, true, slot.0)
    requires Visited(s.new_, now, id, start, n)
    ensures slot in now && now[slot] == id ==> Visited(s.new_, now - {slot}, id, start, n + 1)
    ensures !(slot in now && now[slot] == id) ==> Visited(s.new_, now, id, start, n + 1)
  {
    forall other | other in s.new_ && s.new_[other] == id
      ensures other == slot || Offset(other.0, start) != n
    {
    }
  }

  lemma VisitedAll(s: State, now: Table, id: int, start: int, n: int, m: int, count: int)
    requires NewOk(s.env, s.key, s.info, s.new_) && id in s.info
    requires 0 <= start < NEW_BUCKET_COUNT && 0 <= n <= NEW_BUCKET_COUNT
    requires count == |Refs(now, id)| && (count == 0 || n == NEW_BUCKET_COUNT)
    requires n <= m && Visited(s.new_, now, id, start, m)
    ensures count == 0 && now == s.new_ - Refs(s.new_, id)
  {
    if n == NEW_BUCKET_COUNT {
      forall slot | slot in now ensures now[slot] != id {
        assert Offset(slot.0, start) < n;
      }
      assert Refs(now, id) == {};
    }
    forall slot | slot in now ensures slot !in Refs(s.new_, id) {
      assert now[slot] == id ==> slot in Refs(now, id);
    }
  }

  lemma PlacingId(s: State, id: int)
    requires Placing(s, id)
    ensures id >= 0
  {
  }

  lemma CountInRange(s: State, id: int)
    requires Consistent(s) && id in s.info
    ensures 0 <= s.info[id].refCount <= NEW_BUCKETS_PER_ADDRESS
    ensures s.info[id].refCount == 0 ==> s.info[id].inTried
  {
  }

  /** Doubles once per reference. */
  method ComputeFactor(n: nat) returns (factor: nat)
    ensures factor == Pow(2, n)
    ensures n > 0 ==> factor > 1
  {
    factor := 1;
    for i := 0 to n
      invariant factor == Pow(2, i) && (i > 0 ==> factor > 1)
    {
      factor := factor * 2;
    }
  }

  ghost function AddedAll(s: State, addresses: seq<Address>, source: Host, penalty: int,
                          now: int -> int, draws: int -> nat, n: nat): (r: (State, bool))
    requires Consistent(s) && n <= |addresses|
    ensures Consistent(r.0)
  {
    if n == 0 then (s, false)
    else
      var (t, any) := AddedAll(s, addresses, source, penalty, now, draws, n - 1);
      AddedKeepsInv(t, addresses[n - 1], source, penalty, now(n - 1), draws(n - 1));
      var (u, inserted) := Added(t, addresses[n - 1], source, penalty, now(n - 1), draws(n - 1));
      (u, any || inserted)
  }

  /** The i-th address is taken, in the state that those before it left. */
  ghost predicate TakenAt(s: State, addresses: seq<Address>, source: Host, penalty: int, now: int -> int,
                          draws: int -> nat, i: nat)
    requires Consistent(s) && i < |addresses|
  {
    Added(AddedAll(s, addresses, source, penalty, now, draws, i).0, addresses[i], source, penalty, now(i), draws(i)).1
  }

  lemma AddedAllStep(s: State, addresses: seq<Address>, source: Host, penalty: int, now: int -> int,
                     draws: int -> nat, n: nat)
    requires Consistent(s) && n < |addresses|
    ensures AddedAll(s, addresses, source, penalty, now, draws, n + 1).1 <==>
            AddedAll(s, addresses, source, penalty, now, draws, n).1
            || TakenAt(s, addresses, source, penalty, now, draws, n)
    ensures !AddedAll(s, addresses, source, penalty, now, draws, 0).1
  {
    hide Consistent, Added;
  }

  /** A batch reports an address taken exactly when one of its addresses was. */
  lemma {:induction false} AnyTakenIff(s: State, addresses: seq<Address>, source: Host, penalty: int, now: int -> int,
                                       draws: int -> nat, n: nat)
    requires Consistent(s) && n < |addresses|
    ensures AddedAll(s, addresses, source, penalty, now, draws, n + 1).1 <==>
            exists i :: 0 <= i <= n && TakenAt(s, addresses, source, penalty, now, draws, i)
  {
    hide Consistent, AddedAll, TakenAt;
    AddedAllStep(s, addresses, source, penalty, now, draws, n);
    if n > 0 {
      AnyTakenIff(s, addresses, source, penalty, now, draws, n - 1);
    }
  }

  // ---------------------------------------------------------------------------------------
  // Scanning a table slot by slot

  ghost predicate Before(slot: Slot, n: int, i: int) {
    slot.0 < n || (slot.0 == n && slot.1 < i)
  }

  /** `seen` is the part of a table that a scan has passed when it reaches row `n`, column `i`. */
  ghost predicate SeenTo(table: Table, seen: Table, n: int, i: int) {
    && (forall slot | slot in seen :: slot in table && seen[slot] == table[slot])
    && (forall slot | slot in table :: slot in seen <==> Before(slot, n, i))
  }

  lemma SeenRow(t: array2<int>, seen: Table, n: int)
    requires SeenTo(Contents(t), seen, n, t.Length1)
    ensures SeenTo(Contents(t), seen, n + 1, 0)
  {
    forall slot | slot in Contents(t) ensures Before(slot, n, t.Length1) <==> Before(slot, n + 1, 0) {
      ContentsInRange(t, slot);
    }
  }

  lemma SeenAll(t: array2<int>, seen: Table)
    requires SeenTo(Contents(t), seen, t.Length0, 0)
    ensures seen == Contents(t)
  {
    forall slot | slot in Contents(t) ensures slot in seen {
      ContentsInRange(t, slot);
    }
  }

  ghost predicate TriedSeen(s: State, seen: Table, left: set<int>) {
    && (forall slot | slot in seen :: slot in s.tried && seen[slot] == s.tried[slot] && TriedSlotChecks(s, slot))
    && (forall id :: id in left <==> id in TriedIds(s.info) && Refs(seen, id) == {})
  }

  lemma TriedSeenStart(s: State)
    ensures TriedSeen(s, map[], TriedIds(s.info))
  {
    forall id ensures Refs(map[], id) == {} {
    }
  }

  lemma TriedSeenAll(s: State, left: set<int>)
    requires TriedSeen(s, s.tried, left)
    ensures forall slot | slot in s.tried :: TriedSlotChecks(s, slot)
    ensures left == set id | id in TriedIds(s.info) && Refs(s.tried, id) == {}
  {
    var missing := set id | id in TriedIds(s.info) && Refs(s.tried, id) == {};
    forall id ensures id in left <==> id in missing {
    }
  }

  lemma TriedLeft(s: State, seen: Table, left: set<int>, id: int)
    requires TriedSeen(s, seen, left) && id in left
    ensures id in TriedIds(s.info)
  {
  }

  lemma TriedTwice(s: State, seen: Table, left: set<int>, slot: Slot)
    requires TriedSeen(s, seen, left) && slot in s.tried && slot !in seen && s.tried[slot] !in left
    ensures !TriedSlotChecks(s, slot)
  {
    var id := s.tried[slot];
    if id in TriedIds(s.info) {
      var other := Element(Refs(seen, id));
      assert TriedSlotChecks(s, other);
    }
  }

  lemma TriedSeenStep(s: State, seen: Table, left: set<int>, slot: Slot)
    requires TriedSeen(s, seen, left) && slot in s.tried && slot !in seen && TriedSlotChecks(s, slot)
    ensures TriedSeen(s, seen[slot := s.tried[slot]], left - {s.tried[slot]})
  {
    forall id
      ensures id in left - {s.tried[slot]} <==> id in TriedIds(s.info) && Refs(seen[slot := s.tried[slot]], id) == {}
    {
      RefsInsert(seen, slot, s.tried[slot], id);
    }
  }

  ghost predicate NewTableChecks(s: State) {
    && (forall slot | slot in s.new_ :: NewSlotChecks(s, slot))
    && (forall id | id in NewIds(s.info) :: |Refs(s.new_, id)| == s.info[id].refCount)
  }

  ghost predicate NewSeen(s: State, seen: Table, left: map<int, int>) {
    && (forall slot | slot in seen :: slot in s.new_ && seen[slot] == s.new_[slot] && NewSlotChecks(s, slot))
    && (forall id | id in left :: id in NewIds(s.info) && left[id] == s.info[id].refCount - |Refs(seen, id)| > 0)
    && (forall id | id in NewIds(s.info) && id !in left :: |Refs(seen, id)| == s.info[id].refCount)
  }

  lemma NewSeenStart(s: State, left: map<int, int>)
    requires left.Keys == NewIds(s.info)
    requires forall id | id in left :: left[id] == s.info[id].refCount > 0
    ensures NewSeen(s, map[], left)
  {
    forall id ensures Refs(map[], id) == {} {
    }
    forall id | id in NewIds(s.info) ensures id in left {
      assert id in left.Keys;
    }
  }

  lemma SeenNone(t: array2<int>)
    ensures SeenTo(Contents(t), map[], 0, 0)
  {
    forall slot | slot in Contents(t) ensures !Before(slot, 0, 0) {
      ContentsInRange(t, slot);
    }
  }

  lemma NewLeft(s: State, seen: Table, left: map<int, int>, id: int)
    requires NewSeen(s, seen, left) && id in left
    ensures id in NewIds(s.info)
  {
  }

  lemma NewTooMany(s: State, seen: Table, left: map<int, int>, slot: Slot)
    requires NewSeen(s, seen, left) && slot in s.new_ && slot !in seen && s.new_[slot] !in left
    ensures !NewTableChecks(s)
  {
    var id := s.new_[slot];
    if id in NewIds(s.info) {
      assert |Refs(seen, id) + {slot}| == s.info[id].refCount + 1;
      SubsetSize(Refs(seen, id) + {slot}, Refs(s.new_, id));
    } else {
      assert !NewSlotChecks(s, slot);
    }
  }

  lemma SubsetSize<T>(a: set<T>, b: set<T>)
    requires a <= b
    ensures |a| <= |b|
  {
    assert b == a + (b - a);
  }

  lemma NewSeenStep(s: State, seen: Table, left: map<int, int>, slot: Slot)
    requires NewSeen(s, seen, left) && slot in s.new_ && slot !in seen && s.new_[slot] in left
    requires NewSlotChecks(s, slot)
    ensures var id := s.new_[slot];
            NewSeen(s, seen[slot := id], if left[id] == 1 then left - {id} else left[id := left[id] - 1])
  {
    var id := s.new_[slot];
    forall other ensures |Refs(seen[slot := id], other)| == |Refs(seen, other)| + if other == id then 1 else 0 {
      RefsInsert(seen, slot, id, other);
    }
  }

  lemma NewSeenAll(s: State, left: map<int, int>)
    requires NewSeen(s, s.new_, left)
    ensures left == map[] <==> NewTableChecks(s)
  {
    if left != map[] {
      var id := Element(left.Keys);
      assert id in left && |Refs(s.new_, id)| != s.info[id].refCount;
    }
  }

  lemma EntriesCounted(s: State)
    requires forall id | id in s.info :: EntryChecks(s, id)
    ensures forall id | id in NewIds(s.info) :: s.info[id].refCount > 0
  {
    forall id | id in NewIds(s.info) ensures s.info[id].refCount > 0 {
      assert EntryChecks(s, id);
    }
  }
}
