/**
 The address manager's operations as functions of its state, built from the elementary
 updates, and what every run of them keeps.
 */
module AddrManOps {
  import opened Wrappers
  import opened Powers
  import opened AddrManState

  // ---------------------------------------------------------------------------------------
  // MakeTried

  /** Takes an entry out of every new slot. */
  ghost function Unlisted(s: State, id: int): State
    requires id in s.info
  {
    s.(new_ := s.new_ - Refs(s.new_, id), info := WithCount(s.info, id, 0), nNew := s.nNew - 1)
  }

  lemma UnlistedTables(env: Env, key: nat, info: map<int, Info>, new_: Table, id: int)
    requires NewOk(env, key, info, new_) && RefsOk(info, new_, {})
    requires id in info && !info[id].inTried
    ensures NewOk(env, key, WithCount(info, id, 0), new_ - Refs(new_, id))
    ensures RefsOk(WithCount(info, id, 0), new_ - Refs(new_, id), {id})
  {
    forall x | x in info
      ensures Refs(new_ - Refs(new_, id), x) == if x == id then {} else Refs(new_, x)
    {
      RefsEraseAll(new_, id, x);
    }
  }

  lemma UnlistedKeepsInv(s: State, id: int)
    requires Consistent(s) && id in s.info && !s.info[id].inTried
    ensures Inv(Unlisted(s, id), Pending({id}, 1, {}))
  {
    hide AddrOk, TriedOk, CollisionsOk, IdsOk, RandomOk, TimesOk, RefsOk, NewOk;
    UnlistedTables(s.env, s.key, s.info, s.new_, id);
    WithCountKeeps(s, id, 0, SETTLED);
  }

  /** Sets the table an entry is in. */
  ghost function Moved(info: map<int, Info>, id: int, inTried: bool): map<int, Info>
    requires id in info
  {
    info[id := info[id].(inTried := inTried)]
  }

  lemma MovedAddr(s: State, id: int, inTried: bool, taken: set<Slot>)
    requires id in s.info
    requires AddrOk(s.info, s.addr) && RandomOk(s.info, s.random) && IdsOk(s.info, s.idCount)
    requires CollisionsOk(s.env, s.key, s.info, taken, s.collisions, s.idCount)
    ensures var after := Moved(s.info, id, inTried);
            && AddrOk(after, s.addr) && RandomOk(after, s.random) && IdsOk(after, s.idCount)
            && CollisionsOk(s.env, s.key, after, taken, s.collisions, s.idCount)
  {
  }

  /** Takes the entry out of a tried slot, leaving it in neither table. */
  ghost function Evicted(s: State, slot: Slot): State
    requires slot in s.tried && s.tried[slot] in s.info
  {
    s.(tried := s.tried - {slot}, info := Moved(s.info, s.tried[slot], false), nTried := s.nTried - 1)
  }

  lemma EvictedTables(env: Env, key: nat, info: map<int, Info>, new_: Table, tried: Table, slot: Slot, limbo: set<int>)
    requires NewOk(env, key, info, new_) && TriedOk(env, key, info, tried) && RefsOk(info, new_, limbo)
    requires slot in tried
    ensures var after := Moved(info, tried[slot], false);
            && NewOk(env, key, after, new_)
            && TriedOk(env, key, after, tried - {slot})
            && RefsOk(after, new_, limbo + {tried[slot]})
  {
  }

  lemma EvictedKeepsInv(s: State, slot: Slot, p: Pending)
    requires Inv(s, p) && slot in s.tried
    ensures s.tried[slot] in s.info && s.tried[slot] !in p.limbo
    ensures Inv(Evicted(s, slot), Pending(p.limbo + {s.tried[slot]}, p.extra + 1, p.freed + {slot}))
  {
    var id := s.tried[slot];
    assert id in s.info && s.info[id].inTried;
    EvictedTables(s.env, s.key, s.info, s.new_, s.tried, slot, p.limbo);
    IdsMove(s.info, id, s.info[id].(inTried := false));
    hide AddrOk, CollisionsOk, IdsOk, RandomOk, NewOk, TriedOk, Refs, TriedIds, NewIds;
    MovedAddr(s, id, false, s.tried.Keys + p.freed);
    assert (s.tried - {slot}).Keys + (p.freed + {slot}) == s.tried.Keys + p.freed;
  }

  /** Enters a pending entry into an empty tried slot. */
  ghost function Promoted(s: State, id: int): State
    requires id in s.info
  {
    s.(tried := s.tried[s.env.TriedSlot(s.key, s.info[id].addr) := id],
       info := Moved(s.info, id, true), nTried := s.nTried + 1)
  }

  lemma PromotedTables(env: Env, key: nat, info: map<int, Info>, new_: Table, tried: Table, id: int, limbo: set<int>)
    requires NewOk(env, key, info, new_) && TriedOk(env, key, info, tried) && RefsOk(info, new_, limbo)
    requires id in limbo && id in info && env.TriedSlot(key, info[id].addr) !in tried
    ensures var after := Moved(info, id, true);
            && NewOk(env, key, after, new_)
            && TriedOk(env, key, after, tried[env.TriedSlot(key, info[id].addr) := id])
            && RefsOk(after, new_, limbo - {id})
  {
    assert Refs(new_, id) == {};
    forall slot | slot in new_ ensures new_[slot] != id {
      assert new_[slot] == id ==> slot in Refs(new_, id);
    }
  }

  lemma CollisionsMonotone(env: Env, key: nat, info: map<int, Info>, taken: set<Slot>, more: set<Slot>,
                           collisions: set<int>, idCount: int)
    requires CollisionsOk(env, key, info, taken, collisions, idCount) && taken <= more
    ensures CollisionsOk(env, key, info, more, collisions, idCount)
  {
  }

  lemma PromotedKeepsInv(s: State, id: int, p: Pending)
    requires Inv(s, p) && id in p.limbo && id in s.info && s.info[id].lastSuccess != 0
    requires s.env.TriedSlot(s.key, s.info[id].addr) !in s.tried
    requires p.freed <= {s.env.TriedSlot(s.key, s.info[id].addr)}
    ensures Inv(Promoted(s, id), Pending(p.limbo - {id}, p.extra - 1, {}))
  {
    hide AddrOk, IdsOk, RandomOk, NewOk, TriedOk, Refs, TriedIds, NewIds, RefsOk, CollisionsOk;
    var slot := s.env.TriedSlot(s.key, s.info[id].addr);
    PendingEntry(s, p, id);
    PromotedTables(s.env, s.key, s.info, s.new_, s.tried, id, p.limbo);
    IdsMove(s.info, id, s.info[id].(inTried := true));
    MovedAddr(s, id, true, s.tried.Keys + p.freed);
    CollisionsMonotone(s.env, s.key, Promoted(s, id).info, s.tried.Keys + p.freed, Promoted(s, id).tried.Keys + {},
                       s.collisions, s.idCount);
  }

  /**
   Moves a new entry into its tried slot. The entry it replaces there goes back to the new slot
   of its own source, which is freed for it.
   */
  ghost function MadeTried(s: State, id: int): State
    requires Consistent(s) && id in s.info && !s.info[id].inTried
  {
    var slot := s.env.TriedSlot(s.key, s.info[id].addr);
    var unlisted := Unlisted(s, id);
    UnlistedKeepsInv(s, id);
    if slot !in s.tried then
      Promoted(unlisted, id)
    else
      var readmitted := Readmitted(unlisted, slot, id);
      ReadmittedKeepsInv(unlisted, slot, id);
      Promoted(readmitted, id)
  }

  /** Evicts the entry in a tried slot and enters it into the new table again. */
  ghost function Readmitted(s: State, slot: Slot, id: int): State
    requires Inv(s, Pending({id}, 1, {})) && slot in s.tried
  {
    var evictee := s.tried[slot];
    EvictedKeepsInv(s, slot, Pending({id}, 1, {}));
    var evicted := Evicted(s, slot);
    var home := s.env.NewSlot(s.key, s.info[evictee].addr, s.info[evictee].source);
    ClearedKeepsInv(evicted, home, Pending({id} + {evictee}, 2, {} + {slot}));
    var cleared := Cleared(evicted, home);
    Referenced(cleared, home, evictee).(nNew := cleared.nNew + 1)
  }

  lemma PendingEntry(s: State, p: Pending, id: int)
    requires Inv(s, p) && id in p.limbo
    ensures id in s.info && s.info[id].refCount == 0 && !s.info[id].inTried
  {
  }

  lemma ReadmittedKeepsInv(s: State, slot: Slot, id: int)
    requires Inv(s, Pending({id}, 1, {})) && slot in s.tried
    ensures s.tried[slot] in s.info && s.tried[slot] != id && id in s.info
    ensures Inv(Readmitted(s, slot, id), Pending({id}, 1, {slot}))
    ensures id in Readmitted(s, slot, id).info
    ensures var t := Readmitted(s, slot, id);
            && t.info[id] == s.info[id].(randomPos := t.info[id].randomPos)
            && t.tried == s.tried - {slot} && t.env == s.env && t.key == s.key
  {
    hide AddrOk, CollisionsOk, IdsOk, NewOk, TriedOk, Refs, TriedIds, NewIds, RefsOk, Cleared, TimesOk, RandomOk;
    var evictee := s.tried[slot];
    PendingEntry(s, Pending({id}, 1, {}), id);
    EvictedKeepsInv(s, slot, Pending({id}, 1, {}));
    var evicted := Evicted(s, slot);
    var home := s.env.NewSlot(s.key, s.info[evictee].addr, s.info[evictee].source);
    var p := Pending({id} + {evictee}, 2, {} + {slot});
    PendingEntry(evicted, p, evictee);
    ClearedKeepsInv(evicted, home, p);
    var cleared := Cleared(evicted, home);
    ReferencedKeepsInv(cleared, home, evictee, p);
    assert p.limbo - {evictee} == {id};
    assert {} + {slot} == {slot};
  }

  lemma MadeTriedKeepsInv(s: State, id: int)
    requires Consistent(s) && id in s.info && !s.info[id].inTried && s.info[id].lastSuccess != 0
    ensures Consistent(MadeTried(s, id))
  {
    hide AddrOk, CollisionsOk, IdsOk, NewOk, TriedOk, RefsOk, TimesOk, RandomOk, CountsOk, Readmitted;
    var slot := s.env.TriedSlot(s.key, s.info[id].addr);
    var unlisted := Unlisted(s, id);
    UnlistedKeepsInv(s, id);
    assert {id} - {id} == {};
    if slot !in s.tried {
      PromotedKeepsInv(unlisted, id, Pending({id}, 1, {}));
    } else {
      ReadmittedKeepsInv(unlisted, slot, id);
      PromotedKeepsInv(Readmitted(unlisted, slot, id), id, Pending({id}, 1, {slot}));
    }
  }

  /** What MakeTried achieves, said of the tables alone. */
  lemma MadeTriedEffect(s: State, id: int)
    requires Consistent(s) && id in s.info && !s.info[id].inTried
    ensures var t, slot := MadeTried(s, id), s.env.TriedSlot(s.key, s.info[id].addr);
            && t.tried == s.tried[slot := id]
            && id in t.info
            && t.info[id] == s.info[id].(refCount := 0, inTried := true, randomPos := t.info[id].randomPos)
            && (slot !in s.tried ==> t.new_ == s.new_ - Refs(s.new_, id))
            && (slot in s.tried ==>
                  && s.tried[slot] in s.info && s.tried[slot] in t.info
                  && var evicted := s.info[s.tried[slot]];
                  && var home := s.env.NewSlot(s.key, evicted.addr, evicted.source);
                  && t.new_ == (s.new_ - Refs(s.new_, id))[home := s.tried[slot]]
                  && t.info[s.tried[slot]] ==
                     evicted.(refCount := 1, inTried := false, randomPos := t.info[s.tried[slot]].randomPos))
            && t == s.(info := t.info, addr := t.addr, random := t.random, tried := t.tried, new_ := t.new_,
                       nTried := t.nTried, nNew := t.nNew)
  {
    hide AddrOk, CollisionsOk, IdsOk, NewOk, TriedOk, RefsOk, TimesOk, RandomOk, CountsOk, Readmitted, Refs;
    var slot := s.env.TriedSlot(s.key, s.info[id].addr);
    var unlisted := Unlisted(s, id);
    UnlistedKeepsInv(s, id);
    if slot in s.tried {
      ReadmittedEffect(unlisted, slot, id);
      ReadmittedKeepsInv(unlisted, slot, id);
      assert (s.tried - {slot})[slot := id] == s.tried[slot := id];
    }
  }

  /** Clearing the home of the evicted entry leaves that entry, as evicted. */
  lemma EvictedStays(s: State, slot: Slot, id: int)
    requires Inv(s, Pending({id}, 1, {})) && slot in s.tried
    ensures var evictee := s.tried[slot];
            && evictee in s.info
            && var home := s.env.NewSlot(s.key, s.info[evictee].addr, s.info[evictee].source);
               var evicted := Evicted(s, slot);
            && RandomOk(evicted.info, evicted.random) && (home in evicted.new_ ==> evicted.new_[home] in evicted.info)
            && var cleared := Cleared(evicted, home);
            && evictee in cleared.info
            && cleared.info[evictee] == evicted.info[evictee].(randomPos := cleared.info[evictee].randomPos)
            && cleared.new_ == s.new_ - {home} && SameTables(evicted.(new_ := s.new_ - {home}), cleared)
  {
    hide AddrOk, CollisionsOk, IdsOk, NewOk, TriedOk, Refs, TriedIds, NewIds;
    hide RefsOk, Cleared, TimesOk, RandomOk, CountsOk, SameTables;
    var evictee := s.tried[slot];
    EvictedKeepsInv(s, slot, Pending({id}, 1, {}));
    var evicted := Evicted(s, slot);
    var home := s.env.NewSlot(s.key, s.info[evictee].addr, s.info[evictee].source);
    var p := Pending({id} + {evictee}, 2, {} + {slot});
    PendingEntry(evicted, p, evictee);
    ClearedKeepsInv(evicted, home, p);
  }

  lemma ReadmittedEffect(s: State, slot: Slot, id: int)
    requires Inv(s, Pending({id}, 1, {})) && slot in s.tried
    ensures s.tried[slot] in s.info && s.tried[slot] in Readmitted(s, slot, id).info
    ensures var t, evicted := Readmitted(s, slot, id), s.info[s.tried[slot]];
            && t.new_ == s.new_[s.env.NewSlot(s.key, evicted.addr, evicted.source) := s.tried[slot]]
            && t.info[s.tried[slot]] ==
               evicted.(refCount := 1, inTried := false, randomPos := t.info[s.tried[slot]].randomPos)
            && t == s.(info := t.info, addr := t.addr, random := t.random, tried := t.tried, new_ := t.new_,
                       nTried := t.nTried, nNew := t.nNew)
  {
    hide Inv, RandomOk, Cleared;
    var evictee := s.tried[slot];
    EvictedStays(s, slot, id);
    TriedHasNoRefs(s, slot, id);
    var home := s.env.NewSlot(s.key, s.info[evictee].addr, s.info[evictee].source);
    assert (s.new_ - {home})[home := evictee] == s.new_[home := evictee];
  }

  lemma TriedHasNoRefs(s: State, slot: Slot, id: int)
    requires Inv(s, Pending({id}, 1, {})) && slot in s.tried
    ensures s.tried[slot] in s.info && s.info[s.tried[slot]].refCount == 0 && s.info[s.tried[slot]].inTried
  {
    hide AddrOk, CollisionsOk, IdsOk, NewOk, Refs, TriedIds, NewIds, RefsOk, TimesOk, RandomOk, CountsOk;
    EvictedKeepsInv(s, slot, Pending({id}, 1, {}));
    PendingEntry(Evicted(s, slot), Pending({id} + {s.tried[slot]}, 2, {} + {slot}), s.tried[slot]);
  }

  // ---------------------------------------------------------------------------------------
  // Add

  datatype Address = Address(addr: Service, time: int, services: set<nat>)

  /** An entry whose next reference is being placed: fresh entries have none yet. */
  ghost predicate Placing(s: State, id: int) {
    && id in s.info
    && Inv(s, Pending(if s.info[id].refCount == 0 then {id} else {}, 0, {}))
    && !s.info[id].inTried
    && s.info[id].refCount < NEW_BUCKETS_PER_ADDRESS
  }

  /** Whether the new slot an entry hashes to is free for it or may be taken from its holder. */
  ghost predicate MayTake(s: State, id: int, slot: Slot, now: int)
    requires id in s.info && (slot in s.new_ ==> s.new_[slot] in s.info)
  {
    slot in s.new_ ==>
      && s.new_[slot] != id
      && (s.info[s.new_[slot]].IsTerrible(now) || (s.info[s.new_[slot]].refCount > 1 && s.info[id].refCount == 0))
  }

  ghost function Placed(s: State, id: int, source: Host, now: int): (State, bool)
    requires Placing(s, id)
  {
    var slot := s.env.NewSlot(s.key, s.info[id].addr, source);
    if MayTake(s, id, slot, now) then
      PlacedCleared(s, id, slot);
      (Referenced(Cleared(s, slot), slot, id), true)
    else if s.info[id].refCount == 0 then
      (Deleted(s, id), false)
    else
      (s, false)
  }

  lemma PlacedCleared(s: State, id: int, slot: Slot)
    requires Placing(s, id) && (slot in s.new_ ==> s.new_[slot] != id)
    ensures RandomOk(s.info, s.random) && (slot in s.new_ ==> s.new_[slot] in s.info)
    ensures id in Cleared(s, slot).info
    ensures Cleared(s, slot).info[id] == s.info[id].(randomPos := Cleared(s, slot).info[id].randomPos)
  {
    ClearedKeepsInv(s, slot, Pending(if s.info[id].refCount == 0 then {id} else {}, 0, {}));
  }

  lemma PlacedKeepsInv(s: State, id: int, source: Host, now: int)
    requires Placing(s, id)
    ensures Consistent(Placed(s, id, source, now).0)
    ensures SameTables(s.(new_ := Placed(s, id, source, now).0.new_), Placed(s, id, source, now).0)
  {
    var slot := s.env.NewSlot(s.key, s.info[id].addr, source);
    var p := Pending(if s.info[id].refCount == 0 then {id} else {}, 0, {});
    ClearedKeepsInv(s, slot, p);
    hide AddrOk, CollisionsOk, IdsOk, NewOk, TriedOk, RefsOk, TimesOk, RandomOk, CountsOk, Cleared, Deleted;
    assert p.limbo - {id} == {};
    if MayTake(s, id, slot, now) {
      PlacedCleared(s, id, slot);
      ReferencedKeepsInv(Cleared(s, slot), slot, id, p);
    } else if s.info[id].refCount == 0 {
      DeletedKeepsInv(s, id, p);
    }
  }

  /** A known entry refreshed by a new announcement of its address. */
  ghost function Refreshed(x: Info, a: Address, penalty: int, now: int): Info {
    var interval := if now - a.time < DAY then HOUR else DAY;
    var time := if x.time < a.time - interval - penalty then Max(0, a.time - penalty) else x.time;
    x.(time := time, services := x.services + a.services)
  }

  /** Whether a refreshed entry gets one more reference; `draw` is the random number drawn. */
  ghost predicate Eligible(x: Info, a: Address, draw: nat) {
    && a.time > x.time
    && !x.inTried
    && x.refCount != NEW_BUCKETS_PER_ADDRESS
    && (x.refCount > 0 ==> draw % Pow(2, x.refCount) == 0)
  }

  ghost function Added(s: State, a: Address, source: Host, penalty: int, now: int, draw: nat): (State, bool)
    requires Consistent(s)
  {
    var pen := if s.env.host(a.addr) == source then 0 else penalty;
    if !s.env.IsRoutable(a.addr) then
      (s, false)
    else if a.addr in s.addr then
      var id := s.addr[a.addr];
      var t := Touched(s, id, Refreshed(s.info[id], a, pen, now));
      TouchedKeepsInv(s, id, Refreshed(s.info[id], a, pen, now), SETTLED);
      if Eligible(t.info[id], a, draw) then Placed(t, id, source, now) else (t, false)
    else
      var t := Announced(s, a, source, pen);
      AnnouncedKeepsInv(s, a, source, pen);
      Placed(t, s.idCount, source, now)
  }

  /** A first announcement: the entry is created and counted as new. */
  ghost function Announced(s: State, a: Address, source: Host, penalty: int): State {
    Created(s, a.addr, Max(0, a.time - penalty), a.services, source).(nNew := s.nNew + 1)
  }

  lemma AnnouncedKeepsInv(s: State, a: Address, source: Host, penalty: int)
    requires Consistent(s) && a.addr !in s.addr
    ensures Placing(Announced(s, a, source, penalty), s.idCount)
  {
    hide AddrOk, CollisionsOk, IdsOk, NewOk, TriedOk, RefsOk, TimesOk, RandomOk;
    CreatedKeepsInv(s, a.addr, Max(0, a.time - penalty), a.services, source);
  }

  lemma AddedKeepsInv(s: State, a: Address, source: Host, penalty: int, now: int, draw: nat)
    requires Consistent(s)
    ensures Consistent(Added(s, a, source, penalty, now, draw).0)
    ensures var t := Added(s, a, source, penalty, now, draw).0;
            t.tried == s.tried && t.collisions == s.collisions && t.env == s.env && t.key == s.key
  {
    var pen := if s.env.host(a.addr) == source then 0 else penalty;
    if s.env.IsRoutable(a.addr) {
      if a.addr in s.addr {
        var id := s.addr[a.addr];
        var x := Refreshed(s.info[id], a, pen, now);
        TouchedKeepsInv(s, id, x, SETTLED);
        hide AddrOk, CollisionsOk, IdsOk, NewOk, TriedOk, TimesOk, RandomOk, CountsOk, Placed;
        if Eligible(x, a, draw) {
          PlacedKeepsInv(Touched(s, id, x), id, source, now);
        }
      } else {
        hide AddrOk, CollisionsOk, IdsOk, NewOk, TriedOk, RefsOk, TimesOk, RandomOk, CountsOk, Placed;
        AnnouncedKeepsInv(s, a, source, pen);
        PlacedKeepsInv(Announced(s, a, source, pen), s.idCount, source, now);
      }
    }
  }

  /**
   What Add achieves: on success the slot that the source selects now holds the address, whose
   reference count went up by one; otherwise no slot changes, and an unknown address stays so.
   */
  lemma AddedEffect(s: State, a: Address, source: Host, penalty: int, now: int, draw: nat)
    requires Consistent(s)
    ensures var (t, ok) := Added(s, a, source, penalty, now, draw);
            && (ok ==>
                  && a.addr in t.addr && t.addr[a.addr] in t.info
                  && t.new_ == s.new_[s.env.NewSlot(s.key, a.addr, source) := t.addr[a.addr]]
                  && t.addr[a.addr] == (if a.addr in s.addr then s.addr[a.addr] else s.idCount)
                  && t.info[t.addr[a.addr]].refCount ==
                     1 + if a.addr in s.addr then s.info[s.addr[a.addr]].refCount else 0)
            && (!ok ==> t.new_ == s.new_ && (a.addr in t.addr <==> a.addr in s.addr))
  {
    var pen := if s.env.host(a.addr) == source then 0 else penalty;
    if s.env.IsRoutable(a.addr) {
      if a.addr in s.addr {
        var id := s.addr[a.addr];
        var x := Refreshed(s.info[id], a, pen, now);
        TouchedKeepsInv(s, id, x, SETTLED);
        assert x.addr == a.addr;
        hide CollisionsOk, IdsOk, NewOk, TriedOk, TimesOk, RandomOk, CountsOk, Placed, AddrOk;
        if Eligible(x, a, draw) {
          PlacedEffect(Touched(s, id, x), id, source, now);
        }
      } else {
        hide AddrOk, CollisionsOk, IdsOk, NewOk, TriedOk, RefsOk, TimesOk, RandomOk, CountsOk, Placed;
        AnnouncedKeepsInv(s, a, source, pen);
        PlacedEffect(Announced(s, a, source, pen), s.idCount, source, now);
      }
    }
  }

  lemma PlacedEffect(s: State, id: int, source: Host, now: int)
    requires Placing(s, id)
    ensures var (t, ok) := Placed(s, id, source, now);
            && (ok ==>
                  && id in t.info && s.info[id].addr in t.addr && t.addr[s.info[id].addr] == id
                  && t.new_ == s.new_[s.env.NewSlot(s.key, s.info[id].addr, source) := id]
                  && t.info[id].refCount == s.info[id].refCount + 1)
            && (!ok ==> t.new_ == s.new_)
            && (!ok && s.info[id].refCount == 0 ==> s.info[id].addr !in t.addr)
            && (!ok && s.info[id].refCount > 0 ==> t == s)
  {
    hide CollisionsOk, IdsOk, NewOk, TriedOk, RefsOk, TimesOk, RandomOk, CountsOk, AddrOk, Cleared, Deleted;
    var slot := s.env.NewSlot(s.key, s.info[id].addr, source);
    var p := Pending(if s.info[id].refCount == 0 then {id} else {}, 0, {});
    ClearedKeepsInv(s, slot, p);
    if MayTake(s, id, slot, now) {
      PlacedCleared(s, id, slot);
      assert (s.new_ - {slot})[slot := id] == s.new_[slot := id];
      EntryIsIndexed(Cleared(s, slot), id, p);
    } else if s.info[id].refCount == 0 {
      DeletedKeepsInv(s, id, p);
      DeletedAddr(s, id);
    }
  }

  lemma EntryIsIndexed(s: State, id: int, p: Pending)
    requires Inv(s, p) && id in s.info
    ensures s.info[id].addr in s.addr && s.addr[s.info[id].addr] == id
  {
  }

  lemma DeletedAddr(s: State, id: int)
    requires RandomOk(s.info, s.random) && id in s.info
    ensures s.info[id].addr !in Deleted(s, id).addr
  {
  }

  // ---------------------------------------------------------------------------------------
  // Good and the test-before-evict collisions

  ghost function Connected_(x: Info, time: int): Info {
    x.(lastSuccess := time, lastTry := time, attempts := 0)
  }

  /** Whether a connected entry leaves for the tried table, and what happens if it may not. */
  ghost function MarkedGood(s: State, a: Service, testBeforeEvict: bool, time: int): (State, bool)
    requires Consistent(s) && time > 0
  {
    var s0 := s.(lastGood := time);
    if a !in s.addr then
      (s0, false)
    else
      var id := s.addr[a];
      var t := Touched(s0, id, Connected_(s.info[id], time));
      ConnectedKeepsInv(s, id, time);
      if s.info[id].inTried then
        (t, false)
      else if testBeforeEvict && s.env.TriedSlot(s.key, a) in s.tried then
        (if |s.collisions| < SET_TRIED_COLLISION_SIZE then t.(collisions := s.collisions + {id}) else t, false)
      else
        (MadeTried(t, id), true)
  }

  lemma KnownAddress(s: State, a: Service)
    requires Consistent(s) && a in s.addr
    ensures s.addr[a] in s.info && s.info[s.addr[a]].addr == a
  {
  }

  lemma ConnectedKeepsInv(s: State, id: int, time: int)
    requires Consistent(s) && time > 0 && id in s.info
    ensures Consistent(Touched(s.(lastGood := time), id, Connected_(s.info[id], time)))
  {
    TouchedKeepsInv(s, id, Connected_(s.info[id], time), SETTLED);
  }

  lemma CollisionRecorded(s: State, id: int)
    requires Consistent(s) && id in s.info && s.env.TriedSlot(s.key, s.info[id].addr) in s.tried
    ensures Consistent(s.(collisions := s.collisions + {id}))
  {
  }

  lemma LastGoodKeepsInv(s: State, time: int)
    requires Consistent(s)
    ensures Consistent(s.(lastGood := time))
  {
    hide AddrOk, CollisionsOk, IdsOk, NewOk, TriedOk, RefsOk, TimesOk, RandomOk, CountsOk;
  }

  lemma MarkedGoodKeepsInv(s: State, a: Service, testBeforeEvict: bool, time: int)
    requires Consistent(s) && time > 0
    ensures Consistent(MarkedGood(s, a, testBeforeEvict, time).0)
    ensures var t := MarkedGood(s, a, testBeforeEvict, time).0;
            s.tried.Keys <= t.tried.Keys && t.env == s.env && t.key == s.key && t.idCount == s.idCount
    ensures !testBeforeEvict ==> MarkedGood(s, a, testBeforeEvict, time).0.collisions == s.collisions
  {
    hide Inv, MadeTried;
    LastGoodKeepsInv(s, time);
    if a in s.addr {
      var id := s.addr[a];
      KnownAddress(s, a);
      var t := Touched(s.(lastGood := time), id, Connected_(s.info[id], time));
      ConnectedKeepsInv(s, id, time);
      if !s.info[id].inTried {
        if testBeforeEvict && s.env.TriedSlot(s.key, a) in s.tried {
          CollisionRecorded(t, id);
        } else {
          MadeTriedKeepsInv(t, id);
          MadeTriedEffect(t, id);
        }
      }
    }
  }

  /**
   What Good achieves: it returns true exactly when a known new address may move, and then the
   address holds its tried slot; when it returns false the tables are as before.
   */
  lemma MarkedGoodEffect(s: State, a: Service, testBeforeEvict: bool, time: int)
    requires Consistent(s) && time > 0
    ensures var (t, ok) := MarkedGood(s, a, testBeforeEvict, time);
            && (ok <==> a in s.addr && !s.info[s.addr[a]].inTried
                        && !(testBeforeEvict && s.env.TriedSlot(s.key, a) in s.tried))
            && (ok ==> s.addr[a] in t.info && t.info[s.addr[a]].inTried
                       && t.tried == s.tried[s.env.TriedSlot(s.key, a) := s.addr[a]])
            && (!ok ==> t.tried == s.tried && t.new_ == s.new_)
            && t.lastGood == time
            && (a in s.addr ==>
                  && s.addr[a] in t.info
                  && t.info[s.addr[a]].lastSuccess == t.info[s.addr[a]].lastTry == time
                  && t.info[s.addr[a]].attempts == 0)
            && t.collisions == (if a in s.addr && !s.info[s.addr[a]].inTried && !ok
                                   && |s.collisions| < SET_TRIED_COLLISION_SIZE
                                then s.collisions + {s.addr[a]} else s.collisions)
  {
    hide AddrOk, CollisionsOk, IdsOk, NewOk, TriedOk, RefsOk, TimesOk, RandomOk, CountsOk, MadeTried;
    if a in s.addr {
      var id := s.addr[a];
      KnownAddress(s, a);
      var t := Touched(s.(lastGood := time), id, Connected_(s.info[id], time));
      ConnectedKeepsInv(s, id, time);
      if !s.info[id].inTried && !(testBeforeEvict && s.env.TriedSlot(s.key, a) in s.tried) {
        MadeTriedEffect(t, id);
      }
    }
  }

  /** Whether a recorded collision is finished with, and whether the new entry replaces the old. */
  datatype Verdict = Keep | Erase | Replace

  ghost function Judged(s: State, id: int, now: int): Verdict
    requires Consistent(s)
  {
    if id !in s.info then Erase
    else
      var x := s.info[id];
      var slot := s.env.TriedSlot(s.key, x.addr);
      if !s.env.valid(x.addr) then Erase
      else if slot in s.tried then
        var y := s.info[s.tried[slot]];
        if now - y.lastSuccess < REPLACEMENT then Erase
        else if now - y.lastTry < REPLACEMENT then
          if now - y.lastTry > MINUTE then Replace else Keep
        else if now - x.lastSuccess > TEST_WINDOW then Replace
        else Keep
      else Replace
  }

  ghost function ResolvedOne(s: State, id: int, now: int): State
    requires Consistent(s) && now > 0
  {
    match Judged(s, id, now)
    case Keep => s
    case Erase => s.(collisions := s.collisions - {id})
    case Replace =>
      var t := MarkedGood(s, s.info[id].addr, false, now).0;
      t.(collisions := t.collisions - {id})
  }

  lemma CollisionErased(s: State, id: int)
    requires Consistent(s)
    ensures Consistent(s.(collisions := s.collisions - {id}))
  {
  }

  lemma ResolvedOneKeepsInv(s: State, id: int, now: int)
    requires Consistent(s) && now > 0
    ensures Consistent(ResolvedOne(s, id, now))
    ensures var t := ResolvedOne(s, id, now);
            s.tried.Keys <= t.tried.Keys && t.env == s.env && t.key == s.key
            && t.collisions == if Judged(s, id, now).Keep? then s.collisions else s.collisions - {id}
  {
    hide AddrOk, CollisionsOk, IdsOk, NewOk, TriedOk, RefsOk, TimesOk, RandomOk, CountsOk, MarkedGood;
    if id in s.info {
      MarkedGoodKeepsInv(s, s.info[id].addr, false, now);
      CollisionErased(MarkedGood(s, s.info[id].addr, false, now).0, id);
    }
    CollisionErased(s, id);
  }

  lemma SmallestExists(ids: set<int>)
    requires ids != {}
    ensures exists id :: IsSmallest(ids, id)
  {
    var some := Element(ids);
    if ids == {some} {
      assert IsSmallest(ids, some);
    } else {
      SmallestExists(ids - {some});
      var least :| IsSmallest(ids - {some}, least);
      forall x | x in ids ensures x == some || least <= x {
        assert x == some || x in ids - {some};
      }
      assert IsSmallest(ids, if some < least then some else least);
    }
  }

  ghost predicate IsSmallest(ids: set<int>, id: int) {
    id in ids && forall x | x in ids :: id <= x
  }

  ghost function Smallest(ids: set<int>): (id: int)
    requires ids != {}
    ensures IsSmallest(ids, id)
  {
    SmallestExists(ids);
    var id :| IsSmallest(ids, id);
    id
  }

  /** Visits the recorded collisions in increasing order; `clock` gives the time of each visit. */
  ghost function Resolved(s: State, todo: set<int>, clock: int -> int): State
    requires Consistent(s) && forall id :: clock(id) > 0
    decreases |todo|
  {
    if todo == {} then s
    else
      var id := Smallest(todo);
      ResolvedOneKeepsInv(s, id, clock(id));
      Resolved(ResolvedOne(s, id, clock(id)), todo - {id}, clock)
  }

  lemma {:induction false} ResolvedKeepsInv(s: State, todo: set<int>, clock: int -> int)
    requires Consistent(s) && forall id :: clock(id) > 0
    ensures Consistent(Resolved(s, todo, clock))
    ensures var t := Resolved(s, todo, clock);
            s.tried.Keys <= t.tried.Keys && t.env == s.env && t.key == s.key
    decreases |todo|
  {
    hide Consistent, ResolvedOne;
    if todo != {} {
      var id := Smallest(todo);
      ResolvedOneKeepsInv(s, id, clock(id));
      ResolvedKeepsInv(ResolvedOne(s, id, clock(id)), todo - {id}, clock);
    }
  }

  /** The tried entry that a recorded collision would evict; a stale record is dropped. */
  ghost function CollisionSelected(s: State, id: int): (State, Option<Info>)
    requires Consistent(s)
  {
    if id !in s.collisions then (s, None)
    else if id !in s.info then (s.(collisions := s.collisions - {id}), None)
    else (s, Some(s.info[s.tried[s.env.TriedSlot(s.key, s.info[id].addr)]]))
  }

  /** The lookup behind a selected collision never misses, and yields a tried entry. */
  lemma CollisionSelectedIsTried(s: State, id: int)
    requires Consistent(s) && id in s.collisions && id in s.info
    ensures var slot := s.env.TriedSlot(s.key, s.info[id].addr);
            && slot in s.tried && s.tried[slot] in s.info && s.info[s.tried[slot]].inTried
            && CollisionSelected(s, id).1 == Some(s.info[s.tried[slot]])
            && s.env.TriedSlot(s.key, s.info[s.tried[slot]].addr) == slot
  {
  }

  // ---------------------------------------------------------------------------------------
  // Updates of statistics

  ghost function Attempted(s: State, a: Service, countFailure: bool, time: int): State {
    if a !in s.addr || s.addr[a] !in s.info then s
    else
      var x := s.info[s.addr[a]].(lastTry := time);
      Touched(s, s.addr[a],
              if countFailure && x.lastCountAttempt < s.lastGood
              then x.(lastCountAttempt := time, attempts := x.attempts + 1) else x)
  }

  ghost function TimeRefreshed(s: State, a: Service, time: int): State {
    if a !in s.addr || s.addr[a] !in s.info then s
    else
      var x := s.info[s.addr[a]];
      if time - x.time > 20 * MINUTE then Touched(s, s.addr[a], x.(time := time)) else s
  }

  ghost function ServicesSet(s: State, a: Service, services: set<nat>): State {
    if a !in s.addr || s.addr[a] !in s.info then s
    else Touched(s, s.addr[a], s.info[s.addr[a]].(services := services))
  }

  lemma AttemptedKeepsInv(s: State, a: Service, countFailure: bool, time: int)
    requires Consistent(s) && time >= 0
    ensures Consistent(Attempted(s, a, countFailure, time))
  {
    hide AddrOk, CollisionsOk, IdsOk, NewOk, TriedOk, RefsOk, RandomOk, CountsOk;
    if a in s.addr && s.addr[a] in s.info {
      var id := s.addr[a];
      TouchedKeepsInv(s, id, Attempted(s, a, countFailure, time).info[id], SETTLED);
    }
  }

  lemma TimeRefreshedKeepsInv(s: State, a: Service, time: int)
    requires Consistent(s)
    ensures Consistent(TimeRefreshed(s, a, time))
  {
    hide AddrOk, CollisionsOk, IdsOk, NewOk, TriedOk, RefsOk, RandomOk, CountsOk;
    if a in s.addr && s.addr[a] in s.info {
      var id := s.addr[a];
      TouchedKeepsInv(s, id, s.info[id].(time := time), SETTLED);
    }
  }

  lemma ServicesSetKeepsInv(s: State, a: Service, services: set<nat>)
    requires Consistent(s)
    ensures Consistent(ServicesSet(s, a, services))
  {
    hide AddrOk, CollisionsOk, IdsOk, NewOk, TriedOk, RefsOk, RandomOk, CountsOk;
    if a in s.addr && s.addr[a] in s.info {
      var id := s.addr[a];
      TouchedKeepsInv(s, id, s.info[id].(services := services), SETTLED);
    }
  }
}
