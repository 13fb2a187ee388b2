/**
 What the calls of the address manager achieve, said of its tables and entries alone: when an address is
 taken, when a tried entry may be replaced, and which statistics are kept.
 */
module AddrManEffects {
  import opened Wrappers
  import opened Powers
  import opened AddrManState
  import opened AddrManOps
  import opened AddrManRuns

  // ---------------------------------------------------------------------------------------
  // Add

  /** When an entry is not worth keeping: never within a minute of an attempt. */
  lemma TerribleIff(x: Info, now: int)
    ensures x.IsTerrible(now) <==>
            && now > x.lastTry + MINUTE
            && (|| !(now - HORIZON <= x.time <= now + 10 * MINUTE)
                || (x.attempts >= RETRIES && x.lastSuccess == 0)
                || (x.attempts >= MAX_FAILURES && x.lastSuccess < now - MIN_FAIL))
  {
  }

  /** Whether an entry may be put into a new slot: nothing holds it, or what does may go for it. */
  ghost predicate Yields(s: State, slot: Slot, a: Service, now: int) {
    slot in s.new_ ==>
      && s.new_[slot] in s.info && s.info[s.new_[slot]].addr != a
      && (s.info[s.new_[slot]].IsTerrible(now) || (s.info[s.new_[slot]].refCount >= 2 && a !in s.addr))
  }

  /** Whether an announcement says something new of a known address, once the time it brings is discounted. */
  ghost predicate IsNews(known: int, announced: int, penalty: int, now: int) {
    if known + (if announced > now - DAY then HOUR else DAY) + penalty < announced
    then announced > 0 && penalty > 0 else announced > known
  }

  lemma PlacedIff(s: State, id: int, source: Host, now: int)
    requires Placing(s, id)
    ensures var slot := s.env.NewSlot(s.key, s.info[id].addr, source);
            Placed(s, id, source, now).1 <==>
            (slot in s.new_ ==>
               && s.new_[slot] in s.info && s.new_[slot] != id
               && (s.info[s.new_[slot]].IsTerrible(now)
                   || (s.info[s.new_[slot]].refCount >= 2 && s.info[id].refCount == 0)))
  {
    hide AddrOk, CollisionsOk, IdsOk, TriedOk, RefsOk, TimesOk, RandomOk, CountsOk, Cleared, Deleted, Info.IsTerrible;
  }

  /**
   An address is taken if and only if it is routable, its slot is free or held by another entry that is not worth
   keeping (or, for an unknown address, has another slot), and, if it was known, the announcement is news of an
   entry that is not tried, has fewer than eight slots, and wins a draw of one in two to the number of these.
   */
  lemma AddedIff(s: State, a: Address, source: Host, penalty: int, now: int, draw: nat)
    requires Consistent(s)
    ensures Added(s, a, source, penalty, now, draw).1 <==>
            && s.env.valid(a.addr) && s.env.routable(a.addr)
            && Yields(s, s.env.NewSlot(s.key, a.addr, source), a.addr, now)
            && (a.addr in s.addr ==>
                  var x := s.info[s.addr[a.addr]];
                  && IsNews(x.time, a.time, if s.env.host(a.addr) == source then 0 else penalty, now)
                  && !x.inTried && 0 <= x.refCount < NEW_BUCKETS_PER_ADDRESS
                  && draw % Pow(2, x.refCount) == 0)
  {
    hide AddrOk, CollisionsOk, IdsOk, NewOk, TriedOk, RefsOk, RandomOk, CountsOk, Placed, Info.IsTerrible, Pow;
    var pen := if s.env.host(a.addr) == source then 0 else penalty;
    HoldersAreKnown(s);
    if a.addr in s.addr {
      KnownAddress(s, a.addr);
      var id := s.addr[a.addr];
      var x := Refreshed(s.info[id], a, pen, now);
      TouchedKeepsInv(s, id, x, SETTLED);
      ReferencesInRange(s, id);
      if Eligible(x, a, draw) {
        PlacedIff(Touched(s, id, x), id, source, now);
      }
    } else {
      AnnouncedKeepsInv(s, a, source, pen);
      PlacedIff(Announced(s, a, source, pen), s.idCount, source, now);
    }
  }

  lemma HoldersAreKnown(s: State)
    requires Consistent(s)
    ensures forall slot | slot in s.new_ ::
              s.new_[slot] in s.info && s.new_[slot] < s.idCount && s.info[s.new_[slot]].refCount >= 1
              && s.info[s.new_[slot]].addr in s.addr && s.addr[s.info[s.new_[slot]].addr] == s.new_[slot]
  {
    forall slot | slot in s.new_ ensures s.new_[slot] in s.info && s.info[s.new_[slot]].refCount >= 1 {
      assert slot in Refs(s.new_, s.new_[slot]);
    }
  }

  lemma ReferencesInRange(s: State, id: int)
    requires Consistent(s) && id in s.info
    ensures 0 <= s.info[id].refCount <= NEW_BUCKETS_PER_ADDRESS && (s.info[id].refCount == 0 ==> s.info[id].inTried)
  {
  }

  /** An unknown address whose slot is free is always taken. */
  lemma FreeSlotIsTaken(s: State, a: Address, source: Host, penalty: int, now: int, draw: nat)
    requires Consistent(s) && s.env.valid(a.addr) && s.env.routable(a.addr) && a.addr !in s.addr
    requires s.env.NewSlot(s.key, a.addr, source) !in s.new_
    ensures var (t, ok) := Added(s, a, source, penalty, now, draw);
            ok && a.addr in t.addr && t.new_ == s.new_[s.env.NewSlot(s.key, a.addr, source) := t.addr[a.addr]]
  {
    hide Consistent, Added;
    AddedIff(s, a, source, penalty, now, draw);
    AddedEffect(s, a, source, penalty, now, draw);
  }

  /** An entry worth keeping that has one slot never loses it to another. */
  lemma OnlySlotIsKept(s: State, a: Address, source: Host, penalty: int, now: int, draw: nat, slot: Slot)
    requires Consistent(s) && slot in s.new_ && s.new_[slot] in s.info
    requires !s.info[s.new_[slot]].IsTerrible(now) && s.info[s.new_[slot]].refCount == 1
    ensures var t := Added(s, a, source, penalty, now, draw).0;
            slot in t.new_ && t.new_[slot] == s.new_[slot]
  {
    hide Added, Info.IsTerrible, Pow, AddrOk, CollisionsOk, IdsOk, NewOk, TriedOk, RefsOk, TimesOk, RandomOk, CountsOk;
    HoldersAreKnown(s);
    AddedIff(s, a, source, penalty, now, draw);
    AddedEffect(s, a, source, penalty, now, draw);
  }

  /**
   What an announcement leaves of an address: a new entry has the discounted time; a known one has all the services
   announced, and its time is brought up only where it lags behind by the interval, and then to the discounted time.
   */
  lemma AddedEntry(s: State, a: Address, source: Host, penalty: int, now: int, draw: nat)
    requires Consistent(s) && s.env.valid(a.addr) && s.env.routable(a.addr)
    ensures var (t, ok) := Added(s, a, source, penalty, now, draw);
            var pen := if s.env.host(a.addr) == source then 0 else penalty;
            && (a.addr !in s.addr && ok ==>
                  && s.idCount in t.info
                  && t.info[s.idCount] == Info(a.addr, Max(0, a.time - pen), a.services, source, 0, 0, 0, 0, 1, false,
                                               t.info[s.idCount].randomPos))
            && (a.addr in s.addr ==>
                  && s.addr[a.addr] in t.info
                  && var x, y := s.info[s.addr[a.addr]], t.info[s.addr[a.addr]];
                     var lag := a.time - pen - (if now - a.time < DAY then HOUR else DAY);
                  && y == x.(time := y.time, services := x.services + a.services, refCount := y.refCount,
                             randomPos := y.randomPos)
                  && y.time == (if x.time < lag then Max(0, a.time - pen) else x.time)
                  && y.time >= Max(x.time, lag))
  {
    hide AddrOk, CollisionsOk, IdsOk, NewOk, TriedOk, RefsOk, RandomOk, CountsOk, Placed, Pow;
    var pen := if s.env.host(a.addr) == source then 0 else penalty;
    if a.addr in s.addr {
      KnownAddress(s, a.addr);
      var id := s.addr[a.addr];
      var x := Refreshed(s.info[id], a, pen, now);
      TouchedKeepsInv(s, id, x, SETTLED);
      ReferencesInRange(s, id);
      if Eligible(x, a, draw) {
        PlacedEntry(Touched(s, id, x), id, source, now);
      }
    } else {
      AnnouncedKeepsInv(s, a, source, pen);
      PlacedEntry(Announced(s, a, source, pen), s.idCount, source, now);
    }
  }

  lemma PlacedEntry(s: State, id: int, source: Host, now: int)
    requires Placing(s, id)
    ensures var (t, ok) := Placed(s, id, source, now);
            && (ok || s.info[id].refCount > 0 ==>
                  && id in t.info
                  && t.info[id] == s.info[id].(refCount := s.info[id].refCount + (if ok then 1 else 0),
                                               randomPos := t.info[id].randomPos))
  {
    hide CollisionsOk, IdsOk, NewOk, TriedOk, RefsOk, TimesOk, RandomOk, CountsOk, AddrOk, Cleared, Deleted;
    var slot := s.env.NewSlot(s.key, s.info[id].addr, source);
    ClearedKeepsInv(s, slot, Pending(if s.info[id].refCount == 0 then {id} else {}, 0, {}));
    if MayTake(s, id, slot, now) {
      PlacedCleared(s, id, slot);
    }
  }

  // ---------------------------------------------------------------------------------------
  // Test before evict

  /** Moving an entry to the tried table changes no other entry but the one evicted and the holder of its new slot. */
  lemma MadeTriedOthers(s: State, id: int, x: int)
    requires Consistent(s) && id in s.info && !s.info[id].inTried && x in s.info && x != id
    requires var slot := s.env.TriedSlot(s.key, s.info[id].addr);
             slot in s.tried ==>
               && s.tried[slot] in s.info && x != s.tried[slot]
               && var home := s.env.NewSlot(s.key, s.info[s.tried[slot]].addr, s.info[s.tried[slot]].source);
                  home in s.new_ ==> s.new_[home] != x
    ensures var t := MadeTried(s, id);
            x in t.info && t.info[x] == s.info[x].(randomPos := t.info[x].randomPos)
  {
    hide AddrOk, CollisionsOk, IdsOk, NewOk, TriedOk, RefsOk, TimesOk, RandomOk, CountsOk, Refs, Cleared;
    var slot := s.env.TriedSlot(s.key, s.info[id].addr);
    var unlisted := Unlisted(s, id);
    UnlistedKeepsInv(s, id);
    if slot in s.tried {
      var evictee := s.tried[slot];
      EvictedKeepsInv(unlisted, slot, Pending({id}, 1, {}));
      var evicted := Evicted(unlisted, slot);
      var home := s.env.NewSlot(s.key, s.info[evictee].addr, s.info[evictee].source);
      ClearedKeepsInv(evicted, home, Pending({id} + {evictee}, 2, {} + {slot}));
      ReadmittedKeepsInv(unlisted, slot, id);
    }
  }

  /** Whether a tested entry is to be replaced: not while its last success is recent, nor before it could be tested. */
  ghost predicate FailedTest(x: Info, y: Info, now: int) {
    && now - y.lastSuccess >= REPLACEMENT
    && (|| MINUTE < now - y.lastTry < REPLACEMENT
        || (now - y.lastTry >= REPLACEMENT && now - x.lastSuccess > TEST_WINDOW))
  }

  /** Whether a test is still going on: the tested entry may still connect, or has not been tried long enough. */
  ghost predicate Undecided(x: Info, y: Info, now: int) {
    && now - y.lastSuccess >= REPLACEMENT
    && (|| now - y.lastTry <= MINUTE
        || (now - y.lastTry >= REPLACEMENT && now - x.lastSuccess <= TEST_WINDOW))
  }

  /**
   Test before evict. The occupant of a contested tried slot leaves it if and only if it failed the test; then the
   other entry has the slot. Otherwise no table changes. The record stays if and only if the test is still going on.
   */
  lemma ResolvedOneEffect(s: State, id: int, now: int)
    requires Consistent(s) && now > 0 && id in s.collisions && id in s.info
    ensures var t, x, slot := ResolvedOne(s, id, now), s.info[id], s.env.TriedSlot(s.key, s.info[id].addr);
            && slot in s.tried && s.tried[slot] in s.info
            && var y := s.info[s.tried[slot]];
               var replaced := s.env.valid(x.addr) && !x.inTried && FailedTest(x, y, now);
            && (replaced ==> t.tried == s.tried[slot := id])
            && (!replaced ==> t.tried == s.tried && t.new_ == s.new_)
            && (replaced <==> slot in t.tried && t.tried[slot] != s.tried[slot])
            && t.collisions ==
               (if s.env.valid(x.addr) && Undecided(x, y, now) then s.collisions else s.collisions - {id})
            && (now - y.lastSuccess < REPLACEMENT ==> t == s.(collisions := s.collisions - {id}))
  {
    hide AddrOk, IdsOk, NewOk, TriedOk, RefsOk, TimesOk, RandomOk, CountsOk, MarkedGood;
    CollisionSelectedIsTried(s, id);
    KnownEntry(s, id);
    MarkedGoodEffect(s, s.info[id].addr, false, now);
  }

  lemma KnownEntry(s: State, id: int)
    requires Consistent(s) && id in s.info
    ensures s.info[id].addr in s.addr && s.addr[s.info[id].addr] == id
    ensures s.info[id].inTried <==> (s.env.TriedSlot(s.key, s.info[id].addr) in s.tried
                                     && s.tried[s.env.TriedSlot(s.key, s.info[id].addr)] == id)
  {
  }

  /** An entry in the tried table holds its slot and no new one. */
  lemma TriedEntry(s: State, slot: Slot)
    requires Consistent(s) && slot in s.tried
    ensures s.tried[slot] in s.info && s.info[s.tried[slot]].inTried
    ensures s.env.TriedSlot(s.key, s.info[s.tried[slot]].addr) == slot
    ensures forall home | home in s.new_ :: s.new_[home] != s.tried[slot]
  {
  }

  /** The slot, its occupant and the time of the occupant's last success. */
  ghost predicate Occupies(s: State, slot: Slot, id: int, success: int) {
    slot in s.tried && s.tried[slot] == id && id in s.info && s.info[id].lastSuccess == success
  }

  /** Marking one entry good leaves every other occupant that it does not evict. */
  lemma MarkedGoodOthers(s: State, a: Service, testBeforeEvict: bool, time: int, slot: Slot, id: int)
    requires Consistent(s) && time > 0 && slot in s.tried && s.tried[slot] == id && id in s.info && s.info[id].addr != a
    requires testBeforeEvict || s.env.TriedSlot(s.key, a) != slot
    ensures Occupies(MarkedGood(s, a, testBeforeEvict, time).0, slot, id, s.info[id].lastSuccess)
  {
    hide AddrOk, CollisionsOk, IdsOk, NewOk, TriedOk, RefsOk, TimesOk, RandomOk, CountsOk, MadeTried;
    TriedEntry(s, slot);
    if a in s.addr {
      KnownAddress(s, a);
      var new_ := s.addr[a];
      var t := Touched(s.(lastGood := time), new_, Connected_(s.info[new_], time));
      ConnectedKeepsInv(s, new_, time);
      var home := s.env.TriedSlot(s.key, a);
      if !s.info[new_].inTried && !(testBeforeEvict && home in s.tried) {
        MadeTriedEffect(t, new_);
        if home in t.tried {
          TriedEntry(t, home);
        }
        TriedEntry(t, slot);
        MadeTriedOthers(t, new_, id);
      }
    }
  }

  /** Resolving a collision leaves an occupant that connected in the last four hours. */
  lemma ResolvedOneKeepsFresh(s: State, id: int, now: int, slot: Slot, occupant: int)
    requires Consistent(s) && now > 0 && id in s.collisions
    requires slot in s.tried && s.tried[slot] == occupant && occupant in s.info
    requires now - s.info[occupant].lastSuccess < REPLACEMENT
    ensures Occupies(ResolvedOne(s, id, now), slot, occupant, s.info[occupant].lastSuccess)
    ensures s.collisions - {id} <= ResolvedOne(s, id, now).collisions
  {
    hide AddrOk, IdsOk, NewOk, TriedOk, RefsOk, TimesOk, RandomOk, CountsOk, MarkedGood;
    ResolvedOneKeepsInv(s, id, now);
    if id in s.info {
      ResolvedOneEffect(s, id, now);
      KnownEntry(s, id);
      TriedEntry(s, slot);
      if s.env.TriedSlot(s.key, s.info[id].addr) != slot {
        MarkedGoodOthers(s, s.info[id].addr, false, now, slot, occupant);
      }
    }
  }

  /** So does resolving all of them, in any state and with any clock. */
  lemma {:induction false} ResolvedKeepsFresh(s: State, todo: set<int>, clock: int -> int, slot: Slot, occupant: int)
    requires Consistent(s) && (forall id :: clock(id) > 0) && todo <= s.collisions
    requires slot in s.tried && s.tried[slot] == occupant && occupant in s.info
    requires forall id | id in todo :: clock(id) - s.info[occupant].lastSuccess < REPLACEMENT
    ensures Occupies(Resolved(s, todo, clock), slot, occupant, s.info[occupant].lastSuccess)
    decreases |todo|
  {
    hide Consistent, ResolvedOne;
    if todo != {} {
      var id := Smallest(todo);
      ResolvedOneKeepsInv(s, id, clock(id));
      ResolvedOneKeepsFresh(s, id, clock(id), slot, occupant);
      ResolvedKeepsFresh(ResolvedOne(s, id, clock(id)), todo - {id}, clock, slot, occupant);
    }
  }

  ghost function Before(todo: set<int>, id: int): set<int> {
    set x | x in todo && x < id
  }

  ghost function After(todo: set<int>, id: int): set<int> {
    set x | x in todo && x > id
  }

  /** Every record is resolved once, after those with smaller ids and before those with larger ones. */
  lemma {:induction false} ResolvedInOrder(s: State, todo: set<int>, clock: int -> int, id: int)
    requires Consistent(s) && (forall id :: clock(id) > 0) && id in todo
    ensures Consistent(Resolved(s, Before(todo, id), clock))
    ensures Consistent(ResolvedOne(Resolved(s, Before(todo, id), clock), id, clock(id)))
    ensures Resolved(s, todo, clock) ==
            Resolved(ResolvedOne(Resolved(s, Before(todo, id), clock), id, clock(id)), After(todo, id), clock)
    decreases |todo|
  {
    hide Consistent, ResolvedOne;
    ResolvedKeepsInv(s, Before(todo, id), clock);
    ResolvedOneKeepsInv(Resolved(s, Before(todo, id), clock), id, clock(id));
    var least := Smallest(todo);
    if least == id {
      assert Before(todo, id) == {} && After(todo, id) == todo - {id};
    } else {
      ResolvedOneKeepsInv(s, least, clock(least));
      assert least in Before(todo, id);
      ResolvedInOrder(ResolvedOne(s, least, clock(least)), todo - {least}, clock, id);
      assert Before(todo - {least}, id) == Before(todo, id) - {least} && After(todo - {least}, id) == After(todo, id);
      assert Smallest(Before(todo, id)) == least;
    }
  }

  /** Adding an address leaves every tried entry where it is, with its last success. */
  lemma AddedOthers(s: State, a: Address, source: Host, penalty: int, now: int, draw: nat, slot: Slot, id: int)
    requires Consistent(s) && slot in s.tried && s.tried[slot] == id && id in s.info
    ensures Occupies(Added(s, a, source, penalty, now, draw).0, slot, id, s.info[id].lastSuccess)
  {
    hide AddrOk, CollisionsOk, IdsOk, NewOk, TriedOk, RefsOk, RandomOk, CountsOk, Placed, Pow;
    AddedKeepsInv(s, a, source, penalty, now, draw);
    TriedEntry(s, slot);
    var pen := if s.env.host(a.addr) == source then 0 else penalty;
    if s.env.IsRoutable(a.addr) {
      if a.addr in s.addr {
        KnownAddress(s, a.addr);
        var known := s.addr[a.addr];
        var x := Refreshed(s.info[known], a, pen, now);
        TouchedKeepsInv(s, known, x, SETTLED);
        ReferencesInRange(s, known);
        if Eligible(x, a, draw) {
          TriedEntry(Touched(s, known, x), slot);
          PlacedOthers(Touched(s, known, x), known, source, now, id);
        }
      } else {
        AnnouncedKeepsInv(s, a, source, pen);
        NewIdIsFresh(s);
        PlacedOthers(Announced(s, a, source, pen), s.idCount, source, now, id);
      }
    }
  }

  lemma NewIdIsFresh(s: State)
    requires Consistent(s)
    ensures s.idCount !in s.info
  {
  }

  lemma PlacedOthers(s: State, id: int, source: Host, now: int, x: int)
    requires Placing(s, id) && x in s.info && x != id && s.info[x].inTried
    ensures var t := Placed(s, id, source, now).0;
            x in t.info && t.info[x] == s.info[x].(randomPos := t.info[x].randomPos)
  {
    hide CollisionsOk, IdsOk, TriedOk, RefsOk, TimesOk, RandomOk, CountsOk, AddrOk, Cleared, Deleted;
    var slot := s.env.NewSlot(s.key, s.info[id].addr, source);
    var p := Pending(if s.info[id].refCount == 0 then {id} else {}, 0, {});
    ClearedKeepsInv(s, slot, p);
    if MayTake(s, id, slot, now) {
      PlacedCleared(s, id, slot);
    } else if s.info[id].refCount == 0 {
      DeletedKeepsInv(s, id, p);
    }
  }

  // ---------------------------------------------------------------------------------------
  // Runs

  /** A call that reports no success before this time, and resolves collisions less than four hours after it. */
  ghost predicate Within(c: Call, since: int) {
    match c
    case Good(_, time) => time >= since
    case ResolveCollisions(clock) => forall id :: clock(id) - since < REPLACEMENT
    case _ => true
  }

  lemma StepKeepsFresh(s: State, c: Call, slot: Slot, id: int, since: int)
    requires Consistent(s) && PositiveTimes(c) && Within(c, since)
    requires slot in s.tried && s.tried[slot] == id && id in s.info && s.info[id].lastSuccess >= since
    ensures var t := Step(s, c);
            slot in t.tried && t.tried[slot] == id && id in t.info && t.info[id].lastSuccess >= since
  {
    hide Consistent, Added, MarkedGood, Resolved, Sampled, SameButPosition;
    match c
    case Add(a, source, penalty, now, draw) => AddedOthers(s, a, source, penalty, now, draw, slot, id);
    case Good(a, time) =>
      if s.info[id].addr == a {
        KnownEntry(s, id);
        TriedEntry(s, slot);
        MarkedGoodEffect(s, a, true, time);
      } else {
        MarkedGoodOthers(s, a, true, time, slot, id);
      }
    case ResolveCollisions(clock) => ResolvedKeepsFresh(s, s.collisions, clock, slot, id);
    case GetAddr(q, draws) =>
      NoneMissedYet(s, q);
      SampledIsSound(s, q, draws, 0, []);
      SamePosition(s.info, Step(s, c).info, id);
    case _ =>
  }

  lemma SamePosition(info: map<int, Info>, after: map<int, Info>, id: int)
    requires SameButPosition(info, after) && id in info
    ensures id in after && after[id].lastSuccess == info[id].lastSuccess
  {
  }

  /**
   In every run a tried entry that connected keeps its slot for four hours: whatever is called, in whatever order,
   it is replaced only by resolving collisions, and not before.
   */
  lemma {:induction false} RunKeepsFresh(s: State, calls: seq<Call>, slot: Slot, id: int, since: int)
    requires Consistent(s) && forall i | 0 <= i < |calls| :: PositiveTimes(calls[i]) && Within(calls[i], since)
    requires slot in s.tried && s.tried[slot] == id && id in s.info && s.info[id].lastSuccess >= since
    ensures var t := Run(s, calls);
            slot in t.tried && t.tried[slot] == id && id in t.info && t.info[id].lastSuccess >= since
    decreases |calls|
  {
    hide Consistent, Step;
    if calls != [] {
      StepKeepsInv(s, calls[0]);
      StepKeepsFresh(s, calls[0], slot, id, since);
      RunKeepsFresh(Step(s, calls[0]), calls[1..], slot, id, since);
    }
  }

  // ---------------------------------------------------------------------------------------
  // Statistics

  /** Failed attempts in a row count once until some address connects. */
  lemma AttemptsCountOnce(s: State, a: Service, first: int, second: int)
    requires Consistent(s) && a in s.addr && first >= s.lastGood
    ensures var id, once := s.addr[a], Attempted(s, a, true, first);
            var twice := Attempted(once, a, true, second);
            && id in once.info && id in twice.info && twice.info[id].lastTry == second
            && once.info[id].attempts ==
               s.info[id].attempts + (if s.info[id].lastCountAttempt < s.lastGood then 1 else 0)
            && twice.info[id].attempts == once.info[id].attempts
  {
    KnownAddress(s, a);
  }

  /** An attempt that is not to count is recorded and changes nothing else. */
  lemma AttemptUncounted(s: State, a: Service, time: int)
    requires Consistent(s) && a in s.addr
    ensures var id, t := s.addr[a], Attempted(s, a, false, time);
            id in t.info && t == s.(info := s.info[id := s.info[id].(lastTry := time)])
  {
    KnownAddress(s, a);
  }

  /** After a connection the time known of an address is at most twenty minutes behind, and never goes back. */
  lemma TimeStaysClose(s: State, a: Service, time: int)
    requires Consistent(s) && a in s.addr
    ensures var id, t := s.addr[a], TimeRefreshed(s, a, time);
            && id in t.info
            && t.info[id].time == (if s.info[id].time < time - 20 * MINUTE then time else s.info[id].time)
            && t.info[id].time >= Max(s.info[id].time, time - 20 * MINUTE)
            && t == s.(info := s.info[id := s.info[id].(time := t.info[id].time)])
  {
    hide Consistent;
    KnownAddress(s, a);
  }

  /** Setting the services of a known address changes its services alone; an unknown one stays unknown. */
  lemma ServicesAreSet(s: State, a: Service, services: set<nat>)
    requires Consistent(s)
    ensures var t := ServicesSet(s, a, services);
            if a in s.addr then
              s.addr[a] in s.info && t == s.(info := s.info[s.addr[a] := s.info[s.addr[a]].(services := services)])
            else t == s
  {
    if a in s.addr {
      KnownAddress(s, a);
    }
  }

  /** A record that was selected and kept names an entry. */
  lemma SelectedRecordIsKnown(s: State, id: int)
    requires Consistent(s)
    ensures var t := CollisionSelected(s, id).0;
            t == s.(collisions := t.collisions) && forall x ::
              x in t.collisions <==> x in s.collisions && (x == id ==> id in s.info)
  {
  }

  // ---------------------------------------------------------------------------------------
  // GetAddr

  /** The sample is at most the percentage asked for and at most the maximum, and as large as both allow. */
  lemma NodesWantedBounds(total: nat, maxAddresses: nat, maxPct: nat)
    ensures var n := NodesWanted(total, maxAddresses, maxPct);
            && (maxAddresses != 0 ==> n <= maxAddresses)
            && (maxPct != 0 ==> 100 * n <= maxPct * total)
            && (maxPct == 0 ==> n <= total)
            && (maxAddresses == 0 || n < maxAddresses ==>
                  if maxPct != 0 then 100 * (n + 1) > maxPct * total else n >= total)
  {
  }

  /** Every entry not yet drawn can be the next one drawn. */
  lemma AnyMayBeDrawn(s: State, n: nat, id: int)
    requires RandomOk(s.info, s.random) && id in s.info && n <= s.info[id].randomPos
    ensures exists draws: nat -> nat :: Shuffled(s, n, Drawn(draws, n, |s.random|)).random[n] == id
  {
    var pos := s.info[id].randomPos;
    var draws: nat -> nat := _ => pos - n;
    assert Drawn(draws, n, |s.random|) == pos;
    assert Shuffled(s, n, Drawn(draws, n, |s.random|)).random[n] == id;
  }
}
