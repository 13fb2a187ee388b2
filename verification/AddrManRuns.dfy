/**
 Sampling addresses, the self-check, and whole runs of the address manager.
 */
module AddrManRuns {
  import opened Wrappers
  import opened AddrManState
  import opened AddrManOps

  // ---------------------------------------------------------------------------------------
  // GetAddr

  /** What GetAddr filters on: the number wanted, a network if any, and the time. */
  datatype Query = Query(nodes: nat, network: Option<nat>, now: int)

  function NodesWanted(total: nat, maxAddresses: nat, maxPct: nat): nat {
    var n := if maxPct != 0 then maxPct * total / 100 else total;
    if maxAddresses != 0 && maxAddresses < n then maxAddresses else n
  }

  function AddressOf(x: Info): Address {
    Address(x.addr, x.time, x.services)
  }

  ghost predicate Wanted(env: Env, x: Info, q: Query) {
    (q.network.Some? ==> env.network(x.addr) == q.network.value) && !x.IsTerrible(q.now)
  }

  /** The position drawn at step `n` of a shuffle of `total` elements. */
  function Drawn(draws: nat -> nat, n: nat, total: nat): (pos: nat)
    requires n < total
    ensures n <= pos < total
  {
    draws(n) % (total - n) + n
  }

  /** One step of a shuffle: position `n` receives what a later position holds. */
  ghost function Shuffled(s: State, n: nat, pos: nat): (t: State)
    requires RandomOk(s.info, s.random) && n <= pos < |s.random|
    ensures RandomOk(t.info, t.random) && SameButPosition(s.info, t.info)
    ensures |t.random| == |s.random| && multiset(t.random) == multiset(s.random)
    ensures t == s.(info := t.info, random := t.random) && t.random[n] in t.info
  {
    SwappedInfo(s, n, pos);
    SwappedRandom(s, n, pos);
    Swapped(s, n, pos)
  }

  /** A partial shuffle of the random order, collecting the wanted addresses as it goes. */
  ghost function Sampled(s: State, q: Query, draws: nat -> nat, n: nat, acc: seq<Address>): (State, seq<Address>)
    requires RandomOk(s.info, s.random)
    decreases |s.random| - n
  {
    if n >= |s.random| || |acc| >= q.nodes then
      (s, acc)
    else
      var pos := Drawn(draws, n, |s.random|);
      var t := Shuffled(s, n, pos);
      var x := t.info[t.random[n]];
      Sampled(t, q, draws, n + 1, if Wanted(s.env, x, q) then acc + [AddressOf(x)] else acc)
  }

  /** Every collected address is a wanted entry among the first `n` of the random order. */
  ghost predicate Collected(s: State, q: Query, n: nat, acc: seq<Address>) {
    && (forall k | 0 <= k < |acc| ::
          && acc[k].addr in s.addr && s.addr[acc[k].addr] in s.info
          && var x := s.info[s.addr[acc[k].addr]];
          && x.randomPos < n && acc[k] == AddressOf(x) && Wanted(s.env, x, q))
    && (forall j, k | 0 <= j < k < |acc| :: acc[j].addr != acc[k].addr)
  }

  /** No wanted entry among the first `n` of the random order has been passed over. */
  ghost predicate NoneMissed(s: State, q: Query, n: nat, acc: seq<Address>) {
    forall id | id in s.info && s.info[id].randomPos < n && Wanted(s.env, s.info[id], q) :: AddressOf(s.info[id]) in acc
  }

  lemma NoneMissedYet(s: State, q: Query)
    requires Consistent(s)
    ensures NoneMissed(s, q, 0, [])
  {
  }

  lemma NoneMissedStep(s: State, q: Query, n: nat, pos: nat, acc: seq<Address>)
    requires RandomOk(s.info, s.random) && NoneMissed(s, q, n, acc) && n <= pos < |s.random|
    ensures var t := Shuffled(s, n, pos);
            var x := t.info[t.random[n]];
            NoneMissed(t, q, n + 1, if Wanted(s.env, x, q) then acc + [AddressOf(x)] else acc)
  {
    var t := Shuffled(s, n, pos);
    forall id | id in t.info && t.info[id].randomPos < n
      ensures id in s.info && t.info[id] == s.info[id]
    {
      assert t.random[t.info[id].randomPos] == id;
    }
    forall id | id in t.info && t.info[id].randomPos == n
      ensures id == t.random[n]
    {
    }
  }

  lemma CollectedStep(s: State, q: Query, n: nat, pos: nat, acc: seq<Address>)
    requires AddrOk(s.info, s.addr) && RandomOk(s.info, s.random)
    requires Collected(s, q, n, acc) && n <= pos < |s.random|
    ensures var t := Shuffled(s, n, pos);
            var x := t.info[t.random[n]];
            Collected(t, q, n + 1, if Wanted(s.env, x, q) then acc + [AddressOf(x)] else acc)
  {
    var t := Swapped(s, n, pos);
    SwappedInfo(s, n, pos);
    SwappedRandom(s, n, pos);
    var id := t.random[n];
    assert id in s.info && t.info[id].addr == s.info[id].addr;
    forall k | 0 <= k < |acc|
      ensures acc[k].addr in t.addr && t.addr[acc[k].addr] in t.info && acc[k].addr != t.info[id].addr
      ensures t.info[t.addr[acc[k].addr]] == s.info[s.addr[acc[k].addr]]
    {
      CollectedKept(s, n, pos, s.addr[acc[k].addr]);
    }
  }

  /** Entries among the first `n` keep their place when later positions are exchanged. */
  lemma CollectedKept(s: State, n: nat, pos: nat, id: int)
    requires RandomOk(s.info, s.random) && n <= pos < |s.random|
    requires id in s.info && s.info[id].randomPos < n
    ensures id in Swapped(s, n, pos).info && Swapped(s, n, pos).info[id] == s.info[id]
    ensures id != Swapped(s, n, pos).random[n]
  {
    assert s.random[s.info[id].randomPos] == id;
  }

  /**
   GetAddr returns no more than asked for, no address twice, and only known addresses that pass
   the filters. It leaves a wanted address out only when it already has as many as asked for.
   It only permutes the random order.
   */
  lemma {:induction false} SampledIsSound(s: State, q: Query, draws: nat -> nat, n: nat, acc: seq<Address>)
    requires Consistent(s) && Collected(s, q, n, acc) && |acc| <= q.nodes && n <= |s.random|
    requires NoneMissed(s, q, n, acc)
    ensures var (t, out) := Sampled(s, q, draws, n, acc);
            && Consistent(t) && SameButPosition(s.info, t.info)
            && multiset(t.random) == multiset(s.random)
            && t == s.(info := t.info, random := t.random)
            && |out| <= q.nodes && Collected(t, q, |t.random|, out)
            && (|out| == q.nodes || NoneMissed(t, q, |t.random|, out))
    decreases |s.random| - n
  {
    hide Consistent, AddrOk, RandomOk, Shuffled, Collected, NoneMissed, SameButPosition, Wanted, Drawn;
    ConsistentIndexes(s);
    if n < |s.random| && |acc| < q.nodes {
      var pos := Drawn(draws, n, |s.random|);
      ShuffledKeepsInv(s, n, pos);
      var t := Shuffled(s, n, pos);
      CollectedStep(s, q, n, pos, acc);
      NoneMissedStep(s, q, n, pos, acc);
      var x := t.info[t.random[n]];
      var acc' := if Wanted(s.env, x, q) then acc + [AddressOf(x)] else acc;
      SampledIsSound(t, q, draws, n + 1, acc');
      SamePositionsCompose(s.info, t.info, Sampled(t, q, draws, n + 1, acc').0.info);
    } else {
      CollectedMore(s, q, n, acc);
    }
  }

  lemma ConsistentIndexes(s: State)
    requires Consistent(s)
    ensures AddrOk(s.info, s.addr) && RandomOk(s.info, s.random)
  {
  }

  lemma ShuffledKeepsInv(s: State, n: nat, pos: nat)
    requires Consistent(s) && RandomOk(s.info, s.random) && n <= pos < |s.random|
    ensures Consistent(Shuffled(s, n, pos))
  {
    hide AddrOk, CollisionsOk, IdsOk, NewOk, TriedOk, RefsOk, TimesOk, CountsOk, RandomOk;
    SwappedKeepsInv(s, n, pos, SETTLED);
  }

  lemma CollectedMore(s: State, q: Query, n: nat, acc: seq<Address>)
    requires Collected(s, q, n, acc) && n <= |s.random|
    ensures Collected(s, q, |s.random|, acc) && SameButPosition(s.info, s.info)
  {
  }

  lemma SamePositionsCompose(a: map<int, Info>, b: map<int, Info>, c: map<int, Info>)
    requires SameButPosition(a, b) && SameButPosition(b, c)
    ensures SameButPosition(a, c)
  {
  }

  // ---------------------------------------------------------------------------------------
  // The self-check

  ghost predicate EntryChecks(s: State, id: int)
    requires id in s.info
  {
    var x := s.info[id];
    && (x.inTried ==> x.lastSuccess != 0 && x.refCount == 0)
    && (!x.inTried ==> 0 < x.refCount <= NEW_BUCKETS_PER_ADDRESS)
    && x.addr in s.addr && s.addr[x.addr] == id
    && 0 <= x.randomPos < |s.random| && s.random[x.randomPos] == id
    && x.lastTry >= 0
    && x.lastSuccess >= 0
  }

  ghost predicate TriedSlotChecks(s: State, slot: Slot)
    requires slot in s.tried
  {
    s.tried[slot] in TriedIds(s.info) && slot == s.env.TriedSlot(s.key, s.info[s.tried[slot]].addr)
  }

  ghost predicate NewSlotChecks(s: State, slot: Slot)
    requires slot in s.new_
  {
    s.new_[slot] in NewIds(s.info) && slot.1 == s.env.Position(s.key, s.info[s.new_[slot]].addr, true, slot.0)
  }

  /** Everything CheckAddrman looks for. */
  ghost predicate CheckOk(s: State) {
    && |s.random| == s.nTried + s.nNew
    && (forall id | id in s.info :: EntryChecks(s, id))
    && |TriedIds(s.info)| == s.nTried
    && |NewIds(s.info)| == s.nNew
    && (forall slot | slot in s.tried :: TriedSlotChecks(s, slot))
    && (forall slot | slot in s.new_ :: NewSlotChecks(s, slot))
    && (forall id | id in TriedIds(s.info) :: Refs(s.tried, id) != {})
    && (forall id | id in NewIds(s.info) :: |Refs(s.new_, id)| == s.info[id].refCount)
    && s.key != 0
  }

  /** The ids listed in the random order are as many as there are entries. */
  lemma RandomSize(info: map<int, Info>, random: seq<int>)
    requires RandomOk(info, random)
    ensures |random| == |TriedIds(info)| + |NewIds(info)|
  {
    var ids := set i | 0 <= i < |random| :: random[i];
    Enumerated(random, |random|);
    forall id ensures id in ids <==> id in TriedIds(info) + NewIds(info) {
      if id in info {
        assert random[info[id].randomPos] == id;
      }
    }
    assert ids == TriedIds(info) + NewIds(info);
    assert TriedIds(info) !! NewIds(info);
  }

  lemma {:induction false} Enumerated(xs: seq<int>, n: nat)
    requires n <= |xs| && forall i, j | 0 <= i < j < |xs| :: xs[i] != xs[j]
    ensures |set i | 0 <= i < n :: xs[i]| == n
  {
    if n > 0 {
      Enumerated(xs, n - 1);
      var fewer := set i | 0 <= i < n - 1 :: xs[i];
      assert (set i | 0 <= i < n :: xs[i]) == fewer + {xs[n - 1]};
    }
  }

  lemma ConsistentPassesCheck(s: State)
    requires Consistent(s)
    ensures CheckOk(s)
  {
    RandomSize(s.info, s.random);
    forall id | id in TriedIds(s.info) ensures Refs(s.tried, id) != {} {
      assert s.env.TriedSlot(s.key, s.info[id].addr) in Refs(s.tried, id);
    }
  }

  // ---------------------------------------------------------------------------------------
  // Runs

  /** One call of a public operation, with the random numbers and times it meets. */
  datatype Call =
    | Add(a: Address, source: Host, penalty: int, now: int, draw: nat)
    | Good(addr: Service, time: int)
    | Attempt(addr: Service, countFailure: bool, time: int)
    | ResolveCollisions(clock: int -> int)
    | SelectTriedCollision(id: int)
    | GetAddr(query: Query, draws: nat -> nat)
    | Connected(addr: Service, time: int)
    | SetServices(addr: Service, services: set<nat>)

  ghost predicate PositiveTimes(c: Call) {
    match c
    case Good(_, time) => time > 0
    case Attempt(_, _, time) => time > 0
    case ResolveCollisions(clock) => forall id :: clock(id) > 0
    case _ => true
  }

  ghost function Step(s: State, c: Call): State
    requires Consistent(s) && PositiveTimes(c)
  {
    match c
    case Add(a, source, penalty, now, draw) => Added(s, a, source, penalty, now, draw).0
    case Good(a, time) => MarkedGood(s, a, true, time).0
    case Attempt(a, countFailure, time) => Attempted(s, a, countFailure, time)
    case ResolveCollisions(clock) => Resolved(s, s.collisions, clock)
    case SelectTriedCollision(id) => CollisionSelected(s, id).0
    case GetAddr(q, draws) => Sampled(s, q, draws, 0, []).0
    case Connected(a, time) => TimeRefreshed(s, a, time)
    case SetServices(a, services) => ServicesSet(s, a, services)
  }

  /** Every operation keeps the state consistent and never empties a tried slot. */
  lemma StepKeepsInv(s: State, c: Call)
    requires Consistent(s) && PositiveTimes(c)
    ensures Consistent(Step(s, c))
    ensures s.tried.Keys <= Step(s, c).tried.Keys
    ensures Step(s, c).env == s.env && Step(s, c).key == s.key
  {
    hide Consistent, Added, MarkedGood, Resolved, Sampled;
    match c
    case Add(a, source, penalty, now, draw) => AddedKeepsInv(s, a, source, penalty, now, draw);
    case Good(a, time) => MarkedGoodKeepsInv(s, a, true, time);
    case Attempt(a, countFailure, time) => AttemptedKeepsInv(s, a, countFailure, time);
    case ResolveCollisions(clock) => ResolvedKeepsInv(s, s.collisions, clock);
    case SelectTriedCollision(id) => CollisionErased(s, id);
    case GetAddr(q, draws) => NoneMissedYet(s, q); SampledIsSound(s, q, draws, 0, []);
    case Connected(a, time) => TimeRefreshedKeepsInv(s, a, time);
    case SetServices(a, services) => ServicesSetKeepsInv(s, a, services);
  }

  ghost function Initial(env: Env, key: nat): State {
    State(env, key, 0, map[], map[], [], map[], map[], 0, 0, 1, {})
  }

  lemma InitialIsConsistent(env: Env, key: nat)
    requires key != 0
    ensures Consistent(Initial(env, key))
  {
    assert TriedIds(map[]) == {};
    assert NewIds(map[]) == {};
  }

  ghost function Run(s: State, calls: seq<Call>): State
    requires Consistent(s) && forall i | 0 <= i < |calls| :: PositiveTimes(calls[i])
    decreases |calls|
  {
    if calls == [] then s
    else
      StepKeepsInv(s, calls[0]);
      Run(Step(s, calls[0]), calls[1..])
  }

  /**
   In every run from the empty tables, with any hashes, random numbers and positive times: the
   self-check passes after every call, tried slots stay filled, and every recorded collision
   that still names an entry leads to a tried entry.
   */
  lemma {:induction false} RunIsSafe(s: State, calls: seq<Call>)
    requires Consistent(s) && forall i | 0 <= i < |calls| :: PositiveTimes(calls[i])
    ensures var t := Run(s, calls);
            && Consistent(t) && CheckOk(t)
            && s.tried.Keys <= t.tried.Keys
            && t.env == s.env && t.key == s.key
            && (forall id | id in t.collisions && id in t.info ::
                  var slot := t.env.TriedSlot(t.key, t.info[id].addr);
                  slot in t.tried && t.tried[slot] in t.info && t.info[t.tried[slot]].inTried)
    decreases |calls|
  {
    if calls == [] {
      ConsistentPassesCheck(s);
      forall id | id in s.collisions && id in s.info
        ensures var slot := s.env.TriedSlot(s.key, s.info[id].addr);
                slot in s.tried && s.tried[slot] in s.info && s.info[s.tried[slot]].inTried
      {
        CollisionSelectedIsTried(s, id);
      }
    } else {
      hide Consistent, CheckOk, Step;
      StepKeepsInv(s, calls[0]);
      RunIsSafe(Step(s, calls[0]), calls[1..]);
    }
  }
}
