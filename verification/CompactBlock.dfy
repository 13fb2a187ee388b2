/**
 * Compact block reconstruction (src/blockencodings.cpp, src/blockencodings.h; BIP 152).
 *
 * A compact block lists some transactions in full, at differentially coded positions, and the others by a
 * short id. InitData lays out the former, gives the i-th short id the i-th remaining slot and fills slots
 * from the candidates at hand; FillBlock fills the rest with what the peer sends. The keyed short hash, the
 * hash-table crowding test and the block check are arbitrary functions.
 */
module CompactBlock {
  import opened Wrappers
  import opened Words

  const SHORT_ID_MODULUS: nat := 0x1_0000_0000_0000
  const MAX_BLOCK_TXS: nat := 1073741824 / 40

  type Hash = nat
  type Header = nat

  const NULL_HEADER: Header := 0

  datatype Tx = Tx(witnessHash: Hash, isNull: bool)

  datatype Prefilled = Prefilled(index: nat, tx: Tx)

  datatype Message = Message(header: Header, nonce: nat, shortIds: seq<nat>, prefilled: seq<Prefilled>) {
    function TxCount(): nat {
      |shortIds| + |prefilled|
    }
  }

  datatype CheckResult = Passed | Mutated | Failed

  datatype Env = Env(sipHash: (Header, nat, Hash) -> nat, check: (Header, seq<Tx>) -> CheckResult) {
    /** Six bytes of the keyed hash. */
    function ShortId(m: Message, hash: Hash): (id: nat)
      ensures id < SHORT_ID_MODULUS
    {
      sipHash(m.header, m.nonce, hash) % SHORT_ID_MODULUS
    }
  }

  datatype ReadStatus = OK | INVALID | FAILED | CHECKBLOCK_FAILED

  /** What a completed block's check means for the caller. */
  function StatusOf(r: CheckResult): ReadStatus {
    match r
    case Passed => OK
    case Mutated => FAILED
    case Failed => CHECKBLOCK_FAILED
  }

  type Slots = seq<Option<Tx>>

  /** A transaction at hand, with the witness hash it is listed under. */
  type Candidate = (Hash, Tx)

  // ---------------------------------------------------------------------------------------
  // Empty slots

  /** The empty slots, in order. */
  function Free(a: Slots): seq<nat> {
    if a == [] then [] else Free(a[..|a| - 1]) + if a[|a| - 1].None? then [|a| - 1] else []
  }

  /** They are exactly the empty ones, in increasing order. */
  lemma {:induction false} FreeIsFree(a: Slots)
    ensures forall i | 0 <= i < |Free(a)| :: Free(a)[i] < |a| && a[Free(a)[i]].None?
    ensures forall i, j | 0 <= i < j < |Free(a)| :: Free(a)[i] < Free(a)[j]
    ensures forall p | 0 <= p < |a| && a[p].None? :: p in Free(a)
  {
    if a != [] {
      FreeIsFree(a[..|a| - 1]);
    }
  }

  /** An empty slot with i empty slots before it is the i-th one. */
  lemma {:induction false} FreeAt(a: Slots, p: nat)
    requires p < |a| && a[p].None?
    ensures |Free(a[..p])| < |Free(a)| && Free(a)[|Free(a[..p])|] == p
  {
    if p < |a| - 1 {
      FreeAt(a[..|a| - 1], p);
      assert a[..|a| - 1][..p] == a[..p];
    }
  }

  lemma {:induction false} FreePrefix(a: Slots, p: nat)
    requires p <= |a|
    ensures |Free(a[..p])| <= |Free(a)|
  {
    if p < |a| {
      FreePrefix(a[..|a| - 1], p);
      assert a[..|a| - 1][..p] == a[..p];
    } else {
      assert a[..p] == a;
    }
  }

  function Missing(x: Option<Tx>): nat {
    if x.None? then 1 else 0
  }

  lemma {:induction false} FreeUpdate(a: Slots, p: nat, x: Option<Tx>)
    requires p < |a|
    ensures |Free(a[p := x])| + Missing(a[p]) == |Free(a)| + Missing(x)
  {
    if p < |a| - 1 {
      FreeUpdate(a[..|a| - 1], p, x);
      assert a[p := x][..|a| - 1] == a[..|a| - 1][p := x];
    } else {
      assert a[p := x][..|a| - 1] == a[..|a| - 1];
    }
  }

  lemma {:induction false} AllFree(n: nat)
    ensures |Free(seq(n, _ => None))| == n
  {
    if n > 0 {
      AllFree(n - 1);
      assert seq<Option<Tx>>(n, _ => None)[..n - 1] == seq<Option<Tx>>(n - 1, _ => None);
    }
  }

  // ---------------------------------------------------------------------------------------
  // Prefilled transactions

  /** The position of the k-th prefilled transaction. */
  function Position(pre: seq<Prefilled>, k: nat): int
    requires k < |pre|
  {
    (if k == 0 then -1 else Position(pre, k - 1)) + pre[k].index + 1
  }

  /** Each prefilled transaction is there, and every slot before it can be accounted for. */
  predicate PrefilledOk(m: Message, k: nat)
    requires k < |m.prefilled|
  {
    && !m.prefilled[k].tx.isNull
    && Position(m.prefilled, k) < UINT16
    && Position(m.prefilled, k) <= |m.shortIds| + k
  }

  /** The slots once the first k prefilled transactions are in place. */
  ghost function Laid(m: Message, k: nat): (a: Slots)
    requires k <= |m.prefilled| && forall j | 0 <= j < k :: PrefilledOk(m, j)
    ensures |a| == m.TxCount()
  {
    if k == 0 then seq(m.TxCount(), _ => None)
    else
      PositionsGrow(m.prefilled, k - 1);
      assert PrefilledOk(m, k - 1);
      Laid(m, k - 1)[Position(m.prefilled, k - 1) := Some(m.prefilled[k - 1].tx)]
  }

  /** The positions of the first k prefilled transactions. */
  ghost function Positions(pre: seq<Prefilled>, k: nat): set<int>
    requires k <= |pre|
  {
    if k == 0 then {} else Positions(pre, k - 1) + {Position(pre, k - 1)}
  }

  lemma {:induction false} PositionsGrow(pre: seq<Prefilled>, k: nat)
    requires k < |pre|
    ensures Position(pre, k) >= k && forall p | p in Positions(pre, k) :: p < Position(pre, k)
  {
    if k > 0 {
      PositionsGrow(pre, k - 1);
    }
  }

  /** As many slots are left empty as there are transactions not laid out, whatever the positions. */
  lemma {:induction false} LaidLeaves(m: Message, k: nat)
    requires k <= |m.prefilled| && forall j | 0 <= j < k :: PrefilledOk(m, j)
    ensures |Free(Laid(m, k))| == m.TxCount() - k
    ensures forall p | 0 <= p < m.TxCount() :: Laid(m, k)[p].Some? <==> p in Positions(m.prefilled, k)
  {
    if k == 0 {
      AllFree(m.TxCount());
    } else {
      LaidLeaves(m, k - 1);
      PositionsGrow(m.prefilled, k - 1);
      assert PrefilledOk(m, k - 1);
      var a, p := Laid(m, k - 1), Position(m.prefilled, k - 1);
      FreeUpdate(a, p, Some(m.prefilled[k - 1].tx));
    }
  }

  /** Each prefilled transaction is where its position says. */
  lemma {:induction false} LaidAt(m: Message, k: nat, j: nat)
    requires j < k <= |m.prefilled| && forall i | 0 <= i < k :: PrefilledOk(m, i)
    ensures 0 <= Position(m.prefilled, j) < m.TxCount()
    ensures Laid(m, k)[Position(m.prefilled, j)] == Some(m.prefilled[j].tx)
  {
    PositionsGrow(m.prefilled, j);
    assert PrefilledOk(m, j);
    if j < k - 1 {
      LaidAt(m, k - 1, j);
      PositionsGrow(m.prefilled, k - 1);
      PositionsHave(m.prefilled, k - 1, j);
    }
  }

  lemma {:induction false} PositionsHave(pre: seq<Prefilled>, k: nat, j: nat)
    requires j < k <= |pre|
    ensures Position(pre, j) in Positions(pre, k)
  {
    if j < k - 1 {
      PositionsHave(pre, k - 1, j);
    }
  }

  // ---------------------------------------------------------------------------------------
  // Matching candidates to short ids

  predicate Matches(env: Env, m: Message, c: Candidate, id: nat) {
    env.ShortId(m, c.0) == id
  }

  function MatchCount(env: Env, m: Message, id: nat, cs: seq<Candidate>): nat {
    if cs == [] then 0 else MatchCount(env, m, id, cs[..|cs| - 1]) + if Matches(env, m, cs[|cs| - 1], id) then 1 else 0
  }

  ghost predicate IsCandidate(env: Env, m: Message, id: nat, cs: seq<Candidate>, tx: Tx) {
    exists c :: c in cs && Matches(env, m, c, id) && c.1 == tx
  }

  /**
   * A slot after these candidates were tried: it holds one of those that match its short id, or none matched,
   * or several did.
   */
  ghost predicate Tried(env: Env, m: Message, id: nat, x: Option<Tx>, have: bool, cs: seq<Candidate>) {
    && (have <==> MatchCount(env, m, id, cs) > 0)
    && (x.Some? ==> have && IsCandidate(env, m, id, cs, x.value))
    && (have && x.None? ==> MatchCount(env, m, id, cs) > 1)
  }

  lemma TriedMore(env: Env, m: Message, id: nat, x: Option<Tx>, have: bool, cs: seq<Candidate>, c: Candidate)
    requires Tried(env, m, id, x, have, cs)
    ensures MatchCount(env, m, id, cs + [c]) == MatchCount(env, m, id, cs) + if Matches(env, m, c, id) then 1 else 0
    ensures !Matches(env, m, c, id) ==> Tried(env, m, id, x, have, cs + [c])
    ensures Matches(env, m, c, id) && !have ==> Tried(env, m, id, Some(c.1), true, cs + [c])
    ensures Matches(env, m, c, id) && have ==>
              Tried(env, m, id, None, true, cs + [c]) && Tried(env, m, id, x, true, cs + [c])
  {
    assert (cs + [c])[..|cs|] == cs;
    assert c in cs + [c];
    if x.Some? {
      var d :| d in cs && Matches(env, m, d, id) && d.1 == x.value;
      assert d in cs + [c];
    }
  }

  lemma {:induction false} MatchCountParts(env: Env, m: Message, id: nat, cs: seq<Candidate>, ds: seq<Candidate>)
    ensures MatchCount(env, m, id, cs + ds) == MatchCount(env, m, id, cs) + MatchCount(env, m, id, ds)
    decreases |ds|
  {
    if ds == [] {
      assert cs + ds == cs;
    } else {
      MatchCountParts(env, m, id, cs, ds[..|ds| - 1]);
      assert (cs + ds)[..|cs + ds| - 1] == cs + ds[..|ds| - 1];
    }
  }

  predicate Distinct(ids: seq<nat>) {
    forall i, j | 0 <= i < j < |ids| :: ids[i] != ids[j]
  }

  /** The i-th short id leads to the i-th empty slot. */
  ghost predicate Assigned(ids: seq<nat>, free: seq<nat>, places: map<nat, nat>) {
    && |free| == |ids| && places.Keys == (set i | 0 <= i < |ids| :: ids[i])
    && forall i | 0 <= i < |ids| :: places[ids[i]] == free[i]
  }

  /** The state of the slots while candidates are being tried. */
  ghost predicate Trying(env: Env, m: Message, a0: Slots, a: Slots, have: seq<bool>, cs: seq<Candidate>) {
    && |a| == |a0| == |have| && |Free(a0)| == |m.shortIds|
    && (forall p | 0 <= p < |a| && a0[p].Some? :: a[p] == a0[p])
    && (forall i | 0 <= i < |m.shortIds| ::
          Free(a0)[i] < |a| && Tried(env, m, m.shortIds[i], a[Free(a0)[i]], have[Free(a0)[i]], cs))
  }

  lemma SlotOf(ids: seq<nat>, free: seq<nat>, places: map<nat, nat>, id: nat) returns (i: nat)
    requires Assigned(ids, free, places) && id in places
    ensures i < |ids| && ids[i] == id && places[id] == free[i]
  {
    assert id in places.Keys;
    i :| 0 <= i < |ids| && ids[i] == id;
  }

  /** A candidate that matches no short id changes nothing. */
  lemma TryingMisses(env: Env, m: Message, a0: Slots, a: Slots, have: seq<bool>, cs: seq<Candidate>, c: Candidate,
                     places: map<nat, nat>)
    requires Trying(env, m, a0, a, have, cs) && Assigned(m.shortIds, Free(a0), places)
    requires env.ShortId(m, c.0) !in places
    ensures Trying(env, m, a0, a, have, cs + [c])
  {
    hide Tried;
    var ids, free := m.shortIds, Free(a0);
    forall i | 0 <= i < |ids| ensures free[i] < |a| && Tried(env, m, ids[i], a[free[i]], have[free[i]], cs + [c]) {
      assert ids[i] in places.Keys;
      TriedMore(env, m, ids[i], a[free[i]], have[free[i]], cs, c);
    }
  }

  /** A candidate that matches a short id changes only the slot of that id. */
  lemma TryingHits(env: Env, m: Message, a0: Slots, a: Slots, have: seq<bool>, cs: seq<Candidate>, c: Candidate,
                   places: map<nat, nat>, x: Option<Tx>)
    requires Trying(env, m, a0, a, have, cs) && Assigned(m.shortIds, Free(a0), places) && Distinct(m.shortIds)
    requires env.ShortId(m, c.0) in places
    requires var p := places[env.ShortId(m, c.0)];
             p < |a| && p < |have| && if have[p] then x == None || x == a[p] else x == Some(c.1)
    ensures var p := places[env.ShortId(m, c.0)];
            Trying(env, m, a0, a[p := x], have[p := true], cs + [c])
  {
    hide Tried;
    var ids, free, p := m.shortIds, Free(a0), places[env.ShortId(m, c.0)];
    var k := SlotOf(ids, free, places, env.ShortId(m, c.0));
    FreeIsFree(a0);
    forall i | 0 <= i < |ids|
      ensures free[i] < |a| && Tried(env, m, ids[i], a[p := x][free[i]], have[p := true][free[i]], cs + [c])
    {
      TriedMore(env, m, ids[i], a[free[i]], have[free[i]], cs, c);
      assert i < k ==> free[i] < free[k];
      assert k < i ==> free[k] < free[i];
    }
  }

  /** What InitData leaves in the slots. */
  ghost predicate Initialized(env: Env, m: Message, cs: seq<Candidate>, a: Slots)
    requires forall k | 0 <= k < |m.prefilled| :: PrefilledOk(m, k)
  {
    var a0 := Laid(m, |m.prefilled|);
    && |a| == m.TxCount() && |Free(a0)| == |m.shortIds|
    && (forall p | 0 <= p < |a| && a0[p].Some? :: a[p] == a0[p])
    && (forall i | 0 <= i < |m.shortIds| :: Free(a0)[i] < |a| && Resolved(env, m, m.shortIds[i], a[Free(a0)[i]], cs))
  }

  /** A slot holds a candidate that matches its short id; it stays empty only if none does or several do. */
  ghost predicate Resolved(env: Env, m: Message, id: nat, x: Option<Tx>, cs: seq<Candidate>) {
    && (x.Some? ==> IsCandidate(env, m, id, cs, x.value))
    && (x.None? ==> MatchCount(env, m, id, cs) != 1)
  }

  /** Stopping early is harmless: by then every slot was filled, or several candidates had matched. */
  lemma TriedEnough(env: Env, m: Message, id: nat, x: Option<Tx>, have: bool, pool: seq<Candidate>, i: nat,
                    extra: seq<Candidate>, j: nat)
    requires i <= |pool| && j <= |extra| && Tried(env, m, id, x, have, pool[..i] + extra[..j])
    requires x.Some? || (i == |pool| && j == |extra|) || have
    ensures Resolved(env, m, id, x, pool + extra)
  {
    assert pool == pool[..i] + pool[i..] && extra == extra[..j] + extra[j..];
    MatchCountParts(env, m, id, pool[..i], extra[..j]);
    MatchCountParts(env, m, id, pool, extra);
    MatchCountParts(env, m, id, pool[..i], pool[i..]);
    MatchCountParts(env, m, id, extra[..j], extra[j..]);
    if i == |pool| && j == |extra| {
      assert pool[i..] == [] && extra[j..] == [];
    }
  }

  function SetOf(ids: seq<nat>): set<nat> {
    set i | 0 <= i < |ids| :: ids[i]
  }

  lemma {:induction false} CountDistinct(ids: seq<nat>)
    ensures |SetOf(ids)| <= |ids| && (|SetOf(ids)| == |ids| <==> Distinct(ids))
  {
    if ids == [] {
      assert SetOf(ids) == {};
    } else {
      var n := |ids| - 1;
      var rest := ids[..n];
      CountDistinct(rest);
      assert SetOf(ids) == SetOf(rest) + {ids[n]};
      if ids[n] in SetOf(rest) {
        var i :| 0 <= i < n && rest[i] == ids[n];
        assert ids[i] == ids[n];
      } else {
        forall i | 0 <= i < n ensures ids[i] != ids[n] {
          assert rest[i] in SetOf(rest);
        }
      }
      assert Distinct(ids) ==> Distinct(rest);
    }
  }

  /** The first i short ids are in the map; `from` says which of them each entry stands for. */
  ghost predicate Assigning(ids: seq<nat>, free: seq<nat>, i: nat, places: map<nat, nat>, from: map<nat, nat>) {
    && i <= |ids| && |free| == |ids|
    && places.Keys == from.Keys == SetOf(ids[..i])
    && forall id | id in places :: from[id] < i && ids[from[id]] == id && places[id] == free[from[id]]
  }

  lemma AssigningNone(ids: seq<nat>, free: seq<nat>)
    requires |free| == |ids|
    ensures Assigning(ids, free, 0, map[], map[])
  {
  }

  lemma AssigningStep(ids: seq<nat>, free: seq<nat>, i: nat, places: map<nat, nat>, from: map<nat, nat>)
    requires Assigning(ids, free, i, places, from) && i < |ids|
    ensures Assigning(ids, free, i + 1, places[ids[i] := free[i]], from[ids[i] := i])
  {
    hide SetOf;
    SetGrows(ids, i);
  }

  /** A short id that repeats shows in the size of the map; otherwise every id has its own slot. */
  lemma AssigningDone(ids: seq<nat>, free: seq<nat>, places: map<nat, nat>, from: map<nat, nat>)
    requires Assigning(ids, free, |ids|, places, from)
    ensures |places| == |ids| <==> Distinct(ids)
    ensures Distinct(ids) ==> Assigned(ids, free, places)
  {
    assert ids[..|ids|] == ids;
    CountDistinct(ids);
    assert |places| == |places.Keys|;
    if Distinct(ids) {
      forall k | 0 <= k < |ids| ensures ids[k] in places && places[ids[k]] == free[k] {
        assert ids[k] in SetOf(ids);
        assert from[ids[k]] == k;
      }
    }
  }

  lemma NoneFree(a: Slots)
    ensures Free(a[..0]) == []
  {
  }

  // ---------------------------------------------------------------------------------------
  // The slots as a function of the candidates

  /** A number in 64 bits. */
  function Wrap64(x: int): (r: nat)
    ensures r < UINT64
  {
    x % UINT64
  }

  lemma WrapIs(x: nat)
    requires x < UINT64
    ensures Wrap64(x) == x
  {
  }

  lemma WrapAdd(x: int, y: int)
    ensures Wrap64(Wrap64(x) + y) == Wrap64(x + y)
  {
    WrapShift(x + y, x / UINT64);
  }

  lemma WrapShift(x: int, k: int)
    ensures Wrap64(x - k * UINT64) == Wrap64(x)
  {
    var q, r := x / UINT64, x % UINT64;
    assert x - k * UINT64 == (q - k) * UINT64 + r;
  }

  /** A difference goes up and down with its first number. */
  lemma WrapStep(x: int, y: int)
    ensures Wrap64(Wrap64(x + 1) - y) == Wrap64(Wrap64(x - y) + 1)
    ensures Wrap64(Wrap64(x - 1) - y) == Wrap64(Wrap64(x - y) - 1)
  {
    hide Wrap64;
    WrapAdd(x + 1, -y);
    WrapAdd(x - y, 1);
    WrapAdd(x - 1, -y);
    WrapAdd(x - y, -1);
  }

  /** The slots, those a candidate has already matched, and how many of these are filled, in 64 bits. */
  datatype Fill = Fill(slots: Slots, had: seq<bool>, count: nat)

  /** The last place given to each short id. */
  ghost function Where(ids: seq<nat>, free: seq<nat>): map<nat, nat>
    requires |free| == |ids|
  {
    if ids == [] then map[] else Where(ids[..|ids| - 1], free[..|ids| - 1])[ids[|ids| - 1] := free[|ids| - 1]]
  }

  lemma {:induction false} WhereAssigns(ids: seq<nat>, free: seq<nat>)
    requires |free| == |ids| && Distinct(ids)
    ensures Where(ids, free).Keys == (set i | 0 <= i < |ids| :: ids[i])
    ensures forall i | 0 <= i < |ids| :: Where(ids, free)[ids[i]] == free[i]
  {
    if ids != [] {
      WhereAssigns(ids[..|ids| - 1], free[..|ids| - 1]);
    }
  }

  lemma AssignedIsWhere(ids: seq<nat>, free: seq<nat>, places: map<nat, nat>)
    requires Assigned(ids, free, places) && Distinct(ids)
    ensures places == Where(ids, free)
  {
    WhereAssigns(ids, free);
    forall id | id in places ensures id in Where(ids, free) && places[id] == Where(ids, free)[id] {
      var i := SlotOf(ids, free, places, id);
    }
  }

  /**
   * One candidate: the first that matches fills the slot, a further one empties it. A further one that is not
   * from the memory pool leaves it alone if its witness hash is that of the transaction held.
   */
  function Try(env: Env, m: Message, places: map<nat, nat>, f: Fill, c: Candidate, isExtra: bool): (g: Fill)
    ensures |g.slots| == |f.slots| && |g.had| == |f.had|
  {
    var id := env.ShortId(m, c.0);
    if id !in places || places[id] >= |f.slots| || places[id] >= |f.had| then f
    else
      var p := places[id];
      var same := isExtra && f.slots[p].Some? && f.slots[p].value.witnessHash == c.1.witnessHash;
      if !f.had[p] then Fill(f.slots[p := Some(c.1)], f.had[p := true], Wrap64(f.count + 1))
      else if f.slots[p].None? || same then f
      else Fill(f.slots[p := None], f.had, Wrap64(f.count - 1))
  }

  /** The candidates one after the other, until every short id has its slot filled. */
  function TryAll(env: Env, m: Message, places: map<nat, nat>, f: Fill, cs: seq<Candidate>, isExtra: bool): (g: Fill)
    ensures |g.slots| == |f.slots| && |g.had| == |f.had|
    decreases |cs|
  {
    if cs == [] then f
    else
      var g := Try(env, m, places, f, cs[0], isExtra);
      if g.count == |places| then g else TryAll(env, m, places, g, cs[1..], isExtra)
  }

  lemma TryAllStep(env: Env, m: Message, places: map<nat, nat>, f: Fill, cs: seq<Candidate>, i: nat, isExtra: bool)
    requires i < |cs|
    ensures var g := Try(env, m, places, f, cs[i], isExtra);
            TryAll(env, m, places, f, cs[i..], isExtra) ==
            if g.count == |places| then g else TryAll(env, m, places, g, cs[i + 1..], isExtra)
  {
    assert cs[i..][0] == cs[i] && cs[i..][1..] == cs[i + 1..];
  }

  /** How many of the candidates are tried until then. */
  function Reached(env: Env, m: Message, places: map<nat, nat>, f: Fill, cs: seq<Candidate>, isExtra: bool): (n: nat)
    ensures n <= |cs|
    decreases |cs|
  {
    if cs == [] then 0
    else
      var g := Try(env, m, places, f, cs[0], isExtra);
      if g.count == |places| then 1 else 1 + Reached(env, m, places, g, cs[1..], isExtra)
  }

  /** All are, unless the count is full after the last one tried. */
  lemma {:induction false} ReachedAll(env: Env, m: Message, places: map<nat, nat>, f: Fill, cs: seq<Candidate>,
                                      isExtra: bool)
    ensures Reached(env, m, places, f, cs, isExtra) < |cs| ==>
              TryAll(env, m, places, f, cs, isExtra).count == |places|
    decreases |cs|
  {
    if cs != [] {
      ReachedAll(env, m, places, Try(env, m, places, f, cs[0], isExtra), cs[1..], isExtra);
    }
  }

  /** And the count is full after none before it. */
  lemma {:induction false} NotFullBefore(env: Env, m: Message, places: map<nat, nat>, f: Fill, cs: seq<Candidate>,
                                         isExtra: bool, j: nat)
    requires 0 < j < Reached(env, m, places, f, cs, isExtra)
    ensures TryAll(env, m, places, f, cs[..j], isExtra).count != |places|
    decreases |cs|
  {
    hide Try;
    var g := Try(env, m, places, f, cs[0], isExtra);
    assert cs[..j][0] == cs[0] && cs[..j][1..] == cs[1..][..j - 1];
    if j > 1 {
      NotFullBefore(env, m, places, g, cs[1..], isExtra, j - 1);
    }
  }

  lemma TryAllNone(env: Env, m: Message, places: map<nat, nat>, f: Fill, cs: seq<Candidate>, isExtra: bool)
    requires cs == []
    ensures TryAll(env, m, places, f, cs, isExtra) == f
  {
  }

  ghost predicate WellLaid(m: Message) {
    (forall k | 0 <= k < |m.prefilled| :: PrefilledOk(m, k)) && |Free(Laid(m, |m.prefilled|))| == |m.shortIds|
  }

  /** Slot numbers as they are stored, in 16 bits. */
  function Short(free: seq<nat>): (r: seq<nat>)
    ensures |r| == |free| && forall i | 0 <= i < |free| :: r[i] == free[i] % UINT16
  {
    seq(|free|, i requires 0 <= i < |free| => free[i] % UINT16)
  }

  /** Where each short id leads. */
  ghost function Places(m: Message): map<nat, nat>
    requires WellLaid(m)
  {
    Where(m.shortIds, Short(Free(Laid(m, |m.prefilled|))))
  }

  /** The i-th short id leads to the i-th empty slot, if and only if all slot numbers fit in 16 bits. */
  lemma PlacesAreSlotsIff(m: Message)
    requires WellLaid(m) && Distinct(m.shortIds) && m.shortIds != []
    ensures Assigned(m.shortIds, Free(Laid(m, |m.prefilled|)), Places(m)) <==> m.TxCount() <= UINT16
  {
    hide Free, Laid, Where;
    var a0 := Laid(m, |m.prefilled|);
    var free := Free(a0);
    FreeIsFree(a0);
    WhereAssigns(m.shortIds, Short(free));
    if m.TxCount() <= UINT16 {
      assert forall i | 0 <= i < |free| :: free[i] < |a0|;
    } else {
      NoneLaidBeyond(m);
      assert UINT16 in free;
      var i :| 0 <= i < |free| && free[i] == UINT16;
      assert Places(m)[m.shortIds[i]] == Short(free)[i] != free[i];
    }
  }

  lemma NoneLaidBeyond(m: Message)
    requires WellLaid(m) && UINT16 < m.TxCount()
    ensures Laid(m, |m.prefilled|)[UINT16].None?
  {
    hide Free, Laid, Positions;
    LaidLeaves(m, |m.prefilled|);
    PositionsShort(m, |m.prefilled|);
  }

  lemma {:induction false} PositionsShort(m: Message, k: nat)
    requires k <= |m.prefilled| && forall j | 0 <= j < k :: PrefilledOk(m, j)
    ensures forall p | p in Positions(m.prefilled, k) :: p < UINT16
  {
    if k > 0 {
      PositionsShort(m, k - 1);
      assert PrefilledOk(m, k - 1);
    }
  }

  /** The slots after the memory pool. */
  ghost function Pooled(env: Env, m: Message, pool: seq<Candidate>): Fill
    requires WellLaid(m)
  {
    var a0 := Laid(m, |m.prefilled|);
    TryAll(env, m, Places(m), Fill(a0, seq(|a0|, _ => false), 0), pool, false)
  }

  /** The slots after the memory pool and the extra transactions. */
  ghost function Extended(env: Env, m: Message, pool: seq<Candidate>, extra: seq<Candidate>): Fill
    requires WellLaid(m)
  {
    TryAll(env, m, Places(m), Pooled(env, m, pool), extra, true)
  }

  /** How many slots are empty in the one and filled in the other. */
  function Gained(a: Slots, b: Slots): nat
    requires |a| == |b|
  {
    if a == [] then 0
    else Gained(a[..|a| - 1], b[..|a| - 1]) + if a[|a| - 1].None? && b[|a| - 1].Some? then 1 else 0
  }

  lemma {:induction false} FreeDiffers(a: Slots, b: Slots)
    requires |a| == |b|
    ensures |Free(a)| - |Free(b)| == Gained(a, b) - Gained(b, a)
  {
    if a != [] {
      FreeDiffers(a[..|a| - 1], b[..|a| - 1]);
    }
  }

  lemma {:induction false} GainedNone(a: Slots, b: Slots)
    requires |a| == |b|
    ensures Gained(a, b) <= |a|
    ensures Gained(a, b) == 0 <==> forall p | 0 <= p < |a| && b[p].Some? :: a[p].Some?
  {
    if a != [] {
      var a', b' := a[..|a| - 1], b[..|a| - 1];
      GainedNone(a', b');
      assert forall p | 0 <= p < |a'| :: a'[p] == a[p] && b'[p] == b[p];
    }
  }

  /** What the counter of extra transactions ends up as: fills minus removals, in 64 bits. */
  function ExtraCounted(pooled: Slots, slots: Slots): (count: nat)
    requires |pooled| == |slots|
  {
    Wrap64(Gained(pooled, slots) - Gained(slots, pooled))
  }

  lemma CountedByFree(pooled: Slots, slots: Slots)
    requires |pooled| == |slots|
    ensures ExtraCounted(pooled, slots) == Wrap64(|Free(pooled)| - |Free(slots)|)
  {
    FreeDiffers(pooled, slots);
  }

  /**
   * The counter is the number of slots held by extra transactions exactly when no slot that the pool had
   * filled was emptied again.
   */
  lemma ExtraCountIsExact(pooled: Slots, slots: Slots)
    requires |pooled| == |slots| < UINT64
    ensures ExtraCounted(pooled, slots) == Gained(pooled, slots) <==>
            forall p | 0 <= p < |slots| && pooled[p].Some? :: slots[p].Some?
  {
    hide Gained;
    GainedNone(pooled, slots);
    GainedNone(slots, pooled);
  }

  ghost predicate LeadsTo(env: Env, m: Message, places: map<nat, nat>, c: Candidate, p: nat) {
    env.ShortId(m, c.0) in places && places[env.ShortId(m, c.0)] == p
  }

  /** The candidate answers to the slot's short id, and is another transaction than the one held. */
  ghost predicate Displaces(env: Env, m: Message, places: map<nat, nat>, c: Candidate, p: nat, held: Tx) {
    LeadsTo(env, m, places, c, p) && c.1.witnessHash != held.witnessHash
  }

  /** A matched slot is emptied exactly when one of the extra candidates tried displaces what it holds. */
  lemma {:induction false} EmptiedIff(env: Env, m: Message, places: map<nat, nat>, f: Fill, cs: seq<Candidate>, p: nat)
    requires |f.slots| == |f.had| && p < |f.slots| && f.slots[p].Some? && f.had[p]
    ensures TryAll(env, m, places, f, cs, true).slots[p].None? <==>
            exists k :: 0 <= k < Reached(env, m, places, f, cs, true)
                        && Displaces(env, m, places, cs[k], p, f.slots[p].value)
    decreases |cs|
  {
    hide Free;
    if cs != [] {
      var g, held, n := Try(env, m, places, f, cs[0], true), f.slots[p].value, Reached(env, m, places, f, cs, true);
      if Displaces(env, m, places, cs[0], p, held) {
        StaysOrGoes(env, m, places, g, cs[1..], p);
        assert 0 < n && Displaces(env, m, places, cs[0], p, held);
      } else {
        assert g.slots[p] == f.slots[p] && g.had[p];
        EmptiedIff(env, m, places, g, cs[1..], p);
        ShiftedIndex(env, m, places, cs, n, p, held);
      }
    }
  }

  lemma ShiftedIndex(env: Env, m: Message, places: map<nat, nat>, cs: seq<Candidate>, n: nat, p: nat, held: Tx)
    requires 1 <= n <= |cs| && !Displaces(env, m, places, cs[0], p, held)
    ensures (exists k :: 0 <= k < n && Displaces(env, m, places, cs[k], p, held)) <==>
            (exists k :: 0 <= k < n - 1 && Displaces(env, m, places, cs[1..][k], p, held))
  {
    hide Displaces;
    if k :| 0 <= k < n && Displaces(env, m, places, cs[k], p, held) {
      assert cs[1..][k - 1] == cs[k];
    }
    if k :| 0 <= k < n - 1 && Displaces(env, m, places, cs[1..][k], p, held) {
      assert cs[1..][k] == cs[k + 1];
    }
  }

  /** A slot that was empty before holds one of the extra candidates. */
  lemma {:induction false} HeldByExtra(env: Env, m: Message, places: map<nat, nat>, f: Fill, cs: seq<Candidate>, p: nat)
      returns (c: Candidate)
    requires |f.slots| == |f.had| && p < |f.slots| && f.slots[p].None?
    requires TryAll(env, m, places, f, cs, true).slots[p].Some?
    ensures c in cs && LeadsTo(env, m, places, c, p) && TryAll(env, m, places, f, cs, true).slots[p] == Some(c.1)
    decreases |cs|
  {
    hide Free;
    var g := Try(env, m, places, f, cs[0], true);
    if g.slots[p].None? {
      c := HeldByExtra(env, m, places, g, cs[1..], p);
    } else {
      c := cs[0];
      StaysOrGoes(env, m, places, g, cs[1..], p);
    }
  }

  lemma {:induction false} StaysOrGoes(env: Env, m: Message, places: map<nat, nat>, f: Fill, cs: seq<Candidate>, p: nat)
    requires |f.slots| == |f.had| && p < |f.slots| && f.had[p]
    ensures var g := TryAll(env, m, places, f, cs, true);
            |g.slots| == |f.slots| && (g.slots[p] == f.slots[p] || g.slots[p].None?)
    decreases |cs|
  {
    hide Free;
    if cs != [] {
      StaysOrGoes(env, m, places, Try(env, m, places, f, cs[0], true), cs[1..], p);
    }
  }

  /** Prefilled slots are as they were laid, and any other that is filled has been matched. */
  ghost predicate FillOk(a0: Slots, f: Fill) {
    && |f.slots| == |f.had| == |a0|
    && (forall p | 0 <= p < |a0| && a0[p].Some? :: f.slots[p] == a0[p])
    && (forall p | 0 <= p < |a0| && a0[p].None? && f.slots[p].Some? :: f.had[p])
  }

  lemma {:induction false} TryAllOk(env: Env, m: Message, a0: Slots, places: map<nat, nat>, f: Fill, cs: seq<Candidate>,
                                    isExtra: bool)
    requires FillOk(a0, f) && forall id | id in places :: places[id] < |a0| && a0[places[id]].None?
    ensures FillOk(a0, TryAll(env, m, places, f, cs, isExtra))
    decreases |cs|
  {
    hide Free;
    if cs != [] {
      TryAllOk(env, m, a0, places, Try(env, m, places, f, cs[0], isExtra), cs[1..], isExtra);
    }
  }

  lemma {:induction false} WhereIsFree(ids: seq<nat>, free: seq<nat>, id: nat)
    requires |free| == |ids| && id in Where(ids, free)
    ensures Where(ids, free)[id] in free
  {
    var n := |ids| - 1;
    if id != ids[n] {
      WhereIsFree(ids[..n], free[..n], id);
    }
  }

  lemma PooledOk(env: Env, m: Message, pool: seq<Candidate>)
    requires WellLaid(m) && m.TxCount() <= UINT16
    ensures FillOk(Laid(m, |m.prefilled|), Pooled(env, m, pool))
    ensures forall id | id in Places(m) :: Places(m)[id] < m.TxCount() && Laid(m, |m.prefilled|)[Places(m)[id]].None?
  {
    hide Free, Laid, Where;
    var a0 := Laid(m, |m.prefilled|);
    FreeIsFree(a0);
    forall id | id in Places(m) ensures Places(m)[id] < m.TxCount() && a0[Places(m)[id]].None? {
      assert Short(Free(a0)) == Free(a0);
      WhereIsFree(m.shortIds, Free(a0), id);
    }
    TryAllOk(env, m, a0, Places(m), Fill(a0, seq(|a0|, _ => false), 0), pool, false);
  }

  ghost predicate Provides(env: Env, m: Message, extra: seq<Candidate>, p: nat, tx: Tx)
    requires WellLaid(m)
  {
    exists c :: c in extra && LeadsTo(env, m, Places(m), c, p) && c.1 == tx
  }

  /** One of the extra candidates tried displaces what the pool had put into the slot. */
  ghost predicate PoolDisplaced(env: Env, m: Message, pool: seq<Candidate>, extra: seq<Candidate>, p: nat)
    requires WellLaid(m)
  {
    var f := Pooled(env, m, pool);
    && p < |f.slots| && f.slots[p].Some?
    && exists k ::
         0 <= k < Reached(env, m, Places(m), f, extra, true) &&
         Displaces(env, m, Places(m), extra[k], p, f.slots[p].value)
  }

  /** A slot the pool filled is emptied exactly when an extra candidate that is tried displaces its transaction. */
  lemma PooledIsEmptiedIff(env: Env, m: Message, pool: seq<Candidate>, extra: seq<Candidate>, p: nat)
    requires WellLaid(m) && p < m.TxCount() <= UINT16 && Laid(m, |m.prefilled|)[p].None?
    ensures var pooled, slots := Pooled(env, m, pool).slots, Extended(env, m, pool, extra).slots;
            |pooled| == |slots| == m.TxCount() &&
            (pooled[p].Some? && slots[p].None? <==> PoolDisplaced(env, m, pool, extra, p))
  {
    hide Free, Laid, Where, TryAll, Reached, Displaces;
    PooledOk(env, m, pool);
    var f := Pooled(env, m, pool);
    if f.slots[p].Some? {
      EmptiedIff(env, m, Places(m), f, extra, p);
    }
  }

  /** How many of the candidates answer to the short id of a slot. */
  ghost function Leading(env: Env, m: Message, places: map<nat, nat>, cs: seq<Candidate>, p: nat): nat {
    if cs == [] then 0 else (if LeadsTo(env, m, places, cs[0], p) then 1 else 0) + Leading(env, m, places, cs[1..], p)
  }

  /** A slot tried from the pool is filled by the first candidate for it and emptied by the second, for good. */
  lemma {:induction false} PoolCounts(env: Env, m: Message, places: map<nat, nat>, f: Fill, cs: seq<Candidate>, p: nat,
                                      k: nat)
    requires |f.slots| == |f.had| && p < |f.slots| && (f.had[p] <==> k > 0) && (f.slots[p].Some? <==> k == 1)
    ensures var g, n := TryAll(env, m, places, f, cs, false), Reached(env, m, places, f, cs, false);
            var all := k + Leading(env, m, places, cs[..n], p);
            |g.slots| == |g.had| == |f.slots| && (g.had[p] <==> all > 0) && (g.slots[p].Some? <==> all == 1)
    decreases |cs|
  {
    hide Free;
    if cs != [] {
      var g, n := Try(env, m, places, f, cs[0], false), Reached(env, m, places, f, cs, false);
      assert cs[..n][0] == cs[0] && cs[..n][1..] == cs[1..][..n - 1] && cs[..1][1..] == [];
      PoolCounts(env, m, places, g, cs[1..], p, if LeadsTo(env, m, places, cs[0], p) then k + 1 else k);
    }
  }

  /** After the pool a slot is filled exactly when one candidate of those tried answers to its short id. */
  lemma PooledHoldsIff(env: Env, m: Message, pool: seq<Candidate>, p: nat)
    requires WellLaid(m) && p < m.TxCount() && Laid(m, |m.prefilled|)[p].None?
    ensures var a0, f := Laid(m, |m.prefilled|), Pooled(env, m, pool);
            var n := Reached(env, m, Places(m), Fill(a0, seq(|a0|, _ => false), 0), pool, false);
            var matches := Leading(env, m, Places(m), pool[..n], p);
            |f.slots| == |f.had| == m.TxCount() && (f.slots[p].Some? <==> matches == 1) && (f.had[p] <==> matches > 0)
  {
    hide Free, Laid, Where, TryAll, Reached, Leading;
    var a0 := Laid(m, |m.prefilled|);
    PoolCounts(env, m, Places(m), Fill(a0, seq(|a0|, _ => false), 0), pool, p, 0);
  }

  /** One of the candidates answers to the short id of a slot, and all that do are one transaction. */
  ghost predicate OneAnswer(env: Env, m: Message, places: map<nat, nat>, cs: seq<Candidate>, p: nat) {
    && (exists k :: 0 <= k < |cs| && LeadsTo(env, m, places, cs[k], p))
    && (forall j, k | 0 <= j < |cs| && 0 <= k < |cs| ::
          LeadsTo(env, m, places, cs[j], p) && LeadsTo(env, m, places, cs[k], p) ==>
            cs[j].1.witnessHash == cs[k].1.witnessHash)
  }

  /** A slot that no candidate has matched yet is filled from the extra list exactly for one answer. */
  lemma {:induction false} ExtraHoldsIff(env: Env, m: Message, places: map<nat, nat>, f: Fill, cs: seq<Candidate>,
                                         p: nat)
    requires |f.slots| == |f.had| && p < |f.slots| && !f.had[p] && f.slots[p].None?
    ensures TryAll(env, m, places, f, cs, true).slots[p].Some? <==>
            OneAnswer(env, m, places, cs[..Reached(env, m, places, f, cs, true)], p)
    decreases |cs|
  {
    hide Free, OneAnswer, Wrap64;
    var n := Reached(env, m, places, f, cs, true);
    if cs == [] {
      NoAnswer(env, m, places, p);
    } else {
      var g := Try(env, m, places, f, cs[0], true);
      assert cs[..n][0] == cs[0] && cs[..n][1..] == cs[1..][..n - 1];
      if LeadsTo(env, m, places, cs[0], p) {
        FirstAnswers(env, m, places, cs[..n], p);
        if n > 1 {
          EmptiedIff(env, m, places, g, cs[1..], p);
        }
      } else {
        AnswersLater(env, m, places, cs[..n], p);
        if n > 1 {
          ExtraHoldsIff(env, m, places, g, cs[1..], p);
        } else {
          NoAnswer(env, m, places, p);
        }
      }
    }
  }

  lemma NoAnswer(env: Env, m: Message, places: map<nat, nat>, p: nat)
    ensures !OneAnswer(env, m, places, [], p)
  {
  }

  lemma FirstAnswers(env: Env, m: Message, places: map<nat, nat>, cs: seq<Candidate>, p: nat)
    requires cs != [] && LeadsTo(env, m, places, cs[0], p)
    ensures OneAnswer(env, m, places, cs, p) <==>
            !exists k :: 0 <= k < |cs[1..]| && Displaces(env, m, places, cs[1..][k], p, cs[0].1)
  {
    hide LeadsTo;
    if k :| 0 <= k < |cs[1..]| && Displaces(env, m, places, cs[1..][k], p, cs[0].1) {
      assert cs[1..][k] == cs[k + 1];
    } else {
      forall j | 0 <= j < |cs| && LeadsTo(env, m, places, cs[j], p) ensures cs[j].1.witnessHash == cs[0].1.witnessHash {
        if j > 0 {
          assert cs[1..][j - 1] == cs[j];
        }
      }
    }
  }

  lemma AnswersLater(env: Env, m: Message, places: map<nat, nat>, cs: seq<Candidate>, p: nat)
    requires cs != [] && !LeadsTo(env, m, places, cs[0], p)
    ensures OneAnswer(env, m, places, cs, p) <==> OneAnswer(env, m, places, cs[1..], p)
  {
    hide LeadsTo;
    forall j | 0 < j < |cs| ensures cs[1..][j - 1] == cs[j] {
    }
  }

  /**
   * After both lists a slot is filled exactly when one pool candidate of those tried answers to its short id and no
   * extra one does with another transaction, or none of the pool does and the extra ones that do are one transaction.
   */
  lemma ExtendedHoldsIff(env: Env, m: Message, pool: seq<Candidate>, extra: seq<Candidate>, p: nat)
    requires WellLaid(m) && p < m.TxCount() <= UINT16 && Laid(m, |m.prefilled|)[p].None?
    ensures var a0, places := Laid(m, |m.prefilled|), Places(m);
            var f, g := Pooled(env, m, pool), Extended(env, m, pool, extra);
            var n := Reached(env, m, places, Fill(a0, seq(|a0|, _ => false), 0), pool, false);
            var matches := Leading(env, m, places, pool[..n], p);
            && |g.slots| == m.TxCount()
            && (g.slots[p].Some? <==>
                || (matches == 1 && !PoolDisplaced(env, m, pool, extra, p))
                || (matches == 0 && OneAnswer(env, m, places, extra[..Reached(env, m, places, f, extra, true)], p)))
  {
    hide Free, Laid, Where, TryAll, Reached, Leading, PoolDisplaced, OneAnswer;
    PooledHoldsIff(env, m, pool, p);
    PooledIsEmptiedIff(env, m, pool, extra, p);
    var f := Pooled(env, m, pool);
    if !f.had[p] {
      ExtraHoldsIff(env, m, Places(m), f, extra, p);
    } else {
      StaysOrGoes(env, m, Places(m), f, extra, p);
    }
  }

  /** A candidate keeps the slots in order and the count exact. */
  lemma TriedOne(env: Env, m: Message, a0: Slots, f: Fill, cs: seq<Candidate>, c: Candidate, places: map<nat, nat>,
                 isExtra: bool)
    requires Trying(env, m, a0, f.slots, f.had, cs) && Assigned(m.shortIds, Free(a0), places) && Distinct(m.shortIds)
    requires f.count == |m.shortIds| - |Free(f.slots)| && |m.shortIds| < UINT64
    ensures var g := Try(env, m, places, f, c, isExtra);
            && Trying(env, m, a0, g.slots, g.had, cs + [c]) && g.count == |m.shortIds| - |Free(g.slots)|
            && (AllHad(a0, f.had) ==> AllHad(a0, g.had))
  {
    hide Free, Trying, Distinct, Assigned, AllHad, Wrap64;
    var g, id := Try(env, m, places, f, c, isExtra), env.ShortId(m, c.0);
    if id in places {
      SlotInRange(env, m, a0, f.slots, f.had, cs, places, id);
      var p := places[id];
      TryingHits(env, m, a0, f.slots, f.had, cs, c, places, g.slots[p]);
      assert g.slots == f.slots[p := g.slots[p]] && g.had == f.had[p := true];
      FreeUpdate(f.slots, p, g.slots[p]);
      StillHad(a0, f.had, p);
    } else {
      TryingMisses(env, m, a0, f.slots, f.had, cs, c, places);
    }
    TryingCount(env, m, a0, g.slots, g.had, cs + [c]);
    WrapIs(|m.shortIds| - |Free(g.slots)|);
  }

  /** So do all that are tried; those that are not come after the last empty slot was filled. */
  lemma {:induction false} TriedAll(env: Env, m: Message, a0: Slots, f: Fill, before: seq<Candidate>,
                                    cs: seq<Candidate>, places: map<nat, nat>, isExtra: bool)
    requires Trying(env, m, a0, f.slots, f.had, before)
    requires Assigned(m.shortIds, Free(a0), places) && Distinct(m.shortIds)
    requires f.count == |m.shortIds| - |Free(f.slots)| && |m.shortIds| < UINT64
    ensures var g, n := TryAll(env, m, places, f, cs, isExtra), Reached(env, m, places, f, cs, isExtra);
            && Trying(env, m, a0, g.slots, g.had, before + cs[..n]) && g.count == |m.shortIds| - |Free(g.slots)|
            && (n == |cs| || |Free(g.slots)| == 0)
            && (AllHad(a0, f.had) ==> AllHad(a0, g.had))
    decreases |cs|
  {
    hide Free, Trying, Distinct, Assigned, AllHad, Try;
    if cs == [] {
      assert before + cs[..0] == before;
    } else {
      var g := Try(env, m, places, f, cs[0], isExtra);
      var n := Reached(env, m, places, f, cs, isExtra);
      TriedOne(env, m, a0, f, before, cs[0], places, isExtra);
      AllAssigned(m.shortIds, Free(a0), places);
      if g.count == |places| {
        assert before + cs[..1] == before + [cs[0]];
      } else {
        TriedAll(env, m, a0, g, before + [cs[0]], cs[1..], places, isExtra);
        assert before + [cs[0]] + cs[1..][..n - 1] == before + cs[..n];
      }
    }
  }

  /**
   * With slot numbers that fit in 16 bits every slot holds a match of its short id or is empty for want of exactly
   * one, and the counts are those of the filled slots.
   */
  lemma FilledRight(env: Env, m: Message, pool: seq<Candidate>, extra: seq<Candidate>)
    requires WellLaid(m) && Distinct(m.shortIds) && m.TxCount() <= UINT16
    ensures var f, g := Pooled(env, m, pool), Extended(env, m, pool, extra);
            && Initialized(env, m, pool + extra, g.slots)
            && f.count == |m.shortIds| - |Free(f.slots)| && g.count == |m.shortIds| - |Free(g.slots)|
  {
    hide Free, Laid, Distinct, Where, TryAll, Reached, Trying, AllHad, Resolved, PrefilledOk;
    var a0, places := Laid(m, |m.prefilled|), Places(m);
    var f0 := Fill(a0, seq(|a0|, _ => false), 0);
    TryingNone(env, m, a0, f0.had);
    PlacesAssigned(m);
    TriedAll(env, m, a0, f0, [], pool, places, false);
    var f, n := Pooled(env, m, pool), Reached(env, m, places, f0, pool, false);
    assert [] + pool[..n] == pool[..n];
    AllTaken(env, m, a0, f.slots, f.had, pool[..n]);
    TriedAll(env, m, a0, f, pool[..n], extra, places, true);
    var g, k := Extended(env, m, pool, extra), Reached(env, m, places, f, extra, true);
    Finished(env, m, a0, g.slots, g.had, pool, n, extra, k);
  }

  lemma PlacesAssigned(m: Message)
    requires WellLaid(m) && Distinct(m.shortIds) && m.TxCount() <= UINT16
    ensures Assigned(m.shortIds, Free(Laid(m, |m.prefilled|)), Places(m))
  {
    hide Free, Laid, Where;
    if m.shortIds == [] {
      WhereAssigns(m.shortIds, Short(Free(Laid(m, |m.prefilled|))));
    } else {
      PlacesAreSlotsIff(m);
    }
  }

  /**
   * The slots gained after the pool are those held by extra transactions. The counter is not their number
   * exactly when some extra candidate that is tried answers to the short id of a slot that the pool had filled,
   * with another transaction.
   */
  lemma ExtraCountMeaning(env: Env, m: Message, pool: seq<Candidate>, extra: seq<Candidate>)
    requires WellLaid(m) && Distinct(m.shortIds) && m.TxCount() <= UINT16
    ensures var f, g := Pooled(env, m, pool), Extended(env, m, pool, extra);
            && |f.slots| == |g.slots| == m.TxCount()
            && (forall p | 0 <= p < |g.slots| && f.slots[p].None? && g.slots[p].Some? ::
                  Provides(env, m, extra, p, g.slots[p].value))
            && Wrap64(g.count - f.count) == ExtraCounted(f.slots, g.slots)
            && (Wrap64(g.count - f.count) != Gained(f.slots, g.slots) <==>
                exists p :: 0 <= p < m.TxCount() && Laid(m, |m.prefilled|)[p].None?
                            && PoolDisplaced(env, m, pool, extra, p))
  {
    hide Free, Laid, Where, TryAll, Distinct, ExtraCounted, Gained, PoolDisplaced, Wrap64, Initialized;
    var places, f, a0 := Places(m), Pooled(env, m, pool), Laid(m, |m.prefilled|);
    var slots := Extended(env, m, pool, extra).slots;
    PooledOk(env, m, pool);
    TryAllOk(env, m, a0, places, f, extra, true);
    forall p | 0 <= p < |slots| && f.slots[p].None? && slots[p].Some?
      ensures Provides(env, m, extra, p, slots[p].value)
    {
      var c := HeldByExtra(env, m, places, f, extra, p);
    }
    FilledRight(env, m, pool, extra);
    CountedByFree(f.slots, slots);
    ExtraCountIsExact(f.slots, slots);
    forall p | 0 <= p < |slots| && a0[p].None?
      ensures f.slots[p].Some? && slots[p].None? <==> PoolDisplaced(env, m, pool, extra, p)
    {
      PooledIsEmptiedIff(env, m, pool, extra, p);
    }
  }

  /**
   * The search for an empty slot does not end: the 16-bit offset wraps around before it reaches one, because all
   * the slots it can reach are prefilled.
   */
  ghost predicate Endless(m: Message) {
    && m.header != NULL_HEADER && m.TxCount() <= MAX_BLOCK_TXS && m.shortIds != []
    && (forall k | 0 <= k < |m.prefilled| :: PrefilledOk(m, k)) && |m.prefilled| >= UINT16
  }

  /** Every slot that an offset of 16 bits reaches from the first short id is then filled. */
  lemma EndlessSearch(m: Message)
    requires Endless(m)
    ensures m.TxCount() > UINT16 && forall offset | 0 <= offset < UINT16 :: Laid(m, |m.prefilled|)[offset].Some?
  {
    hide Laid, Position;
    var last := |m.prefilled| - 1;
    assert PrefilledOk(m, last);
    PositionsGrow(m.prefilled, last);
    forall k | 0 <= k < UINT16 ensures Laid(m, |m.prefilled|)[k].Some? {
      PositionsGrow(m.prefilled, k);
      PositionSlack(m.prefilled, k, last);
      LaidAt(m, |m.prefilled|, k);
    }
  }

  /** The gaps before a position are not more than those before a later one. */
  lemma {:induction false} PositionSlack(pre: seq<Prefilled>, k: nat, n: nat)
    requires k <= n < |pre|
    ensures Position(pre, k) - k <= Position(pre, n) - n
  {
    if k < n {
      PositionSlack(pre, k, n - 1);
    }
  }

  /** What the candidates say, and where they come from; `crowded` is the outcome of the hash-table test. */
  class PartiallyDownloadedBlock {
    const env: Env
    const pool: seq<Candidate>
    var header: Header
    var txnAvailable: Slots
    var prefilledCount: nat
    var mempoolCount: nat
    var extraCount: nat

    constructor (env: Env, pool: seq<Candidate>)
      ensures this.env == env && this.pool == pool && header == NULL_HEADER && txnAvailable == []
      ensures prefilledCount == 0 && mempoolCount == 0 && extraCount == 0
    {
      this.env := env;
      this.pool := pool;
      header := NULL_HEADER;
      txnAvailable := [];
      prefilledCount, mempoolCount, extraCount := 0, 0, 0;
    }

    /** Puts the prefilled transactions in place, or finds the message malformed. */
    method LayPrefilled(m: Message) returns (ok: bool)
      requires txnAvailable == seq(m.TxCount(), _ => None)
      modifies this`txnAvailable
      ensures ok <==> forall k | 0 <= k < |m.prefilled| :: PrefilledOk(m, k)
      ensures ok ==> txnAvailable == Laid(m, |m.prefilled|)
    {
      var last := -1;
      var i := 0;
      while i < |m.prefilled|
        invariant 0 <= i <= |m.prefilled| && last == if i == 0 then -1 else Position(m.prefilled, i - 1)
        invariant forall k | 0 <= k < i :: PrefilledOk(m, k)
        invariant txnAvailable == Laid(m, i)
      {
        PositionsGrow(m.prefilled, i);
        last := last + m.prefilled[i].index + 1;
        if m.prefilled[i].tx.isNull || last >= UINT16 || last > |m.shortIds| + i {
          assert !PrefilledOk(m, i);
          return false;
        }
        assert PrefilledOk(m, i);
        txnAvailable := txnAvailable[last := Some(m.prefilled[i].tx)];
        i := i + 1;
      }
      return true;
    }

    /** Gives the i-th short id the number of the i-th empty slot, in 16 bits, never leaving the table. */
    method AssignShortIds(m: Message, crowded: nat -> bool) returns (ok: bool, places: map<nat, nat>)
      requires |txnAvailable| == m.TxCount() && |Free(txnAvailable)| == |m.shortIds|
      requires m.shortIds != [] ==> |m.prefilled| < UINT16
      ensures ok <==> Distinct(m.shortIds) && forall i | 0 <= i < |m.shortIds| :: !crowded(i)
      ensures ok ==> places == Where(m.shortIds, Short(Free(txnAvailable)))
    {
      hide Free, SetOf, Assigning, Assigned, Distinct, Where;
      places := map[];
      ghost var from: map<nat, nat> := map[];
      ghost var short := Short(Free(txnAvailable));
      AssigningNone(m.shortIds, short);
      var offset, i := 0, 0;
      NoneFree(txnAvailable);
      while i < |m.shortIds|
        invariant 0 <= i <= |m.shortIds| && i + offset <= |txnAvailable| && |Free(txnAvailable[..i + offset])| == i
        invariant Assigning(m.shortIds, short, i, places, from)
        invariant forall k | 0 <= k < i :: !crowded(k)
      {
        offset := NextEmpty(i, offset);
        FreeAt(txnAvailable, i + offset);
        FreeStep(txnAvailable, i + offset);
        AssigningStep(m.shortIds, short, i, places, from);
        places := places[m.shortIds[i] := (i + offset) % UINT16];
        from := from[m.shortIds[i] := i];
        if crowded(i) {
          return false, places;
        }
        i := i + 1;
      }
      AssigningDone(m.shortIds, short, places, from);
      ok := |places| == |m.shortIds|;
      if ok {
        AssignedIsWhere(m.shortIds, short, places);
      }
    }

    /** Moves past occupied slots; one of the slots left is empty. */
    method NextEmpty(i: nat, from: nat) returns (offset: nat)
      requires i + from <= |txnAvailable| && |Free(txnAvailable[..i + from])| == i < |Free(txnAvailable)|
      requires |txnAvailable| - |Free(txnAvailable)| < UINT16
      ensures from <= offset && i + offset < |txnAvailable| && txnAvailable[i + offset].None?
      ensures |Free(txnAvailable[..i + offset])| == i
    {
      offset := from;
      NotDone(txnAvailable, i + offset);
      while txnAvailable[i + offset].Some?
        invariant from <= offset && i + offset < |txnAvailable| && |Free(txnAvailable[..i + offset])| == i
        decreases |txnAvailable| - offset
      {
        FreeStep(txnAvailable, i + offset);
        NotDone(txnAvailable, i + offset + 1);
        FilledPrefix(txnAvailable, i + offset + 1);
        offset := (offset + 1) % UINT16;
      }
    }

    /** Fills slots from the memory pool; two matches for one short id leave its slot empty. */
    method TryPool(m: Message, places: map<nat, nat>) returns (have: seq<bool>)
      requires forall id | id in places :: places[id] < |txnAvailable|
      modifies this`txnAvailable, this`mempoolCount
      ensures Fill(txnAvailable, have, mempoolCount) ==
              TryAll(env, m, places, Fill(old(txnAvailable), seq(|old(txnAvailable)|, _ => false), old(mempoolCount)),
                     pool, false)
    {
      hide TryAll, Wrap64;
      have := seq(|txnAvailable|, _ => false);
      ghost var all := TryAll(env, m, places, Fill(txnAvailable, have, mempoolCount), pool, false);
      assert pool[0..] == pool;
      var i := 0;
      while i < |pool|
        invariant 0 <= i <= |pool| && |have| == |txnAvailable| == |old(txnAvailable)|
        invariant all == TryAll(env, m, places, Fill(txnAvailable, have, mempoolCount), pool[i..], false)
      {
        TryAllStep(env, m, places, Fill(txnAvailable, have, mempoolCount), pool, i, false);
        var id := env.ShortId(m, pool[i].0);
        if id in places {
          var p := places[id];
          if !have[p] {
            txnAvailable, have := txnAvailable[p := Some(pool[i].1)], have[p := true];
            mempoolCount := Wrap64(mempoolCount + 1);
          } else if txnAvailable[p].Some? {
            txnAvailable := txnAvailable[p := None];
            mempoolCount := Wrap64(mempoolCount - 1);
          }
        }
        i := i + 1;
        if mempoolCount == |places| {
          return;
        }
      }
      TryAllNone(env, m, places, Fill(txnAvailable, have, mempoolCount), pool[i..], false);
    }

    /**
     * Fills slots from further transactions; a match whose witness hash differs from the one held leaves
     * the slot empty. The extra count goes down then, even for a slot that the pool had filled.
     */
    method TryExtra(m: Message, places: map<nat, nat>, extra: seq<Candidate>, have0: seq<bool>)
      requires forall id | id in places :: places[id] < |txnAvailable|
      requires |have0| == |txnAvailable| && extraCount == 0
      modifies this`txnAvailable, this`mempoolCount, this`extraCount
      ensures var g := TryAll(env, m, places, Fill(old(txnAvailable), have0, old(mempoolCount)), extra, true);
              txnAvailable == g.slots && mempoolCount == g.count
      ensures extraCount == Wrap64(mempoolCount - old(mempoolCount))
    {
      hide TryAll, Wrap64;
      var have := have0;
      ghost var all := TryAll(env, m, places, Fill(txnAvailable, have, mempoolCount), extra, true);
      assert extra[0..] == extra;
      WrapIs(0);
      var i := 0;
      while i < |extra|
        invariant 0 <= i <= |extra| && |have| == |txnAvailable| == |old(txnAvailable)|
        invariant all == TryAll(env, m, places, Fill(txnAvailable, have, mempoolCount), extra[i..], true)
        invariant extraCount == Wrap64(mempoolCount - old(mempoolCount))
      {
        TryAllStep(env, m, places, Fill(txnAvailable, have, mempoolCount), extra, i, true);
        WrapStep(mempoolCount, old(mempoolCount));
        var id := env.ShortId(m, extra[i].0);
        if id in places {
          var p := places[id];
          if !have[p] {
            txnAvailable, have := txnAvailable[p := Some(extra[i].1)], have[p := true];
            mempoolCount := Wrap64(mempoolCount + 1);
            extraCount := Wrap64(extraCount + 1);
          } else if txnAvailable[p].Some? && txnAvailable[p].value.witnessHash != extra[i].1.witnessHash {
            txnAvailable := txnAvailable[p := None];
            mempoolCount := Wrap64(mempoolCount - 1);
            extraCount := Wrap64(extraCount - 1);
          }
        }
        i := i + 1;
        if mempoolCount == |places| {
          return;
        }
      }
      TryAllNone(env, m, places, Fill(txnAvailable, have, mempoolCount), extra[i..], true);
    }

    /** Lays out a compact block and fills what can be filled. */
    method InitData(m: Message, extra: seq<Candidate>, crowded: nat -> bool) returns (status: ReadStatus)
      requires header == NULL_HEADER && txnAvailable == [] && mempoolCount == 0 && extraCount == 0
      requires !Endless(m)
      modifies this
      ensures status == INVALID <==>
              || m.header == NULL_HEADER || m.TxCount() == 0 || m.TxCount() > MAX_BLOCK_TXS
              || !forall k | 0 <= k < |m.prefilled| :: PrefilledOk(m, k)
      ensures status == OK || status == FAILED || status == INVALID
      ensures status == FAILED ==> !Distinct(m.shortIds) || exists i :: 0 <= i < |m.shortIds| && crowded(i)
      ensures status == OK ==>
                && Distinct(m.shortIds) && (forall i | 0 <= i < |m.shortIds| :: !crowded(i))
                && header == m.header && prefilledCount == |m.prefilled| && WellLaid(m)
                && txnAvailable == Extended(env, m, pool, extra).slots
                && mempoolCount == Extended(env, m, pool, extra).count
                && extraCount == Wrap64(mempoolCount - Pooled(env, m, pool).count)
      ensures status == OK && m.TxCount() <= UINT16 ==>
                && Initialized(env, m, pool + extra, txnAvailable)
                && mempoolCount == |m.shortIds| - |Free(txnAvailable)|
    {
      hide Free, Distinct, Initialized, Laid, PrefilledOk, TryAll, Where, Wrap64;
      if m.header == NULL_HEADER || (m.shortIds == [] && m.prefilled == []) {
        return INVALID;
      }
      if |m.shortIds| + |m.prefilled| > MAX_BLOCK_TXS {
        return INVALID;
      }
      header := m.header;
      txnAvailable := seq(m.TxCount(), _ => None);
      var laid := LayPrefilled(m);
      if !laid {
        return INVALID;
      }
      prefilledCount := |m.prefilled|;
      LaidLeaves(m, |m.prefilled|);
      var distinct, places := AssignShortIds(m, crowded);
      if !distinct {
        return FAILED;
      }
      PlacesInRange(m);
      assert places == Places(m);
      var have := TryPool(m, places);
      TryExtra(m, places, extra, have);
      if m.TxCount() <= UINT16 {
        FilledRight(env, m, pool, extra);
      }
      return OK;
    }

    method IsTxAvailable(index: nat) returns (available: bool)
      requires header != NULL_HEADER && index < |txnAvailable|
      ensures available <==> txnAvailable[index].Some?
    {
      return txnAvailable[index].Some?;
    }

    /**
     * Completes the block: the n-th empty slot takes the n-th transaction sent. Too few or too many are
     * refused; what is available is moved out, so that only the first complete call can succeed.
     */
    method FillBlock(missing: seq<Tx>) returns (status: ReadStatus, vtx: seq<Tx>)
      requires header != NULL_HEADER
      modifies this`header, this`txnAvailable
      ensures |missing| < |Free(old(txnAvailable))| ==>
                && status == INVALID && header == old(header) && |txnAvailable| == |old(txnAvailable)|
                && |Free(txnAvailable)| >= |Free(old(txnAvailable))|
      ensures |missing| >= |Free(old(txnAvailable))| ==>
                && header == NULL_HEADER && txnAvailable == [] && Completes(vtx, old(txnAvailable), missing)
      ensures |missing| > |Free(old(txnAvailable))| ==> status == INVALID
      ensures |missing| == |Free(old(txnAvailable))| ==>
                status == StatusOf(env.check(old(header), vtx))
    {
      hide Free;
      ghost var was := txnAvailable;
      vtx := [];
      NoneFree(was);
      var offset, i := 0, 0;
      while i < |txnAvailable|
        invariant 0 <= i <= |txnAvailable| == |was| && |vtx| == i && header == old(header)
        invariant forall p | 0 <= p < i :: txnAvailable[p].None?
        invariant forall p | i <= p < |was| :: txnAvailable[p] == was[p]
        invariant offset == |Free(was[..i])| <= |missing|
        invariant Completes(vtx, was[..i], missing)
      {
        FreeStep(was, i);
        FreePrefix(was, i + 1);
        CompletesMore(vtx, was, i, missing);
        if txnAvailable[i].None? {
          if |missing| <= offset {
            FewerFree(txnAvailable, was);
            return INVALID, vtx;
          }
          vtx := vtx + [missing[offset]];
          offset := offset + 1;
        } else {
          vtx := vtx + [txnAvailable[i].value];
          txnAvailable := txnAvailable[i := None];
        }
        i := i + 1;
      }
      assert was[..i] == was;
      var h := header;
      header := NULL_HEADER;
      txnAvailable := [];
      if |missing| != offset {
        return INVALID, vtx;
      }
      match env.check(h, vtx) {
        case Mutated => return FAILED, vtx;
        case Failed => return CHECKBLOCK_FAILED, vtx;
        case Passed => return OK, vtx;
      }
    }
  }

  /** A list of transactions that agrees with the available ones and takes the others in order. */
  ghost predicate Completes(vtx: seq<Tx>, a: Slots, missing: seq<Tx>) {
    && |vtx| == |a| && |Free(a)| <= |missing|
    && (forall p | 0 <= p < |a| && a[p].Some? :: vtx[p] == a[p].value)
    && (forall i | 0 <= i < |Free(a)| :: Free(a)[i] < |vtx| && vtx[Free(a)[i]] == missing[i])
  }

  lemma CompletesMore(vtx: seq<Tx>, a: Slots, i: nat, missing: seq<Tx>)
    requires i < |a| && Completes(vtx, a[..i], missing)
    ensures a[i].Some? ==> Completes(vtx + [a[i].value], a[..i + 1], missing)
    ensures a[i].None? && |Free(a[..i])| < |missing| ==> Completes(vtx + [missing[|Free(a[..i])|]], a[..i + 1], missing)
  {
    assert a[..i + 1][..i] == a[..i];
    FreeIsFree(a[..i]);
    FreeIsFree(a[..i + 1]);
  }

  /** A transaction of the pool and an extra one that answer to the only short id leave its slot empty. */
  lemma ExtraEmptiesSlot(env: Env, m: Message, c: Candidate, d: Candidate)
    requires m.prefilled == [] && m.shortIds == [env.ShortId(m, c.0)] && env.ShortId(m, d.0) == env.ShortId(m, c.0)
    requires c.1.witnessHash != d.1.witnessHash
    ensures WellLaid(m) && Pooled(env, m, [c]).slots == [Some(c.1)] && Extended(env, m, [c], [d]).slots == [None]
    ensures Pooled(env, m, [c]).count == 1 && Extended(env, m, [c], [d]).count == 0
  {
    var id := env.ShortId(m, c.0);
    var a0 := Laid(m, 0);
    assert a0 == [None];
    assert Free(a0) == [0];
    var short := Short(Free(a0));
    assert short == [0] && m.shortIds[..0] == [] && short[..0] == [];
    assert Where(m.shortIds[..0], short[..0]) == map[];
    assert Places(m) == map[][id := 0];
    var f0, f1 := Fill(a0, seq(1, _ => false), 0), Fill([Some(c.1)], [true], 1);
    assert Try(env, m, Places(m), f0, c, false) == f1 && [c][1..] == [];
    assert Try(env, m, Places(m), f1, d, true) == Fill([None], [true], 0) && [d][1..] == [];
    TryAllNone(env, m, Places(m), Fill([None], [true], 0), [], true);
  }

  /** A message and candidates after which the counter of extra transactions stands at 2^64 - 1. */
  method ExtraCountWraps() returns (b: PartiallyDownloadedBlock, status: ReadStatus)
    ensures fresh(b) && status == OK && b.extraCount == UINT64 - 1
  {
    var env := Env((_, _, _) => 7, (_, _) => Passed);
    var m := Message(1, 0, [7], []);
    var c, d := (1, Tx(1, false)), (2, Tx(2, false));
    b := new PartiallyDownloadedBlock(env, [c]);
    ExtraEmptiesSlot(env, m, c, d);
    status := b.InitData(m, [d], _ => false);
  }

  // ---------------------------------------------------------------------------------------
  // Reconstruction

  /** The message is a compact form of this list of transactions. */
  ghost predicate CompactOf(env: Env, m: Message, vtx: seq<Tx>) {
    && m.TxCount() == |vtx|
    && (forall k | 0 <= k < |m.prefilled| :: PrefilledOk(m, k))
    && (forall k | 0 <= k < |m.prefilled| ::
          0 <= Position(m.prefilled, k) < |vtx| && m.prefilled[k].tx == vtx[Position(m.prefilled, k)])
    && |Free(Laid(m, |m.prefilled|))| == |m.shortIds|
    && (forall i | 0 <= i < |m.shortIds| ::
          && Free(Laid(m, |m.prefilled|))[i] < |vtx|
          && m.shortIds[i] == env.ShortId(m, vtx[Free(Laid(m, |m.prefilled|))[i]].witnessHash))
  }

  /** Whatever matches a short id of the message is the transaction it stands for. */
  ghost predicate Unambiguous(env: Env, m: Message, vtx: seq<Tx>, cs: seq<Candidate>)
    requires CompactOf(env, m, vtx)
  {
    forall c, i | c in cs && 0 <= i < |m.shortIds| && Matches(env, m, c, m.shortIds[i]) ::
      c.1 == vtx[Free(Laid(m, |m.prefilled|))[i]]
  }

  /** A transaction of the block is available if just one candidate answers to the short id of its witness hash. */
  lemma HeldIsAvailable(env: Env, m: Message, vtx: seq<Tx>, cs: seq<Candidate>, a: Slots, p: nat)
    requires CompactOf(env, m, vtx) && Initialized(env, m, cs, a) && p < |vtx|
    requires MatchCount(env, m, env.ShortId(m, vtx[p].witnessHash), cs) == 1
    ensures p < |a| && a[p].Some?
  {
    hide Free, Laid, MatchCount;
    var a0 := Laid(m, |m.prefilled|);
    FreeIsFree(a0);
    if a0[p].None? {
      var i :| 0 <= i < |Free(a0)| && Free(a0)[i] == p;
      assert Resolved(env, m, m.shortIds[i], a[p], cs);
    }
  }

  /** A message built from a block lists the first transaction in full and the others by short id. */
  method Compacted(env: Env, header: Header, vtx: seq<Tx>, nonce: nat) returns (m: Message)
    requires 1 <= |vtx|
    ensures m.header == header && m.nonce == nonce
    ensures |m.shortIds| == |vtx| - 1 && m.prefilled == [Prefilled(0, vtx[0])]
    ensures forall i | 0 < i < |vtx| :: m.shortIds[i - 1] == env.ShortId(m, vtx[i].witnessHash)
    ensures !vtx[0].isNull ==> CompactOf(env, m, vtx)
  {
    var shortIds: seq<nat> := [];
    var keyed := Message(header, nonce, [], []);
    var i := 1;
    while i < |vtx|
      invariant 1 <= i <= |vtx| && |shortIds| == i - 1
      invariant forall k | 0 <= k < i - 1 :: shortIds[k] == env.ShortId(keyed, vtx[k + 1].witnessHash)
    {
      shortIds := shortIds + [env.ShortId(keyed, vtx[i].witnessHash)];
      i := i + 1;
    }
    m := Message(header, nonce, shortIds, [Prefilled(0, vtx[0])]);
    if !vtx[0].isNull {
      OnlyFirst(m);
    }
  }

  lemma OnlyFirst(m: Message)
    requires |m.prefilled| == 1 && m.prefilled[0].index == 0 && !m.prefilled[0].tx.isNull
    ensures PrefilledOk(m, 0) && |Free(Laid(m, 1))| == |m.shortIds|
    ensures forall i | 0 <= i < |m.shortIds| :: Free(Laid(m, 1))[i] == i + 1
  {
    assert PrefilledOk(m, 0);
    LaidLeaves(m, 1);
    var a := Laid(m, 1);
    assert forall p | 1 <= p < |a| :: a[p].None?;
    AllButFirst(a, |a|);
    assert a[..|a|] == a;
  }

  lemma {:induction false} AllButFirst(a: Slots, n: nat)
    requires 1 <= n <= |a| && a[0].Some? && forall p | 1 <= p < |a| :: a[p].None?
    ensures |Free(a[..n])| == n - 1 && forall i | 0 <= i < n - 1 :: Free(a[..n])[i] == i + 1
  {
    assert a[..n][..n - 1] == a[..n - 1];
    if n > 1 {
      AllButFirst(a, n - 1);
    } else {
      assert a[..0] == [];
    }
  }

  /** Every transaction available after a successful InitData is the one at its place in the block. */
  lemma AvailableIsRight(env: Env, m: Message, vtx: seq<Tx>, cs: seq<Candidate>, a: Slots)
    requires CompactOf(env, m, vtx) && Unambiguous(env, m, vtx, cs) && Initialized(env, m, cs, a)
    ensures forall p | 0 <= p < |a| && a[p].Some? :: a[p].value == vtx[p]
  {
    hide Free, Laid, PrefilledOk, MatchCount;
    var n := |m.prefilled|;
    var a0 := Laid(m, n);
    FreeIsFree(a0);
    LaidLeaves(m, n);
    forall p | 0 <= p < |a| && a[p].Some? ensures a[p].value == vtx[p] {
      if a0[p].Some? {
        var k := PositionIndex(m.prefilled, n, p);
        LaidAt(m, n, k);
      } else {
        assert p in Free(a0);
        var i :| 0 <= i < |Free(a0)| && Free(a0)[i] == p;
        assert Resolved(env, m, m.shortIds[i], a[Free(a0)[i]], cs);
        var c :| c in cs && Matches(env, m, c, m.shortIds[i]) && c.1 == a[p].value;
      }
    }
  }

  lemma {:induction false} PositionIndex(pre: seq<Prefilled>, k: nat, p: int) returns (j: nat)
    requires k <= |pre| && p in Positions(pre, k)
    ensures j < k && Position(pre, j) == p
  {
    if Position(pre, k - 1) == p {
      j := k - 1;
    } else {
      j := PositionIndex(pre, k - 1, p);
    }
  }

  /** The transactions asked for are those the empty slots stand for, in order. */
  function Asked(vtx: seq<Tx>, free: seq<nat>): seq<Tx>
    requires forall i | 0 <= i < |free| :: free[i] < |vtx|
  {
    seq(|free|, i requires 0 <= i < |free| => vtx[free[i]])
  }

  lemma CompletesUniquely(vtx: seq<Tx>, made: seq<Tx>, a: Slots)
    requires |a| == |vtx| && (forall p | 0 <= p < |a| && a[p].Some? :: a[p].value == vtx[p])
    requires forall i | 0 <= i < |Free(a)| :: Free(a)[i] < |vtx|
    requires Completes(made, a, Asked(vtx, Free(a)))
    ensures made == vtx
  {
    hide Free;
    FreeIsFree(a);
    forall p | 0 <= p < |a| ensures made[p] == vtx[p] {
      if a[p].None? {
        assert p in Free(a);
        var i :| 0 <= i < |Free(a)| && Free(a)[i] == p;
        assert made[Free(a)[i]] == Asked(vtx, Free(a))[i];
      }
    }
  }

  /**
   * From a compact form of a block and unambiguous candidates: if InitData succeeds and the peer sends what
   * is then unavailable, in index order, FillBlock rebuilds exactly the block's transactions.
   */
  method Reconstruct(b: PartiallyDownloadedBlock, m: Message, extra: seq<Candidate>, crowded: nat -> bool,
                     ghost vtx: seq<Tx>, peer: nat -> Tx)
    returns (init: ReadStatus, status: ReadStatus, made: seq<Tx>)
    requires b.header == NULL_HEADER && b.txnAvailable == [] && b.mempoolCount == 0 && b.extraCount == 0
    requires |vtx| <= UINT16 && CompactOf(b.env, m, vtx) && Unambiguous(b.env, m, vtx, b.pool + extra)
    requires forall p | 0 <= p < |vtx| :: peer(p) == vtx[p]
    modifies b
    ensures init == OK ==>
              && made == vtx
              && status == StatusOf(b.env.check(m.header, vtx))
    ensures init == INVALID ==> m.header == NULL_HEADER || vtx == []
  {
    hide Free, Laid, Distinct, TryAll, Where, WellLaid, Extended, Pooled, Wrap64, PrefilledOk;
    status, made := INVALID, [];
    init := b.InitData(m, extra, crowded);
    if init != OK {
      return;
    }
    AvailableIsRight(b.env, m, vtx, b.pool + extra, b.txnAvailable);
    var a := b.txnAvailable;
    FreeIsFree(a);
    NoneFree(a);
    var missing: seq<Tx> := [];
    var i := 0;
    while i < |a|
      invariant 0 <= i <= |a| && |missing| == |Free(a[..i])| && b.txnAvailable == a && b.header == m.header
      invariant forall k | 0 <= k < |missing| :: Free(a[..i])[k] < i && missing[k] == vtx[Free(a[..i])[k]]
    {
      FreeMore(a, i);
      var available := b.IsTxAvailable(i);
      if !available {
        missing := missing + [peer(i)];
      }
      i := i + 1;
    }
    assert a[..|a|] == a;
    assert missing == Asked(vtx, Free(a));
    status, made := b.FillBlock(missing);
    CompletesUniquely(vtx, made, a);
  }

  lemma FreeMore(a: Slots, i: nat)
    requires i < |a|
    ensures Free(a[..i + 1]) == Free(a[..i]) + if a[i].None? then [i] else []
  {
    assert a[..i + 1][..i] == a[..i];
  }

  ghost predicate AllHad(a0: Slots, have: seq<bool>) {
    |have| == |a0| && forall i | 0 <= i < |Free(a0)| :: Free(a0)[i] < |have| && have[Free(a0)[i]]
  }

  lemma StillHad(a0: Slots, have: seq<bool>, p: nat)
    requires p < |have|
    ensures AllHad(a0, have) ==> AllHad(a0, have[p := true])
  {
    hide Free;
  }

  /** With no empty slot left every short id has been matched. */
  lemma AllTaken(env: Env, m: Message, a0: Slots, a: Slots, have: seq<bool>, cs: seq<Candidate>)
    requires Trying(env, m, a0, a, have, cs)
    ensures |Free(a)| == 0 ==> AllHad(a0, have)
  {
    FreeIsFree(a);
    forall i | 0 <= i < |Free(a0)| && |Free(a)| == 0 ensures have[Free(a0)[i]] {
      assert Tried(env, m, m.shortIds[i], a[Free(a0)[i]], have[Free(a0)[i]], cs);
    }
  }

  /** Filling slots leaves no more of them empty. */
  lemma {:induction false} FewerFree(a0: Slots, a: Slots)
    requires |a| == |a0| && forall p | 0 <= p < |a0| && a0[p].Some? :: a[p].Some?
    ensures |Free(a)| <= |Free(a0)|
  {
    if a != [] {
      FewerFree(a0[..|a0| - 1], a[..|a| - 1]);
    }
  }

  lemma TryingCount(env: Env, m: Message, a0: Slots, a: Slots, have: seq<bool>, cs: seq<Candidate>)
    requires Trying(env, m, a0, a, have, cs)
    ensures |Free(a)| <= |m.shortIds|
  {
    FewerFree(a0, a);
  }

  lemma Finished(env: Env, m: Message, a0: Slots, a: Slots, have: seq<bool>, pool: seq<Candidate>, tried: nat,
                 extra: seq<Candidate>, i: nat)
    requires tried <= |pool| && i <= |extra| && Trying(env, m, a0, a, have, pool[..tried] + extra[..i])
    requires tried == |pool| || AllHad(a0, have)
    requires i == |extra| || |Free(a)| == 0
    ensures |a| == |a0| && forall p | 0 <= p < |a0| && a0[p].Some? :: a[p] == a0[p]
    ensures |Free(a0)| == |m.shortIds|
    ensures forall k | 0 <= k < |m.shortIds| ::
              Free(a0)[k] < |a0| && Resolved(env, m, m.shortIds[k], a[Free(a0)[k]], pool + extra)
  {
    hide Tried, Resolved;
    FreeIsFree(a);
    forall k | 0 <= k < |m.shortIds|
      ensures Free(a0)[k] < |a0| && Resolved(env, m, m.shortIds[k], a[Free(a0)[k]], pool + extra)
    {
      var p := Free(a0)[k];
      assert |Free(a)| == 0 ==> a[p].Some?;
      TriedEnough(env, m, m.shortIds[k], a[p], have[p], pool, tried, extra, i);
    }
  }

  lemma TryingNone(env: Env, m: Message, a0: Slots, have: seq<bool>)
    requires |have| == |a0| && |Free(a0)| == |m.shortIds| && forall i | 0 <= i < |have| :: !have[i]
    ensures Trying(env, m, a0, a0, have, [])
  {
    FreeIsFree(a0);
  }

  lemma SlotInRange(env: Env, m: Message, a0: Slots, a: Slots, have: seq<bool>, cs: seq<Candidate>, places: map<nat,
                    nat>, id: nat)
    requires Trying(env, m, a0, a, have, cs) && Assigned(m.shortIds, Free(a0), places) && id in places
    ensures |a| == |have| && places[id] < |a| && (!have[places[id]] ==> a[places[id]].None?)
  {
    var i := SlotOf(m.shortIds, Free(a0), places, id);
    assert Tried(env, m, m.shortIds[i], a[Free(a0)[i]], have[Free(a0)[i]], cs);
  }

  lemma AllAssigned(ids: seq<nat>, free: seq<nat>, places: map<nat, nat>)
    requires Assigned(ids, free, places) && Distinct(ids)
    ensures |places| == |ids|
  {
    CountDistinct(ids);
    assert places.Keys == SetOf(ids);
    assert |places| == |places.Keys|;
  }

  lemma FreeStep(a: Slots, p: nat)
    requires p < |a|
    ensures |Free(a[..p + 1])| == |Free(a[..p])| + Missing(a[p])
  {
    assert a[..p + 1][..p] == a[..p];
  }

  lemma {:induction false} FilledPrefix(a: Slots, p: nat)
    requires p <= |a|
    ensures p - |Free(a[..p])| <= |a| - |Free(a)|
  {
    if p < |a| {
      FilledPrefix(a[..|a| - 1], p);
      assert a[..|a| - 1][..p] == a[..p];
    } else {
      assert a[..p] == a;
    }
  }

  /** No short id leads out of the table. */
  lemma PlacesInRange(m: Message)
    requires WellLaid(m)
    ensures forall id | id in Places(m) :: Places(m)[id] < m.TxCount()
  {
    hide Free, Laid, Where;
    var a0 := Laid(m, |m.prefilled|);
    FreeIsFree(a0);
    forall id | id in Places(m) ensures Places(m)[id] < m.TxCount() {
      WhereIsFree(m.shortIds, Short(Free(a0)), id);
      var i :| 0 <= i < |Free(a0)| && Short(Free(a0))[i] == Places(m)[id];
      assert Free(a0)[i] % UINT16 <= Free(a0)[i] < m.TxCount();
    }
  }

  lemma NotDone(a: Slots, p: nat)
    requires p <= |a| && |Free(a[..p])| < |Free(a)|
    ensures p < |a|
  {
    assert a[..|a|] == a;
  }

  lemma SetGrows(ids: seq<nat>, i: nat)
    requires i < |ids|
    ensures SetOf(ids[..i + 1]) == SetOf(ids[..i]) + {ids[i]}
  {
    assert ids[..i + 1] == ids[..i] + [ids[i]];
    forall x | x in SetOf(ids[..i]) + {ids[i]} ensures x in SetOf(ids[..i + 1]) {
      if x == ids[i] {
        assert ids[..i + 1][i] == x;
      } else {
        var k :| 0 <= k < i && ids[..i][k] == x;
        assert ids[..i + 1][k] == x;
      }
    }
  }

  // ---------------------------------------------------------------------------------------
  // Differential coding of the indexes asked for

  const MAX_UINT64: nat := UINT64 - 1
  const MAX_UINT16: nat := UINT16 - 1

  /** Strictly increasing, and below the largest 64-bit value. */
  predicate Increasing(xs: seq<nat>) {
    (forall i | 0 <= i < |xs| :: xs[i] < MAX_UINT64) && forall i | 0 < i < |xs| :: xs[i - 1] < xs[i]
  }

  /** The gap before each value. */
  function Gaps(xs: seq<nat>): seq<nat>
    requires Increasing(xs)
  {
    seq(|xs|, (i: nat) requires i < |xs| => Gap(xs, i))
  }

  function Gap(xs: seq<nat>, i: nat): nat
    requires Increasing(xs) && i < |xs|
  {
    if i == 0 then xs[0] else xs[i] - xs[i - 1] - 1
  }

  /** The values that gaps lead to. */
  function After(gaps: seq<nat>, i: nat): nat
    requires i < |gaps|
  {
    if i == 0 then gaps[0] else After(gaps, i - 1) + 1 + gaps[i]
  }

  class DifferenceFormatter {
    var shift: nat

    constructor ()
      ensures shift == 0
    {
      shift := 0;
    }

    /** Refuses a value that is not above the last one, or the largest 64-bit value. */
    method Ser(v: nat) returns (r: Option<nat>)
      requires shift < UINT64 && v < UINT64
      modifies this
      ensures r.None? <==> v < old(shift) || v == MAX_UINT64
      ensures r.Some? ==> r.value == v - old(shift) && shift == v + 1 < UINT64
    {
      if v < shift || v >= MAX_UINT64 {
        return None;
      }
      r := Some(v - shift);
      shift := v + 1;
    }

    /** Reads a 16-bit value; a gap that overflows 64 bits or leads beyond 16 bits is refused. */
    method Unser(n: nat) returns (r: Option<nat>)
      requires shift < UINT64 && n < UINT64
      modifies this
      ensures r.Some? <==> old(shift) + n <= MAX_UINT16
      ensures r.Some? ==> r.value == old(shift) + n && shift == r.value + 1
      ensures shift < UINT64
    {
      shift := (shift + n) % UINT64;
      if shift < n || shift >= MAX_UINT64 || shift > MAX_UINT16 {
        return None;
      }
      r := Some(shift);
      shift := shift + 1;
    }
  }

  /** Writing a list succeeds exactly when it is strictly increasing, and writes its gaps. */
  method WriteIndexes(xs: seq<nat>) returns (r: Option<seq<nat>>)
    requires forall i | 0 <= i < |xs| :: xs[i] < UINT64
    ensures r.Some? <==> Increasing(xs)
    ensures r.Some? ==> r.value == Gaps(xs)
  {
    var f := new DifferenceFormatter();
    var out: seq<nat> := [];
    var i := 0;
    while i < |xs|
      invariant 0 <= i <= |xs| && f.shift == (if i == 0 then 0 else xs[i - 1] + 1) < UINT64
      invariant Increasing(xs[..i]) && out == Gaps(xs[..i])
    {
      var n := f.Ser(xs[i]);
      if n.None? {
        assert !Increasing(xs);
        return None;
      }
      out := out + [n.value];
      i := i + 1;
    }
    assert xs[..i] == xs;
    return Some(out);
  }

  /** Reading succeeds exactly when every value fits in 16 bits. */
  method ReadIndexes(gaps: seq<nat>) returns (r: Option<seq<nat>>)
    requires forall i | 0 <= i < |gaps| :: gaps[i] < UINT64
    ensures r.Some? <==> forall i | 0 <= i < |gaps| :: After(gaps, i) <= MAX_UINT16
    ensures r.Some? ==> |r.value| == |gaps| && forall i | 0 <= i < |gaps| :: r.value[i] == After(gaps, i)
  {
    var f := new DifferenceFormatter();
    var out: seq<nat> := [];
    var i := 0;
    while i < |gaps|
      invariant 0 <= i <= |gaps| == |out| + |gaps| - i
      invariant f.shift == (if i == 0 then 0 else After(gaps, i - 1) + 1) < UINT64
      invariant forall k | 0 <= k < i :: out[k] == After(gaps, k) <= MAX_UINT16
    {
      var v := f.Unser(gaps[i]);
      if v.None? {
        assert After(gaps, i) > MAX_UINT16;
        return None;
      }
      out := out + [v.value];
      i := i + 1;
    }
    return Some(out);
  }

  /** What was written is read back. */
  lemma {:induction false} GapsRoundTrip(xs: seq<nat>, i: nat)
    requires Increasing(xs) && i < |xs|
    ensures After(Gaps(xs), i) == xs[i]
  {
    if i > 0 {
      GapsRoundTrip(xs, i - 1);
    }
  }

  /** What was read is increasing, and would be written the same. */
  lemma ReadRoundTrip(gaps: seq<nat>, xs: seq<nat>)
    requires |xs| == |gaps| && forall i | 0 <= i < |gaps| :: xs[i] == After(gaps, i) <= MAX_UINT16
    ensures Increasing(xs) && Gaps(xs) == gaps
  {
    forall i | 0 < i < |xs| ensures xs[i - 1] < xs[i] && Gaps(xs)[i] == gaps[i] {
      assert After(gaps, i) == After(gaps, i - 1) + 1 + gaps[i];
    }
  }
}
