/**
 The coins cache hierarchy: write-back caches with DIRTY and FRESH flags, stacked to any
 depth over a bottom view, must together behave as one plain map from outpoints to unspent
 coins.
 */
module Coins {
  import opened Wrappers

  datatype OutPoint = OutPoint(hash: nat, n: nat)

  type Byte = b: int | 0 <= b < 256

  const OP_RETURN: Byte := 0x6a
  const MAX_SCRIPT_SIZE := 10000

  datatype Coin = Coin(value: int, script: seq<Byte>, height: nat, coinBase: bool) {
    predicate IsSpent() { value == -1 }

    predicate IsUnspendable() {
      (|script| > 0 && script[0] == OP_RETURN) || |script| > MAX_SCRIPT_SIZE
    }
  }

  // What Coin::Clear leaves behind, and the value of `coinEmpty`.
  const COIN_EMPTY := Coin(-1, [], 0, false)

  /** One cached coin with its flag bits. */
  datatype Entry = Entry(coin: Coin, dirty: bool, isFresh: bool)

  type CoinsMap = map<OutPoint, Entry>

  /** The reference: outpoints of the unspent coins, and nothing else. */
  type Utxo = map<OutPoint, Coin>

  ghost predicate AllUnspent(m: Utxo) {
    forall k | k in m :: !m[k].IsSpent()
  }

  /** What a cache shows when it lies on top of a view. */
  ghost function Overlay(cache: CoinsMap, below: Utxo): Utxo {
    map k | k in cache.Keys + below.Keys && (k in cache ==> !cache[k].coin.IsSpent())
      :: if k in cache then cache[k].coin else below[k]
  }

  /**
   The meaning of the flags relative to the whole view below: an entry that is not DIRTY agrees
   with it, a FRESH entry has no unspent coin there, and only the flag combinations that the
   source documents as valid occur.
   */
  ghost predicate EntryOk(k: OutPoint, e: Entry, below: Utxo) {
    && (!e.dirty ==> !e.coin.IsSpent() && k in below && below[k] == e.coin)
    && (e.isFresh ==> e.dirty && !e.coin.IsSpent() && k !in below)
    && (e.coin.IsSpent() ==> e.coin == COIN_EMPTY)
  }

  ghost predicate Sound(cache: CoinsMap, below: Utxo) {
    forall k | k in cache :: EntryOk(k, cache[k], below)
  }

  // ---------------------------------------------------------------------------------------
  // Single entries

  lemma EmptyOverlay(below: Utxo)
    ensures Overlay(map[], below) == below
  {
  }

  lemma FetchedEntry(cache: CoinsMap, below: Utxo, k: OutPoint)
    requires AllUnspent(below) && Sound(cache, below)
    requires k in below && k !in cache
    ensures var fetched := cache[k := Entry(below[k], false, false)];
            Sound(fetched, below) && Overlay(fetched, below) == Overlay(cache, below)
  {
  }

  /** The entry AddCoin writes: FRESH if it was, or if the caller rules an overwrite out over an entry not DIRTY. */
  function AddedAs(cache: CoinsMap, k: OutPoint, coin: Coin, possibleOverwrite: bool): Entry {
    var before := if k in cache then cache[k] else Entry(COIN_EMPTY, false, false);
    Entry(coin, true, before.isFresh || (!possibleOverwrite && !before.dirty))
  }

  /** What SpendCoin leaves: a FRESH entry is dropped, any other stays as a spent coin. */
  function TakenOut(cache: CoinsMap, k: OutPoint): CoinsMap
    requires k in cache
  {
    if cache[k].isFresh then cache - {k} else cache[k := Entry(COIN_EMPTY, true, false)]
  }

  lemma AddedEntry(cache: CoinsMap, below: Utxo, k: OutPoint, e: Entry)
    requires !e.coin.IsSpent()
    ensures Overlay(cache[k := e], below) == Overlay(cache, below)[k := e.coin]
    ensures Sound(cache, below) ==> (Sound(cache[k := e], below) <==> EntryOk(k, e, below))
  {
    var added := cache[k := e];
    assert k in added && added[k] == e;
    assert forall o | o in cache && o != k :: added[o] == cache[o];
  }

  /** In any state, what is taken out stays visible exactly when a FRESH entry hid a coin below. */
  lemma TakenOutShows(cache: CoinsMap, below: Utxo, k: OutPoint)
    requires k in cache
    ensures Overlay(TakenOut(cache, k), below) - {k} == Overlay(cache, below) - {k}
    ensures k in Overlay(TakenOut(cache, k), below) <==> cache[k].isFresh && k in below
  {
  }

  lemma SpentEntry(cache: CoinsMap, below: Utxo, k: OutPoint)
    requires Sound(cache, below) && k in cache
    ensures Sound(TakenOut(cache, k), below) && Overlay(TakenOut(cache, k), below) == Overlay(cache, below) - {k}
  {
    assert EntryOk(k, cache[k], below);
  }

  lemma DroppedEntry(cache: CoinsMap, below: Utxo, k: OutPoint)
    requires Sound(cache, below) && k in cache && !cache[k].dirty
    ensures Sound(cache - {k}, below) && Overlay(cache - {k}, below) == Overlay(cache, below)
  {
    assert EntryOk(k, cache[k], below);
  }

  // ---------------------------------------------------------------------------------------
  // BatchWrite, one outpoint at a time

  /** The situation in which BatchWrite throws "FRESH flag misapplied". */
  ghost predicate MisappliedAt(parent: CoinsMap, child: CoinsMap, k: OutPoint) {
    k in child && child[k].dirty && child[k].isFresh && k in parent && !parent[k].coin.IsSpent()
  }

  ghost predicate Misapplied(parent: CoinsMap, child: CoinsMap) {
    exists k :: MisappliedAt(parent, child, k)
  }

  /** The parent's entry at `k` after the child's entry there has been written. */
  ghost function MergedAt(parent: CoinsMap, child: CoinsMap, k: OutPoint): Option<Entry> {
    if k !in child || !child[k].dirty then
      if k in parent then Some(parent[k]) else None
    else if k !in parent then
      if child[k].isFresh && child[k].coin.IsSpent() then None else Some(child[k])
    else if parent[k].isFresh && child[k].coin.IsSpent() then
      None
    else
      Some(Entry(child[k].coin, true, parent[k].isFresh))
  }

  /** The parent's map after a whole batch: a function of each outpoint on its own. */
  ghost function Written(parent: CoinsMap, child: CoinsMap): CoinsMap {
    map k | k in parent.Keys + child.Keys && MergedAt(parent, child, k).Some?
      :: MergedAt(parent, child, k).value
  }

  lemma WrittenAt(parent: CoinsMap, child: CoinsMap, k: OutPoint)
    ensures k in Written(parent, child) <==> MergedAt(parent, child, k).Some?
    ensures k in Written(parent, child) ==> Written(parent, child)[k] == MergedAt(parent, child, k).value
  {
  }

  /** A sound child never triggers the "FRESH flag misapplied" error. */
  lemma SoundChildNeverMisapplied(parent: CoinsMap, child: CoinsMap, below: Utxo)
    requires Sound(child, Overlay(parent, below))
    ensures !Misapplied(parent, child)
  {
    forall k | k in child && child[k].dirty && child[k].isFresh
      ensures !MisappliedAt(parent, child, k)
    {
      assert EntryOk(k, child[k], Overlay(parent, below));
    }
  }

  /**
   Writing a sound child into its sound parent: the parent then shows what the child showed,
   and the flags in the parent are sound again.
   */
  lemma WritingKeepsView(parent: CoinsMap, child: CoinsMap, below: Utxo)
    requires AllUnspent(below)
    requires Sound(parent, below)
    requires Sound(child, Overlay(parent, below))
    ensures Overlay(Written(parent, child), below) == Overlay(child, Overlay(parent, below))
    ensures Sound(Written(parent, child), below)
  {
    var middle := Overlay(parent, below);
    var merged := Written(parent, child);
    forall k
      ensures k in Overlay(merged, below) <==> k in Overlay(child, middle)
      ensures k in Overlay(merged, below) ==> Overlay(merged, below)[k] == Overlay(child, middle)[k]
      ensures k in merged ==> EntryOk(k, merged[k], below)
    {
      WritingKeepsViewAt(parent, child, below, k);
    }
  }

  lemma WritingKeepsViewAt(parent: CoinsMap, child: CoinsMap, below: Utxo, k: OutPoint)
    requires Sound(parent, below)
    requires Sound(child, Overlay(parent, below))
    ensures var merged, middle := Written(parent, child), Overlay(parent, below);
            && (k in Overlay(merged, below) <==> k in Overlay(child, middle))
            && (k in Overlay(merged, below) ==> Overlay(merged, below)[k] == Overlay(child, middle)[k])
            && (k in merged ==> EntryOk(k, merged[k], below))
  {
    WrittenAt(parent, child, k);
    assert k in parent ==> EntryOk(k, parent[k], below);
    assert k in child ==> EntryOk(k, child[k], Overlay(parent, below));
  }

  /**
   What FRESH is for: a coin added where nothing is cached leaves no trace when it is spent, in its own cache, after
   that was written into the parent, or by a cache on top of the parent; it never reaches the view below.
   */
  lemma ShortLivedIsNeverWritten(parent: CoinsMap, child: CoinsMap, k: OutPoint, coin: Coin)
    requires k !in parent && k !in child && !coin.IsSpent()
    ensures var added := child[k := AddedAs(child, k, coin, false)];
            var merged := Written(parent, added);
            && TakenOut(added, k) == child
            && k in merged && merged[k].coin == coin && k !in TakenOut(merged, k)
            && k !in Written(merged, map[k := Entry(COIN_EMPTY, true, false)])
  {
    var added := child[k := AddedAs(child, k, coin, false)];
    WrittenAt(parent, added, k);
    WrittenAt(Written(parent, added), map[k := Entry(COIN_EMPTY, true, false)], k);
  }

  /** A coin added over a FRESH entry, overwriting or not, leaves no trace either when it is spent. */
  lemma FreshStaysFresh(cache: CoinsMap, k: OutPoint, coin: Coin, possibleOverwrite: bool)
    requires k in cache && cache[k].isFresh
    ensures TakenOut(cache[k := AddedAs(cache, k, coin, possibleOverwrite)], k) == cache - {k}
  {
    assert cache[k := AddedAs(cache, k, coin, possibleOverwrite)] - {k} == cache - {k};
  }

  /**
   In any state, a modified entry leaves nothing in the parent exactly when it is spent and FRESH, in the parent or,
   when the parent has none, in the child.
   */
  lemma SpentFreshIsForgotten(parent: CoinsMap, child: CoinsMap, k: OutPoint)
    requires k in child && child[k].dirty
    ensures k !in Written(parent, child)
            <==> child[k].coin.IsSpent() && (if k in parent then parent[k].isFresh else child[k].isFresh)
  {
    WrittenAt(parent, child, k);
  }

  lemma NothingWritten(parent: CoinsMap)
    ensures Written(parent, map[]) == parent
  {
  }

  /** Writing into the bottom view, which keeps no flags. */
  ghost function Stored(below: Utxo, child: CoinsMap): Utxo {
    map k | k in below.Keys + child.Keys && (k in child && child[k].dirty ==> !child[k].coin.IsSpent())
                                         && (k !in child || !child[k].dirty ==> k in below)
      :: if k in child && child[k].dirty then child[k].coin else below[k]
  }

  lemma StoringKeepsView(child: CoinsMap, below: Utxo)
    requires Sound(child, below)
    ensures Stored(below, child) == Overlay(child, below)
  {
    var stored, shown := Stored(below, child), Overlay(child, below);
    forall k
      ensures k in stored <==> k in shown
      ensures k in stored ==> stored[k] == shown[k]
    {
      assert k in child ==> EntryOk(k, child[k], below);
    }
  }

  /** In any state, entries that are not DIRTY might be left out of a batch: they write nothing and raise no error. */
  lemma OnlyDirtyIsWritten(parent: CoinsMap, child: CoinsMap, below: Utxo)
    ensures var dirty := map k | k in child && child[k].dirty :: child[k];
            && Written(parent, child) == Written(parent, dirty)
            && Stored(below, child) == Stored(below, dirty)
            && (Misapplied(parent, child) <==> Misapplied(parent, dirty))
  {
    var dirty := map k | k in child && child[k].dirty :: child[k];
    assert forall k :: MergedAt(parent, child, k) == MergedAt(parent, dirty, k);
    assert forall k :: MisappliedAt(parent, child, k) <==> MisappliedAt(parent, dirty, k);
    assert Written(parent, child) == Written(parent, dirty) by {
      hide MergedAt, Stored, MisappliedAt;
    }
    assert Stored(below, child) == Stored(below, dirty) by {
      hide MergedAt, Written, MisappliedAt;
    }
  }

  /**
   Why the proviso on `possible_overwrite` matters: a coin added and then spent is gone, unless the
   caller ruled an overwrite out while only the views below held a coin there; then that coin is back.
   */
  lemma MisappliedFreshResurrectsCoin(cache: CoinsMap, below: Utxo, k: OutPoint, coin: Coin, possibleOverwrite: bool)
    requires AllUnspent(below) && Sound(cache, below) && !coin.IsSpent()
    requires possibleOverwrite || k !in cache || cache[k].coin.IsSpent()
    ensures var spent := TakenOut(cache[k := AddedAs(cache, k, coin, possibleOverwrite)], k);
            && (k in Overlay(spent, below) <==> !possibleOverwrite && k !in cache && k in Overlay(cache, below))
            && Overlay(spent, below) == if k in Overlay(spent, below) then Overlay(cache, below)
                                        else Overlay(cache, below) - {k}
  {
    var added := cache[k := AddedAs(cache, k, coin, possibleOverwrite)];
    var shown := Overlay(cache, below);
    assert k in shown <==> if k in cache then !cache[k].coin.IsSpent() else k in below;
    assert k in cache ==> EntryOk(k, cache[k], below);
    TakenOutShows(added, below, k);
    AddedEntry(cache, below, k, added[k]);
    hide Overlay, Sound;
    if k in Overlay(TakenOut(added, k), below) {
      assert TakenOut(added, k) == cache;
    } else {
      assert shown[k := coin] - {k} == shown - {k};
    }
  }

  // ---------------------------------------------------------------------------------------
  // The entries of a whole stack, from the top down

  /** One layer's entries written into the next; those of the last layer leave the stack. */
  ghost function Pushed(caches: seq<CoinsMap>, layer: nat): (r: seq<CoinsMap>)
    ensures |r| == |caches|
  {
    if layer >= |caches| then caches
    else if layer + 1 == |caches| then caches[layer := map[]]
    else caches[layer := map[]][layer + 1 := Written(caches[layer + 1], caches[layer])]
  }

  /** One layer without its entry at `k`, if that carries no flag. */
  ghost function Evicted(caches: seq<CoinsMap>, layer: nat, k: OutPoint): (r: seq<CoinsMap>)
    ensures |r| == |caches|
  {
    if layer < |caches| && k in caches[layer] && !caches[layer][k].dirty && !caches[layer][k].isFresh
    then caches[layer := caches[layer] - {k}]
    else caches
  }

  lemma PushedTop(top: CoinsMap, rest: seq<CoinsMap>)
    ensures Pushed([top] + rest, 0) == [map[]] + if rest == [] then [] else rest[0 := Written(rest[0], top)]
  {
    hide Written;
    assert rest != [] ==> ([top] + rest)[1] == rest[0];
  }

  lemma PushedBelow(top: CoinsMap, rest: seq<CoinsMap>, layer: nat)
    ensures Pushed([top] + rest, layer + 1) == [top] + Pushed(rest, layer)
  {
    hide Written;
    assert forall i | 0 <= i < |rest| :: ([top] + rest)[i + 1] == rest[i];
  }

  lemma EvictedBelow(top: CoinsMap, rest: seq<CoinsMap>, layer: nat, k: OutPoint)
    ensures Evicted([top] + rest, layer + 1, k) == [top] + Evicted(rest, layer, k)
  {
    assert forall i | 0 <= i < |rest| :: ([top] + rest)[i + 1] == rest[i];
  }

  /** The first `n` layers hold no entry. */
  ghost predicate Drained(caches: seq<CoinsMap>, n: nat) {
    forall i | 0 <= i < n && i < |caches| :: caches[i] == map[]
  }

  /** Layers above one that is flushed stay empty, and so does every layer when an empty one is flushed. */
  lemma PushedDrains(caches: seq<CoinsMap>, layer: nat, n: nat)
    requires Drained(caches, n)
    ensures Drained(Pushed(caches, layer), if layer == n then n + 1 else n)
  {
    NothingWritten(map[]);
  }

  // ---------------------------------------------------------------------------------------
  // The objects

  /** The bottom of a stack, known only by the contract of CCoinsView. */
  class BottomView {
    var coins: Utxo
    var bestBlock: nat

    constructor (coins: Utxo, bestBlock: nat)
      ensures this.coins == coins && this.bestBlock == bestBlock
    {
      this.coins, this.bestBlock := coins, bestBlock;
    }

    method GetCoin(k: OutPoint) returns (found: bool, coin: Coin)
      ensures found <==> k in coins
      ensures found ==> coin == coins[k]
    {
      found := k in coins;
      coin := if found then coins[k] else COIN_EMPTY;
    }

    method BatchWrite(mapCoins: CoinsMap, hash: nat)
      modifies this
      ensures coins == Stored(old(coins), mapCoins) && bestBlock == hash
    {
      var todo := mapCoins;
      while todo.Keys != {}
        invariant todo.Keys <= mapCoins.Keys
        invariant forall k | k in todo :: todo[k] == mapCoins[k]
        invariant forall k | k in todo :: k in coins <==> k in old(coins)
        invariant forall k | k in todo && k in coins :: coins[k] == old(coins)[k]
        invariant forall k | k !in todo :: k in coins <==> k in Stored(old(coins), mapCoins)
        invariant forall k | k !in todo && k in coins :: coins[k] == Stored(old(coins), mapCoins)[k]
        decreases todo.Keys
      {
        var k :| k in todo.Keys;
        if todo[k].dirty {
          if todo[k].coin.IsSpent() {
            coins := coins - {k};
          } else {
            coins := coins[k := todo[k].coin];
          }
        }
        todo := todo - {k};
      }
      assert coins == Stored(old(coins), mapCoins);
      bestBlock := hash;
    }
  }

  /** A cache on top of another cache, or directly on the bottom view when `base` is null. */
  class CoinsViewCache {
    const base: CoinsViewCache?
    const bottom: BottomView
    ghost const depth: nat

    var cacheCoins: CoinsMap
    var hashBlock: nat

    ghost predicate Linked()
      decreases depth
    {
      if base == null then depth == 0 else base.depth + 1 == depth && base.bottom == bottom && base.Linked()
    }

    /** This cache and every cache below it. */
    ghost function Layers(): (s: set<CoinsViewCache>)
      requires Linked()
      ensures this in s
      ensures forall c | c in s :: c.depth <= depth && (c.depth == depth ==> c == this)
      decreases depth
    {
      {this} + if base == null then {} else base.Layers()
    }

    lemma LayersAllocated()
      requires Linked()
      ensures forall c | c in Layers() :: allocated(c)
      decreases depth
    {
      if base != null {
        base.LayersAllocated();
      }
    }

    /** The entries of every layer, from here down. */
    ghost function Caches(): (s: seq<CoinsMap>)
      requires Linked()
      reads Layers()
      ensures |s| == depth + 1
      decreases depth
    {
      [cacheCoins] + if base == null then [] else base.Caches()
    }

    ghost function BaseView(): Utxo
      requires Linked()
      reads Layers(), bottom
      decreases depth, 0
    {
      if base == null then bottom.coins else base.View()
    }

    /** The coins this cache shows: the abstract value of the whole stack from here down. */
    ghost function View(): Utxo
      requires Linked()
      reads Layers(), bottom
      decreases depth, 1
    {
      Overlay(cacheCoins, BaseView())
    }

    ghost predicate Valid()
      requires Linked()
      reads Layers(), bottom
      decreases depth
    {
      && AllUnspent(bottom.coins)
      && (base != null ==> base.Valid())
      && Sound(cacheCoins, BaseView())
    }

    /** What lies below this cache is in order. */
    ghost predicate Footed()
      requires Linked()
      reads Layers(), bottom
    {
      AllUnspent(bottom.coins) && (base != null ==> base.Valid())
    }

    ghost function BaseBestBlock(): nat
      requires Linked()
      reads Layers(), bottom
      decreases depth, 0
    {
      if base == null then bottom.bestBlock else base.BestBlock()
    }

    /** The block hash that GetBestBlock reports; zero is the null hash. */
    ghost function BestBlock(): nat
      requires Linked()
      reads Layers(), bottom
      decreases depth, 1
    {
      if hashBlock != 0 then hashBlock else BaseBestBlock()
    }

    constructor (base: CoinsViewCache?, bottom: BottomView)
      requires base != null ==> base.bottom == bottom && base.Linked()
      ensures this.base == base && this.bottom == bottom && Linked()
      ensures fresh(this) && cacheCoins == map[] && hashBlock == 0
      ensures View() == BaseView() && BestBlock() == BaseBestBlock()
      ensures Valid() <==> if base == null then AllUnspent(bottom.coins) else base.Valid()
    {
      this.base, this.bottom := base, bottom;
      this.depth := if base == null then 0 else base.depth + 1;
      cacheCoins, hashBlock := map[], 0;
      new;
      EmptyOverlay(BaseView());
      if base != null && base.Valid() {
        base.ViewsAreUnspent();
      }
    }

    lemma ViewsAreUnspent()
      requires Linked() && Valid()
      ensures AllUnspent(BaseView()) && AllUnspent(View())
      decreases depth
    {
      if base != null {
        base.ViewsAreUnspent();
      }
    }

    /** A stack whose layers are all empty shows what is stored at the bottom. */
    lemma DrainedShowsBottom(n: nat)
      requires Linked() && n > depth && Drained(Caches(), n)
      ensures View() == bottom.coins
      decreases depth
    {
      assert Caches()[0] == map[];
      if base != null {
        assert forall i | 0 <= i < |base.Caches()| :: Caches()[i + 1] == base.Caches()[i];
        base.DrainedShowsBottom(n - 1);
      }
    }

    /** Asks whatever this cache lies on: the call of `base->GetCoin`. */
    method GetCoinBelow(k: OutPoint) returns (found: bool, coin: Coin)
      requires Linked() && Valid()
      modifies if base == null then {} else base.Layers()
      ensures Valid() && View() == old(View()) && BaseView() == old(BaseView())
      ensures cacheCoins == old(cacheCoins) && BestBlock() == old(BestBlock())
      ensures found <==> k in BaseView()
      ensures found ==> coin == BaseView()[k]
      decreases depth, 0
    {
      assert base != null ==> this !in base.Layers();
      if base == null {
        found, coin := bottom.GetCoin(k);
      } else {
        found, coin := base.GetCoin(k);
      }
    }

    /** Looks an outpoint up, filling this cache and those below on the way. A cached one is just found. */
    method FetchCoin(k: OutPoint) returns (found: bool)
      requires Linked() && (Valid() || k in cacheCoins)
      modifies Layers()
      ensures old(Valid()) ==> Valid()
      ensures View() == old(View()) && BaseView() == old(BaseView())
      ensures BestBlock() == old(BestBlock())
      ensures found <==> k in cacheCoins
      ensures found <==> k in old(cacheCoins) || k in old(View())
      ensures k in old(cacheCoins) ==> cacheCoins == old(cacheCoins)
      ensures found && k !in old(cacheCoins) ==>
                cacheCoins == old(cacheCoins)[k := Entry(old(View())[k], false, false)]
      ensures !found ==> cacheCoins == old(cacheCoins)
      decreases depth, 1
    {
      if k in cacheCoins {
        return true;
      }
      assert base != null ==> this !in base.Layers();
      ViewsAreUnspent();
      var tmp;
      found, tmp := GetCoinBelow(k);
      if !found {
        return;
      }
      // The view below returns only unspent coins, so the FRESH branch is never taken.
      FetchedEntry(cacheCoins, BaseView(), k);
      cacheCoins := cacheCoins[k := Entry(tmp, false, tmp.IsSpent())];
    }

    method GetCoin(k: OutPoint) returns (found: bool, coin: Coin)
      requires Linked() && Valid()
      modifies Layers()
      ensures Valid() && View() == old(View()) && BaseView() == old(BaseView())
      ensures BestBlock() == old(BestBlock())
      ensures found <==> k in View()
      ensures found ==> coin == View()[k]
      decreases depth, 2
    {
      var cached := FetchCoin(k);
      if cached {
        coin := cacheCoins[k].coin;
        return !coin.IsSpent(), coin;
      }
      return false, COIN_EMPTY;
    }

    method HaveCoin(k: OutPoint) returns (found: bool)
      requires Linked() && Valid()
      modifies Layers()
      ensures Valid() && View() == old(View()) && BaseView() == old(BaseView())
      ensures BestBlock() == old(BestBlock())
      ensures found <==> k in View()
    {
      var cached := FetchCoin(k);
      found := cached && !cacheCoins[k].coin.IsSpent();
    }

    /** A reference to the coin, or the empty coin. */
    method AccessCoin(k: OutPoint) returns (coin: Coin)
      requires Linked() && Valid()
      modifies Layers()
      ensures Valid() && View() == old(View())
      ensures coin == if k in View() then View()[k] else COIN_EMPTY
    {
      var cached := FetchCoin(k);
      coin := if cached then cacheCoins[k].coin else COIN_EMPTY;
      assert cached ==> EntryOk(k, cacheCoins[k], BaseView());
    }

    method HaveCoinInCache(k: OutPoint) returns (found: bool)
      requires Linked() && Valid()
      ensures found <==> k in cacheCoins && k in View()
    {
      found := k in cacheCoins && !cacheCoins[k].coin.IsSpent();
    }

    /**
     Adds a coin, in any state. The view always becomes the old one with the coin entered, and the
     error is raised exactly when an unspent coin is cached; but sound flags stay sound if and only if
     the caller did not rule out an overwrite of a coin that only the views below hold.
     */
    method AddCoin(k: OutPoint, coin: Coin, possibleOverwrite: bool) returns (threw: bool)
      requires Linked()
      requires !coin.IsSpent()
      modifies this`cacheCoins
      ensures threw <==> !coin.IsUnspendable() && !possibleOverwrite
                         && k in old(cacheCoins) && !old(cacheCoins)[k].coin.IsSpent()
      ensures cacheCoins == if threw || coin.IsUnspendable() then old(cacheCoins)
                            else old(cacheCoins)[k := AddedAs(old(cacheCoins), k, coin, possibleOverwrite)]
      ensures BaseView() == old(BaseView())
      ensures Footed() <==> old(Footed())
      ensures View() == if threw || coin.IsUnspendable() then old(View()) else old(View())[k := coin]
      ensures old(Valid()) ==> (Valid() <==> threw || coin.IsUnspendable() || possibleOverwrite
                                             || k in old(cacheCoins) || k !in old(View()))
    {
      if coin.IsUnspendable() {
        return false;
      }
      var entry := if k in cacheCoins then cacheCoins[k] else Entry(COIN_EMPTY, false, false);
      var markFresh := false;
      if !possibleOverwrite {
        if !entry.coin.IsSpent() {
          return true;
        }
        markFresh := !entry.dirty;
      }
      assert base != null ==> this !in base.Layers();
      assert old(Valid()) && k in cacheCoins ==> EntryOk(k, cacheCoins[k], BaseView());
      var updated := Entry(coin, true, entry.isFresh || markFresh);
      AddedEntry(cacheCoins, BaseView(), k, updated);
      if base != null {
        base.LayersAllocated();
      }
      cacheCoins := cacheCoins[k := updated];
      threw := false;
    }

    /**
     Spends a coin and moves it out. The coin moved out is the one the view held. The returned
     flag is also true when the outpoint is cached as an already spent coin. With flags that are not
     sound the outpoint stays visible exactly when a FRESH entry hid a coin of the views below.
     */
    method SpendCoin(k: OutPoint) returns (spent: bool, moved: Coin)
      requires Linked() && (Valid() || k in cacheCoins)
      modifies Layers()
      ensures old(Valid()) ==> Valid() && View() == old(View()) - {k}
      ensures k in old(cacheCoins) ==>
                && cacheCoins == TakenOut(old(cacheCoins), k) && moved == old(cacheCoins)[k].coin
                && (k in View() <==> old(cacheCoins)[k].isFresh && k in old(BaseView()))
      ensures View() - {k} == old(View()) - {k}
      ensures BaseView() == old(BaseView()) && BestBlock() == old(BestBlock())
      ensures old(Valid()) ==> moved == if k in old(View()) then old(View())[k] else COIN_EMPTY
      ensures spent <==> k in old(View()) || k in old(cacheCoins)
    {
      spent := FetchCoin(k);
      if !spent {
        return spent, COIN_EMPTY;
      }
      moved := TakeOut(k);
    }

    /** Erases a fresh entry, and leaves a spent and dirty one behind otherwise. */
    method TakeOut(k: OutPoint) returns (moved: Coin)
      requires Linked() && k in cacheCoins
      modifies this`cacheCoins
      ensures cacheCoins == TakenOut(old(cacheCoins), k) && moved == old(cacheCoins)[k].coin
      ensures k in View() <==> old(cacheCoins)[k].isFresh && k in old(BaseView())
      ensures View() - {k} == old(View()) - {k}
      ensures old(Valid()) ==> Valid() && View() == old(View()) - {k}
      ensures old(Valid()) ==> moved == if k in old(View()) then old(View())[k] else COIN_EMPTY
      ensures BaseView() == old(BaseView()) && BestBlock() == old(BestBlock())
    {
      assert base != null ==> this !in base.Layers();
      TakenOutShows(cacheCoins, BaseView(), k);
      if old(Valid()) {
        assert EntryOk(k, cacheCoins[k], BaseView());
        SpentEntry(cacheCoins, BaseView(), k);
      }
      if base != null {
        base.LayersAllocated();
      }
      moved := cacheCoins[k].coin;
      if cacheCoins[k].isFresh {
        cacheCoins := cacheCoins - {k};
      } else {
        cacheCoins := cacheCoins[k := Entry(COIN_EMPTY, true, cacheCoins[k].isFresh)];
      }
    }

    /** Takes over a child's entries, in an arbitrary order. */
    method WriteEntries(mapCoins: CoinsMap) returns (threw: bool)
      modifies this`cacheCoins
      ensures threw <==> Misapplied(old(cacheCoins), mapCoins)
      ensures !threw ==> cacheCoins == Written(old(cacheCoins), mapCoins)
    {
      var todo := mapCoins;
      ghost var before := cacheCoins;
      while todo.Keys != {}
        invariant todo.Keys <= mapCoins.Keys
        invariant forall k | k in todo :: todo[k] == mapCoins[k]
        invariant forall k | k in todo :: k in cacheCoins <==> k in before
        invariant forall k | k in todo && k in cacheCoins :: cacheCoins[k] == before[k]
        invariant forall k | k !in todo :: k in cacheCoins <==> MergedAt(before, mapCoins, k).Some?
        invariant forall k | k !in todo && k in cacheCoins :: cacheCoins[k] == MergedAt(before, mapCoins, k).value
        invariant forall k | k !in todo :: !MisappliedAt(before, mapCoins, k)
        decreases todo.Keys
      {
        var k :| k in todo.Keys;
        var entry := todo[k];
        if entry.dirty {
          if k !in cacheCoins {
            if !(entry.isFresh && entry.coin.IsSpent()) {
              cacheCoins := cacheCoins[k := Entry(entry.coin, true, entry.isFresh)];
            }
          } else {
            if entry.isFresh && !cacheCoins[k].coin.IsSpent() {
              assert MisappliedAt(before, mapCoins, k);
              return true;
            }
            if cacheCoins[k].isFresh && entry.coin.IsSpent() {
              cacheCoins := cacheCoins - {k};
            } else {
              cacheCoins := cacheCoins[k := Entry(entry.coin, true, cacheCoins[k].isFresh)];
            }
          }
        }
        todo := todo - {k};
      }
      assert cacheCoins == Written(before, mapCoins);
      threw := false;
    }

    method BatchWrite(mapCoins: CoinsMap, hash: nat) returns (threw: bool)
      requires Linked()
      modifies this
      ensures threw <==> Misapplied(old(cacheCoins), mapCoins)
      ensures !threw ==> cacheCoins == Written(old(cacheCoins), mapCoins) && hashBlock == hash
      ensures !threw ==> Caches() == old(Caches())[0 := cacheCoins]
      ensures BaseView() == old(BaseView()) && BaseBestBlock() == old(BaseBestBlock())
      ensures base != null && old(base.Valid()) ==> base.Valid()
    {
      assert base != null ==> this !in base.Layers();
      if base != null {
        base.LayersAllocated();
      }
      threw := WriteEntries(mapCoins);
      if !threw {
        hashBlock := hash;
      }
    }

    /**
     Pushes this cache's changes one level down. Nothing this cache shows changes. The best
     block hash is pushed down too, even when it is null.
     */
    method Flush() returns (threw: bool)
      requires Linked() && Valid()
      modifies Layers(), bottom
      ensures !threw && Valid() && View() == old(View())
      ensures cacheCoins == map[] && BaseView() == View() && hashBlock == old(hashBlock)
      ensures Caches() == Pushed(old(Caches()), 0)
      ensures bottom.coins == if base == null then View() else old(bottom.coins)
      ensures base != null ==> base.hashBlock == hashBlock
      ensures base == null ==> bottom.bestBlock == hashBlock
      ensures base != null ==> base.BaseView() == old(base.BaseView())
      ensures BestBlock() == if hashBlock != 0 then hashBlock
                             else if base == null then 0
                             else old(base.BaseBestBlock())
    {
      hide Written, Stored, Overlay, Misapplied, Pushed;
      ViewsAreUnspent();
      assert base != null ==> this !in base.Layers();
      if base == null {
        StoringKeepsView(cacheCoins, bottom.coins);
        bottom.BatchWrite(cacheCoins, hashBlock);
        threw := false;
      } else {
        base.ViewsAreUnspent();
        base.LayersAllocated();
        SoundChildNeverMisapplied(base.cacheCoins, cacheCoins, base.BaseView());
        WritingKeepsView(base.cacheCoins, cacheCoins, base.BaseView());
        threw := base.BatchWrite(cacheCoins, hashBlock);
        assert base.Valid() && base.View() == old(View());
        assert hashBlock == 0 ==> BaseBestBlock() == old(base.BaseBestBlock());
      }
      PushedTop(cacheCoins, old(Caches())[1..]);
      cacheCoins := map[];
      EmptyOverlay(BaseView());
    }

    /** Drops an unmodified entry. */
    method Uncache(k: OutPoint)
      requires Linked() && Valid()
      modifies this
      ensures Valid() && View() == old(View()) && BestBlock() == old(BestBlock())
      ensures forall o | o in old(cacheCoins) && o !in cacheCoins ::
                o == k && !old(cacheCoins)[k].dirty && !old(cacheCoins)[k].isFresh
      ensures forall o | o in cacheCoins :: o in old(cacheCoins) && cacheCoins[o] == old(cacheCoins)[o]
      ensures k in cacheCoins ==> cacheCoins[k].dirty || cacheCoins[k].isFresh
      ensures Caches() == Evicted(old(Caches()), 0, k)
    {
      if k in cacheCoins && !cacheCoins[k].dirty && !cacheCoins[k].isFresh {
        assert base != null ==> this !in base.Layers();
        DroppedEntry(cacheCoins, BaseView(), k);
        cacheCoins := cacheCoins - {k};
      }
    }

    method GetBestBlock() returns (hash: nat)
      requires Linked()
      modifies Layers()
      ensures hash == BestBlock() == old(BestBlock())
      ensures View() == old(View()) && cacheCoins == old(cacheCoins)
      decreases depth
    {
      assert base != null ==> this !in base.Layers();
      if hashBlock == 0 {
        if base == null {
          hashBlock := bottom.bestBlock;
        } else {
          var below := base.GetBestBlock();
          hashBlock := below;
        }
      }
      hash := hashBlock;
    }

    method SetBestBlock(hash: nat)
      modifies this
      ensures hashBlock == hash && cacheCoins == old(cacheCoins)
    {
      hashBlock := hash;
    }

    // -------------------------------------------------------------------------------------
    // Whole runs

    /** Flush applied `layer` levels down; below the bottom-most cache it does nothing. */
    method FlushLayer(layer: nat)
      requires Linked() && Valid()
      modifies Layers(), bottom
      ensures Valid() && View() == old(View())
      ensures Caches() == Pushed(old(Caches()), layer)
      decreases depth
    {
      hide Pushed, Overlay;
      if layer == 0 {
        var threw := Flush();
        assert !threw;
      } else if base != null {
        PushedBelow(cacheCoins, base.Caches(), layer - 1);
        assert this !in base.Layers();
        base.FlushLayer(layer - 1);
      } else {
        PushedBelow(cacheCoins, [], layer - 1);
      }
    }

    /** Uncache applied `layer` levels down; below the bottom-most cache it does nothing. */
    method UncacheLayer(layer: nat, k: OutPoint)
      requires Linked() && Valid()
      modifies Layers()
      ensures Valid() && View() == old(View())
      ensures Caches() == Evicted(old(Caches()), layer, k)
      decreases depth
    {
      hide Evicted, Overlay;
      if layer == 0 {
        Uncache(k);
      } else if base != null {
        EvictedBelow(cacheCoins, base.Caches(), layer - 1, k);
        assert this !in base.Layers();
        base.UncacheLayer(layer - 1, k);
      } else {
        EvictedBelow(cacheCoins, [], layer - 1, k);
      }
    }

    /** One operation: reads, additions and spends at the top, flushes and evictions at any layer. */
    method Apply(op: Operation) returns (answer: Option<Coin>)
      requires Linked() && Valid() && Permitted(View(), op)
      modifies Layers(), bottom
      ensures Valid()
      ensures answer == PlainAnswer(old(View()), op) && View() == PlainStep(old(View()), op)
      ensures op.FlushAt? ==> Caches() == Pushed(old(Caches()), op.layer)
      ensures op.UncacheAt? ==> Caches() == Evicted(old(Caches()), op.layer, op.k)
    {
      answer := None;
      match op {
        case Read(k) =>
          var found, coin := GetCoin(k);
          answer := if found then Some(coin) else None;
        case Add(k, coin, overwrite) =>
          var threw := AddCoin(k, coin, overwrite);
          assert !threw;
        case Spend(k) =>
          ViewsAreUnspent();
          var _, moved := SpendCoin(k);
          answer := if moved.IsSpent() then None else Some(moved);
        case FlushAt(layer) =>
          FlushLayer(layer);
        case UncacheAt(layer, k) =>
          UncacheLayer(layer, k);
      }
    }

    /**
     Any run of operations over a stack of any depth answers like the plain map; and once every layer
     has been flushed in turn from the top down, the bottom view itself is the plain map.
     */
    method Run(ops: seq<Operation>) returns (answers: seq<Option<Coin>>)
      requires Linked() && Valid()
      requires PermittedRun(View(), ops)
      modifies Layers(), bottom
      ensures Valid()
      ensures answers == PlainAnswers(old(View()), ops)
      ensures View() == PlainResult(old(View()), ops)
      ensures forall n: nat | Drained(old(Caches()), n) :: Drained(Caches(), DrainedBy(n, ops))
      ensures DrainedBy(0, ops) > depth ==> bottom.coins == PlainResult(old(View()), ops)
      decreases |ops|
    {
      if ops == [] {
        return [];
      }
      ghost var before := Caches();
      var answer := Apply(ops[0]);
      forall n: nat | Drained(before, n)
        ensures Drained(Caches(), DrainedStep(n, ops[0]))
      {
        if ops[0].FlushAt? {
          PushedDrains(before, ops[0].layer, n);
        }
      }
      var rest := Run(ops[1..]);
      answers := [answer] + rest;
      if DrainedBy(0, ops) > depth {
        assert Drained(before, 0);
        DrainedShowsBottom(DrainedBy(0, ops));
      }
    }
  }

  // ---------------------------------------------------------------------------------------
  // The plain map

  datatype Operation =
    | Read(k: OutPoint)
    | Add(k: OutPoint, coin: Coin, overwrite: bool)
    | Spend(k: OutPoint)
    | FlushAt(layer: nat)
    | UncacheAt(layer: nat, k: OutPoint)

  /** What the caller owes: real coins, and an overwrite ruled out only when there is none. */
  ghost predicate Permitted(m: Utxo, op: Operation) {
    op.Add? ==> !op.coin.IsSpent() && (op.overwrite || op.coin.IsUnspendable() || op.k !in m)
  }

  ghost function PlainStep(m: Utxo, op: Operation): Utxo {
    match op
    case Add(k, coin, _) => if coin.IsUnspendable() then m else m[k := coin]
    case Spend(k) => m - {k}
    case _ => m
  }

  /** How many of the topmost layers are surely empty after an operation, when `n` of them were before it. */
  ghost function DrainedStep(n: nat, op: Operation): nat {
    match op
    case FlushAt(layer) => if layer == n then n + 1 else n
    case UncacheAt(_, _) => n
    case _ => 0
  }

  ghost function DrainedBy(n: nat, ops: seq<Operation>): nat
    decreases |ops|
  {
    if ops == [] then n else DrainedBy(DrainedStep(n, ops[0]), ops[1..])
  }

  ghost function PlainAnswer(m: Utxo, op: Operation): Option<Coin> {
    if (op.Read? || op.Spend?) && op.k in m then Some(m[op.k]) else None
  }

  ghost predicate PermittedRun(m: Utxo, ops: seq<Operation>)
    decreases |ops|
  {
    ops != [] ==> Permitted(m, ops[0]) && PermittedRun(PlainStep(m, ops[0]), ops[1..])
  }

  ghost function PlainResult(m: Utxo, ops: seq<Operation>): Utxo
    decreases |ops|
  {
    if ops == [] then m else PlainResult(PlainStep(m, ops[0]), ops[1..])
  }

  ghost function PlainAnswers(m: Utxo, ops: seq<Operation>): seq<Option<Coin>>
    decreases |ops|
  {
    if ops == [] then [] else [PlainAnswer(m, ops[0])] + PlainAnswers(PlainStep(m, ops[0]), ops[1..])
  }

  /**
   AddCoin followed by SpendCoin. The spent coin is gone from the view, except where the caller ruled an
   overwrite out and only the views below held a coin: then the view is the old one, that coin included.
   */
  method AddThenSpend(cache: CoinsViewCache, k: OutPoint, coin: Coin, possibleOverwrite: bool) returns (threw: bool)
    requires cache.Linked() && cache.Valid()
    requires !coin.IsSpent() && !coin.IsUnspendable()
    modifies cache.Layers()
    ensures threw <==> !possibleOverwrite && k in old(cache.cacheCoins) && k in old(cache.View())
    ensures !threw ==>
              (k in cache.View() <==> !possibleOverwrite && k !in old(cache.cacheCoins) && k in old(cache.View()))
    ensures !threw ==> cache.View() == if k in cache.View() then old(cache.View()) else old(cache.View()) - {k}
  {
    ghost var cache0, below := cache.cacheCoins, cache.BaseView();
    cache.ViewsAreUnspent();
    assert k in cache0 && k in cache.View() <==> k in cache0 && !cache0[k].coin.IsSpent();
    hide Overlay, AddedAs, TakenOut, Sound, AllUnspent;
    threw := cache.AddCoin(k, coin, possibleOverwrite);
    if !threw {
      MisappliedFreshResurrectsCoin(cache0, below, k, coin, possibleOverwrite);
      var _, moved := cache.SpendCoin(k);
    }
  }

  // ---------------------------------------------------------------------------------------
  // Adding all outputs of a transaction

  ghost function WithOutputs(m: Utxo, txid: nat, outs: seq<Coin>, n: nat): Utxo
    requires n <= |outs|
  {
    if n == 0 then m
    else
      var prior := WithOutputs(m, txid, outs, n - 1);
      if outs[n - 1].IsUnspendable() then prior else prior[OutPoint(txid, n - 1) := outs[n - 1]]
  }

  lemma {:induction false} OutputsElsewhere(m: Utxo, txid: nat, outs: seq<Coin>, n: nat, k: OutPoint)
    requires n <= |outs|
    requires k.hash != txid || k.n >= n
    ensures k in WithOutputs(m, txid, outs, n) <==> k in m
  {
    if n > 0 {
      OutputsElsewhere(m, txid, outs, n - 1, k);
    }
  }

  /** The output is spendable and cached as an unspent coin, so that AddCoin refuses to overwrite it. */
  ghost predicate Refused(cache: CoinsMap, txid: nat, outs: seq<Coin>, i: nat)
    requires i < |outs|
  {
    !outs[i].IsUnspendable() && OutPoint(txid, i) in cache && !cache[OutPoint(txid, i)].coin.IsSpent()
  }

  /** The output leaves the flags sound although the caller rules an overwrite out. */
  ghost predicate Harmless(cache: CoinsMap, view: Utxo, txid: nat, outs: seq<Coin>, i: nat)
    requires i < |outs|
  {
    outs[i].IsUnspendable() || OutPoint(txid, i) in cache || OutPoint(txid, i) !in view
  }

  /**
   Adds every output of a transaction. Querying the view first (`check`) makes the call safe in
   every state, and so is a coinbase. Otherwise the call stops with an error at the first output that is
   cached unspent, and without one the flags stay sound exactly when no output exists only below.
   */
  method AddCoins(cache: CoinsViewCache, txid: nat, outs: seq<Coin>, coinBase: bool, check: bool)
    returns (threw: bool)
    requires cache.Linked() && cache.Valid()
    requires forall i | 0 <= i < |outs| :: !outs[i].IsSpent()
    modifies cache.Layers()
    ensures threw <==>
            !check && !coinBase && exists i | 0 <= i < |outs| :: Refused(old(cache.cacheCoins), txid, outs, i)
    ensures !threw ==> cache.View() == WithOutputs(old(cache.View()), txid, outs, |outs|)
    ensures !threw ==>
              (cache.Valid() <==>
                 (|| check || coinBase
                  || forall i | 0 <= i < |outs| :: Harmless(old(cache.cacheCoins), old(cache.View()), txid, outs, i)))
    ensures threw ==> exists i | 0 <= i < |outs| ::
                && Refused(old(cache.cacheCoins), txid, outs, i)
                && (forall j | 0 <= j < i :: !Refused(old(cache.cacheCoins), txid, outs, j))
                && cache.View() == WithOutputs(old(cache.View()), txid, outs, i)
  {
    hide Adding, Refused, Harmless, AddedAs, Sound;
    ghost var cache0, below := cache.cacheCoins, cache.BaseView();
    AddingNone(cache0, txid, outs, coinBase);
    threw := false;
    for i := 0 to |outs|
      invariant !threw && cache.View() == WithOutputs(old(cache.View()), txid, outs, i)
      invariant check ==> cache.Valid()
      invariant !check ==> cache.BaseView() == below && cache.Footed()
      invariant !check ==> Adding(cache0, cache.cacheCoins, txid, outs, coinBase, i)
      invariant !check && !coinBase ==> forall j | 0 <= j < i :: !Refused(cache0, txid, outs, j)
    {
      var overwrite := coinBase;
      if check {
        overwrite := cache.HaveCoin(OutPoint(txid, i));
      }
      OutputsElsewhere(old(cache.View()), txid, outs, i, OutPoint(txid, i));
      if !check {
        AddingStep(cache0, cache.cacheCoins, txid, outs, coinBase, i);
      }
      threw := cache.AddCoin(OutPoint(txid, i), outs[i], overwrite);
      if threw {
        return;
      }
    }
    if !check {
      FootedIsUnspent(cache);
      AddedAll(cache0, cache.cacheCoins, below, txid, outs, coinBase);
    }
  }

  /** The entries once the first n outputs are added, none of them refused. */
  ghost predicate Adding(before: CoinsMap, after: CoinsMap, txid: nat, outs: seq<Coin>, coinBase: bool, n: nat) {
    && n <= |outs|
    && (forall i | 0 <= i < n && !outs[i].IsUnspendable() ::
          && OutPoint(txid, i) in after
          && after[OutPoint(txid, i)] == AddedAs(before, OutPoint(txid, i), outs[i], coinBase))
    && (forall k: OutPoint | k.hash != txid || k.n >= n || outs[k.n].IsUnspendable() ::
          (k in after <==> k in before) && (k in after ==> after[k] == before[k]))
  }

  lemma AddingNone(cache: CoinsMap, txid: nat, outs: seq<Coin>, coinBase: bool)
    ensures Adding(cache, cache, txid, outs, coinBase, 0)
  {
  }

  lemma AddingStep(before: CoinsMap, after: CoinsMap, txid: nat, outs: seq<Coin>, coinBase: bool, n: nat)
    requires Adding(before, after, txid, outs, coinBase, n) && n < |outs|
    ensures var k := OutPoint(txid, n);
            && (Refused(before, txid, outs, n) <==> !outs[n].IsUnspendable() && k in after && !after[k].coin.IsSpent())
            && (outs[n].IsUnspendable() ==> Adding(before, after, txid, outs, coinBase, n + 1))
            && (!outs[n].IsUnspendable() ==>
                  Adding(before, after[k := AddedAs(after, k, outs[n], coinBase)], txid, outs, coinBase, n + 1))
  {
  }

  lemma FootedIsUnspent(cache: CoinsViewCache)
    requires cache.Linked() && cache.Footed()
    ensures AllUnspent(cache.BaseView())
  {
    if cache.base != null {
      cache.base.ViewsAreUnspent();
    }
  }

  lemma AddedAll(before: CoinsMap, after: CoinsMap, below: Utxo, txid: nat, outs: seq<Coin>, coinBase: bool)
    requires AllUnspent(below) && Sound(before, below) && Adding(before, after, txid, outs, coinBase, |outs|)
    requires forall i | 0 <= i < |outs| :: !outs[i].IsSpent() && (coinBase || !Refused(before, txid, outs, i))
    ensures Sound(after, below) <==>
            coinBase || forall i | 0 <= i < |outs| :: Harmless(before, Overlay(before, below), txid, outs, i)
  {
    forall i | 0 <= i < |outs| && !outs[i].IsUnspendable()
      ensures EntryOk(OutPoint(txid, i), after[OutPoint(txid, i)], below) <==>
              coinBase || Harmless(before, Overlay(before, below), txid, outs, i)
    {
      var k := OutPoint(txid, i);
      assert k in before ==> EntryOk(k, before[k], below);
    }
    if coinBase || forall i | 0 <= i < |outs| :: Harmless(before, Overlay(before, below), txid, outs, i) {
      forall k | k in after ensures EntryOk(k, after[k], below) {
        if k.hash == txid && k.n < |outs| && !outs[k.n].IsUnspendable() {
          assert k == OutPoint(txid, k.n);
        }
      }
    }
  }
}
