/**
 * Golomb-coded set filters (src/blockfilter.cpp; BIP 158). A filter holds the sorted hashes of its elements as
 * Golomb-Rice coded differences; a query walks the filter and its own sorted hashes side by side. The keyed
 * hash is an arbitrary function.
 */
module BlockFilter {
  import opened Wrappers
  import opened Sorting
  import opened GolombRice
  import opened Words

  type Element = nat

  type UInt32 = x: nat | x < UINT32

  datatype Params = Params(hash: Element -> nat, p: nat, m: UInt32)

  /** A hash reduced to the range of the filter. */
  function HashToRange(params: Params, f: nat, e: Element): nat {
    FastRange64(params.hash(e) % UINT64, f)
  }

  // ---------------------------------------------------------------------------------------
  // Differences

  /** The difference of each value from the one before. */
  function Delta(vs: seq<nat>, i: nat): nat
    requires Sorted(vs) && i < |vs|
  {
    if i == 0 then vs[0] else vs[i] - vs[i - 1]
  }

  function Deltas(vs: seq<nat>): (r: seq<nat>)
    requires Sorted(vs)
    ensures |r| == |vs|
  {
    seq(|vs|, (i: nat) requires i < |vs| => Delta(vs, i))
  }

  /** The values that differences add up to. */
  function Total(ds: seq<nat>, i: nat): nat
    requires i < |ds|
  {
    (if i == 0 then 0 else Total(ds, i - 1)) + ds[i]
  }

  function Totals(ds: seq<nat>): (r: seq<nat>)
    ensures |r| == |ds| && forall i | 0 <= i < |ds| :: r[i] == Total(ds, i)
  {
    seq(|ds|, i requires 0 <= i < |ds| => Total(ds, i))
  }

  lemma {:induction false} TotalGrows(ds: seq<nat>, i: nat, j: nat)
    requires i <= j < |ds|
    ensures Total(ds, i) <= Total(ds, j)
    decreases j
  {
    if i < j {
      TotalGrows(ds, i, j - 1);
    }
  }

  lemma TotalsSorted(ds: seq<nat>)
    ensures Sorted(Totals(ds))
  {
    forall i, j | 0 <= i < j < |ds| ensures Totals(ds)[i] <= Totals(ds)[j] {
      TotalGrows(ds, i, j);
    }
  }

  lemma {:induction false} DeltasTotal(vs: seq<nat>, i: nat)
    requires Sorted(vs) && i < |vs|
    ensures Total(Deltas(vs), i) == vs[i]
  {
    if i > 0 {
      DeltasTotal(vs, i - 1);
    }
  }

  // ---------------------------------------------------------------------------------------
  // A stream of values

  function EncodedAll(p: nat, ds: seq<nat>): Bits {
    if ds == [] then [] else Encoded(p, ds[0]) + EncodedAll(p, ds[1..])
  }

  /** The first n values of a stream, and the rest. */
  function DecodedAll(p: nat, b: Bits, n: nat): Option<(seq<nat>, Bits)> {
    if n == 0 then Some(([], b))
    else
      match Decoded(p, b)
      case None => None
      case Some((d, rest)) =>
        match DecodedAll(p, rest, n - 1)
        case None => None
        case Some((ds, end)) => Some(([d] + ds, end))
  }

  lemma {:induction false} RoundTripAll(p: nat, ds: seq<nat>, rest: Bits)
    ensures DecodedAll(p, EncodedAll(p, ds) + rest, |ds|) == Some((ds, rest))
  {
    hide Encoded, Decoded;
    if ds == [] {
      assert EncodedAll(p, ds) + rest == rest;
    } else {
      var tail := EncodedAll(p, ds[1..]) + rest;
      assert EncodedAll(p, ds) + rest == Encoded(p, ds[0]) + tail;
      RoundTrip(p, ds[0], tail);
      RoundTripAll(p, ds[1..], rest);
      assert [ds[0]] + ds[1..] == ds;
    }
  }

  lemma {:induction false} EncodedMore(p: nat, ds: seq<nat>, d: nat)
    ensures EncodedAll(p, ds + [d]) == EncodedAll(p, ds) + Encoded(p, d)
  {
    hide Encoded;
    if ds == [] {
      assert ds + [d] == [d] && [d][1..] == [];
    } else {
      assert (ds + [d])[1..] == ds[1..] + [d];
      EncodedMore(p, ds[1..], d);
    }
  }

  /** Zero bits up to the next whole byte. */
  function Padding(n: nat): (r: Bits)
    ensures |r| < 8 && (n + |r|) % 8 == 0
  {
    seq((8 - n % 8) % 8, _ => false)
  }

  // ---------------------------------------------------------------------------------------
  // Sorted hashes

  /** The elements with a given hash. */
  ghost function Hashing(params: Params, f: nat, elements: set<Element>, v: nat): set<Element> {
    set e | e in elements && HashToRange(params, f, e) == v
  }

  /** The list holds each hash as often as elements have it. */
  ghost predicate HashesOf(params: Params, f: nat, elements: set<Element>, r: seq<nat>) {
    forall v: nat :: multiset(r)[v] == |Hashing(params, f, elements, v)|
  }

  lemma HashingMore(params: Params, f: nat, elements: set<Element>, e: Element, v: nat)
    requires e !in elements
    ensures |Hashing(params, f, elements + {e}, v)| ==
            |Hashing(params, f, elements, v)| + if HashToRange(params, f, e) == v then 1 else 0
  {
    hide HashToRange;
    var before, after := Hashing(params, f, elements, v), Hashing(params, f, elements + {e}, v);
    assert after == if HashToRange(params, f, e) == v then before + {e} else before;
  }

  lemma HashesMore(params: Params, f: nat, elements: set<Element>, r: seq<nat>, e: Element, r': seq<nat>)
    requires HashesOf(params, f, elements, r) && e !in elements
    requires multiset(r') == multiset(r) + multiset{HashToRange(params, f, e)}
    ensures HashesOf(params, f, elements + {e}, r')
  {
    hide HashToRange, Hashing;
    forall v: nat ensures multiset(r')[v] == |Hashing(params, f, elements + {e}, v)| {
      HashingMore(params, f, elements, e, v);
      assert multiset(r')[v] == multiset(r)[v] + multiset{HashToRange(params, f, e)}[v];
    }
  }

  lemma HashesAre(params: Params, f: nat, elements: set<Element>, r: seq<nat>)
    requires HashesOf(params, f, elements, r)
    ensures forall e | e in elements :: HashToRange(params, f, e) in r
    ensures forall v | v in r :: exists e :: e in elements && HashToRange(params, f, e) == v
  {
    hide HashToRange;
    forall e | e in elements ensures HashToRange(params, f, e) in r {
      var v := HashToRange(params, f, e);
      assert e in Hashing(params, f, elements, v);
      assert v in multiset(r);
    }
    forall v | v in r ensures exists e :: e in elements && HashToRange(params, f, e) == v {
      assert v in multiset(r);
      var e := Wrappers.Element(Hashing(params, f, elements, v));
    }
  }

  /** The hash of every element, sorted; elements with equal hashes count each. */
  method BuildHashedSet(params: Params, f: nat, elements: set<Element>) returns (r: seq<nat>)
    ensures Sorted(r) && |r| == |elements| && HashesOf(params, f, elements, r)
  {
    hide HashesOf, HashToRange;
    r := [];
    var todo := elements;
    HashesNone(params, f);
    assert elements - todo == {};
    while todo != {}
      invariant todo <= elements && Sorted(r) && |r| + |todo| == |elements|
      invariant HashesOf(params, f, elements - todo, r)
      decreases |todo|
    {
      ghost var w := Wrappers.Element(todo);
      assert w in todo;
      var e :| e in todo;
      ghost var before := r;
      r := Inserted(r, HashToRange(params, f, e));
      HashesMore(params, f, elements - todo, before, e, r);
      assert elements - todo + {e} == elements - (todo - {e});
      todo := todo - {e};
    }
    assert elements - todo == elements;
  }

  lemma HashesNone(params: Params, f: nat)
    ensures HashesOf(params, f, {}, [])
  {
    forall v: nat ensures |Hashing(params, f, {}, v)| == 0 {
      assert Hashing(params, f, {}, v) == {};
    }
  }

  // ---------------------------------------------------------------------------------------
  // Sums in 64 bits

  /** The running sum as the source keeps it. */
  function Sum(ds: seq<nat>, i: nat): nat
    requires i < |ds|
  {
    ((if i == 0 then 0 else Sum(ds, i - 1)) + ds[i]) % UINT64
  }

  function Sums(ds: seq<nat>): (r: seq<nat>)
    ensures |r| == |ds| && forall i | 0 <= i < |ds| :: r[i] == Sum(ds, i)
  {
    seq(|ds|, i requires 0 <= i < |ds| => Sum(ds, i))
  }

  lemma SumStep(ds: seq<nat>, i: nat)
    requires i < |ds|
    ensures Sums(ds)[i] == ((if i == 0 then 0 else Sums(ds)[i - 1]) + ds[i]) % UINT64
  {
  }

  /** Below 2^64 the running sums are the totals, and so in order. */
  lemma SumsOfTotals(ds: seq<nat>)
    requires ds == [] || Total(ds, |ds| - 1) < UINT64
    ensures Sums(ds) == Totals(ds) && Sorted(Sums(ds))
  {
    TotalsSorted(ds);
    forall i | 0 <= i < |ds| ensures Sum(ds, i) == Total(ds, i) {
      TotalGrows(ds, i, |ds| - 1);
      SumOfTotal(ds, i);
    }
  }

  lemma {:induction false} SumOfTotal(ds: seq<nat>, i: nat)
    requires i < |ds| && Total(ds, i) < UINT64
    ensures Sum(ds, i) == Total(ds, i)
  {
    if i > 0 {
      SumOfTotal(ds, i - 1);
    }
  }

  /** A value of the list that no value before it exceeds. */
  ghost predicate Peak(ws: seq<nat>, i: nat)
    requires i < |ws|
  {
    forall j | 0 <= j < i :: ws[j] <= ws[i]
  }

  /** What a walk that never turns back can meet. */
  ghost predicate Found(ws: seq<nat>, v: nat) {
    exists i | 0 <= i < |ws| :: ws[i] == v && Peak(ws, i)
  }

  /** It misses none exactly when none before a value exceeds it, unless the value has been there before. */
  lemma NoneMissedIff(ws: seq<nat>)
    ensures (forall v | v in ws :: Found(ws, v)) <==>
            forall i | 0 <= i < |ws| :: Peak(ws, i) || ws[i] in ws[..i]
  {
    if forall v | v in ws :: Found(ws, v) {
      forall i | 0 <= i < |ws| ensures Peak(ws, i) || ws[i] in ws[..i] {
        assert Found(ws, ws[i]);
        var k :| 0 <= k < |ws| && ws[k] == ws[i] && Peak(ws, k);
        assert k < i ==> ws[..i][k] == ws[i];
      }
    } else {
      var v :| v in ws && !Found(ws, v);
      var i := FirstOf(ws, v);
      assert !Peak(ws, i);
    }
  }

  lemma {:induction false} FirstOf(ws: seq<nat>, v: nat) returns (i: nat)
    requires v in ws
    ensures i < |ws| && ws[i] == v && v !in ws[..i]
  {
    var n := |ws| - 1;
    if v in ws[..n] {
      i := FirstOf(ws[..n], v);
      assert ws[..n][..i] == ws[..i];
    } else {
      i := n;
    }
  }

  /** In sorted values it meets them all. */
  lemma FoundInSorted(ws: seq<nat>, v: nat)
    requires Sorted(ws)
    ensures Found(ws, v) <==> v in ws
  {
    if v in ws {
      var i :| 0 <= i < |ws| && ws[i] == v;
      assert Peak(ws, i);
    }
  }

  // ---------------------------------------------------------------------------------------
  // The filter

  class GCSFilter {
    const params: Params
    const n: nat
    const f: nat
    const bits: Bits

    // The differences that the bits stand for.
    ghost const deltas: seq<nat>

    ghost predicate Valid() {
      && n < UINT32 && f == n * params.m
      && |deltas| == n
      && DecodedAll(params.p, bits, n).Some? && DecodedAll(params.p, bits, n).value.0 == deltas
    }

    /** The hashes in the filter: what the differences add up to in 64 bits. */
    ghost function Values(): (r: seq<nat>)
      ensures |r| == |deltas|
    {
      Sums(deltas)
    }

    /** A filter whose differences add up to less than 2^64 holds sorted values, and a walk can meet each. */
    lemma ValuesAreFound(v: nat)
      requires deltas == [] || Total(deltas, |deltas| - 1) < UINT64
      ensures Sorted(Values()) && (Found(Values(), v) <==> v in Values())
    {
      SumsOfTotals(deltas);
      FoundInSorted(Values(), v);
    }

    /** A filter over bits that decode to n values. */
    constructor (params: Params, n: nat, bits: Bits, ghost deltas: seq<nat>)
      requires n < UINT32 && |deltas| == n
      requires DecodedAll(params.p, bits, n).Some? && DecodedAll(params.p, bits, n).value.0 == deltas
      ensures Valid() && this.params == params && this.n == n && this.bits == bits && this.deltas == deltas
    {
      hide DecodedAll;
      this.params := params;
      this.n := n;
      this.f := n * params.m;
      this.bits := bits;
      this.deltas := deltas;
    }

    /**
     * Walks the filter, decoding one value at a time, and a sorted list of hashes side by side. It stops at a
     * common value that none before it exceeds; only sums that wrap around hide others.
     */
    method MatchInternal(hashes: seq<nat>) returns (r: bool)
      requires Valid() && Sorted(hashes)
      ensures r <==> exists v :: v in hashes && Found(Values(), v)
    {
      hide Decoded, Found, Sorted, DecodedAll, Walked, Sum, Max;
      var stream, value, k, i := bits, 0, 0, 0;
      ghost var ws := Values();
      ghost var top: nat := 0;
      assert deltas[0..] == deltas;
      WalkStart(ws, hashes);
      while i < n
        invariant 0 <= i <= n && |ws| == n && k <= |hashes| && Walked(ws, hashes, i, k, top)
        invariant DecodedAll(params.p, stream, n - i).Some?
        invariant DecodedAll(params.p, stream, n - i).value.0 == deltas[i..]
        invariant value == if i == 0 then 0 else ws[i - 1]
      {
        var next := Decode(stream, params.p);
        NextDelta(params.p, stream, n - i, deltas[i..]);
        // A difference that leaves 64 bits itself adds the same modulo 2^64.
        value := (value + next.value.0) % UINT64;
        stream := next.value.1;
        SumStep(deltas, i);
        assert deltas[i..][1..] == deltas[i + 1..];
        ghost var from := k;
        while k < |hashes| && hashes[k] < value
          invariant from <= k <= |hashes| && forall j | from <= j < k :: hashes[j] < value
        {
          k := k + 1;
        }
        if k == |hashes| {
          WalkEnds(ws, hashes, i, from, top);
          return false;
        }
        if hashes[k] == value {
          WalkMeets(ws, hashes, i, from, k, top);
          return true;
        }
        WalkGoesOn(ws, hashes, i, from, k, top);
        top := Max(top, value);
        i := i + 1;
      }
      WalkOver(ws, hashes, k, top);
      return false;
    }

    method Match(e: Element) returns (r: bool)
      requires Valid()
      ensures r <==> Found(Values(), HashToRange(params, f, e))
    {
      var query := HashToRange(params, f, e);
      r := MatchInternal([query]);
    }

    /** A set matches exactly when one of its elements does by itself. */
    method MatchAny(elements: set<Element>) returns (r: bool)
      requires Valid()
      ensures r <==> exists e :: e in elements && Found(Values(), HashToRange(params, f, e))
    {
      hide Found, HashToRange;
      var queries := BuildHashedSet(params, f, elements);
      HashesAre(params, f, elements, queries);
      r := MatchInternal(queries);
    }
  }

  // ---------------------------------------------------------------------------------------
  // The walk

  /** After i values the first k hashes are below the largest of them, the others above, and nothing was met. */
  ghost predicate Walked(ws: seq<nat>, hashes: seq<nat>, i: nat, k: nat, top: nat) {
    && i <= |ws| && k <= |hashes| && (i == 0 ==> k == 0 && top == 0)
    && (forall j | 0 <= j < i :: ws[j] <= top) && (i > 0 ==> top in ws[..i])
    && (forall j | 0 <= j < k :: hashes[j] < top)
    && (i > 0 ==> k < |hashes| && top < hashes[k])
    && (forall j | 0 <= j < i :: Peak(ws, j) ==> ws[j] !in hashes)
  }

  lemma WalkStart(ws: seq<nat>, hashes: seq<nat>)
    ensures Walked(ws, hashes, 0, 0, 0)
  {
  }

  lemma TopBelow(ws: seq<nat>, i: nat, top: nat, l: nat)
    requires i <= l < |ws| && Peak(ws, l) && (i > 0 ==> top in ws[..i]) && (i == 0 ==> top == 0)
    ensures top <= ws[l]
  {
    if i > 0 {
      var j :| 0 <= j < i && ws[j] == top;
    }
  }

  lemma WalkEnds(ws: seq<nat>, hashes: seq<nat>, i: nat, k: nat, top: nat)
    requires Walked(ws, hashes, i, k, top) && i < |ws| && forall j | k <= j < |hashes| :: hashes[j] < ws[i]
    ensures forall v | v in hashes :: !Found(ws, v)
  {
    forall l | 0 <= l < |ws| && Peak(ws, l) ensures ws[l] !in hashes {
      if l >= i {
        TopBelow(ws, i, top, l);
        assert l == i || ws[i] <= ws[l];
      }
    }
  }

  lemma WalkMeets(ws: seq<nat>, hashes: seq<nat>, i: nat, from: nat, k: nat, top: nat)
    requires Walked(ws, hashes, i, from, top) && i < |ws|
    requires from <= k < |hashes| && Sorted(hashes) && hashes[k] == ws[i]
    ensures hashes[k] in hashes && Found(ws, hashes[k])
  {
    assert i > 0 ==> hashes[from] <= hashes[k];
    assert Peak(ws, i);
  }

  lemma WalkGoesOn(ws: seq<nat>, hashes: seq<nat>, i: nat, from: nat, k: nat, top: nat)
    requires Walked(ws, hashes, i, from, top) && i < |ws| && from <= k < |hashes| && Sorted(hashes)
    requires (forall j | from <= j < k :: hashes[j] < ws[i]) && ws[i] < hashes[k]
    ensures Max(top, ws[i]) >= 0 && Walked(ws, hashes, i + 1, k, Max(top, ws[i]))
  {
    assert i > 0 ==> hashes[from] <= hashes[k];
    if Peak(ws, i) {
      forall j | 0 <= j < |hashes| ensures hashes[j] != ws[i] {
        assert k < j ==> hashes[k] <= hashes[j];
        TopBelow(ws, i, top, i);
      }
    }
  }

  lemma WalkOver(ws: seq<nat>, hashes: seq<nat>, k: nat, top: nat)
    requires Walked(ws, hashes, |ws|, k, top)
    ensures forall v | v in hashes :: !Found(ws, v)
  {
  }

  lemma NextDelta(p: nat, b: Bits, n: nat, ds: seq<nat>)
    requires n > 0 && DecodedAll(p, b, n).Some? && DecodedAll(p, b, n).value.0 == ds
    ensures |ds| > 0 && Decoded(p, b).Some? && Decoded(p, b).value.0 == ds[0]
    ensures var rest := DecodedAll(p, Decoded(p, b).value.1, n - 1);
            rest.Some? && rest.value.0 == ds[1..]
  {
    hide Decoded;
  }

  /** The filter of a set of elements; a set too large for a 32-bit count is refused. */
  method Build(params: Params, elements: set<Element>) returns (filter: GCSFilter?)
    ensures filter == null <==> |elements| >= UINT32
    ensures filter != null ==>
              && filter.Valid() && filter.params == params && filter.n == |elements| && |filter.bits| % 8 == 0
              && Sorted(filter.Values()) && HashesOf(params, filter.f, elements, filter.Values())
              && ExactlyEncoded(params.p, filter.bits, filter.n)
  {
    hide Encoded, Decoded, EncodedAll, DecodedAll, Totals, Deltas, Sorted, HashToRange, HashesOf, Sums;
    if |elements| >= UINT32 {
      return null;
    }
    var n, f := |elements|, |elements| * params.m;
    var hashed := BuildHashedSet(params, f, elements);
    var plain := EncodeDeltas(params.p, hashed);
    var bits := plain + Padding(|plain|);
    ghost var ds := Deltas(hashed);
    RoundTripAll(params.p, ds, Padding(|plain|));
    filter := new GCSFilter(params, n, bits, ds);
    HashesFit(params, n, elements, hashed);
    DeltasSum(hashed);
  }

  /** The hashes of a filter are 64-bit numbers. */
  lemma HashesFit(params: Params, n: nat, elements: set<Element>, r: seq<nat>)
    requires n < UINT32 && HashesOf(params, n * params.m, elements, r)
    ensures forall v | v in r :: v < UINT64
  {
    hide HashToRange;
    HashesAre(params, n * params.m, elements, r);
    forall v | v in r ensures v < UINT64 {
      var e :| e in elements && HashToRange(params, n * params.m, e) == v;
      HashFits(params, n, e);
    }
  }

  lemma HashFits(params: Params, n: nat, e: Element)
    requires n < UINT32
    ensures HashToRange(params, n * params.m, e) < UINT64
  {
    PartsFit(n, params.m);
  }

  lemma DeltasSum(vs: seq<nat>)
    requires Sorted(vs) && forall v | v in vs :: v < UINT64
    ensures Sums(Deltas(vs)) == vs
  {
    hide Total, Totals, Sum, Sums, Delta, Deltas;
    DeltasTotals(vs);
    if vs != [] {
      DeltasTotal(vs, |vs| - 1);
      assert vs[|vs| - 1] in vs;
    }
    SumsOfTotals(Deltas(vs));
  }

  lemma DeltasTotals(vs: seq<nat>)
    requires Sorted(vs)
    ensures Totals(Deltas(vs)) == vs
  {
    forall i | 0 <= i < |vs| ensures Totals(Deltas(vs))[i] == vs[i] {
      DeltasTotal(vs, i);
    }
  }

  /** Writes the differences of sorted values, one after the other. */
  method EncodeDeltas(p: nat, hashed: seq<nat>) returns (bits: Bits)
    requires Sorted(hashed)
    ensures bits == EncodedAll(p, Deltas(hashed))
  {
    hide Encoded, EncodedAll;
    bits := [];
    var last, i := 0, 0;
    ghost var ds := Deltas(hashed);
    NoneEncoded(p, ds);
    while i < |hashed|
      invariant 0 <= i <= |hashed| && last == if i == 0 then 0 else hashed[i - 1]
      invariant bits == EncodedAll(p, ds[..i])
    {
      var delta := hashed[i] - last;
      assert delta == ds[i] && ds[..i + 1] == ds[..i] + [ds[i]];
      EncodedMore(p, ds[..i], ds[i]);
      bits := Encode(bits, p, delta);
      last := hashed[i];
      i := i + 1;
    }
    assert ds[..i] == ds;
  }

  lemma NoneEncoded(p: nat, ds: seq<nat>)
    ensures EncodedAll(p, ds[..0]) == []
  {
  }

  /** The bits hold this many values and less than a byte more. */
  ghost predicate ExactlyEncoded(p: nat, bits: Bits, n: nat) {
    DecodedAll(p, bits, n).Some? && |DecodedAll(p, bits, n).value.1| < 8
  }

  /** Reads a filter back: exactly n values must be there, up to the padding of the last byte. */
  method Parse(params: Params, n: nat, bits: Bits) returns (filter: GCSFilter?)
    requires |bits| % 8 == 0
    ensures filter != null <==> n < UINT32 && ExactlyEncoded(params.p, bits, n)
    ensures filter != null ==> filter.Valid() && filter.params == params && filter.n == n && filter.bits == bits
  {
    hide Decoded;
    if n >= UINT32 {
      return null;
    }
    var stream, i := bits, 0;
    ghost var ds: seq<nat> := [];
    PrependedNone(DecodedAll(params.p, bits, n));
    while i < n
      invariant 0 <= i <= n && |ds| == i
      invariant DecodedAll(params.p, bits, n) == Prepended(ds, DecodedAll(params.p, stream, n - i))
    {
      var next := Decode(stream, params.p);
      if next.None? {
        return null;
      }
      ghost var rest := DecodedAll(params.p, next.value.1, n - i - 1);
      assert rest.Some? ==> ds + ([next.value.0] + rest.value.0) == (ds + [next.value.0]) + rest.value.0;
      ds := ds + [next.value.0];
      stream := next.value.1;
      i := i + 1;
    }
    assert ds + [] == ds;
    if |stream| >= 8 {
      return null;
    }
    filter := new GCSFilter(params, n, bits, ds);
  }

  ghost function Prepended(ds: seq<nat>, r: Option<(seq<nat>, Bits)>): Option<(seq<nat>, Bits)> {
    match r
    case None => None
    case Some((es, end)) => Some((ds + es, end))
  }

  lemma PrependedNone(r: Option<(seq<nat>, Bits)>)
    ensures Prepended([], r) == r
  {
    if r.Some? {
      assert [] + r.value.0 == r.value.0;
    }
  }

  /** A filter matches every element it was built from. */
  method MembersMatch(params: Params, elements: set<Element>, e: Element) returns (r: bool)
    requires e in elements && |elements| < UINT32
    ensures r
  {
    hide HashToRange, HashesOf;
    var filter := Build(params, elements);
    HashesAre(params, filter.f, elements, filter.Values());
    FoundInSorted(filter.Values(), HashToRange(params, filter.f, e));
    r := filter.Match(e);
  }

  /** A filter that holds a value no query meets: its two differences add up past 2^64. */
  method FilterMissesValue(hash: Element -> nat) returns (filter: GCSFilter, r: bool)
    ensures filter.Valid() && filter.n == 2 && 5 in filter.Values() && !r
  {
    hide EncodedAll, DecodedAll, Encoded, Decoded;
    var ds: seq<nat> := [UINT64 / 2, UINT64 / 2 + 5];
    var plain := Encode([], 63, ds[0]);
    plain := Encode(plain, 63, ds[1]);
    var bits := plain + Padding(|plain|);
    TwoEncoded(63, ds);
    assert plain == EncodedAll(63, ds);
    RoundTripAll(63, ds, Padding(|plain|));
    var parsed := Parse(Params(hash, 63, 784931), 2, bits);
    filter := parsed;
    assert Sum(ds, 0) == UINT64 / 2 && Sum(ds, 1) == 5;
    var ws := [UINT64 / 2, 5];
    assert filter.Values() == ws && ws[1] in ws;
    assert !Peak(ws, 1) by {
      assert ws[0] > ws[1];
    }
    r := filter.MatchInternal([5]);
  }

  lemma TwoEncoded(p: nat, ds: seq<nat>)
    requires |ds| == 2
    ensures EncodedAll(p, ds) == Encoded(p, ds[0]) + Encoded(p, ds[1])
  {
    hide Encoded;
    EncodedMore(p, [], ds[0]);
    EncodedMore(p, [ds[0]], ds[1]);
    assert [] + [ds[0]] == [ds[0]] && ds == [ds[0]] + [ds[1]];
    assert EncodedAll(p, []) + Encoded(p, ds[0]) == Encoded(p, ds[0]);
  }
}
