/**
 * Numbers as little-endian sequences of 32-bit limbs: their value, and what carrying, or-ing and shifting
 * limbs does to it (src/arith_uint256.cpp, src/arith_uint256.h).
 */
module Limbs {
  import opened Powers

  const BASE: nat := 0x1_0000_0000
  const WIDTH: nat := 8

  type Limb = x: nat | x < BASE

  /** 2^256, as a power of the base. */
  function Modulus(): nat {
    Pow(BASE, WIDTH)
  }

  lemma BaseIsPower()
    ensures BASE == Pow(2, 32)
  {
    assert Pow(2, 4) == 16;
    PowAdd(2, 4, 4);
    PowAdd(2, 8, 8);
    PowAdd(2, 16, 16);
  }

  /** Shifting by whole limbs is shifting by 32 bits each. */
  lemma LimbPower(k: nat)
    ensures Pow(BASE, k) == Pow(2, 32 * k)
  {
    BaseIsPower();
    PowPow(2, 32, k);
  }

  lemma ModulusIsPower()
    ensures Modulus() == Pow(2, 256) && Modulus() > 1
  {
    LimbPower(WIDTH);
    PowGrows(2, 32, 256);
    BaseIsPower();
  }

  function Val(s: seq<Limb>): nat {
    if s == [] then 0 else s[0] + BASE * Val(s[1..])
  }

  lemma {:induction false} ValConcat(s: seq<Limb>, t: seq<Limb>)
    ensures Val(s + t) == Val(s) + Pow(BASE, |s|) * Val(t)
  {
    if s == [] {
      assert s + t == t;
    } else {
      assert (s + t)[1..] == s[1..] + t;
      ValConcat(s[1..], t);
      Distribute(Val(s[1..]), Pow(BASE, |s| - 1) * Val(t), BASE);
      Associate(BASE, Pow(BASE, |s| - 1), Val(t));
    }
  }

  lemma ValAppend(s: seq<Limb>, x: Limb)
    ensures Val(s + [x]) == Val(s) + x * Pow(BASE, |s|)
  {
    hide Val, Pow;
    ValConcat(s, [x]);
    ValOne(x);
  }

  lemma ValOne(x: Limb)
    ensures Val([x]) == x
  {
    assert [x][1..] == [];
  }

  lemma ValSplit(s: seq<Limb>, k: nat)
    requires k <= |s|
    ensures Val(s) == Val(s[..k]) + Pow(BASE, k) * Val(s[k..])
  {
    assert s == s[..k] + s[k..];
    ValConcat(s[..k], s[k..]);
  }

  lemma ValStep(s: seq<Limb>, k: nat)
    requires k < |s|
    ensures Val(s[..k + 1]) == Val(s[..k]) + s[k] * Pow(BASE, k)
  {
    assert s[..k + 1] == s[..k] + [s[k]];
    ValAppend(s[..k], s[k]);
  }

  lemma {:induction false} ValBound(s: seq<Limb>)
    ensures Val(s) < Pow(BASE, |s|)
  {
    if s != [] {
      ValBound(s[1..]);
      ScaleUp(Val(s[1..]), Pow(BASE, |s| - 1) - 1, BASE);
      Distribute(Pow(BASE, |s| - 1), -1, BASE);
    }
  }

  lemma {:induction false} ValZeros(s: seq<Limb>)
    requires forall i | 0 <= i < |s| :: s[i] == 0
    ensures Val(s) == 0
  {
    if s != [] {
      ValZeros(s[1..]);
    }
  }

  lemma {:induction false} ValUpdate(s: seq<Limb>, i: nat, x: Limb)
    requires i < |s|
    ensures Val(s[i := x]) == Val(s) + (x - s[i]) * Pow(BASE, i)
  {
    if i == 0 {
      assert s[i := x][1..] == s[1..];
    } else {
      assert s[i := x][1..] == s[1..][i - 1 := x];
      ValUpdate(s[1..], i - 1, x);
      Distribute(Val(s[1..]), (x - s[i]) * Pow(BASE, i - 1), BASE);
      Associate(x - s[i], BASE, Pow(BASE, i - 1));
    }
  }

  /** One step of a carry: the low half of the sum stays, the high half moves up. */
  lemma CarryStep(low: seq<Limb>, n: nat)
    ensures Val(low + [n % BASE]) + (n / BASE) * Pow(BASE, |low| + 1) == Val(low) + n * Pow(BASE, |low|)
  {
    hide Val, Pow;
    var q, r, p := n / BASE, n % BASE, Pow(BASE, |low|);
    Quotient(n, BASE);
    ValAppend(low, r);
    PowUnfold(BASE, |low|);
    CarryTerms(q, r, p);
  }

  lemma CarryTerms(q: nat, r: nat, p: nat)
    ensures r * p + q * (BASE * p) == (q * BASE + r) * p
  {
    Associate(q, BASE, p);
    Distribute(q * BASE, r, p);
  }

  /** What exceeds the width is what reduction removes. */
  lemma Reduced(v: nat, carry: int, total: int, m: nat)
    requires v + carry * m == total && v < m
    ensures total % m == v
  {
    DivideUniquely(total, m, carry, v);
  }

  /** Reduction ignores multiples of the modulus. */
  lemma ReducedSame(a: int, b: int, k: int, m: nat)
    requires a == b + k * m && m > 0
    ensures a % m == b % m
  {
    Quotient(b, m);
    Distribute(b / m, k, m);
    DivideUniquely(a, m, b / m + k, b % m);
  }

  // ---------------------------------------------------------------------------------------
  // Bitwise or

  function BitOr(a: nat, b: nat): nat
    decreases a + b
  {
    if a == 0 && b == 0 then 0
    else 2 * BitOr(a / 2, b / 2) + if a % 2 == 1 || b % 2 == 1 then 1 else 0
  }

  lemma {:induction false} BitOrZero(a: nat)
    ensures BitOr(a, 0) == a && BitOr(0, a) == a
  {
    if a > 0 {
      BitOrZero(a / 2);
    }
  }

  /** Or-ing numbers with no bits in common adds them. */
  lemma {:induction false} BitOrAdds(a: nat, c: nat, s: nat)
    requires a < Pow(2, s)
    ensures BitOr(a, c * Pow(2, s)) == BitOr(c * Pow(2, s), a) == a + c * Pow(2, s)
  {
    if s == 0 {
      BitOrZero(c);
    } else {
      var b, half := c * Pow(2, s), c * Pow(2, s - 1);
      assert b == 2 * half by {
        Associate(2, c, Pow(2, s - 1));
        Associate(c, 2, Pow(2, s - 1));
      }
      BitOrAdds(a / 2, c, s - 1);
    }
  }

  // ---------------------------------------------------------------------------------------
  // Shifting limbs

  /** The bits of a limb that a shift to the left keeps, and those it moves up. */
  function Low(x: Limb, s: nat): Limb
    requires s < 32
  {
    (x * Pow(2, s)) % BASE
  }

  function High(x: Limb, s: nat): Limb
    requires s < 32
  {
    hide Pow;
    PowPositive(2, 32 - s);
    DivideFits(x, Pow(2, 32 - s));
    if s == 0 then 0 else x / Pow(2, 32 - s)
  }

  /** The two parts make up the shifted limb, and share no bit. */
  lemma HighLow(x: Limb, s: nat)
    requires s < 32
    ensures x * Pow(2, s) == High(x, s) * BASE + Low(x, s)
    ensures High(x, s) < Pow(2, s) && Pow(2, 32 - s) > 0
    ensures Low(x, s) == (x % Pow(2, 32 - s)) * Pow(2, s)
  {
    hide Pow;
    var t, u := Pow(2, s), Pow(2, 32 - s);
    PowPositive(2, s);
    PowPositive(2, 32 - s);
    BaseIsPower();
    PowAdd(2, s, 32 - s);
    Quotient(x, u);
    var q, r := x / u, x % u;
    assert x * t == q * BASE + r * t by {
      Distribute(q * u, r, t);
      Associate(q, u, t);
    }
    assert r * t < BASE by {
      ScaleUpStrictly(r, u, t);
    }
    DivideUniquely(x * t, BASE, q, r * t);
    assert q < t by {
      ScaleDown(q, t, u);
    }
    if s == 0 {
      assert t == 1 by { PowZero(2); }
    }
  }

  /** Or-ing the part moved up from below with the part kept adds them, within a limb. */
  lemma JoinLeft(y: Limb, x: Limb, s: nat)
    requires s < 32
    ensures BitOr(High(y, s), Low(x, s)) == High(y, s) + Low(x, s) < BASE
  {
    hide Pow, High, Low, BitOr;
    HighLow(y, s);
    HighLow(x, s);
    BitOrAdds(High(y, s), x % Pow(2, 32 - s), s);
    LowRoom(x, s);
  }

  lemma LowRoom(x: Limb, s: nat)
    requires s < 32
    ensures Low(x, s) + Pow(2, s) <= BASE
  {
    hide Pow, High;
    HighLow(x, s);
    PowPositive(2, s);
    PowPositive(2, 32 - s);
    BaseIsPower();
    PowAdd(2, s, 32 - s);
    ScaleUp(x % Pow(2, 32 - s), Pow(2, 32 - s) - 1, Pow(2, s));
    Distribute(Pow(2, 32 - s), -1, Pow(2, s));
  }

  /** The same for a shift to the right: what comes down from the limb above fills the top bits. */
  lemma JoinRight(y: Limb, x: Limb, s: nat)
    requires 0 < s < 32
    ensures Pow(2, s) > 0 && Pow(2, 32 - s) > 0
    ensures var down := (x * Pow(2, 32 - s)) % BASE;
            && down == (x % Pow(2, s)) * Pow(2, 32 - s)
            && BitOr(y / Pow(2, s), down) == y / Pow(2, s) + down < BASE
  {
    hide Pow, BitOr, Low, High;
    PowPositive(2, s);
    PowPositive(2, 32 - s);
    HighLow(x, 32 - s);
    HighLow(y, 32 - s);
    LowRoom(x, 32 - s);
    LowHigh(x, 32 - s);
    LowHigh(y, 32 - s);
    assert 32 - (32 - s) == s;
    BitOrAdds(y / Pow(2, s), x % Pow(2, s), 32 - s);
  }

  lemma LowHigh(x: Limb, s: nat)
    requires 0 < s < 32
    ensures Low(x, s) == (x * Pow(2, s)) % BASE && Pow(2, 32 - s) > 0 && High(x, s) == x / Pow(2, 32 - s)
  {
    PowPositive(2, 32 - s);
  }

  function HighBelow(a: seq<Limb>, e: nat, s: nat): Limb
    requires e <= |a| && s < 32
  {
    if e == 0 then 0 else High(a[e - 1], s)
  }

  /** After e limbs: what is done is worth those limbs times the shift, and the next limb holds the overhang. */
  ghost predicate ShiftingLeft(r: seq<Limb>, a: seq<Limb>, e: nat, k: nat, s: nat) {
    && |r| == |a| == WIDTH && e + k <= WIDTH && s < 32
    && Val(r[..e + k]) + HighBelow(a, e, s) * Pow(BASE, e + k) == Val(a[..e]) * (Pow(2, s) * Pow(BASE, k))
    && (forall m | e + k < m < WIDTH :: r[m] == 0)
    && (e + k < WIDTH ==> r[e + k] == HighBelow(a, e, s))
  }

  lemma ShiftingLeftStarts(r: seq<Limb>, a: seq<Limb>, k: nat, s: nat)
    requires |r| == |a| == WIDTH && k <= WIDTH && s < 32 && forall m | 0 <= m < WIDTH :: r[m] == 0
    ensures ShiftingLeft(r, a, 0, k, s)
  {
    ValZeros(r[..k]);
    assert a[..0] == [];
  }

  lemma ShiftLeftTerms(v: nat, h: nat, h': nat, l: nat, x: nat, w: nat, p: nat, q: nat, t: nat, z: nat)
    requires v + h * p == w * (t * z) && x * t == h' * BASE + l && p == q * z
    ensures v + (h + l) * p + h' * (BASE * p) == (w + x * q) * (t * z)
  {
    Distribute(h, l, p);
    Distribute(w, x * q, t * z);
    Associate(h', BASE, p);
    Distribute(h' * BASE, l, p);
    assert (x * q) * (t * z) == (x * t) * (q * z) by {
      Associate(x, q, t * z);
      Associate(q, t, z);
      Associate(x, t, q * z);
    }
  }

  lemma ShiftingLeftStep(r: seq<Limb>, a: seq<Limb>, e: nat, k: nat, s: nat, r': seq<Limb>)
    requires ShiftingLeft(r, a, e, k, s) && e + k < WIDTH && |r'| == WIDTH
    requires r'[..e + k] == r[..e + k] && r'[e + k] == HighBelow(a, e, s) + Low(a[e], s)
    requires e + k + 1 < WIDTH ==> r'[e + k + 1] == High(a[e], s)
    requires forall m | e + k + 1 < m < WIDTH :: r'[m] == r[m]
    ensures ShiftingLeft(r', a, e + 1, k, s)
  {
    hide Val, Pow, High, Low;
    var p := Pow(BASE, e + k);
    ValStep(r', e + k);
    ValStep(a, e);
    HighLow(a[e], s);
    PowAdd(BASE, e, k);
    PowUnfold(BASE, e + k);
    ShiftLeftTerms(Val(r[..e + k]), HighBelow(a, e, s), High(a[e], s), Low(a[e], s), a[e], Val(a[..e]), p,
                   Pow(BASE, e), Pow(2, s), Pow(BASE, k));
  }

  lemma ShiftLeftTotal(low: nat, q: nat, rest: nat, t: nat, z: nat)
    ensures (low + q * rest) * (t * z) == low * (t * z) + (rest * t) * (q * z)
  {
    Distribute(low, q * rest, t * z);
    Associate(q, rest, t * z);
    Associate(rest, t, z);
    Associate(q, rest * t, z);
    Associate(rest * t, q, z);
  }

  lemma ShiftLeftReduced(v: nat, all: nat, low: nat, q: nat, rest: nat, t: nat, z: nat, h: nat, m: nat, y: nat)
    requires all == low + q * rest && v + h * m == low * (t * z) && m == q * z && v < m && y == z * t
    ensures v == (all * y) % m
  {
    ShiftLeftTotal(low, q, rest, t, z);
    Distribute(h, rest * t, m);
    assert y == t * z;
    Reduced(v, h + rest * t, all * y, m);
  }

  /** When the top is reached, what has been lost is a multiple of the modulus. */
  lemma ShiftingLeftEnds(r: seq<Limb>, a: seq<Limb>, k: nat, s: nat)
    requires k <= WIDTH && ShiftingLeft(r, a, WIDTH - k, k, s)
    ensures Val(r) == (Val(a) * Pow(2, 32 * k + s)) % Modulus()
  {
    hide Val, Pow, High, Low;
    assert r[..WIDTH] == r;
    var e, t, z, m := WIDTH - k, Pow(2, s), Pow(BASE, k), Modulus();
    ValSplit(a, e);
    PowAdd(BASE, e, k);
    ValBound(r);
    LimbPower(k);
    PowAdd(2, 32 * k, s);
    ShiftLeftReduced(Val(r), Val(a), Val(a[..e]), Pow(BASE, e), Val(a[e..]), t, z, HighBelow(a, e, s), m,
                     Pow(2, 32 * k + s));
  }

  /** After e limbs: what is done, shifted back, is worth those limbs less the bits dropped from the lowest. */
  ghost predicate ShiftingRight(r: seq<Limb>, a: seq<Limb>, e: nat, k: nat, s: nat) {
    && |r| == |a| == WIDTH && e + k <= WIDTH && s < 32 && Pow(2, s) > 0
    && Val(r[..e]) * Pow(2, s) + (if e == 0 then 0 else a[k] % Pow(2, s)) == Val(a[k..k + e])
    && (forall m | e <= m < WIDTH :: r[m] == 0)
    && (e > 0 ==> r[e - 1] == a[k + e - 1] / Pow(2, s))
  }

  lemma ShiftingRightStarts(r: seq<Limb>, a: seq<Limb>, k: nat, s: nat)
    requires |r| == |a| == WIDTH && k <= WIDTH && s < 32 && forall m | 0 <= m < WIDTH :: r[m] == 0
    ensures ShiftingRight(r, a, 0, k, s)
  {
    PowPositive(2, s);
    assert a[k..k] == [] && r[..0] == [];
  }

  /** What comes down from the next limb into the one before. */
  function Down(x: Limb, s: nat): nat
    requires s < 32
  {
    if s == 0 then 0 else (x * Pow(2, 32 - s)) % BASE
  }

  lemma DownWorth(x: Limb, s: nat)
    requires s < 32
    ensures Pow(2, s) > 0 && Down(x, s) * Pow(2, s) == (x % Pow(2, s)) * BASE
  {
    hide Pow;
    PowPositive(2, s);
    if s == 0 {
      PowZero(2);
    } else {
      JoinRight(0, x, s);
      BaseIsPower();
      PowAdd(2, 32 - s, s);
      Associate(x % Pow(2, s), Pow(2, 32 - s), Pow(2, s));
    }
  }

  lemma ShiftRightTerms(v: nat, rem: nat, w: nat, d: nat, x: nat, t: nat, p: nat, q: nat)
    requires t > 0 && v * t + rem == w && d * t == (x % t) * BASE && p == BASE * q
    ensures (v + d * q + (x / t) * p) * t + rem == w + x * p
  {
    Quotient(x, t);
    Distribute(v + d * q, (x / t) * p, t);
    Distribute(v, d * q, t);
    assert (d * q) * t == (x % t) * p by {
      Associate(d, q, t);
      Associate(x % t, BASE, q);
    }
    assert ((x / t) * p) * t == ((x / t) * t) * p by {
      Associate(x / t, p, t);
    }
    Distribute((x / t) * t, x % t, p);
  }

  lemma ShiftingRightStep(r: seq<Limb>, a: seq<Limb>, e: nat, k: nat, s: nat, r': seq<Limb>)
    requires ShiftingRight(r, a, e, k, s) && e + k < WIDTH && |r'| == WIDTH
    requires r'[e] == a[k + e] / Pow(2, s)
    requires e > 0 ==> r'[..e - 1] == r[..e - 1] && r'[e - 1] == r[e - 1] + Down(a[k + e], s)
    requires forall m | e < m < WIDTH :: r'[m] == r[m]
    ensures ShiftingRight(r', a, e + 1, k, s)
  {
    hide Val, Pow, Down;
    var t := Pow(2, s);
    assert a[k..k + e + 1] == a[k..k + e] + [a[k + e]];
    if e == 0 {
      assert r'[..1] == [r'[0]] && a[k..k + 1] == [a[k]];
      ValOne(r'[0]);
      ValOne(a[k]);
      Quotient(a[k], t);
    } else {
      ValAppend(a[k..k + e], a[k + e]);
      ShiftingRightSum(r, r', e, Down(a[k + e], s));
      DownWorth(a[k + e], s);
      PowUnfold(BASE, e - 1);
      ShiftRightTerms(Val(r[..e]), a[k] % t, Val(a[k..k + e]), Down(a[k + e], s), a[k + e], t, Pow(BASE, e),
                      Pow(BASE, e - 1));
    }
  }

  lemma ShiftingRightSum(r: seq<Limb>, r': seq<Limb>, e: nat, d: nat)
    requires 0 < e < |r| == |r'| && r'[..e - 1] == r[..e - 1] && r'[e - 1] == r[e - 1] as nat + d
    ensures Val(r'[..e + 1]) == Val(r[..e]) + d * Pow(BASE, e - 1) + r'[e] * Pow(BASE, e)
  {
    hide Val, Pow;
    ValStep(r', e);
    ValStep(r', e - 1);
    ValStep(r, e - 1);
    Distribute(r[e - 1], d, Pow(BASE, e - 1));
  }

  lemma ValNone()
    ensures Val([]) == 0
  {
  }

  lemma ShiftingRightEnds(r: seq<Limb>, a: seq<Limb>, k: nat, s: nat)
    requires k <= WIDTH && ShiftingRight(r, a, WIDTH - k, k, s)
    ensures Pow(2, 32 * k + s) > 0 && Val(r) == Val(a) / Pow(2, 32 * k + s)
  {
    hide Val, Pow;
    var e, t, z := WIDTH - k, Pow(2, s), Pow(BASE, k);
    assert a[k..k + e] == a[k..];
    ValSplit(r, e);
    ValZeros(r[e..]);
    var v := Val(a[k..]);
    if e == 0 {
      assert r[..0] == [] && a[k..] == [];
      ValNone();
      DivideUniquely(v, t, Val(r), 0);
    } else {
      DivideUniquely(v, t, Val(r), a[k] % t);
    }
    PowPositive(BASE, k);
    ValSplit(a, k);
    ValBound(a[..k]);
    DivideUniquely(Val(a), z, v, Val(a[..k]));
    DivideTwice(Val(a), z, t);
    LimbPower(k);
    PowAdd(2, 32 * k, s);
  }
}
