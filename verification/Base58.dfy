/**
 * Base 58 (src/base58.cpp): byte strings as numbers, written with 58 characters; leading zero bytes are
 * written as leading '1's. Both directions multiply and add in place in a buffer of big-endian digits whose
 * size is estimated beforehand; the estimates are proved always to suffice.
 */
module Base58 {
  import opened Wrappers
  import opened Powers

  // ---------------------------------------------------------------------------------------
  // Big-endian digits

  /** The number that big-endian digits stand for. */
  function Number(s: seq<nat>, base: nat): nat {
    if s == [] then 0 else Number(s[..|s| - 1], base) * base + s[|s| - 1]
  }

  predicate Digits(s: seq<nat>, base: nat) {
    forall i | 0 <= i < |s| :: s[i] < base
  }

  /** The digits of a number, without leading zeros. */
  function Canonical(v: nat, base: nat): (s: seq<nat>)
    requires base >= 2
    ensures Digits(s, base) && (s == [] <==> v == 0) && (s != [] ==> s[0] != 0)
    decreases v
  {
    if v == 0 then [] else
      SmallerQuotient(v, base);
      Canonical(v / base, base) + [v % base]
  }

  lemma SmallerQuotient(v: nat, base: nat)
    requires v > 0 && base >= 2
    ensures v / base < v && 0 <= v % base < base
  {
    Quotient(v, base);
    if v / base >= v {
      ScaleUp(2, base, v / base);
    }
  }

  lemma {:induction false} CanonicalNumber(v: nat, base: nat)
    requires base >= 2
    ensures Number(Canonical(v, base), base) == v
    decreases v
  {
    if v > 0 {
      SmallerQuotient(v, base);
      CanonicalNumber(v / base, base);
      var s := Canonical(v, base);
      assert s[..|s| - 1] == Canonical(v / base, base);
      Quotient(v, base);
    }
  }

  /** Digits without a leading zero are the only ones for their number. */
  lemma {:induction false} CanonicalUnique(s: seq<nat>, base: nat)
    requires base >= 2 && Digits(s, base) && (s != [] ==> s[0] != 0)
    ensures Canonical(Number(s, base), base) == s
  {
    if s != [] {
      var n := |s| - 1;
      var v, w := Number(s, base), Number(s[..n], base);
      CanonicalUnique(s[..n], base);
      DivideUniquely(v, base, w, s[n]);
      if n > 0 {
        assert w != 0;
        ScaleUp(1, w, base);
      } else {
        assert s[..n] == [];
      }
      assert s == s[..n] + [s[n]];
    }
  }

  lemma {:induction false} NumberPrepend(x: nat, s: seq<nat>, base: nat)
    ensures Number([x] + s, base) == x * Pow(base, |s|) + Number(s, base)
  {
    if s == [] {
      assert [x] + s == [x] && [x][..0] == [];
    } else {
      var n := |s| - 1;
      assert ([x] + s)[..|[x] + s| - 1] == [x] + s[..n];
      NumberPrepend(x, s[..n], base);
      Distribute(x * Pow(base, n), Number(s[..n], base), base);
      Associate(x, Pow(base, n), base);
    }
  }

  lemma {:induction false} NumberBound(s: seq<nat>, base: nat)
    requires Digits(s, base)
    ensures Number(s, base) < Pow(base, |s|)
  {
    if s != [] {
      var n := |s| - 1;
      NumberBound(s[..n], base);
      ScaleUp(Number(s[..n], base) + 1, Pow(base, n), base);
      Distribute(Number(s[..n], base), 1, base);
    }
  }

  /** Leading zeros do not count. */
  lemma {:induction false} NumberZeros(s: seq<nat>, base: nat, k: nat)
    requires k <= |s| && forall i | 0 <= i < k :: s[i] == 0
    ensures Number(s[k..], base) == Number(s, base)
  {
    if k > 0 {
      assert s == [0] + s[1..] && s[1..][k - 1..] == s[k..];
      NumberPrepend(0, s[1..], base);
      NumberZeros(s[1..], base, k - 1);
    } else {
      assert s[0..] == s;
    }
  }

  // ---------------------------------------------------------------------------------------
  // The buffer sizes

  lemma {:induction false} PowStrict(a: nat, b: nat, n: nat)
    requires a < b && n >= 1
    ensures Pow(a, n) < Pow(b, n)
  {
    if n == 1 {
      assert Pow(a, 1) == a * Pow(a, 0) && Pow(b, 1) == b * Pow(b, 0);
    } else {
      PowStrict(a, b, n - 1);
      ScaleUp(a, b, Pow(a, n - 1));
      ScaleUpStrictly(Pow(a, n - 1), Pow(b, n - 1), b);
    }
  }

  lemma {:induction false} RootsCompare(a: nat, b: nat, n: nat)
    requires n >= 1 && Pow(a, n) <= Pow(b, n)
    ensures a <= b
  {
    if b < a {
      PowStrict(b, a, n);
    }
  }

  /** If a^p <= b^q and the new exponent is large enough, a^n <= b^m. */
  lemma ScaledWitness(a: nat, b: nat, p: nat, q: nat, n: nat, m: nat)
    requires p >= 1 && b >= 1 && Pow(a, p) <= Pow(b, q) && q * n <= p * m
    ensures Pow(a, n) <= Pow(b, m)
  {
    hide Pow;
    calc {
      Pow(Pow(a, n), p);
      { PowPow(a, n, p); PowPow(a, p, n); assert n * p == p * n; }
      Pow(Pow(a, p), n);
    <= { PowBelow(Pow(a, p), Pow(b, q), n); }
      Pow(Pow(b, q), n);
      { PowPow(b, q, n); }
      Pow(b, q * n);
    <= { PowGrows(b, q * n, p * m); }
      Pow(b, p * m);
      { PowPow(b, m, p); assert m * p == p * m; }
      Pow(Pow(b, m), p);
    }
    RootsCompare(Pow(a, n), Pow(b, m), p);
  }

  lemma SmallPowers()
    ensures Pow(2, 8) == 256 && Pow(2, 14) == 16384 && Pow(2, 29) == 536870912
    ensures Pow(29, 3) == 24389 && Pow(29, 6) == 594823321 && Pow(58, 1) == 58
  {
    assert Pow(2, 4) == 16;
    PowAdd(2, 4, 4);
    PowAdd(2, 8, 6);
    assert Pow(2, 6) == 64 by { PowAdd(2, 4, 2); assert Pow(2, 2) == 4; }
    PowAdd(2, 14, 14);
    PowAdd(2, 28, 1);
    assert Pow(29, 3) == 24389;
    PowAdd(29, 3, 3);
  }

  /** 256^50 <= 58^69 */
  lemma EncodeWitness()
    ensures Pow(256, 50) <= Pow(58, 69)
  {
    hide Pow;
    SmallPowers();
    PowPow(2, 8, 50);
    PowProduct(2, 29, 69);
    PowPow(29, 6, 11);
    PowPow(2, 29, 11);
    PowBelow(Pow(2, 29), Pow(29, 6), 11);
    PowAdd(29, 66, 3);
    PowAdd(2, 319, 14);
    ScaleUp(Pow(2, 319), Pow(29, 66), Pow(2, 14));
    ScaleUp(Pow(2, 14), Pow(29, 3), Pow(29, 66));
    PowAdd(2, 69, 333);
    ScaleUp(Pow(2, 333), Pow(29, 69), Pow(2, 69));
    PowGrows(2, 400, 402);
  }

  /** 58^71 <= 256^52 */
  lemma DecodeWitness()
    ensures Pow(58, 71) <= Pow(256, 52)
  {
    hide Pow;
    SmallPowers();
    PowPow(2, 8, 52);
    PowProduct(2, 29, 71);
    assert Pow(29, 71) <= Pow(2, 345) by {
      PowAdd(29, 3, 1);
      assert Pow(29, 1) == 29 by { PowOne(29); }
      PowAdd(29, 6, 1);
      assert Pow(29, 7) == 17249876309;
      PowAdd(29, 7, 7);
      PowAdd(29, 14, 14);
      PowAdd(29, 28, 28);
      PowAdd(29, 56, 14);
      PowAdd(29, 70, 1);
      PowAdd(2, 29, 4);
      assert Pow(2, 4) == 16 by { PowAdd(2, 1, 1); PowAdd(2, 2, 2); PowOne(2); }
      PowAdd(2, 33, 1);
      assert Pow(2, 1) == 2 by { PowOne(2); }
      assert Pow(2, 34) == 17179869184;
      PowAdd(2, 34, 34);
      PowAdd(2, 68, 68);
      PowAdd(2, 136, 136);
      PowAdd(2, 272, 68);
      PowAdd(2, 340, 4);
      PowAdd(2, 344, 1);
    }
    PowAdd(2, 71, 345);
    ScaleUp(Pow(29, 71), Pow(2, 345), Pow(2, 71));
  }

  /** The buffer for writing n bytes holds every number they can stand for. */
  lemma EncodeBufferSuffices(n: nat)
    ensures Pow(256, n) <= Pow(58, n * 138 / 100 + 1)
  {
    hide Pow;
    EncodeWitness();
    ScaledWitness(256, 58, 50, 69, n, n * 138 / 100 + 1);
  }

  /** The buffer for reading n characters holds every number they can stand for. */
  lemma DecodeBufferSuffices(n: nat)
    ensures Pow(58, n) <= Pow(256, n * 733 / 1000 + 1)
  {
    hide Pow;
    DecodeWitness();
    ScaledWitness(58, 256, 71, 52, n, n * 733 / 1000 + 1);
  }

  // ---------------------------------------------------------------------------------------
  // Multiplying and adding in the buffer

  /** The number in the buffer, digits that fit, nothing but zeros above `length`, and no zero at its top. */
  ghost predicate Holds(s: seq<nat>, base: nat, length: nat, v: nat) {
    && Digits(s, base) && length <= |s| && Number(s, base) == v
    && (forall i | 0 <= i < |s| - length :: s[i] == 0)
    && (length > 0 ==> s[|s| - length] != 0)
  }

  lemma EmptyBuffer(s: seq<nat>, base: nat)
    requires base >= 2 && forall i | 0 <= i < |s| :: s[i] == 0
    ensures Holds(s, base, 0, 0)
  {
    NumberZeros(s, base, |s|);
  }

  /** What the buffer holds from its top digit on is the canonical form. */
  lemma BufferIsCanonical(s: seq<nat>, base: nat, length: nat, v: nat)
    requires base >= 2 && Holds(s, base, length, v)
    ensures length <= |s| && s[|s| - length..] == Canonical(v, base)
  {
    NumberZeros(s, base, |s| - length);
    CanonicalUnique(s[|s| - length..], base);
  }

  lemma StepTerms(d: nat, q: nat, n: nat, base: nat, p: nat, was: nat, x: nat, mul: nat, carry: nat, low: nat, ch: nat)
    requires n == q * base + d && n == carry + mul * x && low + carry * p == mul * was + ch
    ensures (d * p + low) + q * (base * p) == mul * (x * p + was) + ch
  {
    Associate(q, base, p);
    Distribute(q * base, d, p);
    Distribute(carry, mul * x, p);
    Associate(mul, x, p);
    Distribute(x * p, was, mul);
  }

  /** The low end of the buffer after a step, as a number. */
  lemma LowStep(was: seq<nat>, now: seq<nat>, base: nat, mul: nat, ch: nat, i: nat, carry: nat, n: nat, after: seq<nat>)
    requires base >= 2 && |was| == |now| == |after| && i < |was|
    requires Number(now[|now| - i..], base) + carry * Pow(base, i) == mul * Number(was[|was| - i..], base) + ch
    requires n == carry + mul * was[|was| - 1 - i]
    requires after == now[|now| - 1 - i := n % base]
    ensures Number(after[|after| - (i + 1)..], base) + (n / base) * Pow(base, i + 1) ==
            mul * Number(was[|was| - (i + 1)..], base) + ch
  {
    hide Number, Pow;
    var k := |was| - 1 - i;
    Quotient(n, base);
    assert after[k..] == [n % base] + now[k + 1..];
    assert was[k..] == [was[k]] + was[k + 1..];
    NumberPrepend(n % base, now[k + 1..], base);
    NumberPrepend(was[k], was[k + 1..], base);
    PowUnfold(base, i);
    StepTerms(n % base, n / base, n, base, Pow(base, i), Number(was[k + 1..], base), was[k], mul, carry,
              Number(now[k + 1..], base), ch);
  }

  /**
   * Multiplies the number in the buffer and adds to it, from the last digit up, stopping once past the
   * digits in use with no carry left. A number that fits in the buffer leaves no carry.
   */
  method MultiplyAdd(b: array<nat>, base: nat, mul: nat, ch: nat, length: nat, ghost v: nat) returns (newLength: nat)
    requires base >= 2 && mul >= 1 && Holds(b[..], base, length, v) && mul * v + ch < Pow(base, b.Length)
    modifies b
    ensures Holds(b[..], base, newLength, mul * v + ch) && newLength >= length
  {
    hide Number, Pow, Holds, Digits;
    ghost var was := b[..];
    HoldsSays(was, base, length, v);
    var size: nat, carry: nat, i: nat := b.Length, ch, 0;
    StepStart(was, base, mul, ch);
    while (carry != 0 || i < length) && i < size
      invariant 0 <= i <= size && b[..size - i] == was[..size - i] && Digits(b[..], base)
      invariant Number(b[..][size - i..], base) + carry * Pow(base, i) == mul * Number(was[size - i..], base) + ch
      invariant i > 0 && i >= length && carry == 0 ==> b[size - i] != 0
      decreases size - i
    {
      ghost var now := b[..];
      assert b[size - 1 - i] == was[size - 1 - i];
      ghost var carryIn := carry;
      var n := carry + mul * b[size - 1 - i];
      TopStays(carry, mul, was, i, length, base);
      Quotient(n, base);
      QuotientNatural(n, base);
      DigitsUpdate(now, base, size - 1 - i, n % base);
      b[size - 1 - i] := n % base;
      carry := n / base;
      LowStep(was, now, base, mul, ch, i, carryIn, n, b[..]);
      i := i + 1;
    }
    assert carry == 0 by {
      StepEnd(b[..], was, base, mul, ch, i, carry, v);
    }
    Extended(b[..], was, base, mul, ch, i, v);
    newLength := i;
    HoldsNow(b[..], base, newLength, mul * v + ch);
  }

  lemma HoldsSays(s: seq<nat>, base: nat, length: nat, v: nat)
    requires Holds(s, base, length, v)
    ensures Digits(s, base) && length <= |s| && Number(s, base) == v && (length > 0 ==> s[|s| - length] != 0)
    ensures forall i | 0 <= i < |s| - length :: s[i] == 0
  {
  }

  lemma HoldsNow(s: seq<nat>, base: nat, length: nat, v: nat)
    requires Digits(s, base) && length <= |s| && Number(s, base) == v && (length > 0 ==> s[|s| - length] != 0)
    requires forall i | 0 <= i < |s| - length :: s[i] == 0
    ensures Holds(s, base, length, v)
  {
  }

  lemma DigitsUpdate(s: seq<nat>, base: nat, i: nat, x: nat)
    requires Digits(s, base) && i < |s| && x < base
    ensures Digits(s[i := x], base)
  {
  }

  lemma StepStart(was: seq<nat>, base: nat, mul: nat, ch: nat)
    ensures Number(was[|was| - 0..], base) == 0 && Pow(base, 0) == 1
  {
  }

  /** A nonzero digit times the multiplier, or a carry, leaves a nonzero digit or a carry. */
  lemma TopStays(carry: nat, mul: nat, was: seq<nat>, i: nat, length: nat, base: nat)
    requires mul >= 1 && base >= 2 && length <= |was| && i < |was| && (length > 0 ==> was[|was| - length] != 0)
    requires carry != 0 || i < length
    ensures var n := carry + mul * was[|was| - 1 - i];
            i + 1 >= length && n / base == 0 ==> n % base != 0
  {
    var x := was[|was| - 1 - i];
    var n := carry + mul * x;
    Quotient(n, base);
    if x > 0 {
      ScaleUp(1, x, mul);
    }
  }

  lemma StepEnd(now: seq<nat>, was: seq<nat>, base: nat, mul: nat, ch: nat, i: nat, carry: nat, v: nat)
    requires i <= |was| == |now| && Number(was, base) == v && mul * v + ch < Pow(base, |was|)
    requires Number(now[|now| - i..], base) + carry * Pow(base, i) == mul * Number(was[|was| - i..], base) + ch
    requires carry == 0 || i == |was|
    ensures carry == 0
  {
    hide Number, Pow;
    if i == |was| {
      assert was[0..] == was;
      if carry >= 1 {
        ScaleUp(1, carry, Pow(base, i));
      }
    }
  }

  lemma Extended(now: seq<nat>, was: seq<nat>, base: nat, mul: nat, ch: nat, i: nat, v: nat)
    requires i <= |was| == |now| && Number(was, base) == v && (forall k | 0 <= k < |was| - i :: was[k] == 0)
    requires now[..|now| - i] == was[..|was| - i]
    requires Number(now[|now| - i..], base) == mul * Number(was[|was| - i..], base) + ch
    ensures Number(now, base) == mul * v + ch && forall k | 0 <= k < |now| - i :: now[k] == 0
  {
    hide Number, Pow;
    assert forall k | 0 <= k < |now| - i :: now[k] == now[..|now| - i][k] == was[k];
    NumberZeros(was, base, |was| - i);
    NumberZeros(now, base, |now| - i);
  }

  // ---------------------------------------------------------------------------------------
  // Characters

  /**
   * The value of a character, or -1. The alphabet is every digit and letter except 0, I, O and l; the
   * ranges are those of its table.
   */
  function Digit(c: char): (d: int)
    ensures -1 <= d < 58
  {
    if '1' <= c <= '9' then c as int - '1' as int
    else if 'A' <= c <= 'H' then c as int - 'A' as int + 9
    else if 'J' <= c <= 'N' then c as int - 'J' as int + 17
    else if 'P' <= c <= 'Z' then c as int - 'P' as int + 22
    else if 'a' <= c <= 'k' then c as int - 'a' as int + 33
    else if 'm' <= c <= 'z' then c as int - 'm' as int + 44
    else -1
  }

  function Char(d: nat): char
    requires d < 58
  {
    if d < 9 then ('1' as int + d) as char
    else if d < 17 then ('A' as int + d - 9) as char
    else if d < 22 then ('J' as int + d - 17) as char
    else if d < 33 then ('P' as int + d - 22) as char
    else if d < 44 then ('a' as int + d - 33) as char
    else ('m' as int + d - 44) as char
  }

  /** Character and value determine each other, and no character of the alphabet is a space or a terminator. */
  lemma CharDigit(d: nat)
    requires d < 58
    ensures Digit(Char(d)) == d && !IsSpace(Char(d)) && Char(d) != '\0'
  {
  }

  lemma DigitChar(c: char)
    requires Digit(c) >= 0
    ensures Char(Digit(c)) == c
  {
  }

  predicate IsSpace(c: char) {
    c == ' ' || c == '\t' || c == '\n' || c == '\r' || c as int == 11 || c as int == 12
  }

  function Chars(ds: seq<nat>): (s: string)
    requires Digits(ds, 58)
    ensures |s| == |ds| && forall i | 0 <= i < |ds| :: s[i] == Char(ds[i])
  {
    seq(|ds|, i requires 0 <= i < |ds| => Char(ds[i]))
  }

  predicate AllDigits(s: string) {
    forall i | 0 <= i < |s| :: Digit(s[i]) >= 0
  }

  function Values(s: string): (ds: seq<nat>)
    requires AllDigits(s)
    ensures Digits(ds, 58) && |ds| == |s| && forall i | 0 <= i < |s| :: ds[i] == Digit(s[i])
  {
    seq(|s|, i requires 0 <= i < |s| => Value(s[i]))
  }

  function Value(c: char): nat
    requires Digit(c) >= 0
  {
    Digit(c)
  }

  // ---------------------------------------------------------------------------------------
  // What encoding and decoding mean

  function Run<T(==)>(s: seq<T>, x: T): (n: nat)
    ensures n <= |s| && (forall i | 0 <= i < n :: s[i] == x) && (n < |s| ==> s[n] != x)
  {
    if s != [] && s[0] == x then Run(s[1..], x) + 1 else 0
  }

  function Repeat<T>(x: T, n: nat): (s: seq<T>)
    ensures |s| == n && forall i | 0 <= i < n :: s[i] == x
  {
    seq(n, _ => x)
  }

  lemma {:induction false} RunOf<T>(x: T, n: nat, s: seq<T>)
    requires s != [] ==> s[0] != x
    ensures Run(Repeat(x, n) + s, x) == n
  {
    var t := Repeat(x, n) + s;
    if n == 0 {
      assert t == s;
    } else {
      assert t[1..] == Repeat(x, n - 1) + s;
      RunOf(x, n - 1, s);
    }
  }

  /** Leading zero bytes become '1's; the rest is the number in base 58. */
  function Encoded(bytes: seq<nat>): string {
    var z := Run(bytes, 0);
    Repeat('1', z) + Chars(Canonical(Number(bytes[z..], 256), 58))
  }

  lemma NumberOfFour(a: nat, b: nat, c: nat, d: nat, base: nat)
    ensures Number([a, b, c], base) == (a * base + b) * base + c
    ensures Number([a, b, c, d], base) == ((a * base + b) * base + c) * base + d
  {
    hide Number;
    NumberNext([], a, base);
    NumberNext([a], b, base);
    NumberNext([a, b], c, base);
    NumberNext([a, b, c], d, base);
    assert [] + [a] == [a] && [a] + [b] == [a, b] && [a, b] + [c] == [a, b, c] && [a, b, c] + [d] == [a, b, c, d];
  }

  lemma NumberNext(s: seq<nat>, x: nat, base: nat)
    ensures Number(s + [x], base) == Number(s, base) * base + x && Number([], base) == 0
  {
    assert (s + [x])[..|s|] == s;
  }

  /** The three bytes 0x62 are written "a3gV", and a zero byte before them as one '1'. */
  lemma KnownStrings()
    ensures Encoded([0x62, 0x62, 0x62]) == "a3gV" && Encoded([0, 0x62, 0x62, 0x62]) == "1a3gV"
  {
    hide Number, Canonical;
    NumberOfFour(0x62, 0x62, 0x62, 0, 256);
    NumberOfFour(33, 2, 39, 28, 58);
    CanonicalUnique([33, 2, 39, 28], 58);
    var bytes: seq<nat> := [0, 0x62, 0x62, 0x62];
    assert bytes[1..] == [0x62, 0x62, 0x62] && bytes[1..][0..] == bytes[1..];
    assert Run(bytes, 0) == 1 && Run(bytes[1..], 0) == 0;
  }

  /** How many spaces a string starts with, and how many other characters. */
  function Spaces(s: string): (n: nat)
    ensures n <= |s| && (forall i | 0 <= i < n :: IsSpace(s[i])) && (n < |s| ==> !IsSpace(s[n]))
  {
    if s != [] && IsSpace(s[0]) then Spaces(s[1..]) + 1 else 0
  }

  function Word(s: string): (n: nat)
    ensures n <= |s| && (forall i | 0 <= i < n :: !IsSpace(s[i])) && (n < |s| ==> IsSpace(s[n]))
  {
    if s != [] && !IsSpace(s[0]) then Word(s[1..]) + 1 else 0
  }

  /** The string after its leading spaces; then after its '1's; then its word. */
  function Trimmed(s: string): string {
    s[Spaces(s)..]
  }

  function Rest(s: string): string {
    Trimmed(s)[Run(Trimmed(s), '1')..]
  }

  /** Nothing but spaces around one word of the alphabet, and no terminator inside. */
  predicate WellFormed(s: string) {
    var u := Rest(s);
    '\0' !in s && AllDigits(u[..Word(u)]) && Word(u) + Spaces(u[Word(u)..]) == |u|
  }

  function DecodedBytes(s: string): seq<nat>
    requires WellFormed(s)
  {
    var u := Rest(s);
    Repeat(0, Run(Trimmed(s), '1')) + Canonical(Number(Values(u[..Word(u)]), 58), 256)
  }

  /** A well-formed string that stands for no bytes, or for no more than asked for. */
  function Decoded(s: string, maxLength: int): Option<seq<nat>> {
    if WellFormed(s) && (|DecodedBytes(s)| == 0 || |DecodedBytes(s)| <= maxLength) then Some(DecodedBytes(s)) else None
  }

  lemma {:induction false} WordIsAll(s: string)
    requires forall i | 0 <= i < |s| :: !IsSpace(s[i])
    ensures Word(s) == |s|
  {
    if s != [] {
      WordIsAll(s[1..]);
    }
  }

  /** Decoding undoes encoding. */
  lemma DecodeEncode(bytes: seq<nat>, maxLength: int)
    requires Digits(bytes, 256) && |bytes| <= maxLength
    ensures Decoded(Encoded(bytes), maxLength) == Some(bytes)
  {
    hide Number, Canonical, Run, Spaces, Word, Char, Digit;
    var z := Run(bytes, 0);
    var v := Number(bytes[z..], 256);
    var ds := Canonical(v, 58);
    var s, body := Encoded(bytes), Chars(ds);
    forall i | 0 <= i < |ds| ensures Digit(body[i]) == ds[i] && !IsSpace(body[i]) && body[i] != '\0' {
      CharDigit(ds[i]);
    }
    CharDigit(0);
    assert Char(0) == '1' by { OneIsZero(); }
    SpacesAre(s, 0);
    RunOf('1', z, body);
    assert Rest(s) == body;
    WordIsAll(body);
    assert body[..Word(body)] == body;
    SpacesAre(body[|body|..], 0);
    assert Values(body) == ds;
    CanonicalNumber(v, 58);
    CanonicalUnique(bytes[z..], 256);
    assert bytes == Repeat(0, z) + bytes[z..];
  }

  /** Encoding undoes decoding, up to the spaces around the word. */
  lemma EncodeDecode(s: string)
    requires WellFormed(s)
    ensures var t := Trimmed(s);
            Encoded(DecodedBytes(s)) == t[..Run(t, '1') + Word(Rest(s))]
  {
    hide Number, Canonical;
    var t, u := Trimmed(s), Rest(s);
    var z, body := Run(t, '1'), u[..Word(u)];
    var ds := Values(body);
    var v := Number(ds, 58);
    var r := DecodedBytes(s);
    RunOf(0, z, Canonical(v, 256));
    assert r[z..] == Canonical(v, 256);
    CanonicalNumber(v, 256);
    if ds != [] {
      assert body[0] == u[0] == t[z];
      assert t[z] != '1';
      OnlyOneIsZero(body[0]);
    }
    CanonicalUnique(ds, 58);
    forall i | 0 <= i < |ds| ensures Chars(ds)[i] == body[i] {
      DigitChar(body[i]);
    }
    assert Chars(ds) == body;
    assert t[..z + Word(u)] == Repeat('1', z) + body;
  }

  lemma OneIsZero()
    ensures Char(0) == '1' && Digit('1') == 0
  {
  }

  lemma OnlyOneIsZero(c: char)
    requires Digit(c) >= 0 && c != '1'
    ensures Digit(c) != 0
  {
  }

  // ---------------------------------------------------------------------------------------
  // The two operations

  /** The bytes, one after the other, multiplied into a buffer of base-58 digits. */
  method ToBase58(rest: seq<nat>) returns (b58: array<nat>, length: nat)
    requires Digits(rest, 256)
    ensures Holds(b58[..], 58, length, Number(rest, 256)) && fresh(b58)
  {
    hide Number, Pow, Holds;
    var size := |rest| * 138 / 100 + 1;
    EncodeBufferSuffices(|rest|);
    b58 := new nat[size](_ => 0);
    EmptyBuffer(b58[..], 58);
    NumberNone(256);
    length := 0;
    var k := 0;
    while k < |rest|
      invariant 0 <= k <= |rest| && Holds(b58[..], 58, length, Number(rest[..k], 256))
    {
      NumberGrows(rest, 256, k);
      PrefixFits(rest, 256, k + 1, Pow(58, size));
      length := MultiplyAdd(b58, 58, 256, rest[k], length, Number(rest[..k], 256));
      k := k + 1;
    }
    assert rest[..k] == rest;
  }

  /** Where the digits in use start: skipping zeros from there on skips nothing. */
  method SkipZeros(b: array<nat>, length: nat, ghost v: nat) returns (it: nat)
    requires Holds(b[..], 58, length, v) && length <= b.Length
    ensures it == b.Length - length
  {
    it := b.Length - length;
    while it < b.Length && b[it] == 0
      invariant b.Length - length <= it <= b.Length && forall i | b.Length - length <= i < it :: b[i] == 0
    {
      it := it + 1;
    }
  }

  method EncodeBase58(input: seq<nat>) returns (str: string)
    requires Digits(input, 256)
    ensures str == Encoded(input)
  {
    hide Number, Canonical, Holds;
    var zeroes := 0;
    while zeroes < |input| && input[zeroes] == 0
      invariant 0 <= zeroes <= |input| && forall i | 0 <= i < zeroes :: input[i] == 0
    {
      zeroes := zeroes + 1;
    }
    var rest := input[zeroes..];
    assert input == Repeat(0, zeroes) + rest;
    RunOf(0, zeroes, rest);
    var b58, length := ToBase58(rest);
    BufferIsCanonical(b58[..], 58, length, Number(rest, 256));
    var it := SkipZeros(b58, length, Number(rest, 256));
    assert b58[it..] == b58[..][it..];
    str := Repeat('1', zeroes) + Chars(b58[it..]);
  }

  lemma NumberNone(base: nat)
    ensures Number([], base) == 0
  {
  }

  lemma NumberGrows(s: seq<nat>, base: nat, k: nat)
    requires k < |s|
    ensures Number(s[..k + 1], base) == base * Number(s[..k], base) + s[k]
  {
    assert s[..k + 1][..k] == s[..k];
  }

  lemma PrefixFits(s: seq<nat>, base: nat, k: nat, room: nat)
    requires base >= 1 && Digits(s, base) && k <= |s| && Pow(base, |s|) <= room
    ensures Number(s[..k], base) < room
  {
    NumberBound(s[..k], base);
    PowGrows(base, k, |s|);
  }

  /** Longer numbers take at least as many digits. */
  lemma {:induction false} CanonicalGrows(v: nat, w: nat, base: nat)
    requires base >= 2 && v <= w
    ensures |Canonical(v, base)| <= |Canonical(w, base)|
    decreases w
  {
    if v > 0 {
      SmallerQuotient(w, base);
      DivideBelow(v, w, base);
      QuotientNatural(v, base);
      CanonicalGrows(v / base, w / base, base);
    }
  }

  lemma {:induction false} PrefixSmaller(s: seq<nat>, base: nat, k: nat)
    requires base >= 1 && k <= |s|
    ensures Number(s[..k], base) <= Number(s, base)
  {
    if k < |s| {
      PrefixSmaller(s[..|s| - 1], base, k);
      assert s[..|s| - 1][..k] == s[..k];
      ScaleUp(1, base, Number(s[..|s| - 1], base));
    } else {
      assert s[..k] == s;
    }
  }

  /** The characters of a word, multiplied into a buffer of bytes, as long as they are valid and fit. */
  method FromBase58(u: string, room: int) returns (ok: bool, k: nat, b256: array<nat>, length: nat)
    requires u != [] ==> u[0] != '1'
    ensures ok ==> k == Word(u) && AllDigits(u[..k]) && Holds(b256[..], 256, length, Number(Values(u[..k]), 58))
    ensures ok ==> length == 0 || length <= room
    ensures !ok && AllDigits(u[..Word(u)]) ==> |Canonical(Number(Values(u[..Word(u)]), 58), 256)| > Max(room, 0)
  {
    hide Number, Pow, Holds, Canonical, Digit;
    var size := |u| * 733 / 1000 + 1;
    DecodeBufferSuffices(|u|);
    b256 := new nat[size](_ => 0);
    EmptyBuffer(b256[..], 256);
    NumberNone(58);
    length, k := 0, 0;
    assert u[..0] == [];
    while k < |u| && !IsSpace(u[k])
      invariant 0 <= k <= |u| && (forall i | 0 <= i < k :: !IsSpace(u[i])) && AllDigits(u[..k])
      invariant Holds(b256[..], 256, length, Number(Values(u[..k]), 58)) && (length == 0 || length <= room)
    {
      var carry := Digit(u[k]);
      WordReaches(u, k + 1);
      if carry == -1 {
        assert u[..Word(u)][k] == u[k];
        return false, k, b256, length;
      }
      assert u[..k + 1] == u[..k] + [u[k]];
      ghost var ds := Values(u[..k + 1]);
      assert ds[..k] == Values(u[..k]) && ds[..k + 1] == ds;
      NumberGrows(ds, 58, k);
      WordFits(ds, |u|, Pow(256, size));
      length := MultiplyAdd(b256, 256, 58, carry, length, Number(Values(u[..k]), 58));
      k := k + 1;
      if length > room {
        TooLong(b256[..], length, u, k, room);
        return false, k, b256, length;
      }
    }
    WordReaches(u, k);
    ok := true;
  }

  lemma WordReaches(u: string, k: nat)
    requires k <= |u| && forall i | 0 <= i < k :: !IsSpace(u[i])
    ensures Word(u) >= k && (k == |u| || IsSpace(u[k]) ==> Word(u) == k)
  {
  }

  lemma WordFits(ds: seq<nat>, n: nat, room: nat)
    requires Digits(ds, 58) && |ds| <= n && Pow(58, n) <= room
    ensures Number(ds, 58) < room
  {
    NumberBound(ds, 58);
    PowGrows(58, |ds|, n);
  }

  /** The bytes so far only become more. */
  lemma TooLong(b: seq<nat>, length: nat, u: string, k: nat, room: int)
    requires 0 < k <= Word(u) && AllDigits(u[..k]) && u[0] != '1'
    requires Holds(b, 256, length, Number(Values(u[..k]), 58)) && length > room
    ensures AllDigits(u[..Word(u)]) ==> |Canonical(Number(Values(u[..Word(u)]), 58), 256)| > Max(room, 0)
  {
    hide Number, Holds, Canonical, Digit;
    if AllDigits(u[..Word(u)]) {
      var ds := Values(u[..Word(u)]);
      var v := Number(Values(u[..k]), 58);
      BufferIsCanonical(b, 256, length, v);
      assert ds[..k] == Values(u[..k]);
      OnlyOneIsZero(u[0]);
      CanonicalUnique(ds[..k], 58);
      PrefixSmaller(ds, 58, k);
      CanonicalGrows(v, Number(ds, 58), 256);
    }
  }

  method SkipSpaces(s: string) returns (n: nat)
    ensures n == Spaces(s)
  {
    n := 0;
    while n < |s| && IsSpace(s[n])
      invariant 0 <= n <= |s| && forall i | 0 <= i < n :: IsSpace(s[i])
    {
      n := n + 1;
    }
    SpacesAre(s, n);
  }

  /** Counts the leading '1's, giving up once there are too many. */
  method CountOnes(t: string, maxLength: int) returns (ok: bool, zeroes: nat)
    ensures ok ==> zeroes == Run(t, '1') && (zeroes == 0 || zeroes <= maxLength)
    ensures !ok ==> Run(t, '1') > 0 && Run(t, '1') > maxLength
  {
    zeroes := 0;
    while zeroes < |t| && t[zeroes] == '1'
      invariant 0 <= zeroes <= |t| && (zeroes == 0 || zeroes <= maxLength)
      invariant forall i | 0 <= i < zeroes :: t[i] == '1'
    {
      zeroes := zeroes + 1;
      if zeroes > maxLength {
        RunReaches(t, '1', zeroes);
        return false, zeroes;
      }
    }
    RunReaches(t, '1', zeroes);
    ok := true;
  }

  /** What is decoded after the leading '1's. */
  function DecodedRest(u: string, zeroes: nat, maxLength: int): Option<seq<nat>> {
    if !AllDigits(u[..Word(u)]) || Word(u) + Spaces(u[Word(u)..]) != |u| then None
    else
      var r := Repeat(0, zeroes) + Canonical(Number(Values(u[..Word(u)]), 58), 256);
      if |r| == 0 || |r| <= maxLength then Some(r) else None
  }

  lemma DecodedParts(s: string, maxLength: int)
    requires '\0' !in s
    ensures Decoded(s, maxLength) == DecodedRest(Rest(s), Run(Trimmed(s), '1'), maxLength)
  {
    hide Number, Canonical, AllDigits, Values, Run, Spaces, Word;
  }

  lemma TooManyOnes(u: string, zeroes: nat, maxLength: int)
    requires zeroes > 0 && zeroes > maxLength
    ensures DecodedRest(u, zeroes, maxLength) == None
  {
    hide Number, Canonical, AllDigits, Values, Run, Spaces, Word;
  }

  method DecodeRest(u: string, zeroes: nat, maxLength: int) returns (r: Option<seq<nat>>)
    requires (u != [] ==> u[0] != '1') && (zeroes == 0 || zeroes <= maxLength)
    ensures r == DecodedRest(u, zeroes, maxLength)
  {
    hide Number, Canonical, Holds, AllDigits, Values, Run, Spaces, Word;
    var ok, k, b256, length := FromBase58(u, maxLength - zeroes);
    if !ok {
      return None;
    }
    BufferIsCanonical(b256[..], 256, length, Number(Values(u[..k]), 58));
    var q := SkipSpaces(u[k..]);
    if k + q != |u| {
      return None;
    }
    var size := b256.Length;
    assert b256[size - length..] == b256[..][size - length..];
    r := Some(Repeat(0, zeroes) + b256[size - length..]);
  }

  method DecodeBase58(str: string, maxLength: int) returns (r: Option<seq<nat>>)
    ensures r == Decoded(str, maxLength)
  {
    hide Decoded, DecodedRest, Run, Spaces;
    if '\0' in str {
      NoTerminator(str, maxLength);
      return None;
    }
    DecodedParts(str, maxLength);
    var p := SkipSpaces(str);
    var t := str[p..];
    var few, zeroes := CountOnes(t, maxLength);
    if !few {
      TooManyOnes(Rest(str), Run(t, '1'), maxLength);
      return None;
    }
    r := DecodeRest(t[zeroes..], zeroes, maxLength);
  }

  lemma NoTerminator(s: string, maxLength: int)
    requires '\0' in s
    ensures Decoded(s, maxLength) == None
  {
  }

  lemma SpacesAre(s: string, n: nat)
    requires n <= |s| && (forall i | 0 <= i < n :: IsSpace(s[i])) && (n < |s| ==> !IsSpace(s[n]))
    ensures Spaces(s) == n
  {
  }

  lemma RunReaches<T>(s: seq<T>, x: T, n: nat)
    requires n <= |s| && forall i | 0 <= i < n :: s[i] == x
    ensures Run(s, x) >= n && (n == |s| || s[n] != x ==> Run(s, x) == n)
  {
  }
}
