/**
 * The compact form of a 256-bit target: a base-256 exponent, a sign bit and a 23-bit mantissa in 32 bits
 * (src/arith_uint256.cpp, src/arith_uint256.h), and the work a target stands for (src/chain.cpp).
 */
module CompactTarget {
  import opened Powers
  import opened Limbs
  import opened Arith256
  import opened Words

  const MANTISSA_LIMIT: nat := 0x80_0000
  const EXPONENT_UNIT: nat := 0x100_0000

  type Compact = x: nat | x < UINT32

  function Exponent(c: Compact): nat {
    c / EXPONENT_UNIT
  }

  function Mantissa(c: Compact): nat {
    c % MANTISSA_LIMIT
  }

  predicate Sign(c: Compact) {
    (c / MANTISSA_LIMIT) % 2 == 1
  }

  /** What a mantissa and an exponent stand for, before any reduction modulo 2^256. */
  function Scaled(mantissa: nat, exponent: nat): nat {
    hide Pow;
    if exponent <= 3 then
      PowPositive(256, 3 - exponent);
      mantissa / Pow(256, 3 - exponent)
    else mantissa * Pow(256, exponent - 3)
  }

  function Expanded(c: Compact): nat {
    Scaled(Mantissa(c), Exponent(c))
  }

  /** What some compact forms stand for: a positive, a negative and a vanishing one. */
  lemma KnownTargets()
    ensures Expanded(0x0500_9234) == 0x9234_0000 && !Sign(0x0500_9234)
    ensures Expanded(0x0492_3456) == 0x1234_5600 && Sign(0x0492_3456)
    ensures Expanded(0x0100_3456) == 0 && Expanded(0x0112_3456) == 0x12
  {
    hide Pow;
    ThreeBytes();
    assert Exponent(0x0500_9234) == 5 && Mantissa(0x0500_9234) == 0x9234;
    assert Exponent(0x0492_3456) == 4 && Mantissa(0x0492_3456) == 0x12_3456;
    assert Exponent(0x0100_3456) == 1 && Mantissa(0x0100_3456) == 0x3456;
    assert Exponent(0x0112_3456) == 1 && Mantissa(0x0112_3456) == 0x12_3456;
  }

  // ---------------------------------------------------------------------------------------
  // The compact form of a number

  /** How many bytes a number takes. */
  function ByteSize(x: nat): nat {
    if x == 0 then 0 else 1 + ByteSize(x / 256)
  }

  lemma {:induction false} ByteSizeBounds(x: nat)
    ensures x < Pow(256, ByteSize(x)) && (x > 0 ==> ByteSize(x) > 0 && Pow(256, ByteSize(x) - 1) <= x)
  {
    if x > 0 {
      ByteSizeBounds(x / 256);
      if x / 256 == 0 {
        assert ByteSize(x / 256) == 0;
      }
    }
  }

  lemma ByteSizeUnique(x: nat, n: nat)
    requires x < Pow(256, n) && (n > 0 ==> Pow(256, n - 1) <= x)
    ensures n == ByteSize(x)
  {
    ByteSizeBounds(x);
    if n < ByteSize(x) {
      PowGrows(256, n, ByteSize(x) - 1);
    } else if ByteSize(x) < n {
      PowGrows(256, ByteSize(x), n - 1);
    }
  }

  /** The three leading bytes, padded if there are fewer. */
  function Leading(x: nat): nat {
    hide Pow, ByteSize;
    var n := ByteSize(x);
    if n <= 3 then x * Pow(256, 3 - n) else
      PowPositive(256, n - 3);
      x / Pow(256, n - 3)
  }

  lemma LeadingBounds(x: nat)
    ensures Leading(x) < EXPONENT_UNIT && (x > 0 ==> Leading(x) >= 0x1_0000)
  {
    hide Pow;
    var n := ByteSize(x);
    ByteSizeBounds(x);
    ThreeBytes();
    if n <= 3 {
      PowAdd(256, n, 3 - n);
      PowPositive(256, 3 - n);
      ScaleUpStrictly(x, Pow(256, n), Pow(256, 3 - n));
      if x > 0 {
        PowAdd(256, n - 1, 3 - n);
        ScaleUp(Pow(256, n - 1), x, Pow(256, 3 - n));
      }
    } else {
      var d := Pow(256, n - 3);
      PowPositive(256, n - 3);
      Quotient(x, d);
      PowAdd(256, 3, n - 3);
      ScaleDown(x / d, Pow(256, 3), d);
      if x > 0 {
        PowAdd(256, 2, n - 3);
        DivideBelow(Pow(256, n - 1), x, d);
        DivideUniquely(Pow(256, n - 1), d, Pow(256, 2), 0);
      }
    }
  }

  lemma ThreeBytes()
    ensures Pow(256, 0) == 1 && Pow(256, 1) == 256 && Pow(256, 2) == 0x1_0000 && Pow(256, 3) == EXPONENT_UNIT
  {
    assert Pow(256, 1) == 256;
    PowAdd(256, 1, 1);
    PowAdd(256, 1, 2);
  }

  /** The mantissa and the exponent: a leading bit in the place of the sign makes room by one byte. */
  function RoundedMantissa(x: nat): nat {
    if Leading(x) >= MANTISSA_LIMIT then Leading(x) / 256 else Leading(x)
  }

  function RoundedExponent(x: nat): nat {
    if Leading(x) >= MANTISSA_LIMIT then ByteSize(x) + 1 else ByteSize(x)
  }

  /** The number that the compact form of x stands for. */
  function Rounded(x: nat): nat {
    Scaled(RoundedMantissa(x), RoundedExponent(x))
  }

  /** Up to three bytes nothing is lost; beyond, the number is cut to a multiple of a power of 256. */
  lemma RoundedForm(x: nat)
    ensures RoundedMantissa(x) < MANTISSA_LIMIT
    ensures RoundedExponent(x) <= 3 ==> Rounded(x) == x
    ensures RoundedExponent(x) > 3 ==>
              && RoundedMantissa(x) >= 0x8000
              && Pow(256, RoundedExponent(x) - 3) > 0
              && Rounded(x) == (x / Pow(256, RoundedExponent(x) - 3)) * Pow(256, RoundedExponent(x) - 3)
  {
    hide Pow;
    var n := ByteSize(x);
    LeadingBounds(x);
    ThreeBytes();
    if RoundedExponent(x) <= 3 {
      SmallRounded(x);
    } else {
      PowPositive(256, RoundedExponent(x) - 3);
      if n > 3 && Leading(x) >= MANTISSA_LIMIT {
        PowPositive(256, n - 3);
        DivideTwice(x, Pow(256, n - 3), 256);
        PowAdd(256, n - 3, 1);
      } else if n == 3 {
        assert x * 1 == x;
      }
      assert x > 0;
    }
  }

  lemma SmallRounded(x: nat)
    requires RoundedExponent(x) <= 3
    ensures Rounded(x) == x
  {
    hide Pow;
    var n := ByteSize(x);
    var d := Pow(256, 3 - n);
    PowPositive(256, 3 - n);
    if Leading(x) >= MANTISSA_LIMIT {
      var e := Pow(256, 2 - n);
      PowPositive(256, 2 - n);
      ThreeBytes();
      PowAdd(256, 2 - n, 1);
      Associate(x, e, 256);
      DivideUniquely(x * d, 256, x * e, 0);
      DivideUniquely(x * e, e, x, 0);
    } else {
      DivideUniquely(x * d, d, x, 0);
    }
  }

  /** Rounding goes to the largest number with a compact form that is not above. */
  lemma RoundedIsLargest(x: nat, mantissa: nat, exponent: nat)
    requires mantissa < MANTISSA_LIMIT
    ensures Rounded(x) <= x
    ensures Scaled(mantissa, exponent) <= x ==> Scaled(mantissa, exponent) <= Rounded(x)
  {
    hide Pow;
    RoundedForm(x);
    var n := RoundedExponent(x);
    if n > 3 {
      var p := Pow(256, n - 3);
      Quotient(x, p);
      if exponent >= n {
        PowAdd(256, exponent - n, n - 3);
        var m := mantissa * Pow(256, exponent - n);
        Associate(mantissa, Pow(256, exponent - n), p);
        if m * p <= x {
          DivideBelow(m * p, x, p);
          DivideUniquely(m * p, p, m, 0);
          ScaleUp(m, x / p, p);
        }
      } else {
        SmallerExponent(mantissa, exponent, RoundedMantissa(x), n);
      }
    }
  }

  /** A smaller exponent cannot reach a mantissa of at least fifteen bits. */
  lemma SmallerExponent(m: nat, e: nat, w: nat, n: nat)
    requires m < MANTISSA_LIMIT && w >= 0x8000 && e < n && n > 3
    ensures Scaled(m, e) <= Scaled(w, n)
  {
    hide Pow;
    var q := Pow(256, n - 4);
    PowPositive(256, n - 4);
    ThreeBytes();
    PowAdd(256, 1, n - 4);
    assert Scaled(w, n) >= 0x8000 * (256 * q) by {
      ScaleUp(0x8000, w, 256 * q);
    }
    if e <= 3 {
      PowPositive(256, 3 - e);
      DivideFits(m, Pow(256, 3 - e));
      ScaleUp(1, q, MANTISSA_LIMIT);
    } else {
      PowGrows(256, e - 3, n - 4);
      ScaleUp(Pow(256, e - 3), q, m);
      ScaleUp(m, MANTISSA_LIMIT, q);
    }
  }

  /** Rounding what is rounded changes nothing. */
  lemma RoundedTwice(x: nat)
    ensures Rounded(Rounded(x)) == Rounded(x)
  {
    RoundedForm(x);
    RoundedIsLargest(Rounded(x), RoundedMantissa(x), RoundedExponent(x));
  }

  /** Rounding keeps order. */
  lemma RoundedKeepsOrder(x: nat, y: nat)
    requires x <= y
    ensures Rounded(x) <= Rounded(y)
  {
    RoundedForm(x);
    RoundedIsLargest(x, 0, 0);
    RoundedIsLargest(y, RoundedMantissa(x), RoundedExponent(x));
  }

  /** The three comparisons of the code say exactly when a number does not fit in 256 bits. */
  lemma OverflowIsExact(m: nat, e: nat)
    requires m < MANTISSA_LIMIT
    ensures (m != 0 && (e > 34 || (m > 0xff && e > 33) || (m > 0xffff && e > 32))) <==>
            (e > 3 && m * Pow(256, e - 3) >= Modulus())
  {
    hide Pow;
    BytePower(4);
    PowPow(256, 4, WIDTH);
    assert Modulus() == Pow(256, 32);
    PowPositive(256, 30);
    PowPositive(256, 31);
    ThreeBytes();
    if e > 34 {
      PowGrows(256, 32, e - 3);
      if m > 0 {
        ScaleUp(1, m, Pow(256, e - 3));
      } else {
        PowPositive(256, 32);
      }
    } else if e == 34 {
      PowAdd(256, 1, 31);
      ExactAt(m, 256, Pow(256, 31));
    } else if e == 33 {
      PowAdd(256, 2, 30);
      ExactAt(m, 0x1_0000, Pow(256, 30));
    } else if e > 3 {
      PowGrows(256, e - 3, 29);
      PowAdd(256, 3, 29);
      PowPositive(256, 29);
      ScaleUp(Pow(256, e - 3), Pow(256, 29), m);
      ScaleUpStrictly(m, Pow(256, 3), Pow(256, 29));
    }
  }

  lemma ExactAt(m: nat, k: nat, p: nat)
    requires p > 0
    ensures m * p >= k * p <==> m >= k
  {
    if m < k {
      ScaleUpStrictly(m, k, p);
    } else {
      ScaleUp(k, m, p);
    }
  }

  lemma BytePower(n: nat)
    ensures Pow(256, n) == Pow(2, 8 * n) && (n == 4 ==> Pow(256, n) == BASE)
  {
    assert Pow(2, 4) == 16;
    PowAdd(2, 4, 4);
    PowPow(2, 8, n);
    if n == 4 {
      BaseIsPower();
    }
  }

  // ---------------------------------------------------------------------------------------
  // The operations

  /** Expands a compact form, reporting a negative or an oversized number; the latter is cut to 256 bits. */
  method SetCompact(x: ArithUint256, c: Compact) returns (negative: bool, overflow: bool)
    requires x.Valid()
    modifies x.pn
    ensures x.Value() == Expanded(c) % Modulus()
    ensures overflow <==> Expanded(c) >= Modulus()
    ensures negative <==> Sign(c) && Expanded(c) != 0
  {
    hide Pow, Val, Expanded, Modulus;
    var size, word := c / EXPONENT_UNIT, c % MANTISSA_LIMIT;
    if size <= 3 {
      SmallForm(c);
      word := word / Pow(2, 8 * (3 - size));
      var w := new ArithUint256.FromUint64(word);
      x.Assign(w);
    } else {
      LargeForm(c);
      var w := new ArithUint256.FromUint64(word);
      x.Assign(w);
      x.ShiftLeft(8 * (size - 3));
    }
    negative := word != 0 && (c / MANTISSA_LIMIT) % 2 == 1;
    overflow := word != 0 && (size > 34 || (word > 0xff && size > 33) || (word > 0xffff && size > 32));
  }

  lemma SmallForm(c: Compact)
    requires Exponent(c) <= 3
    ensures Pow(2, 8 * (3 - Exponent(c))) > 0
    ensures Expanded(c) == Mantissa(c) / Pow(2, 8 * (3 - Exponent(c))) <= Mantissa(c)
    ensures Modulus() > 0 && Expanded(c) < Modulus() && Expanded(c) % Modulus() == Expanded(c)
  {
    hide Pow, Modulus;
    var e, m := Exponent(c), Mantissa(c);
    PowPositive(256, 3 - e);
    BytePower(3 - e);
    DivideFits(m, Pow(256, 3 - e));
    ModulusIsLarge();
    DivideUniquely(Expanded(c), Modulus(), 0, Expanded(c));
  }

  lemma LargeForm(c: Compact)
    requires Exponent(c) > 3
    ensures Expanded(c) == Mantissa(c) * Pow(2, 8 * (Exponent(c) - 3)) && (Expanded(c) == 0 <==> Mantissa(c) == 0)
    ensures Expanded(c) >= Modulus() <==>
              && Mantissa(c) != 0
              && (|| Exponent(c) > 34 || (Mantissa(c) > 0xff && Exponent(c) > 33)
                  || (Mantissa(c) > 0xffff && Exponent(c) > 32))
  {
    hide Pow, Modulus;
    var e, m := Exponent(c), Mantissa(c);
    OverflowIsExact(m, e);
    BytePower(e - 3);
    PowPositive(256, e - 3);
    if m > 0 {
      ScaleUp(1, m, Pow(256, e - 3));
    }
  }

  lemma ModulusIsLarge()
    ensures Modulus() > UINT32
  {
    hide Pow;
    ModulusIsPower();
    BaseIsPower();
    PowGrows(2, 33, 256);
    PowAdd(2, 1, 32);
    assert Pow(2, 1) == 2 by { PowOne(2); }
  }

  /** The low 64 bits. */
  method GetLow64(x: ArithUint256) returns (r: nat)
    requires x.Valid()
    ensures r == x.Value() % UINT64
  {
    hide Val, Pow;
    BaseIsPower();
    BitOrAdds(x.pn[0], x.pn[1], 32);
    r := BitOr(x.pn[0], x.pn[1] as nat * BASE);
    LowLimbs(x.pn[..]);
  }

  lemma LowLimbs(s: seq<Limb>)
    requires |s| == WIDTH
    ensures Val(s) % UINT64 == s[0] + s[1] as nat * BASE
  {
    ValSplit(s, 2);
    assert Pow(BASE, 1) == BASE;
    PowAdd(BASE, 1, 1);
    ValStep(s, 0);
    ValStep(s, 1);
    DivideUniquely(Val(s), UINT64, Val(s[2..]), s[0] + s[1] as nat * BASE);
  }

  lemma ByteSizeFromBits(x: nat, bits: nat)
    requires x < Pow(2, bits) && (bits > 0 ==> Pow(2, bits - 1) <= x)
    ensures (bits + 7) / 8 == ByteSize(x)
  {
    hide Pow;
    var n := (bits + 7) / 8;
    BytePower(n);
    PowGrows(2, bits, 8 * n);
    if n > 0 {
      BytePower(n - 1);
      PowGrows(2, 8 * (n - 1), bits - 1);
    }
    ByteSizeUnique(x, n);
  }

  lemma {:induction false} BitOrAbove(a: nat, b: nat, c: nat, s: nat)
    requires a < Pow(2, s) && b < Pow(2, s)
    ensures BitOr(a + c * Pow(2, s), b) == BitOr(a, b) + c * Pow(2, s)
  {
    if s == 0 {
      BitOrZero(c);
    } else {
      var half := c * Pow(2, s - 1);
      assert c * Pow(2, s) == 2 * half by {
        Associate(2, c, Pow(2, s - 1));
        Associate(c, 2, Pow(2, s - 1));
      }
      BitOrAbove(a / 2, b / 2, c, s - 1);
      assert (a + 2 * half) / 2 == a / 2 + half;
    }
  }

  /** Putting exponent, sign and mantissa side by side. */
  lemma Packed(mantissa: nat, exponent: nat)
    requires mantissa < MANTISSA_LIMIT && exponent < 256
    ensures BitOr(mantissa, exponent * EXPONENT_UNIT) == mantissa + exponent * EXPONENT_UNIT < UINT32
    ensures BitOr(mantissa + exponent * EXPONENT_UNIT, MANTISSA_LIMIT) ==
            mantissa + MANTISSA_LIMIT + exponent * EXPONENT_UNIT < UINT32
  {
    hide BitOr;
    BytePower(3);
    ThreeBytes();
    var unit := Pow(2, 24);
    assert unit == EXPONENT_UNIT && Pow(2, 23) == MANTISSA_LIMIT;
    BitOrAdds(mantissa, exponent, 24);
    BitOrAbove(mantissa, MANTISSA_LIMIT, exponent, 24);
    BitOrAdds(mantissa, 1, 23);
  }

  /** Reading the fields of what was put together. */
  lemma PackedFields(mantissa: nat, exponent: nat, c: Compact, signed: bool)
    requires mantissa < MANTISSA_LIMIT && exponent < 256
    requires c == mantissa + (if signed then MANTISSA_LIMIT else 0) + exponent * EXPONENT_UNIT
    ensures Mantissa(c) == mantissa && Exponent(c) == exponent && (Sign(c) <==> signed)
  {
  }

  /** The three leading bytes, by the shifts of the code. */
  method GetLeading(x: ArithUint256, size: nat) returns (r: nat)
    requires x.Valid() && size == ByteSize(x.Value())
    ensures r == Leading(x.Value())
  {
    hide Val, Pow;
    ghost var v := x.Value();
    if size <= 3 {
      BytePower(3 - size);
      SmallValue(v);
      r := GetLow64(x);
      r := r * Pow(2, 8 * (3 - size));
    } else {
      var bn := new ArithUint256.Copy(x);
      bn.ShiftRight(8 * (size - 3));
      BytePower(size - 3);
      LeadingBounds(v);
      r := GetLow64(bn);
    }
  }

  /** The compact form of a number: the rounded mantissa and exponent, and a sign if there is anything to sign. */
  method GetCompact(x: ArithUint256, negative: bool) returns (c: Compact)
    requires x.Valid()
    ensures Mantissa(c) == RoundedMantissa(x.Value()) && Exponent(c) == RoundedExponent(x.Value())
    ensures Expanded(c) == Rounded(x.Value())
    ensures Sign(c) <==> negative && x.Value() != 0
  {
    hide Val, Pow, BitOr, Leading, ByteSize, Scaled;
    ghost var v := x.Value();
    var bits := x.Bits();
    var size := (bits + 7) / 8;
    ByteSizeFromBits(v, bits);
    LeadingBounds(v);
    LeadingZero();
    var compact := GetLeading(x, size);
    if (compact / MANTISSA_LIMIT) % 2 == 1 {
      compact := compact / 256;
      size := size + 1;
    }
    assert compact < MANTISSA_LIMIT && size < 256;
    Packed(compact, size);
    c := BitOr(compact, size * EXPONENT_UNIT);
    PackedFields(compact, size, c, false);
    if negative && c % MANTISSA_LIMIT != 0 {
      c := BitOr(c, MANTISSA_LIMIT);
      PackedFields(compact, size, c, true);
    }
  }

  /** Packing a number and unpacking it rounds it to the largest representable one not above, with no flag raised. */
  method Repacked(x: ArithUint256) returns (y: ArithUint256, negative: bool, overflow: bool)
    requires x.Valid()
    ensures y.Valid() && fresh(y.pn) && y.Value() == Rounded(x.Value()) <= x.Value() && !negative && !overflow
  {
    hide Val, Pow, Rounded, Expanded;
    ghost var v := x.Value();
    ValBound(x.pn[..]);
    RoundedIsLargest(v, 0, 0);
    y := new ArithUint256();
    var c := GetCompact(x, false);
    negative, overflow := SetCompact(y, c);
    DivideUniquely(Rounded(v), Modulus(), 0, Rounded(v));
  }

  lemma LeadingZero()
    ensures Leading(0) == 0
  {
  }

  lemma SmallValue(v: nat)
    requires ByteSize(v) <= 3
    ensures v < EXPONENT_UNIT && v % UINT64 == v
  {
    ByteSizeBounds(v);
    PowGrows(256, ByteSize(v), 3);
    ThreeBytes();
  }

  /** The work behind a target is the whole quotient 2^256 / (target + 1), or zero for an unusable one. */
  method GetBlockProof(nBits: Compact) returns (work: ArithUint256)
    ensures work.Valid() && fresh(work.pn)
    ensures (Sign(nBits) && Expanded(nBits) != 0) || Expanded(nBits) >= Modulus() || Expanded(nBits) == 0 ==>
              work.Value() == 0
    ensures !(Sign(nBits) && Expanded(nBits) != 0) && 0 < Expanded(nBits) < Modulus() ==>
              Expanded(nBits) + 1 < Modulus() && work.Value() == Modulus() / (Expanded(nBits) + 1)
  {
    hide Val, Pow;
    ghost var t := Expanded(nBits);
    var target := new ArithUint256();
    var negative, overflow := SetCompact(target, nBits);
    var zero := new ArithUint256();
    ModulusIsLarge();
    if t < Modulus() {
      DivideUniquely(t, Modulus(), 0, t);
    }
    var c := target.CompareTo(zero);
    if negative || overflow || c == 0 {
      work := zero;
      return;
    }
    TargetIsNotAllOnes(Mantissa(nBits), Exponent(nBits));
    work := target.Complement();
    var one := new ArithUint256.FromUint64(1);
    target.Add(one);
    DivideUniquely(t + 1, Modulus(), 0, t + 1);
    var ok := work.Divide(target);
    WorkQuotient(Modulus(), t);
    work.Add(one);
    DivideUniquely(Modulus() / (t + 1), Modulus(), 0, Modulus() / (t + 1));
  }

  lemma WorkQuotient(m: nat, t: nat)
    requires 0 < t && t + 1 < m
    ensures (m - 1 - t) / (t + 1) + 1 == m / (t + 1) < m
  {
    var q, r := (m - 1 - t) / (t + 1), (m - 1 - t) % (t + 1);
    Quotient(m - 1 - t, t + 1);
    Distribute(q, 1, t + 1);
    DivideUniquely(m, t + 1, q + 1, r);
    Quotient(m, t + 1);
    ScaleUp(2, t + 1, m / (t + 1));
  }

  /** The next number after a target still fits. */
  lemma TargetIsNotAllOnes(m: nat, e: nat)
    requires m < MANTISSA_LIMIT && Scaled(m, e) < Modulus()
    ensures Scaled(m, e) + 1 < Modulus()
  {
    hide Pow;
    ModulusIsLarge();
    if e <= 3 {
      PowPositive(256, 3 - e);
      DivideFits(m, Pow(256, 3 - e));
    } else {
      ThreeBytes();
      PowAdd(256, 1, e - 4);
      BytePower(4);
      PowPow(256, 4, WIDTH);
      PowAdd(256, 1, 31);
      var a, b := m * Pow(256, e - 4), Pow(256, 31);
      assert Scaled(m, e) == 256 * a by {
        Associate(m, 256, Pow(256, e - 4));
        Associate(256, m, Pow(256, e - 4));
      }
      assert Modulus() == 256 * b;
    }
  }
}
