/**
 * 256-bit arithmetic on eight 32-bit limbs (src/arith_uint256.cpp, src/arith_uint256.h). Every operator
 * rewrites the limbs in place; each is proved to compute on the represented number modulo 2^256.
 */
module Arith256 {
  import opened Powers
  import opened Limbs
  import opened Words

  class ArithUint256 {
    const pn: array<Limb>

    ghost predicate Valid() {
      pn.Length == WIDTH
    }

    ghost function Value(): nat
      requires Valid()
      reads pn
    {
      Val(pn[..])
    }

    constructor ()
      ensures Valid() && fresh(pn) && Value() == 0
    {
      pn := new Limb[WIDTH](_ => 0);
      new;
      ValZeros(pn[..]);
    }

    constructor Copy(b: ArithUint256)
      requires b.Valid()
      ensures Valid() && fresh(pn) && pn[..] == b.pn[..]
    {
      pn := new Limb[WIDTH](i requires 0 <= i < b.pn.Length reads b.pn => b.pn[i]);
      new;
      assert pn[..] == b.pn[..];
    }

    constructor FromUint64(b: nat)
      requires b < UINT64
      ensures Valid() && fresh(pn) && Value() == b
    {
      pn := new Limb[WIDTH](_ => 0);
      new;
      pn[0] := b % BASE;
      pn[1] := b / BASE;
      TwoLimbs(pn[..]);
    }

    /** Addition, the carry running from limb to limb. The operand may be the same object. */
    method Add(b: ArithUint256)
      requires Valid() && b.Valid()
      modifies pn
      ensures Value() == (old(Value()) + old(b.Value())) % Modulus()
    {
      ghost var x, y := pn[..], b.pn[..];
      hide Val, Pow;
      var carry: nat := 0;
      var i := 0;
      EmptyPrefixes(pn[..], x, y);
      while i < WIDTH
        invariant 0 <= i <= WIDTH && carry <= 1
        invariant pn[i..] == x[i..] && b.pn[i..] == y[i..]
        invariant Val(pn[..i]) + carry * Pow(BASE, i) == Val(x[..i]) + Val(y[..i])
      {
        var n: nat := carry + pn[i] + b.pn[i];
        ghost var low := pn[..i];
        AddStep(low, carry, x, y, i, n);
        assert n < UINT64;
        pn[i] := n % BASE;
        carry := n / BASE;
        assert pn[..i + 1] == low + [n % BASE];
        i := i + 1;
      }
      Whole(pn[..], x, y);
      ValBound(pn[..]);
      Reduced(Val(pn[..]), carry, Val(x) + Val(y), Modulus());
    }

    method Complement() returns (r: ArithUint256)
      requires Valid()
      ensures r.Valid() && fresh(r.pn) && r.Value() == Modulus() - 1 - Value()
    {
      hide Val, Pow;
      r := new ArithUint256();
      var i := 0;
      EmptyPrefixes(pn[..], r.pn[..], pn[..]);
      while i < WIDTH
        invariant 0 <= i <= WIDTH && Val(r.pn[..i]) + Val(pn[..i]) == Pow(BASE, i) - 1
      {
        ghost var low := r.pn[..i];
        r.pn[i] := BASE - 1 - pn[i];
        assert r.pn[..i + 1] == low + [BASE - 1 - pn[i]] && pn[..i + 1] == pn[..i] + [pn[i]];
        ComplementStep(low, pn[..i], pn[i]);
        i := i + 1;
      }
      assert pn[..i] == pn[..] && r.pn[..i] == r.pn[..];
    }

    /** Increments, carrying past every limb that becomes zero. */
    method Increment()
      requires Valid()
      modifies pn
      ensures Value() == (old(Value()) + 1) % Modulus()
    {
      hide Val, Pow;
      ghost var x := pn[..];
      var i := 0;
      var more := true;
      EmptyPrefixes(pn[..], x, x);
      while i < WIDTH && more
        invariant 0 <= i <= WIDTH && (more ==> pn[i..] == x[i..])
        invariant more ==> Val(pn[..i]) + Pow(BASE, i) == Val(x[..i]) + 1
        invariant !more ==> i < WIDTH && Val(pn[..]) == Val(x) + 1
        decreases more, WIDTH - i
      {
        ghost var low := pn[..i];
        var n := pn[i] as nat + 1;
        IncrementStep(low, x, i, n);
        pn[i] := n % BASE;
        assert pn[..i + 1] == low + [n % BASE];
        if pn[i] == 0 {
          i := i + 1;
        } else {
          more := false;
          assert pn[..] == low + [n] + x[i + 1..];
        }
      }
      ValBound(pn[..]);
      if more {
        Whole(pn[..], x, x);
        Reduced(Val(pn[..]), 1, Val(x) + 1, Modulus());
      } else {
        Reduced(Val(pn[..]), 0, Val(x) + 1, Modulus());
      }
    }

    method Negate() returns (r: ArithUint256)
      requires Valid()
      ensures r.Valid() && fresh(r.pn) && r.Value() == (0 as int - Value()) % Modulus()
    {
      hide Val, Pow;
      r := Complement();
      r.Increment();
      ModulusIsPower();
      ReducedSame(Modulus() - Value(), 0 as int - Value(), 1, Modulus());
    }

    /** Subtraction, as the addition of the negated operand. */
    method Subtract(b: ArithUint256)
      requires Valid() && b.Valid()
      modifies pn
      ensures Value() == (old(Value()) as int - old(b.Value())) % Modulus()
    {
      hide Val, Pow;
      var n := b.Negate();
      ghost var x, y := Value(), b.Value();
      Add(n);
      ModulusIsPower();
      SubtractTerms(x, y, Modulus());
    }

    /** Multiplication by one limb; the carry never leaves 64 bits. */
    method MultiplyByLimb(b: Limb)
      requires Valid()
      modifies pn
      ensures Value() == (old(Value()) * b) % Modulus()
    {
      hide Val, Pow;
      ghost var x := pn[..];
      EmptyPrefixes(x, x, x);
      var carry: nat := 0;
      var i := 0;
      while i < WIDTH
        invariant 0 <= i <= WIDTH && carry < BASE && pn[i..] == x[i..]
        invariant Val(pn[..i]) + carry * Pow(BASE, i) == Val(x[..i]) * b
      {
        ghost var low := pn[..i];
        LimbProduct(b, pn[i], carry, 0);
        var n := carry + b as nat * pn[i];
        assert n < UINT64;
        MultiplyStep(low, carry, x, b, i, n);
        pn[i] := n % BASE;
        carry := n / BASE;
        assert pn[..i + 1] == low + [n % BASE];
        i := i + 1;
      }
      Whole(pn[..], x, x);
      ValBound(pn[..]);
      Reduced(Val(pn[..]), carry, Val(x) * b, Modulus());
    }

    /** Adds one limb times another number, moved up by j limbs, to the accumulator. */
    static method AddProduct(a: array<Limb>, x: Limb, b: array<Limb>, j: nat) returns (ghost k: int)
      requires a.Length == WIDTH && b.Length == WIDTH && j < WIDTH && a != b
      modifies a
      ensures Val(a[..]) + k * Modulus() == old(Val(a[..])) + x * (Pow(BASE, j) * Val(b[..]))
    {
      hide Val, Pow;
      ghost var was, y := a[..], b[..];
      var carry: nat := 0;
      var i := 0;
      ProductStart(was, y, j, x);
      while i + j < WIDTH
        invariant 0 <= i <= WIDTH - j && carry < BASE && a[i + j..] == was[i + j..]
        invariant Val(a[..i + j]) + carry * Pow(BASE, i + j) == Val(was[..i + j]) + x * (Pow(BASE, j) * Val(y[..i]))
      {
        ghost var low := a[..i + j];
        LimbProduct(x, b[i], carry, a[i + j]);
        var n := carry + a[i + j] as nat + x as nat * b[i];
        assert n < UINT64;
        ProductStep(low, carry, was, x, y, i, j, n);
        a[i + j] := n % BASE;
        carry := n / BASE;
        assert a[..i + j + 1] == low + [n % BASE];
        i := i + 1;
      }
      Whole(a[..], was, y);
      k := ProductEnd(Val(a[..]), carry, Val(was), x, y, j);
    }

    /** Schoolbook multiplication, keeping the low 256 bits. */
    method Multiply(b: ArithUint256)
      requires Valid() && b.Valid()
      modifies pn
      ensures Value() == (old(Value()) * old(b.Value())) % Modulus()
    {
      hide Val, Pow;
      var a := new ArithUint256();
      ghost var x, y := pn[..], b.pn[..];
      ghost var k: int := 0;
      var j := 0;
      EmptyPrefixes(x, y, y);
      while j < WIDTH
        invariant 0 <= j <= WIDTH && pn[..] == x && b.pn[..] == y
        invariant Val(a.pn[..]) + k * Modulus() == Val(x[..j]) * Val(y)
      {
        ghost var was := Val(a.pn[..]);
        ghost var more := AddProduct(a.pn, pn[j], b.pn, j);
        MultiplyRow(was, k, more, Val(a.pn[..]), x, Val(y), j);
        k := k + more;
        j := j + 1;
      }
      Whole(x, x, x);
      ValBound(a.pn[..]);
      Reduced(Val(a.pn[..]), k, Val(x) * Val(y), Modulus());
      Assign(a);
    }

    method Assign(b: ArithUint256)
      requires Valid() && b.Valid()
      modifies pn
      ensures pn[..] == old(b.pn[..])
    {
      forall i | 0 <= i < WIDTH {
        pn[i] := b.pn[i];
      }
    }

    /** All limbs to zero. */
    method Clear()
      requires Valid()
      modifies pn
      ensures forall m | 0 <= m < WIDTH :: pn[m] == 0
    {
      forall m | 0 <= m < WIDTH {
        pn[m] := 0;
      }
    }

    /** A shift to the left by any amount; a shift by 256 or more leaves zero. */
    method ShiftLeft(amount: nat)
      requires Valid()
      modifies pn
      ensures Value() == (old(Value()) * Pow(2, amount)) % Modulus()
    {
      hide Val, Pow, High, Low, ShiftingLeft, BitOr;
      var a := new ArithUint256.Copy(this);
      ghost var x := pn[..];
      Clear();
      var k, s := amount / 32, amount % 32;
      ghost var room := if k < WIDTH then k else WIDTH;
      ShiftingLeftStarts(pn[..], x, room, s);
      var i := 0;
      while i < WIDTH
        invariant 0 <= i <= WIDTH && a.pn[..] == x
        invariant ShiftingLeft(pn[..], x, if i < WIDTH - room then i else WIDTH - room, room, s)
      {
        if i + k < WIDTH {
          ShiftLimbLeft(a.pn[i], x, i, k, s);
        }
        i := i + 1;
      }
      ShiftingLeftEnds(pn[..], x, room, s);
      if k >= WIDTH {
        ShiftedOut(Val(x), amount);
        ShiftedOut(Val(x), 32 * room + s);
      }
    }

    /** One limb of a shift to the left. */
    method ShiftLimbLeft(limb: Limb, ghost a: seq<Limb>, i: nat, k: nat, s: nat)
      requires Valid() && i + k < WIDTH && s < 32
      requires ShiftingLeft(pn[..], a, i, k, s) && |a| == WIDTH && limb == a[i]
      modifies pn
      ensures ShiftingLeft(pn[..], a, i + 1, k, s)
    {
      hide Val, Pow, High, Low, BitOr;
      ghost var r := pn[..];
      BitOrZero(High(limb, s));
      LowHighLimb(limb, s);
      if i > 0 {
        JoinLeft(a[i - 1], limb, s);
      } else {
        BitOrZero(Low(limb, s));
      }
      if i + k + 1 < WIDTH && s != 0 {
        pn[i + k + 1] := BitOr(pn[i + k + 1], limb / Pow(2, 32 - s));
      }
      pn[i + k] := BitOr(pn[i + k], (limb * Pow(2, s)) % BASE);
      ShiftingLeftStep(r, a, i, k, s, pn[..]);
    }

    /** A shift to the right by any amount. */
    method ShiftRight(amount: nat)
      requires Valid()
      modifies pn
      ensures Pow(2, amount) > 0 && Value() == old(Value()) / Pow(2, amount)
    {
      hide Val, Pow, ShiftingRight, BitOr;
      var a := new ArithUint256.Copy(this);
      ghost var x := pn[..];
      Clear();
      var k, s := amount / 32, amount % 32;
      ghost var room := if k < WIDTH then k else WIDTH;
      ShiftingRightStarts(pn[..], x, room, s);
      var i := 0;
      while i < WIDTH
        invariant 0 <= i <= WIDTH && a.pn[..] == x
        invariant ShiftingRight(pn[..], x, if i < room then 0 else i - room, room, s)
      {
        if i >= k {
          ShiftLimbRight(a.pn[i], x, i - k, k, s);
        }
        i := i + 1;
      }
      ShiftingRightEnds(pn[..], x, room, s);
      if k >= WIDTH {
        ValBound(x);
        ShiftedAway(Val(x), amount);
        ShiftedAway(Val(x), 32 * room + s);
      }
    }

    /** One limb of a shift to the right. */
    method ShiftLimbRight(limb: Limb, ghost a: seq<Limb>, e: nat, k: nat, s: nat)
      requires Valid() && e + k < WIDTH && s < 32
      requires ShiftingRight(pn[..], a, e, k, s) && |a| == WIDTH && limb == a[k + e]
      modifies pn
      ensures ShiftingRight(pn[..], a, e + 1, k, s)
    {
      hide Val, Pow, BitOr;
      ghost var r := pn[..];
      PowPositive(2, s);
      DivideFits(limb, Pow(2, s));
      BitOrZero(limb / Pow(2, s));
      if e >= 1 && s != 0 {
        JoinRight(a[k + e - 1], limb, s);
        pn[e - 1] := BitOr(pn[e - 1], (limb * Pow(2, 32 - s)) % BASE);
      }
      pn[e] := BitOr(pn[e], limb / Pow(2, s));
      ShiftingRightStep(r, a, e, k, s, pn[..]);
    }

    /** Compares from the top limb down. */
    method CompareTo(b: ArithUint256) returns (r: int)
      requires Valid() && b.Valid()
      ensures r == if Value() < b.Value() then -1 else if Value() > b.Value() then 1 else 0
    {
      hide Val;
      var i := WIDTH;
      while i > 0
        invariant 0 <= i <= WIDTH && pn[i..] == b.pn[i..]
      {
        i := i - 1;
        if pn[i] < b.pn[i] {
          TopDiffers(pn[..], b.pn[..], i);
          return -1;
        }
        if pn[i] > b.pn[i] {
          TopDiffers(b.pn[..], pn[..], i);
          return 1;
        }
      }
      assert pn[..] == b.pn[..];
      return 0;
    }

    /** One more than the position of the highest bit set, or zero. */
    method Bits() returns (r: nat)
      requires Valid()
      ensures r <= 256 && Value() < Pow(2, r) && (r > 0 ==> Pow(2, r - 1) <= Value())
      ensures r == 0 <==> Value() == 0
    {
      hide Val, Pow;
      PowZero(2);
      var pos := WIDTH;
      while pos > 0
        invariant 0 <= pos <= WIDTH && forall m | pos <= m < WIDTH :: pn[m] == 0
      {
        pos := pos - 1;
        if pn[pos] != 0 {
          var n := LimbBits(pn[pos]);
          TopLimb(pn[..], pos, n);
          return 32 * pos + n;
        }
      }
      ValZeros(pn[..]);
      return 0;
    }

    /** Sets one bit above which only higher bits are set. */
    method SetBit(shift: nat)
      requires Valid() && shift < 256 && ClearBelow(pn[..], shift + 1)
      modifies pn
      ensures Value() == old(Value()) + Pow(2, shift) && ClearBelow(pn[..], shift)
    {
      hide Val, Pow, BitOr;
      ghost var r := pn[..];
      JoinBit(r, shift);
      pn[shift / 32] := BitOr(pn[shift / 32], Pow(2, shift % 32));
      assert pn[..] == r[shift / 32 := pn[shift / 32]];
    }

    /** Shift-and-subtract division. Division by zero is refused, after the dividend has been cleared. */
    method Divide(b: ArithUint256) returns (ok: bool)
      requires Valid() && b.Valid()
      modifies pn
      ensures ok <==> old(b.Value()) != 0
      ensures Value() == if ok then old(Value()) / old(b.Value()) else 0
    {
      hide Val, Pow;
      ghost var n, d := Value(), b.Value();
      var div := new ArithUint256.Copy(b);
      var num := new ArithUint256.Copy(this);
      Clear();
      ValZeros(pn[..]);
      var numBits := num.Bits();
      var divBits := div.Bits();
      if divBits == 0 {
        return false;
      }
      if divBits > numBits {
        PowGrows(2, numBits, divBits - 1);
        DivideUniquely(n, d, 0, n);
        return true;
      }
      DivideLoop(div, num, numBits - divBits, n, d, divBits);
      return true;
    }

    /** From the highest possible bit of the quotient down to the lowest. */
    method DivideLoop(div: ArithUint256, num: ArithUint256, shift0: nat, ghost n: nat, ghost d: nat, ghost bits: nat)
      requires Valid() && div.Valid() && num.Valid() && pn != div.pn && pn != num.pn && div.pn != num.pn
      requires num.Value() == n && div.Value() == d && (forall m | 0 <= m < WIDTH :: pn[m] == 0)
      requires bits >= 1 && shift0 + bits <= 256 && Pow(2, bits - 1) <= d < Pow(2, bits) && n < Pow(2, shift0 + bits)
      modifies pn, div.pn, num.pn
      ensures d > 0 && Value() == n / d
    {
      hide Val, Pow, ClearBelow;
      PowPositive(2, bits - 1);
      ValZeros(pn[..]);
      AllClear(pn[..], shift0 + 1);
      DivisorFits(n, d, bits, shift0);
      div.ShiftLeft(shift0);
      var shift := shift0 as int;
      while shift >= 0
        invariant -1 <= shift <= shift0 && ClearBelow(pn[..], shift + 1)
        invariant Value() * d + num.Value() == n && num.Value() < d * Pow(2, shift + 1)
        invariant shift >= 0 ==> div.Value() == d * Pow(2, shift)
      {
        DivideBit(div, num, shift, n, d);
        div.ShiftRight(1);
        Halved(d, shift);
        shift := shift - 1;
      }
      DivideDone(Value(), num.Value(), n, d);
    }

    /** Subtracts the shifted divisor if it fits, and sets the bit of the quotient. */
    method DivideBit(div: ArithUint256, num: ArithUint256, shift: nat, ghost n: nat, ghost d: nat)
      requires Valid() && div.Valid() && num.Valid() && pn != div.pn && pn != num.pn && div.pn != num.pn
      requires shift < 256 && ClearBelow(pn[..], shift + 1) && div.Value() == d * Pow(2, shift)
      requires Value() * d + num.Value() == n && num.Value() < d * Pow(2, shift + 1)
      modifies pn, num.pn
      ensures ClearBelow(pn[..], shift)
      ensures Value() * d + num.Value() == n && num.Value() < d * Pow(2, shift)
    {
      hide Val, Pow, ClearBelow;
      var c := num.CompareTo(div);
      ValBound(num.pn[..]);
      DivideStep(Value(), num.Value(), n, d, shift);
      if c >= 0 {
        DivideUniquely(num.Value() - div.Value(), Modulus(), 0, num.Value() - div.Value());
        num.Subtract(div);
        SetBit(shift);
      } else {
        ClearLess(pn[..], shift);
      }
    }
  }

  lemma ShiftedAway(v: nat, amount: nat)
    requires amount >= 256 && v < Modulus()
    ensures Pow(2, amount) > 0 && v / Pow(2, amount) == 0
  {
    hide Pow;
    ModulusIsPower();
    PowGrows(2, 256, amount);
    DivideUniquely(v, Pow(2, amount), 0, v);
  }

  /** The highest limb that differs decides. */
  lemma TopDiffers(x: seq<Limb>, y: seq<Limb>, i: nat)
    requires |x| == |y| && i < |x| && x[i] < y[i] && x[i + 1..] == y[i + 1..]
    ensures Val(x) < Val(y)
  {
    hide Val, Pow;
    ValSplit(x, i + 1);
    ValSplit(y, i + 1);
    ValStep(x, i);
    ValStep(y, i);
    ValBound(x[..i]);
    ScaleUp(x[i] as nat + 1, y[i], Pow(BASE, i));
    Distribute(x[i], 1, Pow(BASE, i));
  }

  /** How many bits a nonzero limb takes, looked for from the top. */
  method LimbBits(x: Limb) returns (n: nat)
    requires x != 0
    ensures 1 <= n <= 32 && Pow(2, n - 1) <= x < Pow(2, n)
  {
    hide Pow;
    BaseIsPower();
    n := 31;
    while n > 0
      invariant 0 <= n <= 31 && x < Pow(2, n + 1)
    {
      TestBit(x, n);
      if (x / Pow(2, n)) % 2 == 1 {
        return n + 1;
      }
      n := n - 1;
    }
    PowZero(2);
    return 1;
  }

  lemma TestBit(x: nat, n: nat)
    requires x < Pow(2, n + 1)
    ensures Pow(2, n) > 0 && ((x / Pow(2, n)) % 2 == 1 <==> Pow(2, n) <= x)
  {
    PowPositive(2, n);
    var p := Pow(2, n);
    assert Pow(2, n + 1) == 2 * p;
    if p <= x {
      DivideUniquely(x, p, 1, x - p);
    } else {
      DivideUniquely(x, p, 0, x);
    }
  }

  lemma TopLimb(s: seq<Limb>, pos: nat, n: nat)
    requires |s| == WIDTH && pos < WIDTH && 1 <= n <= 32 && Pow(2, n - 1) <= s[pos] < Pow(2, n)
    requires forall m | pos < m < WIDTH :: s[m] == 0
    ensures Pow(2, 32 * pos + n - 1) <= Val(s) < Pow(2, 32 * pos + n) && Val(s) > 0
  {
    hide Val, Pow;
    ValSplit(s, pos + 1);
    ValZeros(s[pos + 1..]);
    ValStep(s, pos);
    ValBound(s[..pos]);
    LimbPower(pos);
    var p := Pow(BASE, pos);
    PowAdd(2, 32 * pos, n);
    PowAdd(2, 32 * pos, n - 1);
    PowPositive(2, 32 * pos + n - 1);
    ScaleUp(Pow(2, n - 1), s[pos], p);
    ScaleUp(s[pos] as nat + 1, Pow(2, n), p);
    Distribute(s[pos], 1, p);
  }

  /** No bit below position e is set. */
  ghost predicate ClearBelow(s: seq<Limb>, e: nat) {
    && |s| == WIDTH
    && (forall m | 0 <= m < WIDTH && 32 * (m + 1) <= e :: s[m] == 0)
    && (e / 32 < WIDTH ==> Pow(2, e % 32) > 0 && s[e / 32] % Pow(2, e % 32) == 0)
  }

  lemma AllClear(s: seq<Limb>, e: nat)
    requires |s| == WIDTH && forall m | 0 <= m < WIDTH :: s[m] == 0
    ensures ClearBelow(s, e)
  {
    hide Pow;
    PowPositive(2, e % 32);
    DivideUniquely(0, Pow(2, e % 32), 0, 0);
  }

  lemma HalfMultiple(x: nat, r: nat)
    requires Pow(2, r + 1) > 0 && x % Pow(2, r + 1) == 0
    ensures Pow(2, r) > 0 && x % Pow(2, r) == 0 && (x + Pow(2, r)) % Pow(2, r) == 0
  {
    PowPositive(2, r);
    var p := Pow(2, r);
    assert Pow(2, r + 1) == 2 * p;
    var c := x / (2 * p);
    Quotient(x, 2 * p);
    assert x == (2 * c) * p by {
      Associate(c, 2, p);
    }
    DivideUniquely(x, p, 2 * c, 0);
    Distribute(2 * c, 1, p);
    DivideUniquely(x + p, p, 2 * c + 1, 0);
  }

  /** The limb of a bit below which nothing is set. */
  lemma ClearLimb(s: seq<Limb>, shift: nat)
    requires shift < 256 && ClearBelow(s, shift + 1)
    ensures Pow(2, shift % 32 + 1) > 0 && s[shift / 32] % Pow(2, shift % 32 + 1) == 0
  {
    hide Pow;
    var j, r := shift / 32, shift % 32;
    PowPositive(2, r + 1);
    if r == 31 {
      assert 32 * (j + 1) <= shift + 1;
      DivideUniquely(0, Pow(2, r + 1), 0, 0);
    } else {
      assert (shift + 1) / 32 == j && (shift + 1) % 32 == r + 1;
    }
  }

  lemma ClearLess(s: seq<Limb>, shift: nat)
    requires shift < 256 && ClearBelow(s, shift + 1)
    ensures ClearBelow(s, shift)
  {
    hide Pow;
    ClearLimb(s, shift);
    HalfMultiple(s[shift / 32], shift % 32);
  }

  /** Or-ing in a bit with nothing set below or at it adds it. */
  lemma JoinBit(s: seq<Limb>, shift: nat)
    requires shift < 256 && ClearBelow(s, shift + 1)
    ensures var j := shift / 32;
            var x := BitOr(s[j], Pow(2, shift % 32));
            && x < BASE && Val(s[j := x]) == Val(s) + Pow(2, shift) && ClearBelow(s[j := x], shift)
  {
    hide Pow, Val, BitOr;
    var j, r := shift / 32, shift % 32;
    ClearLimb(s, shift);
    HalfMultiple(s[j], r);
    BitRoom(s[j], r);
    var x := BitOr(s[j], Pow(2, r));
    ValUpdate(s, j, x);
    LimbPower(j);
    PowAdd(2, 32 * j, r);
  }

  lemma BitRoom(x: Limb, r: nat)
    requires r < 32 && Pow(2, r + 1) > 0 && x % Pow(2, r + 1) == 0
    ensures BitOr(x, Pow(2, r)) == x + Pow(2, r) < BASE
  {
    hide BitOr;
    var p, c := Pow(2, r + 1), x / Pow(2, r + 1);
    PowPositive(2, r);
    assert p == 2 * Pow(2, r);
    Quotient(x, p);
    BitOrAdds(Pow(2, r), c, r + 1);
    BaseIsPower();
    PowAdd(2, 32 - (r + 1), r + 1);
    var q := Pow(2, 32 - (r + 1));
    ScaleDown(c, q, p);
    ScaleUp(c + 1, q, p);
    Distribute(c, 1, p);
  }

  /** The divisor, moved up to meet the dividend, still fits, and twice it is too large. */
  lemma DivisorFits(n: nat, d: nat, bits: nat, shift: nat)
    requires bits >= 1 && shift + bits <= 256 && Pow(2, bits - 1) <= d < Pow(2, bits) && n < Pow(2, shift + bits)
    ensures d * Pow(2, shift) < Modulus() && Modulus() > 0 && (d * Pow(2, shift)) % Modulus() == d * Pow(2, shift)
    ensures n < d * Pow(2, shift + 1)
  {
    hide Pow;
    ModulusIsPower();
    PowAdd(2, bits, shift);
    PowPositive(2, shift);
    ScaleUpStrictly(d, Pow(2, bits), Pow(2, shift));
    PowGrows(2, bits + shift, 256);
    DivideUniquely(d * Pow(2, shift), Modulus(), 0, d * Pow(2, shift));
    PowAdd(2, bits - 1, shift + 1);
    ScaleUp(Pow(2, bits - 1), d, Pow(2, shift + 1));
  }

  /** Either way the remainder is now below the shifted divisor. */
  lemma DivideStep(q: nat, rem: nat, n: nat, d: nat, shift: nat)
    requires q * d + rem == n && rem < d * Pow(2, shift + 1)
    ensures rem >= d * Pow(2, shift) ==>
              (q + Pow(2, shift)) * d + (rem - d * Pow(2, shift)) == n && rem - d * Pow(2, shift) < d * Pow(2, shift)
  {
    var p := Pow(2, shift);
    assert Pow(2, shift + 1) == 2 * p;
    Distribute(q, p, d);
    assert d * (2 * p) == 2 * (d * p) by {
      Associate(d, 2, p);
      Associate(2, d, p);
    }
  }

  lemma Halved(d: nat, shift: nat)
    ensures Pow(2, 1) == 2 && (shift >= 1 ==> (d * Pow(2, shift)) / 2 == d * Pow(2, shift - 1))
  {
    if shift >= 1 {
      var p := Pow(2, shift - 1);
      assert d * (2 * p) == (d * p) * 2 by {
        Associate(d, 2, p);
        Associate(d, p, 2);
      }
      DivideUniquely(d * Pow(2, shift), 2, d * p, 0);
    }
  }

  lemma DivideDone(q: nat, rem: nat, n: nat, d: nat)
    requires d > 0 && q * d + rem == n && rem < d * Pow(2, 0)
    ensures q == n / d
  {
    assert Pow(2, 0) == 1;
    DivideUniquely(n, d, q, rem);
  }

  /** Nothing below 2^256 survives a shift by 256 or more. */
  lemma ShiftedOut(v: nat, amount: nat)
    requires amount >= 256
    ensures Modulus() > 0 && (v * Pow(2, amount)) % Modulus() == 0
  {
    hide Pow;
    ModulusIsPower();
    PowAdd(2, 256, amount - 256);
    var m, rest := Modulus(), Pow(2, amount - 256);
    Associate(v, m, rest);
    Associate(v, rest, m);
    DivideUniquely(v * Pow(2, amount), m, v * rest, 0);
  }

  /** High and Low, written as the shifts of the code. */
  lemma LowHighLimb(x: Limb, s: nat)
    requires s < 32
    ensures Pow(2, 32 - s) > 0 && Low(x, s) == (x * Pow(2, s)) % BASE
    ensures s != 0 ==> High(x, s) == x / Pow(2, 32 - s)
    ensures s == 0 ==> High(x, s) == 0
  {
    hide Pow;
    PowPositive(2, 32 - s);
  }

  lemma SubtractTerms(x: nat, y: nat, m: nat)
    requires m > 0
    ensures (x + (0 as int - y) % m) % m == (x as int - y) % m
  {
    var z: int := 0 - (y as int);
    Quotient(z, m);
    ReducedSame(x + z % m, x as int - y, 0 - z / m, m);
  }

  /** A product of limbs plus two limbs fits in 64 bits. */
  lemma LimbProduct(a: Limb, b: Limb, c: Limb, d: Limb)
    ensures c as nat + d + a as nat * b < UINT64 && (c as nat + d + a as nat * b) / BASE < BASE
  {
    ScaleUp(a, BASE - 1, b);
    ScaleUp(b, BASE - 1, BASE - 1);
  }

  lemma MultiplyStep(low: seq<Limb>, carry: nat, x: seq<Limb>, b: nat, i: nat, n: nat)
    requires |low| == i < |x| && n == carry + b * x[i] as nat
    requires Val(low) + carry * Pow(BASE, i) == Val(x[..i]) * b
    ensures Val(low + [n % BASE]) + (n / BASE) * Pow(BASE, i + 1) == Val(x[..i + 1]) * b
  {
    hide Val, Pow;
    var p := Pow(BASE, i);
    CarryStep(low, n);
    ValStep(x, i);
    Distribute(carry, b * x[i], p);
    Distribute(Val(x[..i]), x[i] * p, b);
    Associate(x[i], p, b);
  }

  lemma ProductStart(was: seq<Limb>, y: seq<Limb>, j: nat, x: Limb)
    ensures Val(y[..0]) == 0 && x * (Pow(BASE, j) * Val(y[..0])) == 0
  {
  }

  lemma ProductStep(low: seq<Limb>, carry: nat, was: seq<Limb>, x: Limb, y: seq<Limb>, i: nat, j: nat, n: nat)
    requires |low| == i + j < |was| && i < |y| && n == carry + was[i + j] as nat + x as nat * y[i]
    requires Val(low) + carry * Pow(BASE, i + j) == Val(was[..i + j]) + x * (Pow(BASE, j) * Val(y[..i]))
    ensures Val(low + [n % BASE]) + (n / BASE) * Pow(BASE, i + j + 1) ==
            Val(was[..i + j + 1]) + x * (Pow(BASE, j) * Val(y[..i + 1]))
  {
    hide Val, Pow;
    var p, q := Pow(BASE, i + j), Pow(BASE, j);
    CarryStep(low, n);
    ValStep(was, i + j);
    ValStep(y, i);
    PowAdd(BASE, i, j);
    AddTerms(carry, was[i + j], x as nat * y[i], p);
    ProductTerms(x, y[i], Pow(BASE, i), q, Val(y[..i]));
  }

  lemma ProductTerms(x: nat, y: nat, p: nat, q: nat, v: nat)
    ensures x * (q * (v + y * p)) == x * (q * v) + (x * y) * (p * q)
  {
    Distribute(v, y * p, q);
    Distribute(q * v, q * (y * p), x);
    Associate(q, y, p);
    Associate(x, y, p * q);
    Associate(y, p, q);
    assert q * (y * p) == y * (p * q);
  }

  /** What falls off the top is a multiple of the modulus. */
  lemma ProductEnd(v: nat, carry: nat, was: nat, x: Limb, y: seq<Limb>, j: nat) returns (k: int)
    requires |y| == WIDTH && j < WIDTH
    requires v + carry * Modulus() == was + x * (Pow(BASE, j) * Val(y[..WIDTH - j]))
    ensures v + k * Modulus() == was + x * (Pow(BASE, j) * Val(y))
  {
    hide Val, Pow;
    var m, rest := Modulus(), Val(y[WIDTH - j..]);
    ValSplit(y, WIDTH - j);
    PowAdd(BASE, j, WIDTH - j);
    ProductRest(x, Pow(BASE, j), Pow(BASE, WIDTH - j), Val(y[..WIDTH - j]), rest);
    Distribute(carry, x * rest, m);
    k := carry + x * rest;
  }

  lemma ProductRest(x: nat, p: nat, q: nat, low: nat, rest: nat)
    ensures x * (p * (low + q * rest)) == x * (p * low) + (x * rest) * (p * q)
  {
    Distribute(low, q * rest, p);
    Distribute(p * low, p * (q * rest), x);
    Associate(p, q, rest);
    Associate(x, rest, p * q);
  }

  lemma MultiplyRow(was: nat, k: int, more: int, v: nat, x: seq<Limb>, y: nat, j: nat)
    requires j < |x| && was + k * Modulus() == Val(x[..j]) * y
    requires v + more * Modulus() == was + x[j] * (Pow(BASE, j) * y)
    ensures v + (k + more) * Modulus() == Val(x[..j + 1]) * y
  {
    hide Val, Pow;
    ValStep(x, j);
    Distribute(k, more, Modulus());
    Distribute(Val(x[..j]), x[j] * Pow(BASE, j), y);
    Associate(x[j], Pow(BASE, j), y);
  }

  lemma TwoLimbs(s: seq<Limb>)
    requires |s| == WIDTH && forall i | 2 <= i < WIDTH :: s[i] == 0
    ensures Val(s) == s[0] + s[1] * BASE
  {
    ValSplit(s, 2);
    ValZeros(s[2..]);
    ValStep(s, 0);
    ValStep(s, 1);
    assert Pow(BASE, 1) == BASE * Pow(BASE, 0);
  }

  lemma AddStep(low: seq<Limb>, carry: nat, x: seq<Limb>, y: seq<Limb>, i: nat, n: nat)
    requires |low| == i < |x| == |y| && n == carry + x[i] as nat + y[i]
    requires Val(low) + carry * Pow(BASE, i) == Val(x[..i]) + Val(y[..i])
    ensures Val(low + [n % BASE]) + (n / BASE) * Pow(BASE, i + 1) == Val(x[..i + 1]) + Val(y[..i + 1])
  {
    hide Val, Pow;
    CarryStep(low, n);
    ValStep(x, i);
    ValStep(y, i);
    AddTerms(carry, x[i], y[i], Pow(BASE, i));
  }

  lemma AddTerms(carry: nat, a: nat, b: nat, p: nat)
    ensures (carry + a + b) * p == carry * p + a * p + b * p
  {
  }

  lemma EmptyPrefixes(r: seq<Limb>, x: seq<Limb>, y: seq<Limb>)
    requires |r| == |x| == |y| == WIDTH
    ensures Val(r[..0]) == Val(x[..0]) == Val(y[..0]) == 0 && Pow(BASE, 0) == 1
  {
  }

  lemma Whole(r: seq<Limb>, x: seq<Limb>, y: seq<Limb>)
    requires |r| == |x| == |y| == WIDTH
    ensures r[..WIDTH] == r && x[..WIDTH] == x && y[..WIDTH] == y
  {
  }

  lemma ComplementStep(low: seq<Limb>, x: seq<Limb>, a: Limb)
    requires |low| == |x| && Val(low) + Val(x) == Pow(BASE, |x|) - 1
    ensures Val(low + [BASE - 1 - a]) + Val(x + [a]) == Pow(BASE, |x| + 1) - 1
  {
    hide Val, Pow;
    ValAppend(low, BASE - 1 - a);
    ValAppend(x, a);
    PowUnfold(BASE, |x|);
    Distribute(BASE - 1 - a, a, Pow(BASE, |x|));
    Distribute(BASE, -1, Pow(BASE, |x|));
  }

  lemma IncrementStep(low: seq<Limb>, x: seq<Limb>, i: nat, n: nat)
    requires |low| == i < |x| && n == x[i] as nat + 1 && Val(low) + Pow(BASE, i) == Val(x[..i]) + 1
    ensures n % BASE == 0 ==> Val(low + [n % BASE]) + Pow(BASE, i + 1) == Val(x[..i + 1]) + 1
    ensures n % BASE != 0 ==> n < BASE && Val(low + [n] + x[i + 1..]) == Val(x) + 1
  {
    hide Val, Pow;
    CarryStep(low, n);
    ValStep(x, i);
    Distribute(x[i], 1, Pow(BASE, i));
    if n % BASE != 0 {
      assert n / BASE == 0 && n % BASE == n;
      ValConcat(low + [n], x[i + 1..]);
      ValSplit(x, i + 1);
    } else {
      assert n == BASE && n / BASE == 1;
    }
  }
}
