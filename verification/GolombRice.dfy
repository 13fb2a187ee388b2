/**
 * Golomb-Rice coding on a stream of bits (src/util/golombrice.h), as the block filters of BIP 158 use it, and
 * the range reduction of src/util/fastrange.h. A stream is the sequence of its bits; reading past its end fails.
 */
module GolombRice {
  import opened Wrappers
  import opened Powers
  import opened Words

  type Bits = seq<bool>

  // ---------------------------------------------------------------------------------------
  // Fixed-width numbers

  /** The low n bits of a number, the highest first. */
  function LowBits(x: nat, n: nat): (r: Bits)
    ensures |r| == n
  {
    if n == 0 then [] else LowBits(x / 2, n - 1) + [x % 2 == 1]
  }

  function ReadNat(b: Bits): nat {
    if b == [] then 0 else 2 * ReadNat(b[..|b| - 1]) + if b[|b| - 1] then 1 else 0
  }

  lemma {:induction false} LowBitsRead(x: nat, n: nat)
    ensures Pow(2, n) > 0 && ReadNat(LowBits(x, n)) == x % Pow(2, n)
  {
    PowPositive(2, n);
    if n > 0 {
      var p := Pow(2, n - 1);
      LowBitsRead(x / 2, n - 1);
      var b := LowBits(x, n);
      assert b[..n - 1] == LowBits(x / 2, n - 1);
      assert Pow(2, n) == 2 * p;
      HalfRemainder(x, p);
    } else {
      DivideUniquely(x, 1, x, 0);
    }
  }

  lemma HalfRemainder(x: nat, p: nat)
    requires p > 0
    ensures x % (2 * p) == 2 * ((x / 2) % p) + x % 2
  {
    var q, r := (x / 2) / p, (x / 2) % p;
    Quotient(x / 2, p);
    assert q * (2 * p) == 2 * (q * p) by {
      Associate(q, 2, p);
      Associate(2, q, p);
    }
    DivideUniquely(x, 2 * p, q, 2 * r + x % 2);
  }

  // ---------------------------------------------------------------------------------------
  // One value

  function Ones(n: nat): (r: Bits)
    ensures |r| == n && forall i | 0 <= i < n :: r[i]
  {
    seq(n, _ => true)
  }

  /** The quotient in unary, a zero, and the remainder in p bits. */
  function Encoded(p: nat, x: nat): Bits {
    PowPositive(2, p);
    QuotientNatural(x, Pow(2, p));
    Ones(x / Pow(2, p)) + [false] + LowBits(x, p)
  }

  /** How many ones come first. */
  function Unary(b: Bits): (n: nat)
    ensures n <= |b| && (forall i | 0 <= i < n :: b[i]) && (n < |b| ==> !b[n])
  {
    if b != [] && b[0] then Unary(b[1..]) + 1 else 0
  }

  /** The value at the front of a stream, and the rest. */
  function Decoded(p: nat, b: Bits): Option<(nat, Bits)> {
    var q := Unary(b);
    if q + 1 + p > |b| then None
    else Some((q * Pow(2, p) + ReadNat(b[q + 1..q + 1 + p]), b[q + 1 + p..]))
  }

  /** Decoding undoes encoding, whatever follows in the stream. */
  lemma RoundTrip(p: nat, x: nat, rest: Bits)
    ensures Decoded(p, Encoded(p, x) + rest) == Some((x, rest))
  {
    hide Pow, LowBits, ReadNat;
    PowPositive(2, p);
    QuotientNatural(x, Pow(2, p));
    var q := x / Pow(2, p);
    var b := Encoded(p, x) + rest;
    assert b[q] == false && forall i | 0 <= i < q :: b[i];
    assert Unary(b) == q;
    assert b[q + 1..q + 1 + p] == LowBits(x, p) && b[q + 1 + p..] == rest;
    LowBitsRead(x, p);
    Quotient(x, Pow(2, p));
  }

  /** Nine with two remainder bits is two ones, a zero, and the bits of one. */
  lemma KnownCode()
    ensures Encoded(2, 9) == [true, true, false, false, true]
  {
    PowUnfold(2, 1);
    PowOne(2);
    assert LowBits(9, 2) == [false, true];
  }

  /** Writes a value; the ones go out in chunks of at most 64. */
  method Encode(stream: Bits, p: nat, x: nat) returns (r: Bits)
    ensures r == stream + Encoded(p, x)
  {
    hide Pow, LowBits;
    PowPositive(2, p);
    QuotientNatural(x, Pow(2, p));
    var q: nat := x / Pow(2, p);
    ghost var q0 := q;
    r := stream;
    while q > 0
      invariant 0 <= q <= q0 && r == stream + Ones(q0 - q)
    {
      var n := if q <= 64 then q else 64;
      r := r + Ones(n);
      q := q - n;
    }
    r := r + [false];
    r := r + LowBits(x, p);
  }

  /** Reads a value. */
  method Decode(stream: Bits, p: nat) returns (r: Option<(nat, Bits)>)
    ensures r == Decoded(p, stream)
  {
    hide Pow, ReadNat;
    var q := 0;
    while q < |stream| && stream[q]
      invariant 0 <= q <= |stream| && forall i | 0 <= i < q :: stream[i]
    {
      q := q + 1;
    }
    assert Unary(stream) == q;
    if q == |stream| || q + 1 + p > |stream| {
      return None;
    }
    var v := 0;
    var i := 0;
    ghost var field := stream[q + 1..q + 1 + p];
    assert field[..0] == [];
    ReadNone();
    while i < p
      invariant 0 <= i <= p && v == ReadNat(field[..i])
    {
      ReadOne(field, i);
      v := 2 * v + if stream[q + 1 + i] then 1 else 0;
      i := i + 1;
    }
    assert field[..p] == field;
    ScaleUp(0, q, Pow(2, p));
    r := Some((q * Pow(2, p) + v, stream[q + 1 + p..]));
  }

  lemma ReadNone()
    ensures ReadNat([]) == 0
  {
  }

  lemma ReadOne(b: Bits, i: nat)
    requires i < |b|
    ensures ReadNat(b[..i + 1]) == 2 * ReadNat(b[..i]) + if b[i] then 1 else 0
  {
    assert b[..i + 1][..i] == b[..i];
  }

  // ---------------------------------------------------------------------------------------
  // Range reduction

  /** The high half of the product of two 64-bit numbers. */
  function FastRange64(x: nat, n: nat): (r: nat)
    requires x < UINT64
    ensures n > 0 ==> r < n
    ensures n == 0 ==> r == 0
    ensures r * UINT64 <= x * n < (r + 1) * UINT64
  {
    if n > 0 then
      ScaleUpStrictly(x, UINT64, n);
      Quotient(x * n, UINT64);
      (x * n) / UINT64
    else 0
  }

  /** The form without 128-bit numbers computes the same, and none of its sums leaves 64 bits. */
  method FastRange64ByParts(x: nat, n: nat) returns (r: nat)
    requires x < UINT64 && n < UINT64
    ensures r == FastRange64(x, n)
  {
    var xHi, xLo, nHi, nLo := x / UINT32, x % UINT32, n / UINT32, n % UINT32;
    var ac, ad, bc, bd := xHi * nHi, xHi * nLo, xLo * nHi, xLo * nLo;
    PartsFit(xHi, nHi);
    PartsFit(xHi, nLo);
    PartsFit(xLo, nHi);
    PartsFit(xLo, nLo);
    var mid := bd / UINT32 + bc % UINT32 + ad % UINT32;
    r := ac + bc / UINT32 + ad / UINT32 + mid / UINT32;
    ProductByParts(xHi, xLo, nHi, nLo);
    assert x * n == ac * UINT64 + (ad + bc) * UINT32 + bd;
    assert 0 <= bd < UINT64 && 0 <= mid < UINT64;
    if n == 0 {
      assert x * n == 0;
    }
  }

  lemma PartsFit(a: nat, b: nat)
    requires a < UINT32 && b < UINT32
    ensures 0 <= a * b < UINT64
  {
    ScaleUp(a, UINT32 - 1, b);
  }

  lemma ProductByParts(a: nat, b: nat, c: nat, d: nat)
    ensures (a * UINT32 + b) * (c * UINT32 + d) == (a * c) * UINT64 + (a * d + b * c) * UINT32 + b * d
  {
    Distribute(a * UINT32, b, c * UINT32 + d);
    Distribute(c * UINT32, d, a * UINT32);
    Distribute(c * UINT32, d, b);
  }
}
