/**
 * Bech32 and Bech32m strings (src/bech32.cpp; BIP 173, BIP 350). Strings are sequences of bytes and values are
 * bytes of which five bits count. The checksum is a remainder of polynomials over GF(32), packed into 30
 * bits; everything proved about it rests on its being affine under exclusive or.
 */
module Bech32 {
  import opened Wrappers

  type Text = seq<bv8>

  datatype Encoding = BECH32 | BECH32M

  datatype Decoded = Invalid | Valid(encoding: Encoding, hrp: Text, data: seq<bv8>)

  const SEPARATOR: bv8 := 49

  /** Values that fit in five bits. */
  predicate Fives(v: seq<bv8>) {
    forall i | 0 <= i < |v| :: v[i] < 32
  }

  function EncodingConstant(e: Encoding): (r: bv32)
    ensures r < 0x4000_0000
  {
    if e.BECH32? then 1 else 0x2bc830a3
  }

  // ---------------------------------------------------------------------------------------
  // The checksum polynomial

  function X(a: bv32, b: bv32): bv32 {
    a ^ b
  }

  /** Exclusive or regroups freely. */
  lemma Regroup(a: bv32, b: bv32, c: bv32, d: bv32)
    ensures X(X(a, b), X(c, d)) == X(X(a, c), X(b, d))
  {
    hide X;
    RawRegroup(a, b, c, d);
    XIs(a, b);
    XIs(c, d);
    XIs(a, c);
    XIs(b, d);
  }

  lemma RawRegroup(a: bv32, b: bv32, c: bv32, d: bv32)
    ensures X(a ^ b, c ^ d) == X(a ^ c, b ^ d)
  {
  }

  lemma XIs(a: bv32, b: bv32)
    ensures X(a, b) == a ^ b
  {
  }

  lemma RawHigh(a: bv32, b: bv32)
    ensures High(a ^ b) == X(a >> 25, b >> 25)
  {
  }

  lemma RawLow(a: bv32, b: bv32)
    ensures Low(a ^ b) == X((a & 0x1ffffff) << 5, (b & 0x1ffffff) << 5)
  {
  }

  predicate Has(c: bv32, bit: bv32) {
    c & bit != 0
  }

  lemma RawHas(a: bv32, b: bv32, bit: bv32)
    requires bit == 1 || bit == 2 || bit == 4 || bit == 8 || bit == 16
    ensures Has(a ^ b, bit) <==> Has(a, bit) != Has(b, bit)
  {
    if bit == 1 {
      assert (a ^ b) & 1 != 0 <==> (a & 1 != 0) != (b & 1 != 0);
    } else if bit == 2 {
      assert (a ^ b) & 2 != 0 <==> (a & 2 != 0) != (b & 2 != 0);
    } else if bit == 4 {
      assert (a ^ b) & 4 != 0 <==> (a & 4 != 0) != (b & 4 != 0);
    } else if bit == 8 {
      assert (a ^ b) & 8 != 0 <==> (a & 8 != 0) != (b & 8 != 0);
    } else {
      assert (a ^ b) & 16 != 0 <==> (a & 16 != 0) != (b & 16 != 0);
    }
  }

  function Pick(c: bv32, bit: bv32, k: bv32): bv32 {
    if Has(c, bit) then k else 0
  }

  lemma PickXor(a: bv32, b: bv32, bit: bv32, k: bv32)
    requires bit == 1 || bit == 2 || bit == 4 || bit == 8 || bit == 16
    ensures Pick(X(a, b), bit, k) == X(Pick(a, bit, k), Pick(b, bit, k))
  {
    hide X, Has;
    XIs(a, b);
    RawHas(a, b, bit);
    XorZero(k);
    XorZero(0);
  }

  /** What the five bits shifted out at the top are worth modulo the generator. */
  function Fold(c0: bv32): bv32 {
    X(X(X(Pick(c0, 1, 0x3b6a57b2), Pick(c0, 2, 0x26508e6d)), X(Pick(c0, 4, 0x1ea119fa), Pick(c0, 8, 0x3d4233dd))),
      Pick(c0, 16, 0x2a1462b3))
  }

  /** The coefficient shifted out, and the others moved up. */
  function High(c: bv32): bv32 {
    c >> 25
  }

  function Low(c: bv32): bv32 {
    (c & 0x1ffffff) << 5
  }

  /** One more value. */
  function Step(c: bv32, v: bv32): bv32 {
    X(X(Low(c), v), Fold(High(c)))
  }

  function Widened(v: bv8): bv32 {
    v as bv32
  }

  function Poly(c: bv32, v: seq<bv8>): bv32 {
    if v == [] then c else Step(Poly(c, v[..|v| - 1]), Widened(v[|v| - 1]))
  }

  lemma FoldXor(a: bv32, b: bv32)
    ensures Fold(X(a, b)) == X(Fold(a), Fold(b))
  {
    hide X, Pick;
    var a1, a2, a4 := Pick(a, 1, 0x3b6a57b2), Pick(a, 2, 0x26508e6d), Pick(a, 4, 0x1ea119fa);
    var a8, a16 := Pick(a, 8, 0x3d4233dd), Pick(a, 16, 0x2a1462b3);
    var b1, b2, b4 := Pick(b, 1, 0x3b6a57b2), Pick(b, 2, 0x26508e6d), Pick(b, 4, 0x1ea119fa);
    var b8, b16 := Pick(b, 8, 0x3d4233dd), Pick(b, 16, 0x2a1462b3);
    PickXor(a, b, 1, 0x3b6a57b2);
    PickXor(a, b, 2, 0x26508e6d);
    PickXor(a, b, 4, 0x1ea119fa);
    PickXor(a, b, 8, 0x3d4233dd);
    PickXor(a, b, 16, 0x2a1462b3);
    Regroup(a1, b1, a2, b2);
    Regroup(a4, b4, a8, b8);
    Regroup(X(a1, a2), X(b1, b2), X(a4, a8), X(b4, b8));
    Regroup(X(X(a1, a2), X(a4, a8)), X(X(b1, b2), X(b4, b8)), a16, b16);
  }

  lemma HighXor(a: bv32, b: bv32)
    ensures High(X(a, b)) == X(High(a), High(b))
  {
    hide X, High;
    XIs(a, b);
    RawHigh(a, b);
    HighIs(a);
    HighIs(b);
  }

  lemma HighIs(c: bv32)
    ensures High(c) == c >> 25
  {
  }

  lemma LowXor(a: bv32, b: bv32)
    ensures Low(X(a, b)) == X(Low(a), Low(b))
  {
    hide X, Low;
    XIs(a, b);
    RawLow(a, b);
    LowIs(a);
    LowIs(b);
  }

  lemma LowIs(c: bv32)
    ensures Low(c) == (c & 0x1ffffff) << 5
  {
  }

  lemma StepXor(a: bv32, b: bv32, x: bv32, y: bv32)
    ensures Step(X(a, b), X(x, y)) == X(Step(a, x), Step(b, y))
  {
    hide Fold, X, High, Low;
    HighXor(a, b);
    LowXor(a, b);
    FoldXor(High(a), High(b));
    Regroup(Low(a), Low(b), x, y);
    Regroup(X(Low(a), x), X(Low(b), y), Fold(High(a)), Fold(High(b)));
  }

  /** Values combined position by position. */
  function Xor(x: seq<bv8>, y: seq<bv8>): (r: seq<bv8>)
    requires |x| == |y|
    ensures |r| == |x| && forall i | 0 <= i < |x| :: r[i] == X8(x[i], y[i])
  {
    seq(|x|, i requires 0 <= i < |x| => X8(x[i], y[i]))
  }

  function X8(x: bv8, y: bv8): bv8 {
    x ^ y
  }

  lemma WidenXor(x: bv8, y: bv8)
    ensures Widened(X8(x, y)) == X(Widened(x), Widened(y))
  {
    hide X, Widened, X8;
    RawWiden(x, y);
    Widens(x);
    Widens(y);
    Widens(x ^ y);
  }

  lemma Widens(x: bv8)
    ensures Widened(x) == x as bv32 && forall y: bv8 {:trigger X8(x, y)} :: X8(x, y) == x ^ y
  {
  }

  lemma RawWiden(x: bv8, y: bv8)
    ensures (x ^ y) as bv32 == X(x as bv32, y as bv32)
  {
  }

  /** The remainder is affine: combining starting values and inputs combines the results. */
  lemma {:induction false} PolyXor(a: bv32, b: bv32, x: seq<bv8>, y: seq<bv8>)
    requires |x| == |y|
    ensures Poly(X(a, b), Xor(x, y)) == X(Poly(a, x), Poly(b, y))
  {
    hide Step, X, X8, Widened;
    if x != [] {
      var n := |x| - 1;
      var z := Xor(x, y);
      assert z[..n] == Xor(x[..n], y[..n]);
      PolyXor(a, b, x[..n], y[..n]);
      WidenXor(x[n], y[n]);
      StepXor(Poly(a, x[..n]), Poly(b, y[..n]), Widened(x[n]), Widened(y[n]));
    }
  }

  lemma {:induction false} PolyConcat(c: bv32, x: seq<bv8>, y: seq<bv8>)
    ensures Poly(c, x + y) == Poly(Poly(c, x), y)
  {
    hide Step;
    if y == [] {
      assert x + y == x;
    } else {
      assert (x + y)[..|x + y| - 1] == x + y[..|y| - 1];
      PolyConcat(c, x, y[..|y| - 1]);
    }
  }

  lemma StepSmall(c: bv32, v: bv8)
    ensures Step(c, Widened(v)) < 0x4000_0000
  {
    hide X, Pick, Fold;
    assert Widened(v) < 256;
    FoldSmall(High(c));
    assert Low(c) < 0x4000_0000;
    XorSmall(Low(c), Widened(v), Fold(High(c)));
  }

  lemma FoldSmall(c: bv32)
    ensures Fold(c) < 0x4000_0000
  {
    hide X;
    var a, b := X(Pick(c, 1, 0x3b6a57b2), Pick(c, 2, 0x26508e6d)), X(Pick(c, 4, 0x1ea119fa), Pick(c, 8, 0x3d4233dd));
    XorSmall(Pick(c, 1, 0x3b6a57b2), Pick(c, 2, 0x26508e6d), 0);
    XorSmall(Pick(c, 4, 0x1ea119fa), Pick(c, 8, 0x3d4233dd), 0);
    XorZero(a);
    XorZero(b);
    XorSmall(a, b, Pick(c, 16, 0x2a1462b3));
  }

  lemma XorZero(a: bv32)
    ensures X(a, 0) == a && X(0, a) == a && X(a, a) == 0
  {
  }

  lemma XorSmall(a: bv32, b: bv32, c: bv32)
    requires a < 0x4000_0000 && b < 0x4000_0000 && c < 0x4000_0000
    ensures X(X(a, b), c) < 0x4000_0000
  {
  }

  lemma PolySmall(c: bv32, v: seq<bv8>)
    requires c < 0x4000_0000
    ensures Poly(c, v) < 0x4000_0000
  {
    hide Step;
    if v != [] {
      StepSmall(Poly(c, v[..|v| - 1]), v[|v| - 1]);
    }
  }

  // ---------------------------------------------------------------------------------------
  // Six values in thirty bits

  function Join(c: bv32, v: bv32): bv32 {
    X(c << 5, v)
  }

  function Pack(r: seq<bv8>): bv32 {
    if r == [] then 0 else Join(Pack(r[..|r| - 1]), Widened(r[|r| - 1]))
  }

  function Limit(n: nat): bv32
    requires n <= 6
  {
    if n == 0 then 1 else if n == 1 then 0x20 else if n == 2 then 0x400 else if n == 3 then 0x8000
    else if n == 4 then 0x10_0000 else if n == 5 then 0x200_0000 else 0x4000_0000
  }

  /** No more than n groups of five bits. */
  predicate Below(c: bv32, n: nat)
    requires n <= 6
  {
    c < Limit(n)
  }

  lemma JoinBound(c: bv32, v: bv8, n: nat)
    requires n < 6 && Below(c, n) && v < 32
    ensures Below(Join(c, Widened(v)), n + 1)
  {
    hide X;
    var w := Widened(v);
    assert w < 32;
    XIs(c << 5, w);
    match n
    case 0 => RawBound0(w);
    case 1 => RawBound1(c, w);
    case 2 => RawBound2(c, w);
    case 3 => RawBound3(c, w);
    case 4 => RawBound4(c, w);
    case 5 => RawBound5(c, w);
  }

  lemma RawBound0(w: bv32)
    requires w < 32
    ensures ((0 as bv32) << 5) ^ w < 0x20
  {
  }

  lemma RawBound1(c: bv32, w: bv32)
    requires c < 0x20 && w < 32
    ensures (c << 5) ^ w < 0x400
  {
  }

  lemma RawBound2(c: bv32, w: bv32)
    requires c < 0x400 && w < 32
    ensures (c << 5) ^ w < 0x8000
  {
  }

  lemma RawBound3(c: bv32, w: bv32)
    requires c < 0x8000 && w < 32
    ensures (c << 5) ^ w < 0x10_0000
  {
  }

  lemma RawBound4(c: bv32, w: bv32)
    requires c < 0x10_0000 && w < 32
    ensures (c << 5) ^ w < 0x200_0000
  {
  }

  lemma RawBound5(c: bv32, w: bv32)
    requires c < 0x200_0000 && w < 32
    ensures (c << 5) ^ w < 0x4000_0000
  {
  }

  lemma {:induction false} PackBound(r: seq<bv8>)
    requires |r| <= 6 && Fives(r)
    ensures Below(Pack(r), |r|)
  {
    hide Join, Widened, Below;
    if r != [] {
      PackBound(r[..|r| - 1]);
      JoinBound(Pack(r[..|r| - 1]), r[|r| - 1], |r| - 1);
    } else {
      ZeroBelow();
    }
  }

  lemma ZeroBelow()
    ensures Below(0, 0)
  {
  }

  /** A step that shifts nothing out only joins. */
  lemma StepJoins(c: bv32, v: bv32)
    requires c < 0x200_0000
    ensures Step(c, v) == Join(c, v)
  {
    hide X;
    assert High(c) == 0 && Low(c) == c << 5;
    assert Fold(0) == 0 by {
      XorZero(0);
    }
    XorZero(X(c << 5, v));
  }

  /** From zero, six values are simply packed. */
  lemma {:induction false} PolyPacks(r: seq<bv8>)
    requires |r| <= 6 && Fives(r)
    ensures Poly(0, r) == Pack(r)
  {
    hide Join, Step, Widened, Below;
    if r != [] {
      PolyPacks(r[..|r| - 1]);
      PackBound(r[..|r| - 1]);
      FifthLimit(Pack(r[..|r| - 1]), |r| - 1);
      StepJoins(Pack(r[..|r| - 1]), Widened(r[|r| - 1]));
    }
  }

  lemma FifthLimit(c: bv32, n: nat)
    requires n <= 5 && Below(c, n)
    ensures c < 0x200_0000
  {
  }

  lemma JoinSplits(c: bv32, v: bv8)
    requires c < 0x200_0000 && v < 32
    ensures Down(Join(c, Widened(v))) == c && Five(Join(c, Widened(v))) == v
  {
    var w := Widened(v);
    assert w < 32;
    RawSplit(c, w);
  }

  lemma RawSplit(c: bv32, w: bv32)
    requires c < 0x200_0000 && w < 32
    ensures ((c << 5) ^ w) >> 5 == c && ((c << 5) ^ w) & 31 == w
  {
  }

  /** The lowest five bits. */
  function Five(c: bv32): (v: bv8)
    ensures v < 32
  {
    var w := c & 31;
    assert w < 32;
    w as bv8
  }

  lemma SplitJoins(c: bv32)
    ensures Join(Down(c), Widened(Five(c))) == c
  {
    assert Widened(Five(c)) == c & 31;
    RawJoin(c);
  }

  lemma RawJoin(c: bv32)
    ensures X((c >> 5) << 5, c & 31) == c
  {
  }

  function Down(c: bv32): bv32 {
    c >> 5
  }

  /** A shift to the right by k groups of five bits. */
  function Shifted(m: bv32, k: nat): bv32 {
    if k == 0 then m else Down(Shifted(m, k - 1))
  }

  lemma {:induction false} ShiftedLimit(m: bv32, k: nat)
    requires Below(m, 6) && k <= 6
    ensures Below(Shifted(m, k), 6 - k)
  {
    hide Down, Below;
    if k > 0 {
      ShiftedLimit(m, k - 1);
      DownLimit(Shifted(m, k - 1), 7 - k);
    }
  }

  lemma ShiftedOut(m: bv32)
    requires m < 0x4000_0000
    ensures Shifted(m, 6) == 0
  {
    hide Shifted;
    ShiftedLimit(m, 6);
    BelowOne(Shifted(m, 6));
  }

  lemma BelowOne(c: bv32)
    requires c < 1
    ensures c == 0
  {
  }

  lemma DownLimit(c: bv32, n: nat)
    requires 1 <= n <= 6 && Below(c, n)
    ensures Below(Down(c), n - 1)
  {
    match n
    case 1 => assert c < 0x20 ==> c >> 5 < 1;
    case 2 => assert c < 0x400 ==> c >> 5 < 0x20;
    case 3 => assert c < 0x8000 ==> c >> 5 < 0x400;
    case 4 => assert c < 0x10_0000 ==> c >> 5 < 0x8000;
    case 5 => assert c < 0x200_0000 ==> c >> 5 < 0x10_0000;
    case 6 => assert c < 0x4000_0000 ==> c >> 5 < 0x200_0000;
  }

  /** The first groups of a 30-bit number, from the top. */
  function Groups(m: bv32, n: nat): (r: seq<bv8>)
    requires n <= 6
    ensures |r| == n && Fives(r)
  {
    if n == 0 then [] else Groups(m, n - 1) + [Five(Shifted(m, 6 - n))]
  }

  lemma {:induction false} PackGroups(m: bv32, n: nat)
    requires m < 0x4000_0000 && n <= 6
    ensures Pack(Groups(m, n)) == Shifted(m, 6 - n)
  {
    hide Join, Widened, Five, Down;
    if n == 0 {
      ShiftedOut(m);
    } else {
      PackGroups(m, n - 1);
      var r := Groups(m, n);
      assert r[..n - 1] == Groups(m, n - 1);
      SplitJoins(Shifted(m, 6 - n));
    }
  }

  /** The last value can be read off, and what is left is the packing of the others. */
  lemma LastFive(r: seq<bv8>)
    requires 1 <= |r| <= 6 && Fives(r)
    ensures Down(Pack(r)) == Pack(r[..|r| - 1]) && Five(Pack(r)) == r[|r| - 1]
  {
    hide Join, Widened, Five, Down, Below;
    var n := |r| - 1;
    PackBound(r[..n]);
    FifthLimit(Pack(r[..n]), n);
    JoinSplits(Pack(r[..n]), r[n]);
  }

  lemma {:induction false} PackInjective(r: seq<bv8>, t: seq<bv8>)
    requires |r| == |t| <= 6 && Fives(r) && Fives(t) && Pack(r) == Pack(t)
    ensures r == t
  {
    hide Pack, Five, Down;
    if r != [] {
      var n := |r| - 1;
      LastFive(r);
      LastFive(t);
      PackInjective(r[..n], t[..n]);
      assert r == r[..n] + [r[n]] && t == t[..n] + [t[n]];
    }
  }

  // ---------------------------------------------------------------------------------------
  // The checksum

  const ZEROS: seq<bv8> := [0, 0, 0, 0, 0, 0]

  /** The six values that complete a list. */
  function Checksum(k: bv32, enc: seq<bv8>): seq<bv8> {
    Groups(X(Poly(1, enc + ZEROS), k), 6)
  }

  /** Up to six values change the remainder by what they pack to. */
  lemma NextSix(p: bv32, t: seq<bv8>)
    requires |t| <= 6 && Fives(t)
    ensures Poly(p, t) == X(Poly(p, ZEROS[..|t|]), Pack(t))
  {
    hide Poly, X, X8, Pack;
    var o := ZEROS[..|t|];
    PolyXor(p, 0, o, t);
    XorZero(p);
    forall i | 0 <= i < |t| ensures Xor(o, t)[i] == t[i] {
      X8Zero(t[i]);
    }
    assert Xor(o, t) == t;
    PolyPacks(t);
  }

  /** What six values at the end change. */
  lemma LastSix(enc: seq<bv8>, t: seq<bv8>)
    requires |t| == 6 && Fives(t)
    ensures Poly(1, enc + t) == X(Poly(1, enc + ZEROS), Pack(t))
  {
    hide Poly, X, Pack;
    PolyConcat(1, enc, t);
    PolyConcat(1, enc, ZEROS);
    assert ZEROS[..6] == ZEROS;
    NextSix(Poly(1, enc), t);
  }

  lemma X8Zero(v: bv8)
    ensures X8(0, v) == v
  {
  }

  /** A list followed by its checksum has the remainder asked for; no other six values give it. */
  lemma ChecksumIsRight(k: bv32, enc: seq<bv8>, t: seq<bv8>)
    requires k < 0x4000_0000 && |t| == 6 && Fives(t)
    ensures Poly(1, enc + t) == k <==> t == Checksum(k, enc)
  {
    hide Poly, X, Pack, Groups;
    var p := Poly(1, enc + ZEROS);
    var m := X(p, k);
    PolySmall(1, enc + ZEROS);
    XorSmall(p, k, 0);
    XorZero(m);
    PackGroups(m, 6);
    LastSix(enc, t);
    if t == Checksum(k, enc) {
      Cancel(p, k);
    } else if Poly(1, enc + t) == k {
      Cancel(p, Pack(t));
      PackInjective(t, Groups(m, 6));
    }
  }

  // ---------------------------------------------------------------------------------------
  // Error detection

  /** The generator's lowest coefficients tell all thirty-two multiples apart. */
  lemma FoldKernel(h: bv32)
    requires h < 32 && Fold(h) & 31 == 0
    ensures h == 0
  {
  }

  lemma StepKernel(c: bv32)
    requires c < 0x4000_0000 && Step(c, 0) == 0
    ensures c == 0
  {
    hide X, Fold;
    XorZero(Low(c));
    SameWhenZero(Low(c), Fold(High(c)));
    assert Low(c) & 31 == 0 && High(c) < 32;
    FoldKernel(High(c));
    assert Fold(0) == 0 by {
      FoldZero();
    }
  }

  lemma FoldZero()
    ensures Fold(0) == 0
  {
    hide X;
    XorZero(0);
  }

  lemma SameWhenZero(a: bv32, b: bv32)
    requires X(a, b) == 0
    ensures a == b
  {
  }

  /** Remainders that differ still differ after the same value. */
  lemma StepInjective(c: bv32, d: bv32, v: bv32)
    requires c < 0x4000_0000 && d < 0x4000_0000 && Step(c, v) == Step(d, v)
    ensures c == d
  {
    hide X, Step;
    StepXor(c, d, v, v);
    XorZero(v);
    XorZero(Step(c, v));
    XorSmall(c, d, 0);
    XorZero(X(c, d));
    StepKernel(X(c, d));
    SameWhenZero(c, d);
  }

  lemma {:induction false} PolyInjective(c: bv32, d: bv32, z: seq<bv8>)
    requires c < 0x4000_0000 && d < 0x4000_0000 && Poly(c, z) == Poly(d, z)
    ensures c == d
  {
    hide Step, Widened;
    if z != [] {
      var y := z[..|z| - 1];
      PolySmall(c, y);
      PolySmall(d, y);
      StepInjective(Poly(c, y), Poly(d, y), Widened(z[|z| - 1]));
      PolyInjective(c, d, y);
    }
  }

  /**
   * Errors within any six neighbouring values are always detected: lists that agree outside them, wherever they
   * are and however long the lists, have different remainders.
   */
  lemma BurstChangesRemainder(a: seq<bv8>, t: seq<bv8>, u: seq<bv8>, z: seq<bv8>)
    requires |t| == |u| <= 6 && Fives(t) && Fives(u) && t != u
    ensures Poly(1, a + t + z) != Poly(1, a + u + z)
  {
    hide Poly, X, Pack;
    var p := Poly(1, a);
    PolyConcat(1, a, t);
    PolyConcat(1, a, u);
    PolyConcat(1, a + t, z);
    PolyConcat(1, a + u, z);
    NextSix(p, t);
    NextSix(p, u);
    var q := Poly(p, ZEROS[..|t|]);
    if Poly(p, t) == Poly(p, u) {
      Cancel(q, Pack(t));
      Cancel(q, Pack(u));
      PackInjective(t, u);
    }
    PolySmall(1, a + t);
    PolySmall(1, a + u);
    if Poly(1, a + t + z) == Poly(1, a + u + z) {
      PolyInjective(Poly(1, a + t), Poly(1, a + u), z);
    }
  }

  lemma Cancel(a: bv32, b: bv32)
    ensures X(a, X(a, b)) == b
  {
    hide X;
    XIs(a, b);
    RawCancel(a, b);
  }

  lemma RawCancel(a: bv32, b: bv32)
    ensures X(a, a ^ b) == b
  {
  }

  // ---------------------------------------------------------------------------------------
  // Characters

  /** The character of a value: qpzry9x8gf2tvdw0s3jn54khce6mua7l. */
  function Char(v: bv8): bv8
    requires v < 32
  {
    if v == 0 then 113 else if v == 1 then 112 else if v == 2 then 122 else if v == 3 then 114
    else if v == 4 then 121 else if v == 5 then 57
    else if v == 6 then 120 else if v == 7 then 56 else if v == 8 then 103 else if v == 9 then 102
    else if v == 10 then 50 else if v == 11 then 116
    else if v == 12 then 118 else if v == 13 then 100 else if v == 14 then 119
    else if v == 15 then 48 else if v == 16 then 115 else if v == 17 then 51
    else if v == 18 then 106 else if v == 19 then 110 else if v == 20 then 53
    else if v == 21 then 52 else if v == 22 then 107 else if v == 23 then 104
    else if v == 24 then 99 else if v == 25 then 101 else if v == 26 then 54
    else if v == 27 then 109 else if v == 28 then 117 else if v == 29 then 97
    else if v == 30 then 55 else 108
  }

  /** The value of a lower-case character. */
  function Lookup(c: bv8): Option<bv8> {
    if c == 113 then Some(0) else if c == 112 then Some(1) else if c == 122 then Some(2)
    else if c == 114 then Some(3) else if c == 121 then Some(4)
    else if c == 57 then Some(5) else if c == 120 then Some(6) else if c == 56 then Some(7)
    else if c == 103 then Some(8) else if c == 102 then Some(9)
    else if c == 50 then Some(10) else if c == 116 then Some(11) else if c == 118 then Some(12)
    else if c == 100 then Some(13) else if c == 119 then Some(14)
    else if c == 48 then Some(15) else if c == 115 then Some(16) else if c == 51 then Some(17)
    else if c == 106 then Some(18) else if c == 110 then Some(19)
    else if c == 53 then Some(20) else if c == 52 then Some(21) else if c == 107 then Some(22)
    else if c == 104 then Some(23) else if c == 99 then Some(24)
    else if c == 101 then Some(25) else if c == 54 then Some(26) else if c == 109 then Some(27)
    else if c == 117 then Some(28) else if c == 97 then Some(29)
    else if c == 55 then Some(30) else if c == 108 then Some(31) else None
  }

  predicate IsLower(c: bv8) {
    97 <= c <= 122
  }

  predicate IsUpper(c: bv8) {
    65 <= c <= 90
  }

  predicate IsPrintable(c: bv8) {
    33 <= c <= 126
  }

  function LowerCase(c: bv8): bv8 {
    if IsUpper(c) then c - 65 + 97 else c
  }

  /** The value of a character; upper and lower case count the same. */
  function Rev(c: bv8): Option<bv8> {
    Lookup(LowerCase(c))
  }

  lemma CharIsFine(v: bv8)
    requires v < 32
    ensures Lookup(Char(v)) == Some(v) && !IsUpper(Char(v)) && IsPrintable(Char(v)) && Char(v) != SEPARATOR
  {
    hide Char, Lookup;
    CharShape(v);
    if v < 16 {
      CharLow(v);
    } else if v < 24 {
      CharThird(v);
    } else {
      CharFourth(v);
    }
  }

  lemma CharShape(v: bv8)
    requires v < 32
    ensures !IsUpper(Char(v)) && IsPrintable(Char(v)) && Char(v) != SEPARATOR
  {
  }

  lemma CharLow(v: bv8)
    requires v < 16
    ensures Lookup(Char(v)) == Some(v)
  {
  }

  lemma CharThird(v: bv8)
    requires 16 <= v < 24
    ensures Lookup(Char(v)) == Some(v)
  {
    if v == 16 || v == 17 {
    } else if v == 18 || v == 19 {
    } else if v == 20 || v == 21 {
    } else {
      assert v == 22 || v == 23;
    }
  }

  lemma CharFourth(v: bv8)
    requires 24 <= v < 32
    ensures Lookup(Char(v)) == Some(v)
  {
    if v == 24 || v == 25 {
    } else if v == 26 || v == 27 {
    } else if v == 28 || v == 29 {
    } else {
      assert v == 30 || v == 31;
    }
  }

  lemma LookupIsFine(c: bv8)
    requires Lookup(c).Some?
    ensures Lookup(c).value < 32 && Char(Lookup(c).value) == c
  {
  }

  lemma LowerIsFine(c: bv8)
    ensures !IsUpper(c) ==> LowerCase(c) == c
    ensures IsUpper(c) ==> IsLower(LowerCase(c))
    ensures LowerCase(c) == SEPARATOR <==> c == SEPARATOR
    ensures IsPrintable(LowerCase(c)) <==> IsPrintable(c)
    ensures !IsUpper(LowerCase(c))
  {
  }

  // ---------------------------------------------------------------------------------------
  // What encoding and decoding mean

  /** The high bits of every character, a zero, and the low bits. */
  function Expand(hrp: Text): seq<bv8> {
    seq(|hrp|, i requires 0 <= i < |hrp| => TopBits(hrp[i])) + [0] +
    seq(|hrp|, i requires 0 <= i < |hrp| => LowBits(hrp[i]))
  }

  function TopBits(c: bv8): bv8 {
    c >> 5
  }

  function LowBits(c: bv8): bv8 {
    c & 0x1f
  }

  /** The encoding whose constant the checksum leaves, if any. */
  function Verified(hrp: Text, values: seq<bv8>): Option<Encoding> {
    var check := Poly(1, Expand(hrp) + values);
    if check == EncodingConstant(BECH32) then Some(BECH32)
    else if check == EncodingConstant(BECH32M) then Some(BECH32M)
    else None
  }

  lemma VerifiedIs(hrp: Text, values: seq<bv8>, e: Encoding)
    ensures Verified(hrp, values) == Some(e) <==> Poly(1, Expand(hrp) + values) == EncodingConstant(e)
  {
  }

  /**
   * A string that verifies stops verifying for its encoding when values within six neighbouring ones are changed;
   * a single wrong character and two exchanged neighbours are such changes.
   */
  lemma BurstIsDetected(e: Encoding, hrp: Text, a: seq<bv8>, t: seq<bv8>, u: seq<bv8>, z: seq<bv8>)
    requires |t| == |u| <= 6 && Fives(t) && Fives(u) && t != u
    requires Verified(hrp, a + t + z) == Some(e)
    ensures Verified(hrp, a + u + z) != Some(e)
  {
    hide Poly, Expand;
    var x := Expand(hrp);
    assert x + (a + t + z) == (x + a) + t + z && x + (a + u + z) == (x + a) + u + z;
    BurstChangesRemainder(x + a, t, u, z);
    VerifiedIs(hrp, a + t + z, e);
    VerifiedIs(hrp, a + u + z, e);
  }

  function Chars(v: seq<bv8>): (r: Text)
    requires Fives(v)
    ensures |r| == |v| && forall i | 0 <= i < |v| :: r[i] == Char(v[i])
  {
    seq(|v|, i requires 0 <= i < |v| => Char(v[i]))
  }

  function LowerAll(s: Text): (r: Text)
    ensures |r| == |s| && forall i | 0 <= i < |s| :: r[i] == LowerCase(s[i])
  {
    seq(|s|, i requires 0 <= i < |s| => LowerCase(s[i]))
  }

  /** The string of a human-readable part and values. */
  function Encoded(e: Encoding, hrp: Text, values: seq<bv8>): Text
    requires Fives(values)
  {
    FivesTogether(values, Checksum(EncodingConstant(e), Expand(hrp) + values));
    hrp + [SEPARATOR] + Chars(values + Checksum(EncodingConstant(e), Expand(hrp) + values))
  }

  lemma FivesTogether(a: seq<bv8>, b: seq<bv8>)
    requires Fives(a) && Fives(b)
    ensures Fives(a + b)
  {
  }

  /** Printable, and not of mixed case. */
  predicate CharactersOk(s: Text) {
    && (forall i | 0 <= i < |s| :: IsPrintable(s[i]))
    && ((forall i | 0 <= i < |s| :: !IsLower(s[i])) || (forall i | 0 <= i < |s| :: !IsUpper(s[i])))
  }

  /** The last separator, or -1. */
  function LastSeparator(s: Text): (p: int)
    ensures -1 <= p < |s| && (p >= 0 ==> s[p] == SEPARATOR) && forall i | p < i < |s| :: s[i] != SEPARATOR
  {
    if s == [] then -1 else if s[|s| - 1] == SEPARATOR then |s| - 1 else LastSeparator(s[..|s| - 1])
  }

  predicate AllValues(s: Text) {
    forall i | 0 <= i < |s| :: Rev(s[i]).Some?
  }

  function Values(s: Text): (v: seq<bv8>)
    requires AllValues(s)
    ensures |v| == |s| && forall i | 0 <= i < |s| :: v[i] == Rev(s[i]).value
  {
    seq(|s|, i requires 0 <= i < |s| => Rev(s[i]).value)
  }

  /** What a string stands for. */
  function DecodedText(s: Text): Decoded {
    var p := LastSeparator(s);
    if !CharactersOk(s) || |s| > 90 || p <= 0 || p + 7 > |s| || !AllValues(s[p + 1..]) then Invalid
    else
      var hrp, values := LowerAll(s[..p]), Values(s[p + 1..]);
      match Verified(hrp, values)
      case None => Invalid
      case Some(e) => Valid(e, hrp, values[..|values| - 6])
  }

  /** The last separator stands before characters that are no separators. */
  lemma SeparatorIs(s: Text, p: nat)
    requires p < |s| && s[p] == SEPARATOR && forall i | p < i < |s| :: s[i] != SEPARATOR
    ensures LastSeparator(s) == p
  {
  }

  lemma CharsAreValues(v: seq<bv8>)
    requires Fives(v)
    ensures AllValues(Chars(v)) && Values(Chars(v)) == v
    ensures forall i | 0 <= i < |v| :: !IsUpper(Chars(v)[i]) && IsPrintable(Chars(v)[i]) && Chars(v)[i] != SEPARATOR
  {
    hide Char, Lookup, IsUpper, IsPrintable;
    forall i | 0 <= i < |v|
      ensures Rev(Chars(v)[i]) == Some(v[i]) && Chars(v)[i] != SEPARATOR
      ensures !IsUpper(Chars(v)[i]) && IsPrintable(Chars(v)[i])
    {
      CharIsFine(v[i]);
      LowerIsFine(Char(v[i]));
    }
  }

  lemma LowerKeeps(s: Text)
    requires forall i | 0 <= i < |s| :: !IsUpper(s[i])
    ensures LowerAll(s) == s
  {
    hide IsUpper;
    forall i | 0 <= i < |s| ensures LowerAll(s)[i] == s[i] {
      LowerIsFine(s[i]);
    }
  }

  /**
   * Decoding undoes encoding exactly when the string is not too long and the human-readable part is not
   * empty and printable.
   */
  lemma DecodeEncode(e: Encoding, hrp: Text, values: seq<bv8>)
    requires Fives(values) && forall i | 0 <= i < |hrp| :: !IsUpper(hrp[i])
    ensures DecodedText(Encoded(e, hrp, values)) == Valid(e, hrp, values) <==>
              |hrp| + 1 + |values| + 6 <= 90 && hrp != [] && forall i | 0 <= i < |hrp| :: IsPrintable(hrp[i])
  {
    hide Poly, Checksum, Char, IsUpper, IsLower, IsPrintable, Verified, Rev, Expand, X, Groups;
    var k, enc := EncodingConstant(e), Expand(hrp) + values;
    var cs := Checksum(k, enc);
    ChecksumShape(k, enc);
    FivesTogether(values, cs);
    var all := values + cs;
    var s, tail := Encoded(e, hrp, values), Chars(all);
    CharsAreValues(all);
    assert s[|hrp|] == SEPARATOR && s[..|hrp|] == hrp && s[|hrp| + 1..] == tail;
    forall i | |hrp| < i < |s| ensures s[i] != SEPARATOR && !IsUpper(s[i]) && IsPrintable(s[i]) {
      assert s[i] == tail[i - |hrp| - 1];
    }
    SeparatorIs(s, |hrp|);
    SeparatorIsFine();
    LowerKeeps(hrp);
    ChecksumIsRight(k, enc, cs);
    assert Expand(hrp) + all == enc + cs;
    VerifiedIs(hrp, all, e);
    assert all[..|all| - 6] == values;
    assert forall i | 0 <= i < |s| :: !IsUpper(s[i]);
    if forall i | 0 <= i < |hrp| :: IsPrintable(hrp[i]) {
      assert CharactersOk(s);
    } else {
      var i :| 0 <= i < |hrp| && !IsPrintable(hrp[i]);
      assert s[i] == hrp[i];
    }
  }

  lemma SeparatorIsFine()
    ensures !IsUpper(SEPARATOR) && !IsLower(SEPARATOR) && IsPrintable(SEPARATOR) && LowerCase(SEPARATOR) == SEPARATOR
  {
  }

  lemma ChecksumShape(k: bv32, enc: seq<bv8>)
    ensures |Checksum(k, enc)| == 6 && Fives(Checksum(k, enc))
  {
  }

  lemma ValuesAreChars(s: Text)
    requires AllValues(s)
    ensures Fives(Values(s)) && Chars(Values(s)) == LowerAll(s)
  {
    hide Char, Lookup;
    forall i | 0 <= i < |s| ensures Values(s)[i] < 32 && Char(Values(s)[i]) == LowerCase(s[i]) {
      LookupIsFine(LowerCase(s[i]));
    }
  }

  /** Encoding what was decoded gives the string back in lower case: the checksum is the only one. */
  lemma EncodeDecode(s: Text)
    requires DecodedText(s).Valid?
    ensures var r := DecodedText(s);
            Fives(r.data) && r.hrp != [] && Encoded(r.encoding, r.hrp, r.data) == LowerAll(s)
  {
    hide Poly, Checksum, Char, IsUpper, IsLower, IsPrintable, Verified, Rev, Expand, CharactersOk, X, Groups, LowerCase;
    var r, p := DecodedText(s), LastSeparator(s);
    var values := Values(s[p + 1..]);
    ValuesAreChars(s[p + 1..]);
    var t := values[|values| - 6..];
    assert values == r.data + t;
    TailIsChecksum(r.encoding, r.hrp, r.data, t);
    LowerSplits(s, p);
  }

  lemma TailIsChecksum(e: Encoding, hrp: Text, data: seq<bv8>, t: seq<bv8>)
    requires |t| == 6 && Fives(t) && Verified(hrp, data + t) == Some(e)
    ensures t == Checksum(EncodingConstant(e), Expand(hrp) + data)
  {
    hide Poly, Checksum, Verified, Expand;
    var k, enc := EncodingConstant(e), Expand(hrp) + data;
    VerifiedIs(hrp, data + t, e);
    assert Expand(hrp) + (data + t) == enc + t;
    ChecksumIsRight(k, enc, t);
  }

  lemma LowerSplits(s: Text, p: nat)
    requires p < |s| && s[p] == SEPARATOR
    ensures LowerAll(s) == LowerAll(s[..p]) + [SEPARATOR] + LowerAll(s[p + 1..])
  {
    hide LowerCase;
    SeparatorIsFine();
  }

  // ---------------------------------------------------------------------------------------
  // Known strings

  lemma PolyNext(c: bv32, v: seq<bv8>, x: bv8)
    ensures Poly(c, v + [x]) == Step(Poly(c, v), Widened(x))
  {
    assert (v + [x])[..|v|] == v;
  }

  /** The remainder of three values. */
  lemma PolyThree(c: bv32, a: bv8, b: bv8, d: bv8)
    ensures Poly(c, [a, b, d]) == Step(Step(Step(c, Widened(a)), Widened(b)), Widened(d))
  {
    hide Step, Poly;
    PolyNone(c);
    PolyNext(c, [], a);
    PolyNext(c, [a], b);
    PolyNext(c, [a, b], d);
    assert [] + [a] == [a] && [a] + [b] == [a, b] && [a, b] + [d] == [a, b, d];
  }

  lemma PolyNone(c: bv32)
    ensures Poly(c, []) == c
  {
  }

  /** The human-readable part "a", expanded. */
  lemma ExpandA()
    ensures Expand([97]) == [3, 0, 1] && Poly(1, [3, 0, 1]) == 0x8c01
  {
    PolyThree(1, 3, 0, 1);
  }

  lemma KnownRemainders()
    ensures Poly(0x8c01, [10, 28, 25, 31, 20, 31]) == 1
    ensures Poly(0x8c01, [31, 0, 9, 19, 17, 29]) == 0x2bc830a3
  {
    var v: seq<bv8>, w: seq<bv8> := [10, 28, 25], [31, 0, 9];
    assert v + [31, 20, 31] == [10, 28, 25, 31, 20, 31] && w + [19, 17, 29] == [31, 0, 9, 19, 17, 29];
    PolyConcat(0x8c01, [10, 28, 25], [31, 20, 31]);
    PolyThree(0x8c01, 10, 28, 25);
    assert Poly(0x8c01, [10, 28, 25]) == 0x3d6afc2b;
    PolyThree(0x3d6afc2b, 31, 20, 31);
    PolyConcat(0x8c01, [31, 0, 9], [19, 17, 29]);
    PolyThree(0x8c01, 31, 0, 9);
    assert Poly(0x8c01, [31, 0, 9]) == 0x3d6aabbb;
    PolyThree(0x3d6aabbb, 19, 17, 29);
  }

  /** A string of the part "A", a separator and a checksum. */
  lemma DecodedChecksum(e: Encoding, s: Text, v: seq<bv8>)
    requires |s| == 8 && |v| == 6 && s[0] == 65 && s[1] == SEPARATOR && Poly(0x8c01, v) == EncodingConstant(e)
    requires forall i | 2 <= i < 8 :: s[i] != SEPARATOR && IsPrintable(s[i]) && !IsLower(s[i]) && Rev(s[i]).Some?
    requires forall i | 0 <= i < 6 :: Rev(s[2..][i]) == Some(v[i])
    ensures DecodedText(s) == Valid(e, [97], [])
  {
    hide Poly, Rev;
    ExpandA();
    SeparatorIs(s, 1);
    assert Values(s[2..]) == v && LowerAll(s[..1]) == [97];
    PolyConcat(1, [3, 0, 1], v);
    VerifiedIs([97], v, e);
  }

  lemma KnownValues()
    ensures Rev(50) == Some(10) && Rev(85) == Some(28) && Rev(69) == Some(25) && Rev(76) == Some(31)
    ensures Rev(53) == Some(20) && Rev(81) == Some(0) && Rev(70) == Some(9) && Rev(78) == Some(19)
    ensures Rev(51) == Some(17) && Rev(65) == Some(29)
  {
  }

  /** The strings "A12UEL5L" and "A1LQFN3A" stand for the part "a" and no data, one in each encoding. */
  lemma KnownStrings()
    ensures DecodedText([65, 49, 50, 85, 69, 76, 53, 76]) == Valid(BECH32, [97], [])
    ensures DecodedText([65, 49, 76, 81, 70, 78, 51, 65]) == Valid(BECH32M, [97], [])
  {
    hide Poly, Rev, DecodedText;
    KnownRemainders();
    KnownValues();
    DecodedChecksum(BECH32, [65, 49, 50, 85, 69, 76, 53, 76], [10, 28, 25, 31, 20, 31]);
    DecodedChecksum(BECH32M, [65, 49, 76, 81, 70, 78, 51, 65], [31, 0, 9, 19, 17, 29]);
  }

  // ---------------------------------------------------------------------------------------
  // The operations

  method PolyMod(v: seq<bv8>) returns (c: bv32)
    ensures c == Poly(1, v)
  {
    hide Step;
    c := 1;
    var i := 0;
    assert v[..0] == [];
    while i < |v|
      invariant 0 <= i <= |v| && c == Poly(1, v[..i])
    {
      assert v[..i + 1][..i] == v[..i];
      c := AddValue(c, v[i]);
      i := i + 1;
    }
    assert v[..i] == v;
  }

  /** Shifts one more value in, and folds back what is shifted out bit by bit. */
  method AddValue(c: bv32, v: bv8) returns (r: bv32)
    ensures r == Step(c, Widened(v))
  {
    hide X, Has;
    var c0 := c >> 25;
    r := ((c & 0x1ffffff) << 5) ^ (v as bv32);
    XIs(Low(c), Widened(v));
    ghost var z := r;
    r := AddIf(r, c0, 1, 0x3b6a57b2);
    r := AddIf(r, c0, 2, 0x26508e6d);
    r := AddIf(r, c0, 4, 0x1ea119fa);
    r := AddIf(r, c0, 8, 0x3d4233dd);
    r := AddIf(r, c0, 16, 0x2a1462b3);
    InTurn(z, Pick(c0, 1, 0x3b6a57b2), Pick(c0, 2, 0x26508e6d), Pick(c0, 4, 0x1ea119fa), Pick(c0, 8, 0x3d4233dd),
           Pick(c0, 16, 0x2a1462b3));
  }

  method AddIf(c: bv32, c0: bv32, bit: bv32, k: bv32) returns (r: bv32)
    ensures r == X(c, Pick(c0, bit, k))
  {
    hide X;
    XIs(c, k);
    XorZero(c);
    if c0 & bit != 0 {
      r := c ^ k;
    } else {
      r := c;
    }
  }

  lemma XAssoc(a: bv32, b: bv32, c: bv32)
    ensures X(X(a, b), c) == X(a, X(b, c))
  {
    hide X;
    XIs(a, b);
    XIs(b, c);
    RawAssoc(a, b, c);
  }

  lemma RawAssoc(a: bv32, b: bv32, c: bv32)
    ensures X(a ^ b, c) == X(a, b ^ c)
  {
  }

  lemma InTurn(z: bv32, a: bv32, b: bv32, c: bv32, d: bv32, e: bv32)
    ensures X(X(X(X(X(z, a), b), c), d), e) == X(z, X(X(X(a, b), X(c, d)), e))
  {
    hide X;
    XAssoc(z, a, b);
    XAssoc(X(z, X(a, b)), c, d);
    XAssoc(z, X(a, b), X(c, d));
    XAssoc(z, X(X(a, b), X(c, d)), e);
  }

  method ExpandHRP(hrp: Text) returns (r: seq<bv8>)
    ensures r == Expand(hrp)
  {
    var ret := new bv8[|hrp| * 2 + 1](_ => 0);
    var i := 0;
    while i < |hrp|
      invariant 0 <= i <= |hrp|
      invariant forall k | 0 <= k < i :: ret[k] == TopBits(hrp[k])
      invariant forall k | |hrp| < k <= |hrp| + i :: ret[k] == LowBits(hrp[k - |hrp| - 1])
    {
      ret[i] := TopBits(hrp[i]);
      ret[i + |hrp| + 1] := LowBits(hrp[i]);
      i := i + 1;
    }
    ret[|hrp|] := 0;
    r := ret[..];
  }

  method VerifyChecksum(hrp: Text, values: seq<bv8>) returns (r: Option<Encoding>)
    ensures r == Verified(hrp, values)
  {
    var expanded := ExpandHRP(hrp);
    var check := PolyMod(expanded + values);
    if check == EncodingConstant(BECH32) {
      return Some(BECH32);
    }
    if check == EncodingConstant(BECH32M) {
      return Some(BECH32M);
    }
    return None;
  }

  method CreateChecksum(e: Encoding, hrp: Text, values: seq<bv8>) returns (r: seq<bv8>)
    ensures r == Checksum(EncodingConstant(e), Expand(hrp) + values)
  {
    hide X, Shifted, Five;
    var enc := ExpandHRP(hrp);
    enc := enc + values;
    var mod := PolyMod(enc + ZEROS);
    XIs(mod, EncodingConstant(e));
    mod := mod ^ EncodingConstant(e);
    r := [];
    var i := 0;
    while i < 6
      invariant 0 <= i <= 6 && r == Groups(mod, i)
    {
      r := r + [Five(Shifted(mod, 5 - i))];
      i := i + 1;
    }
  }

  /** Notes every character that is not printable or whose case differs from an earlier letter's. */
  method CheckCharacters(s: Text) returns (ok: bool, errors: seq<int>)
    ensures ok <==> errors == []
    ensures ok <==> CharactersOk(s)
  {
    var lower, upper := false, false;
    errors := [];
    var i := 0;
    while i < |s|
      invariant 0 <= i <= |s|
      invariant lower ==> exists k | 0 <= k < i :: IsLower(s[k])
      invariant upper ==> exists k | 0 <= k < i :: IsUpper(s[k])
      invariant !lower && errors == [] ==> forall k | 0 <= k < i :: !IsLower(s[k])
      invariant !upper && errors == [] ==> forall k | 0 <= k < i :: !IsUpper(s[k])
      invariant errors == [] ==> !(lower && upper) && forall k | 0 <= k < i :: IsPrintable(s[k])
      invariant errors != [] ==> !CharactersOk(s)
    {
      var c := s[i];
      if 97 <= c <= 122 {
        assert IsLower(c);
        if upper {
          errors := errors + [i];
        } else {
          lower := true;
        }
      } else if 65 <= c <= 90 {
        assert IsUpper(c);
        if lower {
          errors := errors + [i];
        } else {
          upper := true;
        }
      } else if c < 33 || c > 126 {
        assert !IsPrintable(c);
        errors := errors + [i];
      }
      i := i + 1;
    }
    ok := errors == [];
  }

  method Encode(e: Encoding, hrp: Text, values: seq<bv8>) returns (r: Text)
    requires Fives(values) && forall i | 0 <= i < |hrp| :: !IsUpper(hrp[i])
    ensures r == Encoded(e, hrp, values)
  {
    hide Checksum, Expand, Char, IsUpper;
    var checksum := CreateChecksum(e, hrp, values);
    ChecksumShape(EncodingConstant(e), Expand(hrp) + values);
    FivesTogether(values, checksum);
    var combined := values + checksum;
    r := hrp + [SEPARATOR];
    var i := 0;
    while i < |combined|
      invariant 0 <= i <= |combined| && r == hrp + [SEPARATOR] + Chars(combined)[..i]
    {
      r := r + [Char(combined[i])];
      i := i + 1;
    }
  }

  method RFind(s: Text) returns (p: int)
    ensures p == LastSeparator(s)
  {
    p := |s| - 1;
    while p >= 0 && s[p] != SEPARATOR
      invariant -1 <= p < |s| && LastSeparator(s[..p + 1]) == LastSeparator(s)
    {
      assert s[..p + 1][..p] == s[..p];
      p := p - 1;
    }
    assert p == -1 ==> s[..p + 1] == [];
  }

  method Decode(s: Text) returns (r: Decoded)
    ensures r == DecodedText(s)
  {
    hide CharactersOk, Verified, Rev, LowerCase;
    var ok, _ := CheckCharacters(s);
    if !ok {
      return Invalid;
    }
    var pos := RFind(s);
    if |s| > 90 || pos == -1 || pos == 0 || pos + 7 > |s| {
      return Invalid;
    }
    var values: seq<bv8> := [];
    var i := 0;
    ghost var rest := s[pos + 1..];
    while i < |s| - 1 - pos
      invariant 0 <= i <= |s| - 1 - pos == |rest| && |values| == i
      invariant forall k | 0 <= k < i :: Rev(rest[k]) == Some(values[k])
    {
      var rev := Rev(s[i + pos + 1]);
      if rev.None? {
        assert Rev(rest[i]).None?;
        return Invalid;
      }
      values := values + [rev.value];
      i := i + 1;
    }
    assert values == Values(rest);
    var hrp: Text := [];
    i := 0;
    while i < pos
      invariant 0 <= i <= pos && |hrp| == i && forall k | 0 <= k < i :: hrp[k] == LowerCase(s[k])
    {
      hrp := hrp + [LowerCase(s[i])];
      i := i + 1;
    }
    assert hrp == LowerAll(s[..pos]);
    var result := VerifyChecksum(hrp, values);
    if result.None? {
      return Invalid;
    }
    r := Valid(result.value, hrp, values[..|values| - 6]);
  }
}
