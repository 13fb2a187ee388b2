/**
 * Why bech32 strings detect errors (src/bech32.cpp; BIP 173). The remainder is zero only if the values, read as a
 * polynomial, vanish at three consecutive powers of an element of order 1023. Then any three errors within 1023
 * values change the remainder, and two valid strings that differ do so in four characters or more.
 */
module Bch {
  import opened Bech32
  import opened Gf1024
  import opened Powers
  import opened Wrappers

  // ---------------------------------------------------------------------------------------
  // The remainder at a root

  /** Multiplication by the root e^(997 + t) of the generator. */
  function Root(t: nat, x: bv10): bv10 {
    if t == 0 then Map(x, E997) else if t == 1 then Map(x, E998) else Map(x, E999)
  }

  lemma RootIs(t: nat, x: bv10)
    requires t <= 2
    ensures Root(t, x) == Power(E1, t, Map(x, E997))
  {
    hide Map, Power;
    Product998Back();
    Product999();
    ProductIs(E997, E1, E998);
    ProductIs(E998, E1, E999);
    Compose(x, E997, E1);
    Compose(x, E998, E1);
    PowerNone(E1, Map(x, E997));
    PowerNext(E1, 0, Map(x, E997));
    PowerNext(E1, 1, Map(x, E997));
  }

  lemma PowerNext(k: Columns, n: nat, x: bv10)
    ensures Power(k, n + 1, x) == Map(Power(k, n, x), k)
  {
    hide Map;
  }

  lemma RootAdd(t: nat, a: bv10, b: bv10)
    ensures Root(t, Add(a, b)) == Add(Root(t, a), Root(t, b))
  {
    hide Add, Map;
    MapAdd(a, b, E997);
    MapAdd(a, b, E998);
    MapAdd(a, b, E999);
  }

  lemma RootZero(t: nat)
    ensures Root(t, 0) == 0
  {
    hide Map;
    MapZero(E997);
    MapZero(E998);
    MapZero(E999);
  }

  /** A value as a field element. */
  function Embed(v: bv8): bv10 {
    v as bv10
  }

  lemma EmbedXor(x: bv8, y: bv8)
    ensures Embed(X8(x, y)) == Add(Embed(x), Embed(y))
  {
  }

  /** What the polynomial with the n lowest groups of five bits as coefficients is at the root. */
  function Eval(t: nat, c: bv32, n: nat): bv10
    decreases n
  {
    if n == 0 then 0 else Add(Root(t, Eval(t, Down(c), n - 1)), Embed(Five(c)))
  }

  lemma DownXor(a: bv32, b: bv32)
    ensures Down(X(a, b)) == X(Down(a), Down(b))
  {
  }

  lemma FiveXor(a: bv32, b: bv32)
    ensures Five(X(a, b)) == X8(Five(a), Five(b))
  {
  }

  lemma {:induction false} EvalXor(t: nat, a: bv32, b: bv32, n: nat)
    ensures Eval(t, X(a, b), n) == Add(Eval(t, a, n), Eval(t, b, n))
    decreases n
  {
    hide X, X8, Add, Root, Down, Five, Embed;
    if n == 0 {
      AddSelf(0);
    } else {
      DownXor(a, b);
      FiveXor(a, b);
      EvalXor(t, Down(a), Down(b), n - 1);
      var r, s := Eval(t, Down(a), n - 1), Eval(t, Down(b), n - 1);
      RootAdd(t, r, s);
      EmbedXor(Five(a), Five(b));
      AddRegroup(Root(t, r), Root(t, s), Embed(Five(a)), Embed(Five(b)));
    }
  }

  lemma {:induction false} EvalZero(t: nat, n: nat)
    ensures Eval(t, 0, n) == 0
  {
    hide Add, Root, Down, Five, Embed;
    if n > 0 {
      NoGroups();
      EvalZero(t, n - 1);
      RootZero(t);
      AddSelf(0);
    }
  }

  lemma NoGroups()
    ensures Down(0) == 0 && Embed(Five(0)) == 0
  {
  }

  /** Groups that are zero at the top do not count. */
  lemma {:induction false} EvalMore(t: nat, c: bv32, n: nat)
    requires n <= 5 && Below(c, n)
    ensures Eval(t, c, n + 1) == Eval(t, c, n)
    decreases n
  {
    hide Add, Root, Down, Five, Embed, Below;
    if n == 0 {
      BelowNone(c);
      EvalZero(t, 1);
    } else {
      DownLimit(c, n);
      EvalMore(t, Down(c), n - 1);
    }
  }

  lemma BelowNone(c: bv32)
    requires Below(c, 0)
    ensures c == 0
  {
  }

  lemma EvalJoin(t: nat, c: bv32, v: bv8)
    requires c < 0x200_0000 && v < 32
    ensures Eval(t, Join(c, Widened(v)), 6) == Add(Root(t, Eval(t, c, 5)), Embed(v))
  {
    hide Add, Root, Join, Widened, Down, Five, Embed;
    JoinSplits(c, v);
  }

  // The products in the evaluation of the generator, bit by bit, at the three roots.

  lemma Steps00()
    ensures Map(0x1d, E997) == 0x199 && Map(0x18f, E997) == 0x1aa && Map(0x1be, E997) == 0x187
    ensures Map(0x192, E997) == 0x33 && Map(0x2e, E997) == 0x2e7 && Map(0x1, E997) == 0x1bd
    ensures Map(0x1bd, E997) == 0x369 && Map(0x369, E997) == 0x34f && Map(0x34f, E997) == 0x3d6
    ensures Map(0x3d6, E997) == 0x74 && Map(0x74, E997) == 0x2f5
  {
  }

  lemma Steps01()
    ensures Map(0x13, E997) == 0x31b && Map(0x31e, E997) == 0x354 && Map(0x355, E997) == 0x30e
    ensures Map(0x30d, E997) == 0x4f && Map(0x5c, E997) == 0xee && Map(0x2, E997) == 0x353
    ensures Map(0x353, E997) == 0x3f2 && Map(0x3f2, E997) == 0x3be && Map(0x3be, E997) == 0x2a5
    ensures Map(0x2a5, E997) == 0xc1 && Map(0xc1, E997) == 0xe3
  {
  }

  lemma Steps02()
    ensures Map(0xf, E997) == 0x33f && Map(0x335, E997) == 0x3a1 && Map(0x3a3, E997) == 0x33c
    ensures Map(0x33a, E997) == 0x9e && Map(0x91, E997) == 0x1dc && Map(0x4, E997) == 0x3af
    ensures Map(0x3af, E997) == 0x2ed && Map(0x2ed, E997) == 0x275 && Map(0x275, E997) == 0x6a
    ensures Map(0x6a, E997) == 0x182 && Map(0x182, E997) == 0x1c6
  {
  }

  lemma Steps03()
    ensures Map(0x1e, E997) == 0x377 && Map(0x363, E997) == 0x262 && Map(0x266, E997) == 0x371
    ensures Map(0x37d, E997) == 0x115 && Map(0x10b, E997) == 0x391 && Map(0x8, E997) == 0x27e
    ensures Map(0x27e, E997) == 0xfa && Map(0xfa, E997) == 0x1e3 && Map(0x1e3, E997) == 0xd4
    ensures Map(0xd4, E997) == 0x304 && Map(0x304, E997) == 0x38c
  {
  }

  lemma Steps04()
    ensures Map(0x15, E997) == 0x3e7 && Map(0x3e6, E997) == 0x1e4 && Map(0x1ec, E997) == 0x3eb
    ensures Map(0x3f3, E997) == 0x203 && Map(0x216, E997) == 0x22b && Map(0x10, E997) == 0x1f5
    ensures Map(0x1f5, E997) == 0x1dd && Map(0x1dd, E997) == 0x3c6 && Map(0x3c6, E997) == 0x181
    ensures Map(0x181, E997) == 0x328 && Map(0x328, E997) == 0x238
  {
  }

  lemma Steps10()
    ensures Map(0x1d, E998) == 0x1d2 && Map(0x1c4, E998) == 0x382 && Map(0x396, E998) == 0x359
    ensures Map(0x34c, E998) == 0x16b && Map(0x176, E998) == 0x3c8 && Map(0x1, E998) == 0x65
    ensures Map(0x65, E998) == 0x88 && Map(0x88, E998) == 0x373 && Map(0x373, E998) == 0x3a3
    ensures Map(0x3a3, E998) == 0x25a && Map(0x25a, E998) == 0x3da
  {
  }

  lemma Steps11()
    ensures Map(0x13, E998) == 0x38d && Map(0x388, E998) == 0x224 && Map(0x225, E998) == 0x3bb
    ensures Map(0x3b8, E998) == 0x2d6 && Map(0x2c5, E998) == 0x2b0 && Map(0x2, E998) == 0xca
    ensures Map(0xca, E998) == 0x110 && Map(0x110, E998) == 0x3ef && Map(0x3ef, E998) == 0x266
    ensures Map(0x266, E998) == 0x1bd && Map(0x1bd, E998) == 0x2bd
  {
  }

  lemma Steps12()
    ensures Map(0xf, E998) == 0x23a && Map(0x230, E998) == 0x168 && Map(0x16a, E998) == 0x27f
    ensures Map(0x279, E998) == 0xa5 && Map(0xaa, E998) == 0x69 && Map(0x4, E998) == 0x194
    ensures Map(0x194, E998) == 0x209 && Map(0x209, E998) == 0x2fe && Map(0x2fe, E998) == 0x1ec
    ensures Map(0x1ec, E998) == 0x353 && Map(0x353, E998) == 0x73
  {
  }

  lemma Steps13()
    ensures Map(0x1e, E998) == 0x17d && Map(0x169, E998) == 0x2d0 && Map(0x2d4, E998) == 0x1f7
    ensures Map(0x1fb, E998) == 0x14a && Map(0x154, E998) == 0xd2 && Map(0x8, E998) == 0x301
    ensures Map(0x301, E998) == 0x132 && Map(0x132, E998) == 0xf5 && Map(0xf5, E998) == 0x3d8
    ensures Map(0x3d8, E998) == 0x3af && Map(0x3af, E998) == 0xcf
  {
  }

  lemma Steps14()
    ensures Map(0x15, E998) == 0x2d3 && Map(0x2d2, E998) == 0xa9 && Map(0xa1, E998) == 0x3c7
    ensures Map(0x3df, E998) == 0x294 && Map(0x281, E998) == 0x18d && Map(0x10, E998) == 0x322
    ensures Map(0x322, E998) == 0x24d && Map(0x24d, E998) == 0x1c3 && Map(0x1c3, E998) == 0x2b9
    ensures Map(0x2b9, E998) == 0x27e && Map(0x27e, E998) == 0x19e
  {
  }

  lemma Steps20()
    ensures Map(0x1d, E999) == 0x2f5 && Map(0x2e3, E999) == 0x2f7 && Map(0x2e3, E999) == 0x2f7
    ensures Map(0x2e2, E999) == 0x127 && Map(0x13a, E999) == 0xb3 && Map(0x1, E999) == 0x3d0
    ensures Map(0x3d0, E999) == 0x159 && Map(0x159, E999) == 0x2c6 && Map(0x2c6, E999) == 0x51
    ensures Map(0x51, E999) == 0x42 && Map(0x42, E999) == 0xa1
  {
  }

  lemma Steps21()
    ensures Map(0x13, E999) == 0xe3 && Map(0xe6, E999) == 0xe7 && Map(0xe6, E999) == 0xe7
    ensures Map(0xe4, E999) == 0x24e && Map(0x25d, E999) == 0x14f && Map(0x2, E999) == 0x2a9
    ensures Map(0x2a9, E999) == 0x29b && Map(0x29b, E999) == 0xac && Map(0xac, E999) == 0x8b
    ensures Map(0x8b, E999) == 0x84 && Map(0x84, E999) == 0x142
  {
  }

  lemma Steps22()
    ensures Map(0xf, E999) == 0x1c6 && Map(0x1cc, E999) == 0x1ce && Map(0x1cc, E999) == 0x1ce
    ensures Map(0x1c8, E999) == 0x1bc && Map(0x1b3, E999) == 0x29e && Map(0x4, E999) == 0x72
    ensures Map(0x72, E999) == 0x3f && Map(0x3f, E999) == 0x158 && Map(0x158, E999) == 0x116
    ensures Map(0x116, E999) == 0x108 && Map(0x108, E999) == 0x284
  {
  }

  lemma Steps23()
    ensures Map(0x1e, E999) == 0x38c && Map(0x398, E999) == 0x39c && Map(0x398, E999) == 0x39c
    ensures Map(0x390, E999) == 0x351 && Map(0x34f, E999) == 0x35 && Map(0x8, E999) == 0xcd
    ensures Map(0xcd, E999) == 0x57 && Map(0x57, E999) == 0x299 && Map(0x299, E999) == 0x205
    ensures Map(0x205, E999) == 0x210 && Map(0x210, E999) == 0x28
  {
  }

  lemma Steps24()
    ensures Map(0x15, E999) == 0x238 && Map(0x239, E999) == 0x231 && Map(0x239, E999) == 0x231
    ensures Map(0x229, E999) == 0x3ab && Map(0x3be, E999) == 0x43 && Map(0x10, E999) == 0x19a
    ensures Map(0x19a, E999) == 0x87 && Map(0x87, E999) == 0x3b && Map(0x3b, E999) == 0x12a
    ensures Map(0x12a, E999) == 0x129 && Map(0x129, E999) == 0x50
  {
  }

  /** At the root the generator is zero: its low part, times each bit of a value, is the sixth power times the bit. */
  ghost predicate Vanishes(t: nat) {
    && Eval(t, 0x3b6a57b2, 6) == Root(t, Eval(t, 0x2000000, 6))
    && Eval(t, 0x26508e6d, 6) == Root(t, Eval(t, 0x4000000, 6))
    && Eval(t, 0x1ea119fa, 6) == Root(t, Eval(t, 0x8000000, 6))
    && Eval(t, 0x3d4233dd, 6) == Root(t, Eval(t, 0x10000000, 6))
    && Eval(t, 0x2a1462b3, 6) == Root(t, Eval(t, 0x20000000, 6))
  }

  lemma Vanishes0()
    ensures Vanishes(0)
  {
    hide Map;
    RootZero(0);
    Steps00();
    assert Eval(0, 0x3b6a57b2, 6) == 0x2f5 && Eval(0, 0x2000000, 6) == 0x74;
    Steps01();
    assert Eval(0, 0x26508e6d, 6) == 0xe3 && Eval(0, 0x4000000, 6) == 0xc1;
    Steps02();
    assert Eval(0, 0x1ea119fa, 6) == 0x1c6 && Eval(0, 0x8000000, 6) == 0x182;
    Steps03();
    assert Eval(0, 0x3d4233dd, 6) == 0x38c && Eval(0, 0x10000000, 6) == 0x304;
    Steps04();
    assert Eval(0, 0x2a1462b3, 6) == 0x238 && Eval(0, 0x20000000, 6) == 0x328;
  }

  lemma Vanishes1()
    ensures Vanishes(1)
  {
    hide Map;
    RootZero(1);
    Steps10();
    assert Eval(1, 0x3b6a57b2, 6) == 0x3da && Eval(1, 0x2000000, 6) == 0x25a;
    Steps11();
    assert Eval(1, 0x26508e6d, 6) == 0x2bd && Eval(1, 0x4000000, 6) == 0x1bd;
    Steps12();
    assert Eval(1, 0x1ea119fa, 6) == 0x73 && Eval(1, 0x8000000, 6) == 0x353;
    Steps13();
    assert Eval(1, 0x3d4233dd, 6) == 0xcf && Eval(1, 0x10000000, 6) == 0x3af;
    Steps14();
    assert Eval(1, 0x2a1462b3, 6) == 0x19e && Eval(1, 0x20000000, 6) == 0x27e;
  }

  lemma Vanishes2()
    ensures Vanishes(2)
  {
    hide Map;
    RootZero(2);
    Steps20();
    assert Eval(2, 0x3b6a57b2, 6) == 0xa1 && Eval(2, 0x2000000, 6) == 0x42;
    Steps21();
    assert Eval(2, 0x26508e6d, 6) == 0x142 && Eval(2, 0x4000000, 6) == 0x84;
    Steps22();
    assert Eval(2, 0x1ea119fa, 6) == 0x284 && Eval(2, 0x8000000, 6) == 0x108;
    Steps23();
    assert Eval(2, 0x3d4233dd, 6) == 0x28 && Eval(2, 0x10000000, 6) == 0x210;
    Steps24();
    assert Eval(2, 0x2a1462b3, 6) == 0x50 && Eval(2, 0x20000000, 6) == 0x129;
  }

  lemma EvalPick(t: nat, h: bv32, bit: bv32, k: bv32)
    ensures Eval(t, Pick(h, bit, k), 6) == if Has(h, bit) then Eval(t, k, 6) else 0
  {
    hide Eval, Has;
    EvalZero(t, 6);
  }

  /** Five bits in the top group, bit by bit. */
  function Top(h: bv32): bv32 {
    X(X(X(Pick(h, 1, 0x200_0000), Pick(h, 2, 0x400_0000)), X(Pick(h, 4, 0x800_0000), Pick(h, 8, 0x1000_0000))),
      Pick(h, 16, 0x2000_0000))
  }

  lemma TopIs(c: bv32)
    requires c < 0x4000_0000
    ensures Top(High(c)) == c & 0x3e00_0000
  {
  }

  /** The value of five picked numbers. */
  lemma EvalFive(t: nat, a: bv32, b: bv32, c: bv32, d: bv32, e: bv32)
    ensures Eval(t, X(X(X(a, b), X(c, d)), e), 6) ==
            Add(Add(Add(Eval(t, a, 6), Eval(t, b, 6)), Add(Eval(t, c, 6), Eval(t, d, 6))), Eval(t, e, 6))
  {
    hide X, Add, Eval;
    EvalXor(t, X(X(a, b), X(c, d)), e, 6);
    EvalXor(t, X(a, b), X(c, d), 6);
    EvalXor(t, a, b, 6);
    EvalXor(t, c, d, 6);
  }

  lemma RootFive(t: nat, a: bv10, b: bv10, c: bv10, d: bv10, e: bv10)
    ensures Root(t, Add(Add(Add(a, b), Add(c, d)), e)) ==
            Add(Add(Add(Root(t, a), Root(t, b)), Add(Root(t, c), Root(t, d))), Root(t, e))
  {
    hide Add, Root;
    RootAdd(t, Add(Add(a, b), Add(c, d)), e);
    RootAdd(t, Add(a, b), Add(c, d));
    RootAdd(t, a, b);
    RootAdd(t, c, d);
  }

  /** Folding the top group back does not change the value at the root. */
  lemma EvalFold(t: nat, h: bv32)
    requires Vanishes(t)
    ensures Eval(t, Fold(h), 6) == Root(t, Eval(t, Top(h), 6))
  {
    hide X, Add, Eval, Root, Pick, Has;
    EvalFive(t, Pick(h, 1, 0x3b6a57b2), Pick(h, 2, 0x26508e6d), Pick(h, 4, 0x1ea119fa), Pick(h, 8, 0x3d4233dd),
             Pick(h, 16, 0x2a1462b3));
    EvalFive(t, Pick(h, 1, 0x200_0000), Pick(h, 2, 0x400_0000), Pick(h, 4, 0x800_0000), Pick(h, 8, 0x1000_0000),
             Pick(h, 16, 0x2000_0000));
    RootFive(t, Eval(t, Pick(h, 1, 0x200_0000), 6), Eval(t, Pick(h, 2, 0x400_0000), 6),
             Eval(t, Pick(h, 4, 0x800_0000), 6), Eval(t, Pick(h, 8, 0x1000_0000), 6),
             Eval(t, Pick(h, 16, 0x2000_0000), 6));
    EvalFoldBit(t, h, 1, 0x3b6a57b2, 0x200_0000);
    EvalFoldBit(t, h, 2, 0x26508e6d, 0x400_0000);
    EvalFoldBit(t, h, 4, 0x1ea119fa, 0x800_0000);
    EvalFoldBit(t, h, 8, 0x3d4233dd, 0x1000_0000);
    EvalFoldBit(t, h, 16, 0x2a1462b3, 0x2000_0000);
  }

  lemma EvalFoldBit(t: nat, h: bv32, bit: bv32, g: bv32, k: bv32)
    requires Eval(t, g, 6) == Root(t, Eval(t, k, 6))
    ensures Eval(t, Pick(h, bit, g), 6) == Root(t, Eval(t, Pick(h, bit, k), 6))
  {
    hide Eval, Root, Pick, Has;
    EvalPick(t, h, bit, g);
    EvalPick(t, h, bit, k);
    RootZero(t);
  }

  /** One more value: multiply by the root and add. */
  lemma EvalStep(t: nat, c: bv32, v: bv8)
    requires Vanishes(t) && c < 0x4000_0000 && v < 32
    ensures Eval(t, Step(c, Widened(v)), 6) == Add(Root(t, Eval(t, c, 6)), Embed(v))
  {
    hide X, Add, Eval, Root, Step, Join, Fold, Widened, Embed, Vanishes, Top, High, Below;
    var top, low, w := Top(High(c)), c & 0x1ff_ffff, Widened(v);
    TopIs(c);
    Halves(c);
    StepXor(top, low, 0, w);
    XorZero(w);
    TopSteps(c);
    LowHalf(c);
    StepJoins(low, w);
    EvalXor(t, Step(top, 0), Step(low, w), 6);
    EvalXor(t, top, low, 6);
    EvalFold(t, High(c));
    EvalJoin(t, low, v);
    EvalMore(t, low, 5);
    var p, q := Eval(t, top, 6), Eval(t, low, 6);
    RootAdd(t, p, q);
    AddAssoc(Root(t, p), Root(t, q), Embed(v));
  }

  lemma AddAssoc(a: bv10, b: bv10, c: bv10)
    ensures Add(a, Add(b, c)) == Add(Add(a, b), c)
  {
    hide Add;
    AddRegroup(a, 0, b, c);
    AddRegroup(a, b, 0, c);
    AddSelf(a);
    AddSelf(c);
  }

  lemma Halves(c: bv32)
    requires c < 0x4000_0000
    ensures X(c & 0x3e00_0000, c & 0x1ff_ffff) == c
  {
  }

  lemma LowHalf(c: bv32)
    ensures c & 0x1ff_ffff < 0x200_0000 && Below(c & 0x1ff_ffff, 5)
  {
  }

  lemma TopSteps(c: bv32)
    requires c < 0x4000_0000
    ensures Step(Top(High(c)), 0) == Fold(High(c))
  {
    hide X, Fold, Top;
    TopIs(c);
    TopHalf(c);
    XorZero(0);
    XorZero(Fold(High(c)));
  }

  lemma TopHalf(c: bv32)
    requires c < 0x4000_0000
    ensures Low(c & 0x3e00_0000) == 0 && High(c & 0x3e00_0000) == High(c)
  {
  }

  // ---------------------------------------------------------------------------------------
  // Values as a polynomial

  /** The values as coefficients, the last one constant, at the root. */
  function At(t: nat, e: seq<bv8>): bv10 {
    if e == [] then 0 else Add(Root(t, At(t, e[..|e| - 1])), Embed(e[|e| - 1]))
  }

  lemma {:induction false} EvalPoly(t: nat, e: seq<bv8>)
    requires Vanishes(t) && Fives(e)
    ensures Eval(t, Poly(0, e), 6) == At(t, e)
  {
    hide Add, Eval, Root, Step, Widened, Embed, Vanishes;
    if e == [] {
      EvalZero(t, 6);
    } else {
      var d := e[..|e| - 1];
      EvalPoly(t, d);
      PolySmall(0, d);
      EvalStep(t, Poly(0, d), e[|e| - 1]);
    }
  }

  /** Multiplication by a power of the root. */
  function RootPower(t: nat, n: nat, x: bv10): bv10 {
    if n == 0 then x else Root(t, RootPower(t, n - 1, x))
  }

  /** The power of the root as a power of e after a power of the first root. */
  function Term(t: nat, n: nat, x: bv10): bv10 {
    Power(E1, t * n, Power(E997, n, x))
  }

  lemma {:induction false} RootPowerIs(t: nat, n: nat, x: bv10)
    requires t <= 2
    ensures RootPower(t, n, x) == Term(t, n, x)
  {
    hide Map, Power, Root, Times;
    if n == 0 {
      PowerNone(E997, x);
      PowerNone(E1, x);
    } else {
      RootPowerIs(t, n - 1, x);
      var y := Power(E997, n - 1, x);
      RootIs(t, Power(E1, t * (n - 1), y));
      Commute();
      PowerCommutes(E1, E997, t * (n - 1), y);
      PowerNext(E997, n - 1, x);
      Distribute(n - 1, 1, t);
      PowerPlus(E1, t, t * (n - 1), Map(y, E997));
    }
  }

  lemma {:induction false} RootPowerAdd(t: nat, n: nat, a: bv10, b: bv10)
    ensures RootPower(t, n, Add(a, b)) == Add(RootPower(t, n, a), RootPower(t, n, b))
  {
    hide Add, Root;
    if n > 0 {
      RootPowerAdd(t, n - 1, a, b);
      RootAdd(t, RootPower(t, n - 1, a), RootPower(t, n - 1, b));
    }
  }

  lemma {:induction false} RootPowerPlus(t: nat, m: nat, n: nat, x: bv10)
    ensures RootPower(t, m + n, x) == RootPower(t, m, RootPower(t, n, x))
  {
    hide Root;
    if m > 0 {
      RootPowerPlus(t, m - 1, n, x);
    }
  }

  lemma RootPowerZero(t: nat, n: nat, x: bv10)
    requires t <= 2 && RootPower(t, n, x) == 0
    ensures x == 0
  {
    hide Power, RootPower, Injective;
    Injectives();
    RootPowerIs(t, n, x);
    PowerInjective(E1, t * n, Power(E997, n, x));
    PowerInjective(E997, n, x);
  }

  lemma {:induction false} RootPowerNone(t: nat, n: nat)
    ensures RootPower(t, n, 0) == 0
  {
    hide Root;
    if n > 0 {
      RootPowerNone(t, n - 1);
      RootZero(t);
    }
  }

  /** Zeros at the end only multiply. */
  lemma {:induction false} AtZeros(t: nat, e: seq<bv8>, m: nat)
    requires m <= |e| && forall i | m <= i < |e| :: e[i] == 0
    ensures At(t, e) == RootPower(t, |e| - m, At(t, e[..m]))
  {
    hide Add, Root, Embed;
    if m == |e| {
      assert e[..m] == e;
    } else {
      var n := |e| - 1;
      AtZeros(t, e[..n], m);
      assert e[..n][..m] == e[..m];
      EmbedZero();
      AddSelf(Root(t, At(t, e[..n])));
    }
  }

  lemma EmbedZero()
    ensures Embed(0) == 0
  {
  }

  /** A value after zeros. */
  lemma AtNext(t: nat, e: seq<bv8>, m: nat, p: nat)
    requires m <= p < |e| && forall i | m <= i < p :: e[i] == 0
    ensures At(t, e[..p + 1]) == Add(RootPower(t, p + 1 - m, At(t, e[..m])), Embed(e[p]))
  {
    hide Add, Root, Embed;
    AtZeros(t, e[..p], m);
    assert e[..p][..m] == e[..m] && e[..p + 1][..p] == e[..p];
  }

  /** Up to the last of at most three values that are not zero. */
  lemma AtLast(t: nat, e: seq<bv8>, p: nat, q: nat, r: nat)
    requires p < q < r < |e|
    requires forall i | 0 <= i < |e| && i != p && i != q && i != r :: e[i] == 0
    ensures At(t, e[..r + 1]) ==
            Add(RootPower(t, r - q, Add(RootPower(t, q - p, Embed(e[p])), Embed(e[q]))), Embed(e[r]))
  {
    hide Add, Embed, RootPower, At;
    AtNone(t, e);
    AtNext(t, e, 0, p);
    RootPowerNone(t, p + 1);
    AddSelf(Embed(e[p]));
    AtNext(t, e, p + 1, q);
    AtNext(t, e, q + 1, r);
  }

  lemma LastIsZero(t: nat, e: seq<bv8>, p: nat, q: nat, r: nat)
    requires t <= 2 && p < q < r < |e| && At(t, e) == 0
    requires forall i | 0 <= i < |e| && i != p && i != q && i != r :: e[i] == 0
    ensures Add(RootPower(t, r - q, Add(RootPower(t, q - p, Embed(e[p])), Embed(e[q]))), Embed(e[r])) == 0
  {
    hide *;
    AtLast(t, e, p, q, r);
    AtTrimmed(t, e, r + 1);
  }

  /** With at most three values that are not zero, the value at the root has three terms. */
  lemma AtThree(t: nat, e: seq<bv8>, p: nat, q: nat, r: nat)
    requires t <= 2 && p < q < r < |e| && At(t, e) == 0
    requires forall i | 0 <= i < |e| && i != p && i != q && i != r :: e[i] == 0
    ensures Add(Add(RootPower(t, r - p, Embed(e[p])), RootPower(t, r - q, Embed(e[q]))), Embed(e[r])) == 0
  {
    hide *;
    LastIsZero(t, e, p, q, r);
    Expanded(t, q - p, r - q, Embed(e[p]), Embed(e[q]));
  }

  lemma AtTrimmed(t: nat, e: seq<bv8>, m: nat)
    requires t <= 2 && m <= |e| && At(t, e) == 0 && forall i | m <= i < |e| :: e[i] == 0
    ensures At(t, e[..m]) == 0
  {
    hide *;
    AtZeros(t, e, m);
    RootPowerZero(t, |e| - m, At(t, e[..m]));
  }

  lemma Expanded(t: nat, m: nat, n: nat, x: bv10, y: bv10)
    ensures RootPower(t, n, Add(RootPower(t, m, x), y)) == Add(RootPower(t, m + n, x), RootPower(t, n, y))
  {
    hide Add, RootPower;
    RootPowerAdd(t, n, RootPower(t, m, x), y);
    RootPowerPlus(t, n, m, x);
  }

  lemma AtNone(t: nat, e: seq<bv8>)
    ensures At(t, e[..0]) == 0
  {
  }

  /** One, two or three values within 1023 neighbouring ones never have the remainder zero. */
  lemma ThreeErrors(e: seq<bv8>, p: nat, q: nat, r: nat)
    requires p < q < r < |e| && r - p < 1023 && Fives(e) && e[p] != 0
    requires forall i | 0 <= i < |e| && i != p && i != q && i != r :: e[i] == 0
    ensures Poly(0, e) != 0
  {
    hide Add, Embed, Power, Vanishes, Poly, Injective;
    if Poly(0, e) == 0 {
      var i, j, c := r - p, r - q, Embed(e[r]);
      var a, b := Power(E997, i, Embed(e[p])), Power(E997, j, Embed(e[q]));
      Vanishes0();
      Vanishes1();
      Vanishes2();
      ThreeTerms(0, e, p, q, r);
      ThreeTerms(1, e, p, q, r);
      ThreeTerms(2, e, p, q, r);
      assert Term(1, i, Embed(e[p])) == Power(E1, i, a) && Term(1, j, Embed(e[q])) == Power(E1, j, b);
      assert Term(2, i, Embed(e[p])) == Power(E1, 2 * i, a) && Term(2, j, Embed(e[q])) == Power(E1, 2 * j, b);
      PowerNone(E1, a);
      PowerNone(E1, b);
      NoThree(i, j, a, b, c);
      Injectives();
      PowerInjective(E997, i, Embed(e[p]));
      EmbedKernel(e[p]);
    }
  }

  lemma EmbedKernel(v: bv8)
    requires Embed(v) == 0
    ensures v == 0
  {
  }

  lemma ThreeTerms(t: nat, e: seq<bv8>, p: nat, q: nat, r: nat)
    requires t <= 2 && Vanishes(t) && p < q < r < |e| && Fives(e) && Poly(0, e) == 0
    requires forall i | 0 <= i < |e| && i != p && i != q && i != r :: e[i] == 0
    ensures Add(Add(Term(t, r - p, Embed(e[p])), Term(t, r - q, Embed(e[q]))), Embed(e[r])) == 0
  {
    hide Add, Embed, Term, RootPower, At, Eval, Vanishes, Poly;
    EvalPoly(t, e);
    EvalZero(t, 6);
    AtThree(t, e, p, q, r);
    RootPowerIs(t, r - p, Embed(e[p]));
    RootPowerIs(t, r - q, Embed(e[q]));
  }

  // ---------------------------------------------------------------------------------------
  // Error detection

  /** Where two lists of values differ. */
  function Differences(x: seq<bv8>, y: seq<bv8>): set<int>
    requires |x| == |y|
  {
    set i | 0 <= i < |x| && x[i] != y[i]
  }

  /**
   * Values that differ in one, two or three places, all within 1023 neighbouring ones, never have the same
   * remainder, whatever came before them.
   */
  lemma ErrorsChangeRemainder(c: bv32, x: seq<bv8>, y: seq<bv8>)
    requires |x| == |y| && Fives(x) && Fives(y) && 1 <= |Differences(x, y)| <= 3
    requires forall i, j | i in Differences(x, y) && j in Differences(x, y) :: i - j < 1023
    ensures Poly(c, x) != Poly(c, y)
  {
    hide Poly, X, X8;
    var d := Differences(x, y);
    var e := Xor(x, y) + [0, 0];
    var p, q, r := Places(d);
    forall i | 0 <= i < |x| ensures e[i] < 32 && (e[i] == 0 <==> x[i] == y[i]) {
      FiveDifference(x[i], y[i]);
    }
    forall i | 0 <= i < |e| && i != p && i != q && i != r ensures e[i] == 0 {
      assert i !in d;
    }
    ThreeErrors(e, p, q, r);
    PolyConcat(0, Xor(x, y), [0, 0]);
    PolyXor(c, c, x, y);
    XorZero(c);
    if Poly(c, x) == Poly(c, y) {
      XorZero(Poly(c, x));
      ZerosKeepZero();
    }
  }

  lemma FiveDifference(a: bv8, b: bv8)
    requires a < 32 && b < 32
    ensures X8(a, b) < 32 && (X8(a, b) == 0 <==> a == b)
  {
  }

  lemma ZerosKeepZero()
    ensures Poly(0, [0, 0]) == 0
  {
    hide X, Pack;
    PolyPacks([0, 0]);
    PackZeros();
  }

  lemma PackZeros()
    ensures Pack([0, 0]) == 0
  {
  }

  /** The places in order, and next to the first one where there are fewer than three. */
  lemma Places(d: set<int>) returns (p: int, q: int, r: int)
    requires 1 <= |d| <= 3
    ensures p < q < r && p in d && d <= {p, q, r} && (r in d || r <= p + 2)
  {
    p := Least(d);
    var d1 := d - {p};
    if d1 == {} {
      q, r := p + 1, p + 2;
    } else {
      q := Least(d1);
      var d2 := d1 - {q};
      if d2 != {} {
        r := Least(d2);
        var d3 := d2 - {r};
        assert |d3| == 0;
      } else if q == p + 1 {
        r := q + 1;
      } else {
        q, r := p + 1, q;
      }
    }
  }

  lemma {:induction false} Least(d: set<int>) returns (p: int)
    requires d != {}
    ensures p in d && forall i | i in d :: p <= i
    decreases |d|
  {
    p := Element(d);
    var rest := d - {p};
    if rest != {} {
      var q := Least(rest);
      assert forall i | i in d :: i == p || i in rest;
      if q < p {
        p := q;
      }
    } else {
      assert d == {p};
    }
  }

  /** A list of values that verifies stops verifying for its encoding after one, two or three errors. */
  lemma ErrorsAreDetected(enc: Encoding, hrp: Text, x: seq<bv8>, y: seq<bv8>)
    requires |x| == |y| && Fives(x) && Fives(y) && 1 <= |Differences(x, y)| <= 3
    requires forall i, j | i in Differences(x, y) && j in Differences(x, y) :: i - j < 1023
    requires Verified(hrp, x) == Some(enc)
    ensures Verified(hrp, y) != Some(enc)
  {
    hide Poly, Expand, Differences;
    var a := Expand(hrp);
    ErrorsChangeRemainder(Poly(1, a), x, y);
    PolyConcat(1, a, x);
    PolyConcat(1, a, y);
    VerifiedIs(hrp, x, enc);
    VerifiedIs(hrp, y, enc);
  }

  /** Both parts of a string count: as values, the human-readable part stands before the data. */
  lemma ErrorsAnywhereAreDetected(enc: Encoding, g: Text, x: seq<bv8>, h: Text, y: seq<bv8>)
    requires |g| == |h| && |x| == |y| && Fives(x) && Fives(y)
    requires 1 <= |Differences(Expand(g) + x, Expand(h) + y)| <= 3 && 2 * |g| + |x| < 1023
    requires Verified(g, x) == Some(enc)
    ensures Verified(h, y) != Some(enc)
  {
    hide Poly;
    var a, b := Expand(g) + x, Expand(h) + y;
    ExpandIsFives(g);
    ExpandIsFives(h);
    ErrorsChangeRemainder(1, a, b);
    VerifiedIs(g, x, enc);
    VerifiedIs(h, y, enc);
  }

  lemma ExpandIsFives(h: Text)
    ensures Fives(Expand(h)) && |Expand(h)| == 2 * |h| + 1
  {
    forall i | 0 <= i < |h| ensures TopBits(h[i]) < 32 && LowBits(h[i]) < 32 {
      BitsAreFives(h[i]);
    }
  }

  lemma BitsAreFives(c: bv8)
    ensures TopBits(c) < 32 && LowBits(c) < 32
  {
  }

  /** A character is known by its high and its low bits. */
  lemma BitsTell(c: bv8, d: bv8)
    ensures TopBits(c) == TopBits(d) && LowBits(c) == LowBits(d) <==> c == d
  {
  }

  /** A wrong character in the human-readable part is detected, even with a wrong value in the data. */
  lemma WrongCharacterIsDetected(enc: Encoding, g: Text, x: seq<bv8>, h: Text, y: seq<bv8>, k: nat, m: nat)
    requires |g| == |h| && |x| == |y| && Fives(x) && Fives(y) && 2 * |g| + |x| < 1023
    requires forall i | 0 <= i < |g| && i != k :: g[i] == h[i]
    requires forall i | 0 <= i < |x| && i != m :: x[i] == y[i]
    requires g != h || x != y
    requires Verified(g, x) == Some(enc)
    ensures Verified(h, y) != Some(enc)
  {
    hide TopBits, LowBits, Verified, Differences;
    var n, a, b := |g|, Expand(g) + x, Expand(h) + y;
    forall i | 0 <= i < |a| && i != k && i != n + 1 + k && i != 2 * n + 1 + m ensures a[i] == b[i] {
      if i < n {
        assert g[i] == h[i];
      } else if n < i <= 2 * n {
        assert g[i - n - 1] == h[i - n - 1];
      } else if i > 2 * n {
        assert x[i - 2 * n - 1] == y[i - 2 * n - 1];
      }
    }
    if a == b {
      ExpandTells(g, x, h, y);
    }
    FewDifferences(a, b, k, n + 1 + k, 2 * n + 1 + m);
    ErrorsAnywhereAreDetected(enc, g, x, h, y);
  }

  lemma ExpandTells(g: Text, x: seq<bv8>, h: Text, y: seq<bv8>)
    requires |g| == |h| && |x| == |y| && Expand(g) + x == Expand(h) + y
    ensures g == h && x == y
  {
    hide TopBits, LowBits;
    var n, a, b := |g|, Expand(g) + x, Expand(h) + y;
    forall i | 0 <= i < n ensures g[i] == h[i] {
      assert a[i] == TopBits(g[i]) && b[i] == TopBits(h[i]);
      assert a[n + 1 + i] == LowBits(g[i]) && b[n + 1 + i] == LowBits(h[i]);
      BitsTell(g[i], h[i]);
    }
    assert x == a[2 * n + 1..] && y == b[2 * n + 1..];
  }

  /** Where a place in a string is among the values, low bits of the human-readable part first. */
  function ValueIndex(n: nat, i: nat): nat {
    if i < n then n + 1 + i else n + i
  }

  /** Parts that verify alike and agree but for three places, and in the high bits everywhere, are the same. */
  lemma NearPartsAreEqual(enc: Encoding, g: Text, x: seq<bv8>, h: Text, y: seq<bv8>, p: nat, q: nat, r: nat)
    requires |g| == |h| && |x| == |y| && Fives(x) && Fives(y) && 2 * |g| + |x| < 1023
    requires Verified(g, x) == Some(enc) && Verified(h, y) == Some(enc)
    requires forall i | 0 <= i < |g| :: TopBits(g[i]) == TopBits(h[i])
    requires forall i | 0 <= i < |g| && i != p && i != q && i != r :: g[i] == h[i]
    requires forall j | 0 <= j < |x| && |g| + 1 + j !in [p, q, r] :: x[j] == y[j]
    ensures g == h && x == y
  {
    hide TopBits, LowBits, Verified, Differences;
    var n, a, b := |g|, Expand(g) + x, Expand(h) + y;
    forall i | 0 <= i < |a| && i != ValueIndex(n, p) && i != ValueIndex(n, q) && i != ValueIndex(n, r)
      ensures a[i] == b[i]
    {
      if n < i <= 2 * n {
        assert g[i - n - 1] == h[i - n - 1];
      } else if i > 2 * n {
        assert x[i - 2 * n - 1] == y[i - 2 * n - 1];
      }
    }
    if a != b {
      FewDifferences(a, b, ValueIndex(n, p), ValueIndex(n, q), ValueIndex(n, r));
      ErrorsAnywhereAreDetected(enc, g, x, h, y);
    }
    ExpandTells(g, x, h, y);
  }

  /**
   * Two valid strings of the same encoding and length, with human-readable parts of the same length, that agree up to
   * case except at three places at most agree everywhere, provided letters of the human-readable part stand for
   * letters and digits for digits there.
   */
  lemma ValidStringsAreFarApart(s: Text, t: Text, p: nat, q: nat, r: nat)
    requires DecodedText(s).Valid? && DecodedText(t).Valid? && |s| == |t|
    requires DecodedText(s).encoding == DecodedText(t).encoding && |DecodedText(s).hrp| == |DecodedText(t).hrp|
    requires forall i | 0 <= i < |s| && i != p && i != q && i != r :: LowerCase(s[i]) == LowerCase(t[i])
    requires forall i | 0 <= i < |DecodedText(s).hrp| ::
               TopBits(DecodedText(s).hrp[i]) == TopBits(DecodedText(t).hrp[i])
    ensures LowerAll(s) == LowerAll(t)
  {
    hide Verified, Lookup, LowerCase, Char, Differences, TopBits, LowBits, Expand, DecodedText;
    var g, h := DecodedText(s).hrp, DecodedText(t).hrp;
    var n := |g|;
    ValidParts(s);
    ValidParts(t);
    var x, y := Values(s[n + 1..]), Values(t[n + 1..]);
    ValuesAreChars(s[n + 1..]);
    ValuesAreChars(t[n + 1..]);
    forall j | 0 <= j < |x| && n + 1 + j !in [p, q, r] ensures x[j] == y[j] {
      SameValue(s[n + 1..], t[n + 1..], j);
    }
    NearPartsAreEqual(DecodedText(s).encoding, g, x, h, y, p, q, r);
    SameParts(s, t);
  }

  lemma SameParts(s: Text, t: Text)
    requires DecodedText(s).Valid? && DecodedText(s) == DecodedText(t)
    ensures LowerAll(s) == LowerAll(t)
  {
    hide DecodedText, Encoded, LowerAll;
    EncodeDecode(s);
    EncodeDecode(t);
  }

  lemma SameValue(s: Text, t: Text, i: nat)
    requires AllValues(s) && AllValues(t) && i < |s| && i < |t| && LowerCase(s[i]) == LowerCase(t[i])
    ensures Values(s)[i] == Values(t)[i]
  {
    hide Lookup, LowerCase;
  }

  lemma ValidParts(s: Text)
    requires DecodedText(s).Valid?
    ensures var n := |DecodedText(s).hrp| + 1;
            && n <= |s| <= 90 && AllValues(s[n..]) && |s[n..]| >= 6
            && DecodedText(s).hrp == LowerAll(s[..n - 1])
            && Verified(DecodedText(s).hrp, Values(s[n..])) == Some(DecodedText(s).encoding)
            && DecodedText(s).data == Values(s[n..])[..|s[n..]| - 6]
  {
    hide Verified, CharactersOk, Rev, LowerCase;
  }

  lemma FewDifferences(x: seq<bv8>, y: seq<bv8>, p: int, q: int, r: int)
    requires |x| == |y| <= 1023 && x != y && forall i | 0 <= i < |x| && i != p && i != q && i != r :: x[i] == y[i]
    ensures 1 <= |Differences(x, y)| <= 3
    ensures forall i, j | i in Differences(x, y) && j in Differences(x, y) :: i - j < 1023
  {
    var d := Differences(x, y);
    var i :| 0 <= i < |x| && x[i] != y[i];
    assert i in d;
    OneLess(d, p);
    OneLess(d - {p}, q);
    OneLess(d - {p} - {q}, r);
    assert d - {p} - {q} - {r} == {};
  }

  lemma OneLess(d: set<int>, p: int)
    ensures |d| <= |d - {p}| + 1
  {
    if p in d {
      assert d == (d - {p}) + {p};
    } else {
      assert d == d - {p};
    }
  }
}
