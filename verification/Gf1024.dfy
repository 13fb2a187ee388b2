/**
 * The field with 1024 elements behind the error detection of bech32 (src/bech32.cpp). Field elements are ten bits,
 * two values of five bits as in the tables of the source, and a fixed factor is the linear map that multiplies by it.
 * The element e of those tables has order 1023: no element but zero comes back to itself before that many factors.
 */
module Gf1024 {
  import opened Powers

  // ---------------------------------------------------------------------------------------
  // Sums of field elements

  function Add(a: bv10, b: bv10): bv10 {
    a ^ b
  }

  lemma AddIs(a: bv10, b: bv10)
    ensures Add(a, b) == a ^ b
  {
  }

  /** Sums regroup freely. */
  lemma AddRegroup(a: bv10, b: bv10, c: bv10, d: bv10)
    ensures Add(Add(a, b), Add(c, d)) == Add(Add(a, c), Add(b, d))
  {
    hide Add;
    RawAddRegroup(a, b, c, d);
    AddIs(a, b);
    AddIs(c, d);
    AddIs(a, c);
    AddIs(b, d);
  }

  lemma RawAddRegroup(a: bv10, b: bv10, c: bv10, d: bv10)
    ensures Add(a ^ b, c ^ d) == Add(a ^ c, b ^ d)
  {
  }

  /** Each element is its own negative. */
  lemma AddSelf(a: bv10)
    ensures Add(a, 0) == a && Add(0, a) == a && Add(a, a) == 0
  {
  }

  lemma AddEqual(a: bv10, b: bv10)
    ensures Add(a, b) == 0 <==> a == b
  {
  }

  lemma AddCancels(a: bv10, b: bv10, c: bv10)
    requires Add(a, c) == Add(b, c)
    ensures a == b
  {
  }

  // ---------------------------------------------------------------------------------------
  // Linear maps

  function Part(x: bv10, bit: bv10, k: bv10): bv10 {
    if x & bit != 0 then k else 0
  }

  predicate IsBit(bit: bv10) {
    || bit == 1 || bit == 2 || bit == 4 || bit == 8 || bit == 16
    || bit == 32 || bit == 64 || bit == 128 || bit == 256 || bit == 512
  }

  lemma RawPart(a: bv10, b: bv10, bit: bv10)
    requires IsBit(bit)
    ensures (a ^ b) & bit != 0 <==> (a & bit != 0) != (b & bit != 0)
  {
    if bit == 1 {
      assert (a ^ b) & 1 != 0 <==> (a & 1 != 0) != (b & 1 != 0);
    } else if bit == 2 {
      assert (a ^ b) & 2 != 0 <==> (a & 2 != 0) != (b & 2 != 0);
    } else if bit == 4 {
      assert (a ^ b) & 4 != 0 <==> (a & 4 != 0) != (b & 4 != 0);
    } else if bit == 8 {
      assert (a ^ b) & 8 != 0 <==> (a & 8 != 0) != (b & 8 != 0);
    } else if bit == 16 {
      assert (a ^ b) & 16 != 0 <==> (a & 16 != 0) != (b & 16 != 0);
    } else if bit == 32 {
      assert (a ^ b) & 32 != 0 <==> (a & 32 != 0) != (b & 32 != 0);
    } else if bit == 64 {
      assert (a ^ b) & 64 != 0 <==> (a & 64 != 0) != (b & 64 != 0);
    } else if bit == 128 {
      assert (a ^ b) & 128 != 0 <==> (a & 128 != 0) != (b & 128 != 0);
    } else if bit == 256 {
      assert (a ^ b) & 256 != 0 <==> (a & 256 != 0) != (b & 256 != 0);
    } else {
      assert (a ^ b) & 512 != 0 <==> (a & 512 != 0) != (b & 512 != 0);
    }
  }

  lemma PartAdd(a: bv10, b: bv10, bit: bv10, k: bv10)
    requires IsBit(bit)
    ensures Part(Add(a, b), bit, k) == Add(Part(a, bit, k), Part(b, bit, k))
  {
    hide Add, IsBit;
    AddIs(a, b);
    RawPart(a, b, bit);
    AddSelf(k);
    AddSelf(0);
  }

  /** The images of the ten bits. */
  datatype Columns = Columns(
    k0: bv10, k1: bv10, k2: bv10, k3: bv10, k4: bv10, k5: bv10, k6: bv10, k7: bv10, k8: bv10, k9: bv10)

  function Sum10(a0: bv10, a1: bv10, a2: bv10, a3: bv10, a4: bv10,
                 a5: bv10, a6: bv10, a7: bv10, a8: bv10, a9: bv10): bv10 {
    Add(Add(Add(Add(a0, a1), Add(a2, a3)), Add(Add(a4, a5), Add(a6, a7))), Add(a8, a9))
  }

  function Map(x: bv10, k: Columns): bv10 {
    Sum10(Part(x, 1, k.k0), Part(x, 2, k.k1), Part(x, 4, k.k2), Part(x, 8, k.k3), Part(x, 16, k.k4),
          Part(x, 32, k.k5), Part(x, 64, k.k6), Part(x, 128, k.k7), Part(x, 256, k.k8), Part(x, 512, k.k9))
  }

  lemma Sum10Add(a0: bv10, a1: bv10, a2: bv10, a3: bv10, a4: bv10, a5: bv10, a6: bv10, a7: bv10, a8: bv10, a9: bv10,
                 b0: bv10, b1: bv10, b2: bv10, b3: bv10, b4: bv10, b5: bv10, b6: bv10, b7: bv10, b8: bv10, b9: bv10)
    ensures Sum10(Add(a0, b0), Add(a1, b1), Add(a2, b2), Add(a3, b3), Add(a4, b4),
                  Add(a5, b5), Add(a6, b6), Add(a7, b7), Add(a8, b8), Add(a9, b9)) ==
            Add(Sum10(a0, a1, a2, a3, a4, a5, a6, a7, a8, a9), Sum10(b0, b1, b2, b3, b4, b5, b6, b7, b8, b9))
  {
    hide Add;
    AddRegroup(a0, b0, a1, b1);
    AddRegroup(a2, b2, a3, b3);
    AddRegroup(a4, b4, a5, b5);
    AddRegroup(a6, b6, a7, b7);
    AddRegroup(a8, b8, a9, b9);
    AddRegroup(Add(a0, a1), Add(b0, b1), Add(a2, a3), Add(b2, b3));
    AddRegroup(Add(a4, a5), Add(b4, b5), Add(a6, a7), Add(b6, b7));
    AddRegroup(Add(Add(a0, a1), Add(a2, a3)), Add(Add(b0, b1), Add(b2, b3)),
               Add(Add(a4, a5), Add(a6, a7)), Add(Add(b4, b5), Add(b6, b7)));
    AddRegroup(Add(Add(Add(a0, a1), Add(a2, a3)), Add(Add(a4, a5), Add(a6, a7))),
               Add(Add(Add(b0, b1), Add(b2, b3)), Add(Add(b4, b5), Add(b6, b7))), Add(a8, a9), Add(b8, b9));
  }

  /** A map takes sums to sums. */
  lemma MapAdd(a: bv10, b: bv10, k: Columns)
    ensures Map(Add(a, b), k) == Add(Map(a, k), Map(b, k))
  {
    hide Add, Part, Sum10;
    PartAdd(a, b, 1, k.k0);
    PartAdd(a, b, 2, k.k1);
    PartAdd(a, b, 4, k.k2);
    PartAdd(a, b, 8, k.k3);
    PartAdd(a, b, 16, k.k4);
    PartAdd(a, b, 32, k.k5);
    PartAdd(a, b, 64, k.k6);
    PartAdd(a, b, 128, k.k7);
    PartAdd(a, b, 256, k.k8);
    PartAdd(a, b, 512, k.k9);
    Sum10Add(Part(a, 1, k.k0), Part(a, 2, k.k1), Part(a, 4, k.k2), Part(a, 8, k.k3), Part(a, 16, k.k4),
             Part(a, 32, k.k5), Part(a, 64, k.k6), Part(a, 128, k.k7), Part(a, 256, k.k8), Part(a, 512, k.k9),
             Part(b, 1, k.k0), Part(b, 2, k.k1), Part(b, 4, k.k2), Part(b, 8, k.k3), Part(b, 16, k.k4),
             Part(b, 32, k.k5), Part(b, 64, k.k6), Part(b, 128, k.k7), Part(b, 256, k.k8), Part(b, 512, k.k9));
  }

  lemma MapZero(k: Columns)
    ensures Map(0, k) == 0
  {
    hide Add, Map;
    MapAdd(0, 0, k);
    AddSelf(0);
    AddSelf(Map(0, k));
  }

  lemma MapPart(x: bv10, bit: bv10, v: bv10, k: Columns)
    ensures Map(Part(x, bit, v), k) == Part(x, bit, Map(v, k))
  {
    hide Map;
    MapZero(k);
  }

  /** One map after another. */
  function Times(k: Columns, m: Columns): Columns {
    Columns(Map(k.k0, m), Map(k.k1, m), Map(k.k2, m), Map(k.k3, m), Map(k.k4, m),
            Map(k.k5, m), Map(k.k6, m), Map(k.k7, m), Map(k.k8, m), Map(k.k9, m))
  }

  lemma MapSum10(m: Columns, a0: bv10, a1: bv10, a2: bv10, a3: bv10, a4: bv10, a5: bv10, a6: bv10, a7: bv10, a8: bv10,
                 a9: bv10)
    ensures Map(Sum10(a0, a1, a2, a3, a4, a5, a6, a7, a8, a9), m) ==
            Sum10(Map(a0, m), Map(a1, m), Map(a2, m), Map(a3, m), Map(a4, m),
                  Map(a5, m), Map(a6, m), Map(a7, m), Map(a8, m), Map(a9, m))
  {
    hide Add, Map;
    MapAdd(a0, a1, m);
    MapAdd(a2, a3, m);
    MapAdd(a4, a5, m);
    MapAdd(a6, a7, m);
    MapAdd(a8, a9, m);
    MapAdd(Add(a0, a1), Add(a2, a3), m);
    MapAdd(Add(a4, a5), Add(a6, a7), m);
    MapAdd(Add(Add(a0, a1), Add(a2, a3)), Add(Add(a4, a5), Add(a6, a7)), m);
    MapAdd(Add(Add(Add(a0, a1), Add(a2, a3)), Add(Add(a4, a5), Add(a6, a7))), Add(a8, a9), m);
  }

  lemma MapIs(x: bv10, k: Columns)
    ensures Map(x, k) ==
            Sum10(Part(x, 1, k.k0), Part(x, 2, k.k1), Part(x, 4, k.k2), Part(x, 8, k.k3), Part(x, 16, k.k4),
                  Part(x, 32, k.k5), Part(x, 64, k.k6), Part(x, 128, k.k7), Part(x, 256, k.k8), Part(x, 512, k.k9))
  {
    hide Sum10, Part;
  }

  lemma Compose(x: bv10, k: Columns, m: Columns)
    ensures Map(Map(x, k), m) == Map(x, Times(k, m))
  {
    hide Map, Part, Sum10;
    MapIs(x, k);
    MapIs(x, Times(k, m));
    MapSum10(m, Part(x, 1, k.k0), Part(x, 2, k.k1), Part(x, 4, k.k2), Part(x, 8, k.k3), Part(x, 16, k.k4),
             Part(x, 32, k.k5), Part(x, 64, k.k6), Part(x, 128, k.k7), Part(x, 256, k.k8), Part(x, 512, k.k9));
    MapPart(x, 1, k.k0, m);
    MapPart(x, 2, k.k1, m);
    MapPart(x, 4, k.k2, m);
    MapPart(x, 8, k.k3, m);
    MapPart(x, 16, k.k4, m);
    MapPart(x, 32, k.k5, m);
    MapPart(x, 64, k.k6, m);
    MapPart(x, 128, k.k7, m);
    MapPart(x, 256, k.k8, m);
    MapPart(x, 512, k.k9, m);
  }

  // ---------------------------------------------------------------------------------------
  // Powers of a map

  function Power(k: Columns, n: nat, x: bv10): bv10 {
    if n == 0 then x else Map(Power(k, n - 1, x), k)
  }

  lemma {:induction false} PowerAdd(k: Columns, n: nat, a: bv10, b: bv10)
    ensures Power(k, n, Add(a, b)) == Add(Power(k, n, a), Power(k, n, b))
  {
    hide Add, Map;
    if n > 0 {
      PowerAdd(k, n - 1, a, b);
      MapAdd(Power(k, n - 1, a), Power(k, n - 1, b), k);
    }
  }

  lemma {:induction false} PowerPlus(k: Columns, m: nat, n: nat, x: bv10)
    ensures Power(k, m + n, x) == Power(k, m, Power(k, n, x))
  {
    hide Map;
    if m > 0 {
      PowerPlus(k, m - 1, n, x);
    }
  }

  lemma {:induction false} PowerZero(k: Columns, n: nat)
    ensures Power(k, n, 0) == 0
  {
    hide Map;
    if n > 0 {
      PowerZero(k, n - 1);
      MapZero(k);
    }
  }

  /** Maps that commute do so with each other's powers. */
  lemma {:induction false} PowerCommutes(k: Columns, l: Columns, n: nat, x: bv10)
    requires Times(k, l) == Times(l, k)
    ensures Map(Power(k, n, x), l) == Power(k, n, Map(x, l))
  {
    hide Map, Times;
    if n > 0 {
      PowerCommutes(k, l, n - 1, x);
      Compose(Power(k, n - 1, x), k, l);
      Compose(Power(k, n - 1, x), l, k);
    }
  }

  /** Only zero goes to zero. */
  ghost predicate Injective(k: Columns) {
    forall x :: Map(x, k) == 0 ==> x == 0
  }

  lemma {:induction false} PowerInjective(k: Columns, n: nat, x: bv10)
    requires Injective(k) && Power(k, n, x) == 0
    ensures x == 0
  {
    hide Map;
    if n > 0 {
      PowerInjective(k, n - 1, x);
    }
  }

  lemma PowerSame(k: Columns, n: nat, x: bv10, y: bv10)
    requires Injective(k) && Power(k, n, x) == Power(k, n, y)
    ensures x == y
  {
    hide Add, Map, Power, Injective;
    PowerAdd(k, n, x, y);
    AddSelf(Power(k, n, x));
    PowerInjective(k, n, Add(x, y));
    AddEqual(x, y);
  }

  // ---------------------------------------------------------------------------------------
  // The element e, of order 1023

  // Multiplication by powers of e, and by the power 997 that is the first root of the generator.
  const E1 := Columns(0x20, 0x40, 0x80, 0x100, 0x200, 0x137, 0x247, 0x1ae, 0x35c, 0x3b1)
  const E2 := Columns(0x137, 0x247, 0x1ae, 0x35c, 0x3b1, 0x8b, 0x116, 0x205, 0x12a, 0x254)
  const E4 := Columns(0xce, 0x19c, 0x311, 0x32b, 0x376, 0x229, 0x172, 0x2cd, 0xba, 0x15d)
  const E8 := Columns(0x219, 0x13b, 0x25f, 0x1b7, 0x347, 0x91, 0x10b, 0x216, 0x125, 0x24a)
  const E16 := Columns(0x2a3, 0x66, 0xcc, 0x198, 0x319, 0x348, 0x3b0, 0x269, 0x1f2, 0x3cd)
  const E32 := Columns(0x29, 0x52, 0x8d, 0x11a, 0x21d, 0x17, 0x7, 0xe, 0x1c, 0x11)
  const E64 := Columns(0x124, 0x248, 0x1b0, 0x349, 0x3b2, 0x2eb, 0xf6, 0x1c5, 0x38a, 0x234)
  const E128 := Columns(0xd1, 0x18b, 0x316, 0x325, 0x36a, 0x1c9, 0x392, 0x22d, 0x17a, 0x2dd)
  const E256 := Columns(0x204, 0x128, 0x250, 0x1a9, 0x352, 0x331, 0x36b, 0x3f6, 0x2e5, 0xea)
  const E512 := Columns(0x2ba, 0x7d, 0xd3, 0x18f, 0x31e, 0x68, 0xd0, 0x189, 0x312, 0x32d)
  const E33 := Columns(0x17, 0x7, 0xe, 0x1c, 0x11, 0x2e0, 0xe0, 0x1c0, 0x380, 0x220)
  const E12 := Columns(0x1ce, 0x39c, 0x231, 0x16b, 0x2d6, 0x175, 0x2c3, 0xa6, 0x14c, 0x298)
  const E28 := Columns(0x119, 0x21b, 0x13f, 0x257, 0x1a7, 0x7c, 0xd1, 0x18b, 0x316, 0x325)
  const E92 := Columns(0x255, 0x1a3, 0x346, 0x3ac, 0x278, 0x356, 0x3a5, 0x26a, 0x1f4, 0x3c1)
  const E93 := Columns(0x356, 0x3a5, 0x26a, 0x1f4, 0x3c1, 0x6a, 0xd4, 0x181, 0x302, 0x324)
  const E5 := Columns(0x229, 0x172, 0x2cd, 0xba, 0x15d, 0x3a6, 0x26c, 0x1f8, 0x3d9, 0x2bb)
  const E21 := Columns(0x3be, 0x275, 0x1e3, 0x3c6, 0x2ac, 0x3b4, 0x261, 0x1e2, 0x3c4, 0x2a8)
  const E85 := Columns(0x193, 0x30f, 0x33e, 0x375, 0x3e3, 0x92, 0x10d, 0x21a, 0x13d, 0x253)
  const E341 := Columns(0x16d, 0x2da, 0xbd, 0x153, 0x28f, 0x18c, 0x318, 0x339, 0x37b, 0x3ff)
  const E997 := Columns(0x1bd, 0x353, 0x3af, 0x27e, 0x1f5, 0x65, 0xca, 0x194, 0x301, 0x322)
  const E998 := Columns(0x65, 0xca, 0x194, 0x301, 0x322, 0x3d0, 0x2a9, 0x72, 0xcd, 0x19a)
  const E999 := Columns(0x3d0, 0x2a9, 0x72, 0xcd, 0x19a, 0x104, 0x208, 0x130, 0x249, 0x1b2)

  /** The third map is the first after which comes the second. */
  predicate IsProduct(k: Columns, m: Columns, n: Columns) {
    && Map(k.k0, m) == n.k0 && Map(k.k1, m) == n.k1 && Map(k.k2, m) == n.k2 && Map(k.k3, m) == n.k3
    && Map(k.k4, m) == n.k4 && Map(k.k5, m) == n.k5 && Map(k.k6, m) == n.k6 && Map(k.k7, m) == n.k7
    && Map(k.k8, m) == n.k8 && Map(k.k9, m) == n.k9
  }

  lemma Product2()
    ensures Map(E1.k0, E1) == E2.k0 && Map(E1.k1, E1) == E2.k1 && Map(E1.k2, E1) == E2.k2
    ensures Map(E1.k3, E1) == E2.k3 && Map(E1.k4, E1) == E2.k4 && Map(E1.k5, E1) == E2.k5
    ensures Map(E1.k6, E1) == E2.k6 && Map(E1.k7, E1) == E2.k7 && Map(E1.k8, E1) == E2.k8
    ensures Map(E1.k9, E1) == E2.k9
  {
  }

  lemma Product4()
    ensures Map(E2.k0, E2) == E4.k0 && Map(E2.k1, E2) == E4.k1 && Map(E2.k2, E2) == E4.k2
    ensures Map(E2.k3, E2) == E4.k3 && Map(E2.k4, E2) == E4.k4 && Map(E2.k5, E2) == E4.k5
    ensures Map(E2.k6, E2) == E4.k6 && Map(E2.k7, E2) == E4.k7 && Map(E2.k8, E2) == E4.k8
    ensures Map(E2.k9, E2) == E4.k9
  {
  }

  lemma Product8()
    ensures Map(E4.k0, E4) == E8.k0 && Map(E4.k1, E4) == E8.k1 && Map(E4.k2, E4) == E8.k2
    ensures Map(E4.k3, E4) == E8.k3 && Map(E4.k4, E4) == E8.k4 && Map(E4.k5, E4) == E8.k5
    ensures Map(E4.k6, E4) == E8.k6 && Map(E4.k7, E4) == E8.k7 && Map(E4.k8, E4) == E8.k8
    ensures Map(E4.k9, E4) == E8.k9
  {
  }

  lemma Product16()
    ensures Map(E8.k0, E8) == E16.k0 && Map(E8.k1, E8) == E16.k1 && Map(E8.k2, E8) == E16.k2
    ensures Map(E8.k3, E8) == E16.k3 && Map(E8.k4, E8) == E16.k4 && Map(E8.k5, E8) == E16.k5
    ensures Map(E8.k6, E8) == E16.k6 && Map(E8.k7, E8) == E16.k7 && Map(E8.k8, E8) == E16.k8
    ensures Map(E8.k9, E8) == E16.k9
  {
  }

  lemma Product32()
    ensures Map(E16.k0, E16) == E32.k0 && Map(E16.k1, E16) == E32.k1 && Map(E16.k2, E16) == E32.k2
    ensures Map(E16.k3, E16) == E32.k3 && Map(E16.k4, E16) == E32.k4 && Map(E16.k5, E16) == E32.k5
    ensures Map(E16.k6, E16) == E32.k6 && Map(E16.k7, E16) == E32.k7 && Map(E16.k8, E16) == E32.k8
    ensures Map(E16.k9, E16) == E32.k9
  {
  }

  lemma Product64()
    ensures Map(E32.k0, E32) == E64.k0 && Map(E32.k1, E32) == E64.k1 && Map(E32.k2, E32) == E64.k2
    ensures Map(E32.k3, E32) == E64.k3 && Map(E32.k4, E32) == E64.k4 && Map(E32.k5, E32) == E64.k5
    ensures Map(E32.k6, E32) == E64.k6 && Map(E32.k7, E32) == E64.k7 && Map(E32.k8, E32) == E64.k8
    ensures Map(E32.k9, E32) == E64.k9
  {
  }

  lemma Product128()
    ensures Map(E64.k0, E64) == E128.k0 && Map(E64.k1, E64) == E128.k1 && Map(E64.k2, E64) == E128.k2
    ensures Map(E64.k3, E64) == E128.k3 && Map(E64.k4, E64) == E128.k4 && Map(E64.k5, E64) == E128.k5
    ensures Map(E64.k6, E64) == E128.k6 && Map(E64.k7, E64) == E128.k7 && Map(E64.k8, E64) == E128.k8
    ensures Map(E64.k9, E64) == E128.k9
  {
  }

  lemma Product256()
    ensures Map(E128.k0, E128) == E256.k0 && Map(E128.k1, E128) == E256.k1 && Map(E128.k2, E128) == E256.k2
    ensures Map(E128.k3, E128) == E256.k3 && Map(E128.k4, E128) == E256.k4 && Map(E128.k5, E128) == E256.k5
    ensures Map(E128.k6, E128) == E256.k6 && Map(E128.k7, E128) == E256.k7 && Map(E128.k8, E128) == E256.k8
    ensures Map(E128.k9, E128) == E256.k9
  {
  }

  lemma Product512()
    ensures Map(E256.k0, E256) == E512.k0 && Map(E256.k1, E256) == E512.k1 && Map(E256.k2, E256) == E512.k2
    ensures Map(E256.k3, E256) == E512.k3 && Map(E256.k4, E256) == E512.k4 && Map(E256.k5, E256) == E512.k5
    ensures Map(E256.k6, E256) == E512.k6 && Map(E256.k7, E256) == E512.k7 && Map(E256.k8, E256) == E512.k8
    ensures Map(E256.k9, E256) == E512.k9
  {
  }

  lemma Product33()
    ensures Map(E32.k0, E1) == E33.k0 && Map(E32.k1, E1) == E33.k1 && Map(E32.k2, E1) == E33.k2
    ensures Map(E32.k3, E1) == E33.k3 && Map(E32.k4, E1) == E33.k4 && Map(E32.k5, E1) == E33.k5
    ensures Map(E32.k6, E1) == E33.k6 && Map(E32.k7, E1) == E33.k7 && Map(E32.k8, E1) == E33.k8
    ensures Map(E32.k9, E1) == E33.k9
  {
  }

  lemma Product12()
    ensures Map(E8.k0, E4) == E12.k0 && Map(E8.k1, E4) == E12.k1 && Map(E8.k2, E4) == E12.k2
    ensures Map(E8.k3, E4) == E12.k3 && Map(E8.k4, E4) == E12.k4 && Map(E8.k5, E4) == E12.k5
    ensures Map(E8.k6, E4) == E12.k6 && Map(E8.k7, E4) == E12.k7 && Map(E8.k8, E4) == E12.k8
    ensures Map(E8.k9, E4) == E12.k9
  {
  }

  lemma Product28()
    ensures Map(E16.k0, E12) == E28.k0 && Map(E16.k1, E12) == E28.k1 && Map(E16.k2, E12) == E28.k2
    ensures Map(E16.k3, E12) == E28.k3 && Map(E16.k4, E12) == E28.k4 && Map(E16.k5, E12) == E28.k5
    ensures Map(E16.k6, E12) == E28.k6 && Map(E16.k7, E12) == E28.k7 && Map(E16.k8, E12) == E28.k8
    ensures Map(E16.k9, E12) == E28.k9
  {
  }

  lemma Product92()
    ensures Map(E64.k0, E28) == E92.k0 && Map(E64.k1, E28) == E92.k1 && Map(E64.k2, E28) == E92.k2
    ensures Map(E64.k3, E28) == E92.k3 && Map(E64.k4, E28) == E92.k4 && Map(E64.k5, E28) == E92.k5
    ensures Map(E64.k6, E28) == E92.k6 && Map(E64.k7, E28) == E92.k7 && Map(E64.k8, E28) == E92.k8
    ensures Map(E64.k9, E28) == E92.k9
  {
  }

  lemma Product93()
    ensures Map(E92.k0, E1) == E93.k0 && Map(E92.k1, E1) == E93.k1 && Map(E92.k2, E1) == E93.k2
    ensures Map(E92.k3, E1) == E93.k3 && Map(E92.k4, E1) == E93.k4 && Map(E92.k5, E1) == E93.k5
    ensures Map(E92.k6, E1) == E93.k6 && Map(E92.k7, E1) == E93.k7 && Map(E92.k8, E1) == E93.k8
    ensures Map(E92.k9, E1) == E93.k9
  {
  }

  lemma Product5()
    ensures Map(E4.k0, E1) == E5.k0 && Map(E4.k1, E1) == E5.k1 && Map(E4.k2, E1) == E5.k2
    ensures Map(E4.k3, E1) == E5.k3 && Map(E4.k4, E1) == E5.k4 && Map(E4.k5, E1) == E5.k5
    ensures Map(E4.k6, E1) == E5.k6 && Map(E4.k7, E1) == E5.k7 && Map(E4.k8, E1) == E5.k8
    ensures Map(E4.k9, E1) == E5.k9
  {
  }

  lemma Product21()
    ensures Map(E16.k0, E5) == E21.k0 && Map(E16.k1, E5) == E21.k1 && Map(E16.k2, E5) == E21.k2
    ensures Map(E16.k3, E5) == E21.k3 && Map(E16.k4, E5) == E21.k4 && Map(E16.k5, E5) == E21.k5
    ensures Map(E16.k6, E5) == E21.k6 && Map(E16.k7, E5) == E21.k7 && Map(E16.k8, E5) == E21.k8
    ensures Map(E16.k9, E5) == E21.k9
  {
  }

  lemma Product85()
    ensures Map(E64.k0, E21) == E85.k0 && Map(E64.k1, E21) == E85.k1 && Map(E64.k2, E21) == E85.k2
    ensures Map(E64.k3, E21) == E85.k3 && Map(E64.k4, E21) == E85.k4 && Map(E64.k5, E21) == E85.k5
    ensures Map(E64.k6, E21) == E85.k6 && Map(E64.k7, E21) == E85.k7 && Map(E64.k8, E21) == E85.k8
    ensures Map(E64.k9, E21) == E85.k9
  {
  }

  lemma Product341()
    ensures Map(E256.k0, E85) == E341.k0 && Map(E256.k1, E85) == E341.k1 && Map(E256.k2, E85) == E341.k2
    ensures Map(E256.k3, E85) == E341.k3 && Map(E256.k4, E85) == E341.k4 && Map(E256.k5, E85) == E341.k5
    ensures Map(E256.k6, E85) == E341.k6 && Map(E256.k7, E85) == E341.k7 && Map(E256.k8, E85) == E341.k8
    ensures Map(E256.k9, E85) == E341.k9
  {
  }

  lemma Product1024()
    ensures Map(E512.k0, E512) == E1.k0 && Map(E512.k1, E512) == E1.k1 && Map(E512.k2, E512) == E1.k2
    ensures Map(E512.k3, E512) == E1.k3 && Map(E512.k4, E512) == E1.k4 && Map(E512.k5, E512) == E1.k5
    ensures Map(E512.k6, E512) == E1.k6 && Map(E512.k7, E512) == E1.k7 && Map(E512.k8, E512) == E1.k8
    ensures Map(E512.k9, E512) == E1.k9
  {
  }

  lemma Product998()
    ensures Map(E1.k0, E997) == E998.k0 && Map(E1.k1, E997) == E998.k1 && Map(E1.k2, E997) == E998.k2
    ensures Map(E1.k3, E997) == E998.k3 && Map(E1.k4, E997) == E998.k4 && Map(E1.k5, E997) == E998.k5
    ensures Map(E1.k6, E997) == E998.k6 && Map(E1.k7, E997) == E998.k7 && Map(E1.k8, E997) == E998.k8
    ensures Map(E1.k9, E997) == E998.k9
  {
  }

  lemma Product998Back()
    ensures Map(E997.k0, E1) == E998.k0 && Map(E997.k1, E1) == E998.k1 && Map(E997.k2, E1) == E998.k2
    ensures Map(E997.k3, E1) == E998.k3 && Map(E997.k4, E1) == E998.k4 && Map(E997.k5, E1) == E998.k5
    ensures Map(E997.k6, E1) == E998.k6 && Map(E997.k7, E1) == E998.k7 && Map(E997.k8, E1) == E998.k8
    ensures Map(E997.k9, E1) == E998.k9
  {
  }

  lemma Product999()
    ensures Map(E998.k0, E1) == E999.k0 && Map(E998.k1, E1) == E999.k1 && Map(E998.k2, E1) == E999.k2
    ensures Map(E998.k3, E1) == E999.k3 && Map(E998.k4, E1) == E999.k4 && Map(E998.k5, E1) == E999.k5
    ensures Map(E998.k6, E1) == E999.k6 && Map(E998.k7, E1) == E999.k7 && Map(E998.k8, E1) == E999.k8
    ensures Map(E998.k9, E1) == E999.k9
  {
  }

  lemma KernelE1(x: bv10)
    requires Map(x, E1) == 0
    ensures x == 0
  {
  }

  lemma KernelE997(x: bv10)
    requires Map(x, E997) == 0
    ensures x == 0
  {
  }

  lemma Fixed33(x: bv10)
    requires Map(x, E33) == x
    ensures x == 0
  {
  }

  lemma Fixed93(x: bv10)
    requires Map(x, E93) == x
    ensures x == 0
  {
  }

  lemma Fixed341(x: bv10)
    requires Map(x, E341) == x
    ensures x == 0
  {
  }

  lemma Injectives()
    ensures Injective(E1) && Injective(E997)
  {
    hide Map;
    forall x | Map(x, E1) == 0 ensures x == 0 {
      KernelE1(x);
    }
    forall x | Map(x, E997) == 0 ensures x == 0 {
      KernelE997(x);
    }
  }

  lemma Commute()
    ensures Times(E1, E997) == Times(E997, E1)
  {
    hide Map;
    Product998();
    Product998Back();
    ProductIs(E1, E997, E998);
    ProductIs(E997, E1, E998);
  }

  lemma ProductIs(k: Columns, m: Columns, n: Columns)
    requires IsProduct(k, m, n)
    ensures Times(k, m) == n
  {
    hide Map;
  }

  /** Multiplication by the n-th power of e is the map with these columns. */
  ghost predicate IsPower(n: nat, k: Columns) {
    forall x :: Power(E1, n, x) == Map(x, k)
  }

  lemma PowerSum(m: nat, n: nat, k: Columns, l: Columns, r: Columns)
    requires IsPower(m, k) && IsPower(n, l) && IsProduct(l, k, r)
    ensures IsPower(m + n, r)
  {
    hide Power, Map, Times, IsProduct;
    ProductIs(l, k, r);
    forall x ensures Power(E1, m + n, x) == Map(x, r) {
      PowerPlus(E1, m, n, x);
      Compose(x, l, k);
    }
  }

  lemma PowerOne()
    ensures IsPower(1, E1)
  {
    hide Map;
    forall x ensures Power(E1, 1, x) == Map(x, E1) {
      PowerNone(E1, x);
    }
  }

  lemma PowersOfTwo()
    ensures IsPower(1, E1) && IsPower(4, E4) && IsPower(8, E8) && IsPower(16, E16) && IsPower(32, E32)
    ensures IsPower(64, E64) && IsPower(256, E256) && IsPower(1024, E1)
  {
    hide Power, Map, IsPower;
    PowerOne();
    Product2();
    PowerSum(1, 1, E1, E1, E2);
    Product4();
    PowerSum(2, 2, E2, E2, E4);
    Product8();
    PowerSum(4, 4, E4, E4, E8);
    Product16();
    PowerSum(8, 8, E8, E8, E16);
    Product32();
    PowerSum(16, 16, E16, E16, E32);
    Product64();
    PowerSum(32, 32, E32, E32, E64);
    Product128();
    PowerSum(64, 64, E64, E64, E128);
    Product256();
    PowerSum(128, 128, E128, E128, E256);
    Product512();
    PowerSum(256, 256, E256, E256, E512);
    Product1024();
    PowerSum(512, 512, E512, E512, E1);
  }

  lemma PowersOfE()
    ensures IsPower(33, E33) && IsPower(93, E93) && IsPower(341, E341) && IsPower(1024, E1)
  {
    hide Power, Map, IsPower;
    PowersOfTwo();
    Product33();
    PowerSum(1, 32, E1, E32, E33);
    Product12();
    PowerSum(4, 8, E4, E8, E12);
    Product28();
    PowerSum(12, 16, E12, E16, E28);
    Product92();
    PowerSum(28, 64, E28, E64, E92);
    Product93();
    PowerSum(1, 92, E1, E92, E93);
    Product5();
    PowerSum(1, 4, E1, E4, E5);
    Product21();
    PowerSum(5, 16, E5, E16, E21);
    Product85();
    PowerSum(21, 64, E21, E64, E85);
    Product341();
    PowerSum(85, 256, E85, E256, E341);
  }

  // ---------------------------------------------------------------------------------------
  // Periods

  lemma PeriodMinus(a: nat, b: nat, x: bv10)
    requires a >= b && Power(E1, a, x) == x && Power(E1, b, x) == x
    ensures Power(E1, a - b, x) == x
  {
    hide Power, Injective;
    Injectives();
    PowerPlus(E1, b, a - b, x);
    PowerSame(E1, b, Power(E1, a - b, x), x);
  }

  /** What two numbers of steps leave in place, their greatest common divisor does. */
  lemma {:induction false} PeriodCommon(a: nat, b: nat, x: bv10) returns (g: nat, i: nat, j: nat)
    requires a > 0 && b > 0 && Power(E1, a, x) == x && Power(E1, b, x) == x
    ensures g > 0 && Power(E1, g, x) == x && a == i * g && b == j * g
    decreases a + b
  {
    hide Power;
    if a == b {
      g, i, j := a, 1, 1;
    } else if a > b {
      PeriodMinus(a, b, x);
      g, i, j := PeriodCommon(a - b, b, x);
      Distribute(i, j, g);
      i := i + j;
    } else {
      PeriodMinus(b, a, x);
      g, i, j := PeriodCommon(a, b - a, x);
      Distribute(i, j, g);
      j := i + j;
    }
  }

  lemma {:induction false} PeriodTimes(g: nat, n: nat, x: bv10)
    requires Power(E1, g, x) == x
    ensures n * g >= 0 && Power(E1, n * g, x) == x
  {
    hide Power;
    if n == 0 {
      PowerNone(E1, x);
    } else {
      PeriodTimes(g, n - 1, x);
      Distribute(n - 1, 1, g);
      PowerPlus(E1, g, (n - 1) * g, x);
    }
  }

  lemma PowerNone(k: Columns, x: bv10)
    ensures Power(k, 0, x) == x
  {
  }

  /** The divisors of 1023 = 3 * 11 * 31 other than itself. */
  lemma Divisors(g: nat, j: nat)
    requires g * j == 1023 && j >= 2
    ensures g == 1 || g == 3 || g == 11 || g == 31 || g == 33 || g == 93 || g == 341
  {
    if j <= 32 {
      SmallFactor(j, g);
    } else {
      if g >= 32 {
        ScaleUp(32, g, j);
      }
      SmallFactor(g, j);
    }
  }

  lemma PositiveFactor(i: nat, g: nat)
    requires i * g > 0
    ensures i > 0
  {
  }

  lemma AtLeastTwo(j: nat, g: nat)
    requires j * g > g
    ensures j >= 2
  {
  }

  lemma SmallFactor(a: nat, b: nat)
    requires a * b == 1023 && a <= 32
    ensures a == 1 || (a == 3 && b == 341) || (a == 11 && b == 93) || (a == 31 && b == 33)
  {
  }

  /** No element but zero comes back before 1023 steps. */
  lemma NoShortPeriod(d: nat, x: bv10)
    requires 0 < d < 1023 && Power(E1, d, x) == x
    ensures x == 0
  {
    hide Power, Map, IsPower, IsProduct;
    FullPeriod(x);
    var g, i, j := PeriodCommon(d, 1023, x);
    PositiveFactor(i, g);
    ScaleUp(1, i, g);
    AtLeastTwo(j, g);
    Divisors(g, j);
    if g == 1 || g == 3 || g == 11 || g == 33 {
      PeriodTimes(g, 33 / g, x);
      Fixes33(x);
    } else if g == 341 {
      Fixes341(x);
    } else {
      PeriodTimes(g, 93 / g, x);
      Fixes93(x);
    }
  }

  lemma FullPeriod(x: bv10)
    ensures Power(E1, 1023, x) == x
  {
    hide Power, Map, IsProduct, Injective;
    PowersOfE();
    PowerOne();
    PowerPlus(E1, 1, 1023, x);
    Injectives();
    PowerSame(E1, 1, Power(E1, 1023, x), x);
  }

  lemma Fixes33(x: bv10)
    requires Power(E1, 33, x) == x
    ensures x == 0
  {
    hide Power, Map, IsProduct;
    PowersOfE();
    Fixed33(x);
  }

  lemma Fixes93(x: bv10)
    requires Power(E1, 93, x) == x
    ensures x == 0
  {
    hide Power, Map, IsProduct;
    PowersOfE();
    Fixed93(x);
  }

  lemma Fixes341(x: bv10)
    requires Power(E1, 341, x) == x
    ensures x == 0
  {
    hide Power, Map, IsProduct;
    PowersOfE();
    Fixed341(x);
  }

  // ---------------------------------------------------------------------------------------
  // Three unknowns, three equations

  /** How far n steps take an element. */
  function Moved(n: nat, x: bv10): bv10 {
    Add(Power(E1, n, x), x)
  }

  lemma MovedTwice(n: nat, x: bv10)
    ensures Moved(n, Moved(n, x)) == Moved(2 * n, x)
  {
    hide Add, Power;
    var y := Power(E1, n, x);
    PowerAdd(E1, n, y, x);
    PowerPlus(E1, n, n, x);
    var z := Power(E1, 2 * n, x);
    AddRegroup(z, y, y, x);
    AddRegroup(z, y, x, y);
    AddSwap(y, x);
    AddSelf(y);
    AddSelf(Add(z, x));
  }

  lemma AddSwap(a: bv10, b: bv10)
    ensures Add(a, b) == Add(b, a)
  {
  }

  /** The sums that vanish leave equal moves. */
  lemma EqualMoves(i: nat, j: nat, a: bv10, b: bv10, c: bv10)
    requires Add(Add(a, b), c) == 0 && Add(Add(Power(E1, i, a), Power(E1, j, b)), c) == 0
    ensures Moved(i, a) == Moved(j, b)
  {
    hide Add, Power;
    AddEqual(Add(a, b), c);
    AddRegroup(Power(E1, i, a), Power(E1, j, b), a, b);
    AddEqual(Moved(i, a), Moved(j, b));
  }

  /** Three elements of which the first is not zero cannot satisfy all three equations. */
  lemma NoThree(i: nat, j: nat, a: bv10, b: bv10, c: bv10)
    requires 0 < j < i < 1023
    requires Add(Add(a, b), c) == 0
    requires Add(Add(Power(E1, i, a), Power(E1, j, b)), c) == 0
    requires Add(Add(Power(E1, 2 * i, a), Power(E1, 2 * j, b)), c) == 0
    ensures a == 0
  {
    hide Add, Power, Injective;
    EqualMoves(i, j, a, b, c);
    EqualMoves(2 * i, 2 * j, a, b, c);
    MovedTwice(i, a);
    MovedTwice(j, b);
    var w := Moved(i, a);
    AddCancels(Power(E1, i, w), Power(E1, j, w), w);
    PowerPlus(E1, j, i - j, w);
    Injectives();
    PowerSame(E1, j, Power(E1, i - j, w), w);
    NoShortPeriod(i - j, w);
    AddEqual(Power(E1, i, a), a);
    NoShortPeriod(i, a);
  }
}
