/**
 * The heights that the skip pointers of the block tree lead to, and how long a walk along them takes
 * (src/chain.cpp). Below height 2^18 no walk takes more than 110 steps; in general the number of steps grows with
 * the square of the number of binary digits.
 */
module SkipHeights {
  import opened Powers
  import opened Wrappers

  // ---------------------------------------------------------------------------------------
  // The height to skip to

  function BitAnd(a: nat, b: nat): (r: nat)
    ensures r <= a && r <= b
  {
    if a == 0 || b == 0 then 0
    else 2 * BitAnd(a / 2, b / 2) + if a % 2 == 1 && b % 2 == 1 then 1 else 0
  }

  /** Clears the lowest bit that is set. */
  function InvertLowestOne(n: nat): (r: nat)
    ensures r <= n && (n > 0 ==> r < n)
  {
    if n == 0 then 0 else BitAnd(n, n - 1)
  }

  /** The height that the skip of a block at this height leads to. */
  function GetSkipHeight(height: nat): (r: nat)
    ensures height > 0 ==> r < height
  {
    if height < 2 then 0
    else if height % 2 == 1 then InvertLowestOne(InvertLowestOne(height - 1)) + 1
    else InvertLowestOne(height)
  }

  /** Whether the walk to a height takes the skip: unless it goes too far or the skip of the parent is better. */
  predicate TakesSkip(walk: nat, height: nat)
    requires walk > 0
  {
    var skip, skipPrev := GetSkipHeight(walk), GetSkipHeight(walk - 1);
    skip == height || (skip > height && !(skipPrev < skip - 2 && skipPrev >= height))
  }

  /** How many steps the walk from one height to another takes when all skips are set. */
  function Steps(walk: nat, height: nat): nat
    requires walk >= height
    decreases walk
  {
    if walk == height then 0
    else if TakesSkip(walk, height) then 1 + Steps(GetSkipHeight(walk), height)
    else 1 + Steps(walk - 1, height)
  }

  // ---------------------------------------------------------------------------------------
  // Clearing bits

  /** The number of bits that are set. */
  function Ones(n: nat): nat {
    if n == 0 then 0 else n % 2 + Ones(n / 2)
  }

  lemma {:induction false} AndSelf(n: nat)
    ensures BitAnd(n, n) == n
  {
    if n > 0 {
      AndSelf(n / 2);
    }
  }

  lemma InvertOdd(k: nat)
    ensures InvertLowestOne(2 * k + 1) == 2 * k
  {
    AndSelf(k);
    assert (2 * k + 1) / 2 == k && (2 * k) / 2 == k;
  }

  lemma InvertEven(k: nat)
    ensures InvertLowestOne(2 * k) == 2 * InvertLowestOne(k)
  {
    if k > 0 {
      assert (2 * k) / 2 == k && (2 * k - 1) / 2 == k - 1;
    }
  }

  lemma {:induction false} OnesLess(n: nat)
    requires n > 0
    ensures Ones(InvertLowestOne(n)) == Ones(n) - 1
  {
    hide InvertLowestOne;
    var k := n / 2;
    if n % 2 == 1 {
      InvertOdd(k);
      OnesDouble(k);
    } else {
      InvertEven(k);
      OnesLess(k);
      OnesDouble(InvertLowestOne(k));
    }
  }

  lemma OnesDouble(n: nat)
    ensures Ones(2 * n) == Ones(n) && Ones(2 * n + 1) == Ones(n) + 1
  {
    assert (2 * n) / 2 == n && (2 * n + 1) / 2 == n;
  }

  lemma {:induction false} OnesZero(n: nat)
    ensures Ones(n) == 0 <==> n == 0
  {
    if n > 0 {
      OnesZero(n / 2);
    }
  }

  lemma {:induction false} OnesFit(n: nat, p: nat)
    requires n < Pow(2, p)
    ensures Ones(n) <= p
  {
    if n > 0 {
      OnesFit(n / 2, p - 1);
    }
  }

  /** Below a multiple of a power of two, bits are cleared by themselves. */
  lemma {:induction false} InvertLow(c: nat, p: nat, u: nat)
    requires 0 < u < Pow(2, p)
    ensures InvertLowestOne(c * Pow(2, p) + u) == c * Pow(2, p) + InvertLowestOne(u)
    decreases p
  {
    hide InvertLowestOne;
    var k, h := u / 2, c * Pow(2, p - 1);
    PowUnfold(2, p - 1);
    assert c * Pow(2, p) == 2 * h;
    if u % 2 == 1 {
      InvertOdd(h + k);
      InvertOdd(k);
    } else {
      InvertLow(c, p - 1, k);
      InvertEven(h + k);
      InvertEven(k);
    }
  }

  lemma {:induction false} InvertHigh(c: nat, p: nat)
    ensures InvertLowestOne(c * Pow(2, p)) == InvertLowestOne(c) * Pow(2, p)
    decreases p
  {
    hide InvertLowestOne;
    if p > 0 {
      PowUnfold(2, p - 1);
      InvertHigh(c, p - 1);
      InvertEven(c * Pow(2, p - 1));
    }
  }

  // ---------------------------------------------------------------------------------------
  // Walks within eight heights

  lemma InvertEight(k: nat)
    ensures InvertLowestOne(8 * k) == 8 * InvertLowestOne(k)
    ensures InvertLowestOne(8 * k + 2) == 8 * k && InvertLowestOne(8 * k + 4) == 8 * k
    ensures InvertLowestOne(8 * k + 6) == 8 * k + 4
  {
    hide InvertLowestOne;
    InvertEven(4 * k);
    InvertEven(2 * k);
    InvertEven(k);
    InvertEven(4 * k + 1);
    InvertOdd(2 * k);
    InvertEven(4 * k + 2);
    InvertEven(2 * k + 1);
    InvertOdd(k);
    InvertEven(4 * k + 3);
    InvertOdd(2 * k + 1);
  }

  /** Where the skips within eight heights lead: down among them, or far below. */
  lemma SkipsOfEight(k: nat)
    ensures GetSkipHeight(8 * k + 7) == 8 * k + 1 && GetSkipHeight(8 * k + 6) == 8 * k + 4
    ensures GetSkipHeight(8 * k + 4) == 8 * k && GetSkipHeight(8 * k + 2) == 8 * k
    ensures GetSkipHeight(8 * k + 3) == GetSkipHeight(8 * k + 5) == InvertLowestOne(8 * k) + 1
    ensures GetSkipHeight(8 * k + 1) < Max(1, 8 * k) && InvertLowestOne(8 * k) + 8 <= Max(8, 8 * k)
  {
    hide InvertLowestOne;
    InvertEight(k);
    if k > 0 {
      InvertEight(InvertLowestOne(k));
    }
  }

  lemma Walks(walk: nat, height: nat)
    requires walk >= height
    ensures walk == height ==> Steps(walk, height) == 0
    ensures walk > height && TakesSkip(walk, height) ==> GetSkipHeight(walk) >= height
    ensures walk > height ==> Steps(walk, height) == 1 + Steps(if TakesSkip(walk, height) then GetSkipHeight(walk)
                                                               else walk - 1, height)
  {
    hide GetSkipHeight;
  }

  /** The steps of a walk between the i-th and the j-th of eight heights. */
  function WithinEight(i: nat, j: nat): nat
    requires j <= i < 8
  {
    if j == 0 then [0, 1, 1, 2, 1, 2, 3, 2][i]
    else if j == 1 then [0, 0, 1, 2, 3, 4, 4, 1][i]
    else if j == 2 then [0, 0, 0, 1, 2, 3, 3, 4][i]
    else i - j
  }

  /** Among eight heights a walk takes four steps at most. */
  lemma {:induction false} StepsWithinEight(k: nat, i: nat, j: nat)
    requires j <= i < 8
    ensures Steps(8 * k + i, 8 * k + j) <= WithinEight(i, j) <= 4
    decreases i, 1
  {
    hide GetSkipHeight, InvertLowestOne, Steps;
    if i == j {
      Walks(8 * k + j, 8 * k + j);
    } else if i % 2 == 1 {
      OddWithinEight(k, i, j);
    } else {
      EvenWithinEight(k, i, j);
    }
  }

  lemma {:induction false} OddWithinEight(k: nat, i: nat, j: nat)
    requires j < i < 8 && i % 2 == 1
    ensures Steps(8 * k + i, 8 * k + j) <= WithinEight(i, j)
    decreases i, 0
  {
    hide GetSkipHeight, InvertLowestOne, Steps;
    SkipsOfEight(k);
    Walks(8 * k + i, 8 * k + j);
    StepsWithinEight(k, i - 1, j);
    StepsWithinEight(k, if i > 1 && j <= 1 then 1 else j, j);
  }

  lemma {:induction false} EvenWithinEight(k: nat, i: nat, j: nat)
    requires j < i < 8 && i % 2 == 0
    ensures Steps(8 * k + i, 8 * k + j) <= WithinEight(i, j)
    decreases i, 0
  {
    hide GetSkipHeight, InvertLowestOne, Steps;
    SkipsOfEight(k);
    Walks(8 * k + i, 8 * k + j);
    Walks(8 * k + j, 8 * k + j);
    if i == 6 && j == 1 {
      Walks(8 * k + 5, 8 * k + 1);
    }
    StepsWithinEight(k, i - 1, j);
    StepsWithinEight(k, if i == 6 && j <= 4 then 4 else j, j);
  }

  // ---------------------------------------------------------------------------------------
  // Walks to a height whose first different bit is known

  /** The multiple of a power of two with these bits above position p. */
  function Base(c: nat, p: nat): nat {
    c * Pow(2, p + 1)
  }

  /** Two heights with the same bits above position p, where the walk has a one and the height a zero. */
  ghost predicate Splits(walk: nat, height: nat, c: nat, p: nat, u: nat, v: nat) {
    u < Pow(2, p) && v < Pow(2, p) && walk == Base(c, p) + Pow(2, p) + u && height == Base(c, p) + v
  }

  /** The walk down to the last height with the same bits above position p. */
  function Below(p: nat): nat {
    if p <= 3 then 5 else Below(p - 1) + 2 + (p - 1) / 2
  }

  /** The bits that a walk has yet to clear below its first different bit: two at a time from an odd height. */
  function Bound(p: nat, u: nat): nat {
    var m := Ones(u / 2);
    Below(p) + if u % 2 == 1 then 1 + (m + 1) / 2 else if m <= 1 || u % 8 == 0 then m else 2 + (m + 1) / 2
  }

  /** Clearing the lowest bit below or at the first different one. */
  lemma InvertWalk(c: nat, p: nat, u: nat)
    requires u < Pow(2, p)
    ensures var base, q := Base(c, p), Pow(2, p);
            InvertLowestOne(base + q + u) == if u == 0 then base else base + q + InvertLowestOne(u)
  {
    hide InvertLowestOne;
    BaseIs(c, p);
    if u > 0 {
      InvertLow(2 * c + 1, p, u);
    } else {
      InvertHigh(2 * c + 1, p);
      InvertOdd(c);
    }
  }

  lemma BaseIs(c: nat, p: nat)
    ensures Base(c, p) == (2 * c) * Pow(2, p) && (2 * c + 1) * Pow(2, p) == Base(c, p) + Pow(2, p)
  {
    PowUnfold(2, p);
    Associate(c, 2, Pow(2, p));
    Distribute(2 * c, 1, Pow(2, p));
  }

  /** The walk down the last height of an odd one. */
  lemma OneMore(base: nat, height: nat)
    requires base % 2 == 0 && base <= height <= base + 1
    ensures Steps(base + 1, height) <= 1
  {
    hide Steps;
    Walks(base + 1, height);
    Walks(height, height);
    if height == base > 0 && TakesSkip(base + 1, height) {
      InvertEven(base / 2);
      InvertEven(InvertLowestOne(base / 2));
    }
  }

  /** From an odd height with two bits or more below, the skip clears two of them and is taken. */
  lemma OddClearsTwo(c: nat, p: nat, x: nat, v: nat)
    requires p >= 1 && 2 * x + 1 < Pow(2, p) && v < Pow(2, p) && Ones(x) >= 2
    ensures var base, q := Base(c, p), Pow(2, p);
            var y := InvertLowestOne(InvertLowestOne(x));
            && y < x && Ones(y) == Ones(x) - 2 && 2 * y + 1 < q
            && GetSkipHeight(base + q + 2 * x + 1) == base + q + 2 * y + 1
            && TakesSkip(base + q + 2 * x + 1, base + v)
  {
    hide InvertLowestOne, Ones, Base, Pow;
    var base, q := Base(c, p), Pow(2, p);
    var z := InvertLowestOne(x);
    OnesZero(x);
    OnesLess(x);
    OnesZero(z);
    OnesLess(z);
    InvertEven(x);
    InvertEven(z);
    InvertWalk(c, p, 2 * x);
    InvertWalk(c, p, 2 * z);
    EvenBase(c, p);
  }

  lemma EvenBase(c: nat, p: nat)
    requires p >= 1
    ensures Pow(2, p) % 2 == 0 && Base(c, p) % 2 == 0
  {
    hide Pow, Base;
    PowUnfold(2, p - 1);
    BaseDoubles(c, p - 1);
  }

  /** From an odd height with one bit below, the skip goes one above the base. */
  lemma OddClearsOne(c: nat, p: nat, x: nat)
    requires p >= 1 && 2 * x + 1 < Pow(2, p) && Ones(x) == 1
    ensures var base, q := Base(c, p), Pow(2, p);
            && GetSkipHeight(base + q + 2 * x + 1) == base + 1 && GetSkipHeight(base + q + 2 * x) == base + q
  {
    hide InvertLowestOne, Ones, Base, Pow;
    var q := Pow(2, p);
    OnesZero(x);
    OnesLess(x);
    OnesZero(InvertLowestOne(x));
    InvertEven(x);
    InvertWalk(c, p, 2 * x);
    InvertWalk(c, p, 0);
    EvenBase(c, p);
  }

  /** From an odd height with no bit below, it goes below the base, or to one. */
  lemma OddClearsNone(c: nat, p: nat)
    requires p >= 1
    ensures var base, q := Base(c, p), Pow(2, p);
            && GetSkipHeight(base + q + 1) <= Max(1, base - 1) && GetSkipHeight(base + q) == base
            && (base == 0 ==> GetSkipHeight(base + q + 1) == 1)
  {
    hide InvertLowestOne, Ones, Base, Pow;
    var base, q := Base(c, p), Pow(2, p);
    InvertWalk(c, p, 0);
    EvenBase(c, p);
    InvertEven(base / 2);
  }

  /** Clearing the lowest bit of a multiple of eight goes below the skip of the height before. */
  lemma EvenClearsOne(c: nat, p: nat, y: nat)
    requires p >= 3 && 0 < 8 * y < Pow(2, p)
    ensures var base, q := Base(c, p), Pow(2, p);
            && GetSkipHeight(base + q + 8 * y) == base + q + 8 * InvertLowestOne(y)
            && GetSkipHeight(base + q + 8 * y - 1) == base + q + 8 * y - 7
  {
    hide InvertLowestOne, Ones, Base, Pow;
    var base, q := Base(c, p), Pow(2, p);
    EvenBase(c, p);
    InvertEight(y);
    InvertWalk(c, p, 8 * y);
    var x := 8 * y - 2;
    InvertEight(y - 1);
    InvertWalk(c, p, x);
    InvertWalk(c, p, x - 2);
  }

  // ---------------------------------------------------------------------------------------
  // The first different bit

  lemma {:induction false} TopDifference(walk: nat, height: nat) returns (c: nat, p: nat, u: nat, v: nat)
    requires walk > height
    ensures Splits(walk, height, c, p, u, v)
  {
    hide Pow;
    if walk / 2 == height / 2 {
      c, p, u, v := height / 2, 0, 0, 0;
      PowZero(2);
      PowOne(2);
    } else {
      var x, y;
      c, p, x, y := TopDifference(walk / 2, height / 2);
      PowUnfold(2, p);
      BaseDoubles(c, p);
      p, u, v := p + 1, 2 * x + walk % 2, 2 * y + height % 2;
    }
  }

  lemma BaseDoubles(c: nat, p: nat)
    ensures Base(c, p + 1) == 2 * Base(c, p)
  {
    PowUnfold(2, p + 1);
    Associate(2, c, Pow(2, p + 1));
  }

  /** Below a power of two the first different bit is lower. */
  lemma SplitsBelow(walk: nat, height: nat, c: nat, p: nat, u: nat, v: nat, n: nat)
    requires Splits(walk, height, c, p, u, v) && walk < Pow(2, n)
    ensures p < n
  {
    if p >= n {
      PowGrows(2, n, p);
    }
  }

  /** So it is between two multiples of a power of two. */
  lemma SplitsWithin(walk: nat, height: nat, c: nat, p: nat, u: nat, v: nat, k: nat, n: nat)
    requires Splits(walk, height, c, p, u, v) && k * Pow(2, n) <= height && walk < (k + 1) * Pow(2, n)
    ensures p < n
  {
    if p >= n {
      PowAdd(2, p - n, n);
      var q, j := Pow(2, n), (2 * c + 1) * Pow(2, p - n);
      Associate(2 * c + 1, Pow(2, p - n), q);
      BaseIs(c, p);
      ScaleDown(k, j, q);
      ScaleDown(j, k + 1, q);
    }
  }

  /** A low first different bit leaves both among the same eight heights. */
  lemma SplitsLow(walk: nat, height: nat, c: nat, p: nat, u: nat, v: nat)
    requires Splits(walk, height, c, p, u, v) && p < 3
    ensures walk / 8 == height / 8
  {
    hide Pow, Base;
    SmallPowers(c);
    BaseDoubles(c, 0);
    BaseDoubles(c, 1);
    if p == 0 {
      SameEighth(c / 4, 2 * (c % 4) + 1, 2 * (c % 4));
    } else if p == 1 {
      SameEighth(c / 2, 4 * (c % 2) + 2 + u, 4 * (c % 2) + v);
    } else {
      SameEighth(c, 4 + u, v);
    }
  }

  lemma SameEighth(k: nat, i: nat, j: nat)
    requires i < 8 && j < 8
    ensures (8 * k + i) / 8 == (8 * k + j) / 8
  {
  }

  lemma SmallPowers(c: nat)
    ensures Pow(2, 0) == 1 && Pow(2, 1) == 2 && Pow(2, 2) == 4 && Base(c, 0) == 2 * c
  {
  }

  lemma {:induction false} BelowGrows(p: nat, n: nat)
    requires 3 <= p < n
    ensures Below(p) + 2 + p / 2 <= Below(n)
  {
    if p < n - 1 {
      BelowGrows(p, n - 1);
    }
  }

  /** The bound after the first different bit is cleared: all the bits below it are set. */
  lemma NextBound(p: nat, u: nat, n: nat)
    requires 3 <= p < n && u < Pow(2, p) && u % 2 == 1
    ensures Bound(p, u) + 1 <= Below(n)
  {
    PowUnfold(2, p - 1);
    OnesFit(u / 2, p - 1);
    BelowGrows(p, n);
  }

  // ---------------------------------------------------------------------------------------
  // The bound

  lemma {:induction false} BelowIsFive(p: nat)
    ensures Below(p) >= 5
  {
    if p > 3 {
      BelowIsFive(p - 1);
    }
  }

  lemma BoundOf(p: nat, x: nat)
    ensures Bound(p, 2 * x + 1) == Below(p) + 1 + (Ones(x) + 1) / 2
    ensures Ones(x) <= 1 || x % 4 == 0 ==> Bound(p, 2 * x) == Below(p) + Ones(x)
    ensures !(Ones(x) <= 1 || x % 4 == 0) ==> Bound(p, 2 * x) == Below(p) + 2 + (Ones(x) + 1) / 2
  {
    hide Below, Ones;
    assert (2 * x) / 2 == x && (2 * x + 1) / 2 == x;
  }

  /** However many bits are set below the first different one, the walk clears them and goes on below it. */
  lemma {:induction false} StepsBound(c: nat, p: nat, u: nat, v: nat)
    requires p >= 3 && u < Pow(2, p) && v < Pow(2, p)
    ensures Steps(Base(c, p) + Pow(2, p) + u, Base(c, p) + v) <= Bound(p, u)
    decreases Base(c, p) + Pow(2, p) + u, 1
  {
    hide *;
    var y := LowBits(u);
    if u == 0 {
      FromFirst(c, p, v);
    } else if u == 2 * y + 1 {
      FromOdd(c, p, y, v);
    } else if u == 4 * y + 2 {
      FromSecond(c, p, y, v);
    } else if u == 8 * y + 4 {
      FromFourth(c, p, y, v);
    } else {
      FromEighth(c, p, y, v);
    }
  }

  lemma LowBits(u: nat) returns (y: nat)
    ensures u == 2 * y + 1 || u == 4 * y + 2 || u == 8 * y + 4 || u == 8 * y
  {
    y := u / 2;
    if u % 2 == 0 {
      var x := y;
      y := x / 2;
      if x % 2 == 0 {
        y := y / 2;
      }
    }
  }

  lemma {:induction false} FromOdd(c: nat, p: nat, x: nat, v: nat)
    requires p >= 3 && 2 * x + 1 < Pow(2, p) && v < Pow(2, p)
    ensures Steps(Base(c, p) + Pow(2, p) + 2 * x + 1, Base(c, p) + v) <= Bound(p, 2 * x + 1)
    decreases Base(c, p) + Pow(2, p) + 2 * x + 1, 0
  {
    hide Steps, Pow, Base, Bound, Below, Ones, InvertLowestOne, GetSkipHeight;
    var base, q := Base(c, p), Pow(2, p);
    var walk := base + q + 2 * x + 1;
    Walks(walk, base + v);
    BoundOf(p, x);
    BelowIsFive(p);
    if Ones(x) >= 2 {
      OddClearsTwo(c, p, x, v);
      var y := InvertLowestOne(InvertLowestOne(x));
      BoundOf(p, y);
      StepsBound(c, p, 2 * y + 1, v);
    } else {
      EvenBase(c, p);
      OnesZero(x);
      if x == 0 {
        OddClearsNone(c, p);
      } else {
        OddClearsOne(c, p, x);
      }
      if TakesSkip(walk, base + v) {
        OneMore(base, base + v);
      } else {
        StepsBound(c, p, 2 * x, v);
      }
    }
  }

  lemma {:induction false} FromFirst(c: nat, p: nat, v: nat)
    requires p >= 3 && v < Pow(2, p)
    ensures Steps(Base(c, p) + Pow(2, p), Base(c, p) + v) <= Bound(p, 0)
    decreases Base(c, p) + Pow(2, p), 0
  {
    hide Steps, Pow, Base, Bound, Below, Ones, InvertLowestOne, GetSkipHeight;
    var base, q := Base(c, p), Pow(2, p);
    Walks(base + q, base + v);
    Walks(base + v, base + v);
    OddClearsNone(c, p);
    BoundOf(p, 0);
    OnesZero(0);
    BelowIsFive(p);
    if 0 < v < q - 1 {
      var walk, height := base + q - 1, base + v;
      var d, n, u, w := NextDifference(c, p, v);
      if n < 3 {
        SplitsLow(walk, height, d, n, u, w);
        StepsWithinEight(walk / 8, walk % 8, height % 8);
      } else {
        NextBound(n, u, p);
        StepsBound(d, n, u, w);
      }
    }
  }

  /** Once the first different bit is cleared the next one is lower, and the walk is odd. */
  lemma NextDifference(c: nat, p: nat, v: nat) returns (d: nat, n: nat, u: nat, w: nat)
    requires p >= 3 && v < Pow(2, p) - 1
    ensures Splits(Base(c, p) + Pow(2, p) - 1, Base(c, p) + v, d, n, u, w) && n < p && (n >= 1 ==> u % 2 == 1)
  {
    hide Pow, Base;
    var walk, height := Base(c, p) + Pow(2, p) - 1, Base(c, p) + v;
    d, n, u, w := TopDifference(walk, height);
    NextIsLower(c, p, v, d, n, u, w);
    EvenBase(c, p);
    if n >= 1 {
      EvenBase(d, n);
    }
  }

  lemma NextIsLower(c: nat, p: nat, v: nat, d: nat, n: nat, u: nat, w: nat)
    requires v < Pow(2, p) && Splits(Base(c, p) + Pow(2, p) - 1, Base(c, p) + v, d, n, u, w)
    ensures n < p
  {
    hide Pow, Base, Splits;
    BaseIs(c, p);
    SplitsWithin(Base(c, p) + Pow(2, p) - 1, Base(c, p) + v, d, n, u, w, 2 * c, p);
  }

  lemma {:induction false} FromEighth(c: nat, p: nat, y: nat, v: nat)
    requires p >= 3 && 0 < 8 * y < Pow(2, p) && v < Pow(2, p)
    ensures Steps(Base(c, p) + Pow(2, p) + 8 * y, Base(c, p) + v) <= Bound(p, 8 * y)
    decreases Base(c, p) + Pow(2, p) + 8 * y, 0
  {
    hide Steps, Pow, Base, Bound, Below, Ones, InvertLowestOne, GetSkipHeight;
    var z := InvertLowestOne(y);
    Walks(Base(c, p) + Pow(2, p) + 8 * y, Base(c, p) + v);
    EvenClearsOne(c, p, y);
    OnesLess(y);
    BoundEighth(p, y);
    BoundEighth(p, z);
    StepsBound(c, p, 8 * z, v);
  }

  lemma BoundEighth(p: nat, y: nat)
    ensures Bound(p, 8 * y) == Below(p) + Ones(y)
  {
    hide Below, Ones, Bound;
    OnesFour(y);
    BoundOf(p, 4 * y);
    assert (4 * y) % 4 == 0;
  }

  lemma OnesFour(y: nat)
    ensures Ones(4 * y) == Ones(2 * y) == Ones(y) && Ones(4 * y + 1) == Ones(2 * y + 1) == Ones(y) + 1
    ensures Ones(4 * y + 2) == Ones(y) + 1
  {
    hide Ones;
    OnesDouble(y);
    OnesDouble(2 * y);
    OnesDouble(2 * y + 1);
  }

  /** From an odd height whose skip goes one above the base, and not too far, the walk ends in two steps. */
  lemma OddEnds(c: nat, p: nat, x: nat, v: nat)
    requires p >= 3 && 2 * x + 1 < Pow(2, p) && v < Pow(2, p) && Ones(x) <= 1
    requires GetSkipHeight(Base(c, p) + Pow(2, p) + 2 * x + 1) >= Base(c, p) + v
    ensures Steps(Base(c, p) + Pow(2, p) + 2 * x + 1, Base(c, p) + v) <= 2
  {
    hide Steps, Pow, Base, Bound, Below, Ones, InvertLowestOne, GetSkipHeight;
    var base := Base(c, p);
    Walks(base + Pow(2, p) + 2 * x + 1, base + v);
    EvenBase(c, p);
    OnesZero(x);
    if x == 0 {
      OddClearsNone(c, p);
    } else {
      OddClearsOne(c, p, x);
    }
    OneMore(base, base + v);
  }

  lemma InvertSmall(c: nat, p: nat, y: nat)
    requires 8 * y + 4 < Pow(2, p)
    ensures GetSkipHeight(Base(c, p) + Pow(2, p) + 8 * y + 4) == Base(c, p) + Pow(2, p) + 8 * y
  {
    hide InvertLowestOne, Ones, Base, Pow;
    PowerIsEven(p);
    EvenBase(c, p);
    InvertEight(y);
    InvertWalk(c, p, 8 * y + 4);
  }

  lemma PowerIsEven(p: nat)
    requires Pow(2, p) > 1
    ensures p >= 1
  {
  }

  lemma {:induction false} FromFourth(c: nat, p: nat, y: nat, v: nat)
    requires p >= 3 && 8 * y + 4 < Pow(2, p) && v < Pow(2, p)
    ensures Steps(Base(c, p) + Pow(2, p) + 8 * y + 4, Base(c, p) + v) <= Bound(p, 8 * y + 4)
    decreases Base(c, p) + Pow(2, p) + 8 * y + 4, 0
  {
    hide Steps, Pow, Base, Bound, Below, Ones, InvertLowestOne, GetSkipHeight;
    var base, q := Base(c, p), Pow(2, p);
    var walk, x := base + q + 8 * y + 4, 4 * y + 1;
    Walks(walk, base + v);
    InvertSmall(c, p, y);
    OnesFour(y);
    OnesZero(y);
    BoundOf(p, 4 * y + 2);
    BoundOf(p, x);
    BelowIsFive(p);
    if y == 0 {
      BoundOf(p, 0);
      OnesZero(0);
      if TakesSkip(walk, base + v) {
        StepsBound(c, p, 0, v);
      } else {
        OddEnds(c, p, x, v);
      }
    } else {
      OddClearsTwo(c, p, x, v);
      InvertOdd(2 * y);
      InvertEven(2 * y);
      InvertEven(y);
      StepsBound(c, p, 2 * x + 1, v);
    }
  }

  lemma {:induction false} FromSecond(c: nat, p: nat, y: nat, v: nat)
    requires p >= 3 && 4 * y + 2 < Pow(2, p) && v < Pow(2, p)
    ensures Steps(Base(c, p) + Pow(2, p) + 4 * y + 2, Base(c, p) + v) <= Bound(p, 4 * y + 2)
    decreases Base(c, p) + Pow(2, p) + 4 * y + 2, 0
  {
    hide Steps, Pow, Base, Bound, Below, Ones, InvertLowestOne, GetSkipHeight;
    var base, q := Base(c, p), Pow(2, p);
    var walk, x := base + q + 4 * y + 2, 2 * y;
    Walks(walk, base + v);
    SecondSkips(c, p, y);
    OnesFour(y);
    OnesZero(y);
    BoundOf(p, 2 * y + 1);
    BoundOf(p, x);
    BelowIsFive(p);
    if Ones(y) >= 2 {
      OddClearsTwo(c, p, x, v);
      TwoCleared(y);
      StepsBound(c, p, 2 * x + 1, v);
    } else if TakesSkip(walk, base + v) {
      StepsBound(c, p, 4 * y, v);
    } else {
      OddEnds(c, p, x, v);
    }
  }

  lemma SecondSkips(c: nat, p: nat, y: nat)
    requires 4 * y + 2 < Pow(2, p)
    ensures GetSkipHeight(Base(c, p) + Pow(2, p) + 4 * y + 2) == Base(c, p) + Pow(2, p) + 4 * y
  {
    hide InvertLowestOne, Ones, Base, Pow;
    PowerIsEven(p);
    EvenBase(c, p);
    InvertEven(2 * y + 1);
    InvertOdd(y);
    InvertWalk(c, p, 4 * y + 2);
  }

  lemma TwoCleared(y: nat)
    requires Ones(y) >= 2
    ensures InvertLowestOne(InvertLowestOne(2 * y)) + 4 <= 2 * y
  {
    hide InvertLowestOne;
    OnesZero(y);
    OnesLess(y);
    InvertEven(y);
    InvertEven(InvertLowestOne(y));
    OnesZero(InvertLowestOne(y));
  }

  // ---------------------------------------------------------------------------------------
  // How long a walk can take

  lemma {:induction false} BelowIs(p: nat)
    requires p >= 3
    ensures Below(p) == (p + 1) * (p + 1) / 4 + p - 2
  {
    if p > 3 {
      BelowIs(p - 1);
      QuarterSquare(p);
    }
  }

  lemma QuarterSquare(n: nat)
    ensures (n + 1) * (n + 1) / 4 == n * n / 4 + (n + 1) / 2
  {
    var k := n / 2;
    assert (n + 1) * (n + 1) == n * n + 2 * n + 1;
    if n % 2 == 0 {
      SquareIs(n, k, 0);
    } else {
      SquareIs(n, k, 1);
    }
  }

  lemma SquareIs(n: nat, k: nat, r: nat)
    requires n == 2 * k + r && r <= 1
    ensures n * n == 4 * (k * k + k * r) + r
  {
  }

  lemma BoundIs(p: nat, u: nat)
    requires p >= 3 && u < Pow(2, p)
    ensures Bound(p, u) <= Below(p) + Max(p - 3, 2 + p / 2)
  {
    hide Pow, Below, Ones;
    var x := u / 2;
    PowUnfold(2, p - 1);
    PowUnfold(2, p - 2);
    PowUnfold(2, p - 3);
    OnesFit(x, p - 1);
    if u % 8 == 0 {
      OnesFit(u / 8, p - 3);
      OnesFour(u / 8);
    }
  }

  /**
   * A walk between heights of k binary digits takes at most a quarter of the square of k and two k, less seven
   * steps.
   */
  lemma WalkIsShort(walk: nat, height: nat, k: nat)
    requires height <= walk < Pow(2, k) && k >= 10
    ensures Steps(walk, height) <= k * k / 4 + 2 * k - 7
  {
    hide Steps, Pow, Base, Below, Bound, Ones;
    Squares(10, k);
    if walk == height {
      Walks(walk, height);
    } else {
      var c, p, u, v := TopDifference(walk, height);
      SplitsBelow(walk, height, c, p, u, v, k);
      if p < 3 {
        SplitsLow(walk, height, c, p, u, v);
        StepsWithinEight(walk / 8, walk % 8, height % 8);
      } else {
        StepsBound(c, p, u, v);
        BoundIs(p, u);
        BelowIs(p);
        Squares(p + 1, k);
        if p < 9 {
          Squares(p + 1, 9);
        }
      }
    }
  }

  lemma Squares(a: nat, b: nat)
    requires a <= b
    ensures a * a <= b * b
  {
  }

  /** In particular no walk from a height below 2^18 takes more than 110 steps. */
  lemma WalkTakes110(walk: nat, height: nat)
    requires height <= walk < 0x4_0000
    ensures Steps(walk, height) <= 110
  {
    hide Steps, Pow;
    EighteenBits();
    WalkIsShort(walk, height, 18);
  }

  lemma EighteenBits()
    ensures Pow(2, 18) == 0x4_0000
  {
    PowAdd(2, 9, 9);
    assert Pow(2, 9) == 512;
  }

  // ---------------------------------------------------------------------------------------
  // Walks that take as long

  /** From a power of two and an even number of bits, down to height two, two bits are cleared at a time. */
  lemma {:induction false} EvenRun(p: nat, x: nat)
    requires p >= 3 && 2 * x + 1 < Pow(2, p) && Ones(x) % 2 == 0
    ensures Steps(Pow(2, p) + 2 * x + 1, 2) == Steps(Pow(2, p), 2) + 1 + Ones(x) / 2
    decreases x
  {
    hide Steps, Pow, Ones, InvertLowestOne, GetSkipHeight;
    PowersReach(p);
    Walks(Pow(2, p) + 2 * x + 1, 2);
    OnesZero(x);
    if x == 0 {
      OddClearsNone(0, p);
    } else {
      OddClearsTwo(0, p, x, 2);
      EvenRun(p, InvertLowestOne(InvertLowestOne(x)));
    }
  }

  lemma PowersReach(p: nat)
    requires p >= 3
    ensures Pow(2, p) >= 8 && Base(0, p) == 0
  {
    PowGrows(2, 3, p);
    assert Pow(2, 3) == 8;
  }

  /** With an odd number of bits, one is left at the end. */
  lemma {:induction false} OddRun(p: nat, x: nat)
    requires p >= 4 && x < Pow(2, p - 2) && Ones(x) % 2 == 0
    ensures Steps(Pow(2, p) + 2 * (Pow(2, p - 2) + x) + 1, 2) == Steps(Pow(2, p), 2) + 2 + Ones(x) / 2
    decreases x
  {
    hide Steps, Pow, Ones, InvertLowestOne, GetSkipHeight;
    var h := Pow(2, p - 2);
    PowersReach(p);
    TopPowers(p);
    OnesAbove(p - 2, x);
    Walks(Pow(2, p) + 2 * (h + x) + 1, 2);
    OnesZero(x);
    if x == 0 {
      OddClearsOne(0, p, h);
      Walks(Pow(2, p) + 2 * h, 2);
      EvenClearsOne(0, p, h / 4);
    } else {
      TopBit(p - 2, x);
      OddClearsTwo(0, p, h + x, 2);
      OddRun(p, InvertLowestOne(InvertLowestOne(x)));
    }
  }

  lemma TopPowers(p: nat)
    requires p >= 4
    ensures var h := Pow(2, p - 2); Pow(2, p) == 4 * h && h % 4 == 0 && InvertLowestOne(h / 4) == 0
  {
    hide Pow, InvertLowestOne;
    PowUnfold(2, p - 1);
    PowUnfold(2, p - 2);
    PowUnfold(2, p - 3);
    PowUnfold(2, p - 4);
    InvertHigh(1, p - 4);
    InvertOdd(0);
  }

  /** The bit above others is the last to be cleared. */
  lemma TopBit(n: nat, x: nat)
    requires x < Pow(2, n) && Ones(x) >= 2
    ensures var y := InvertLowestOne(InvertLowestOne(x));
            y < x && Ones(y) == Ones(x) - 2 && InvertLowestOne(InvertLowestOne(Pow(2, n) + x)) == Pow(2, n) + y
  {
    hide Pow, Ones, InvertLowestOne;
    OnesZero(x);
    OnesLess(x);
    var z := InvertLowestOne(x);
    OnesZero(z);
    OnesLess(z);
    InvertLow(1, n, x);
    InvertLow(1, n, z);
  }

  lemma {:induction false} OnesAbove(p: nat, x: nat)
    requires x < Pow(2, p)
    ensures Ones(Pow(2, p) + x) == Ones(x) + 1
    decreases p
  {
    if p > 0 {
      var k := x / 2;
      OnesAbove(p - 1, k);
      assert (Pow(2, p) + x) / 2 == Pow(2, p - 1) + k && (Pow(2, p) + x) % 2 == x % 2;
    }
  }

  lemma {:induction false} AllOnes(p: nat)
    ensures Ones(Pow(2, p) - 1) == p
  {
    if p > 0 {
      AllOnes(p - 1);
      OnesDouble(Pow(2, p - 1) - 1);
    }
  }

  /** From a power of two to height two the walk takes all the steps the bound allows. */
  lemma {:induction false} WalkTakesBelow(p: nat)
    requires p >= 3
    ensures Steps(Pow(2, p), 2) == Below(p)
  {
    hide Steps, Pow, Ones, InvertLowestOne, GetSkipHeight;
    PowersReach(p);
    OddClearsNone(0, p);
    Walks(Pow(2, p), 2);
    PowUnfold(2, p - 1);
    if p == 3 {
      EightToTwo();
    } else {
      var n := p - 1;
      WalkTakesBelow(n);
      PowUnfold(2, n - 1);
      PowUnfold(2, n - 2);
      if n % 2 == 1 {
        AllOnes(n - 1);
        EvenRun(n, Pow(2, n - 1) - 1);
      } else {
        AllOnes(n - 2);
        OddRun(n, Pow(2, n - 2) - 1);
      }
    }
  }

  lemma EightToTwo()
    ensures Pow(2, 3) == 8 && Steps(7, 2) == 4
  {
    hide Steps, InvertLowestOne, GetSkipHeight;
    SkipsOfEight(0);
    Walks(7, 2);
    Walks(6, 2);
    Walks(4, 2);
    Walks(3, 2);
    Walks(2, 2);
  }

  /**
   * The number of steps is not logarithmic: down from a power of two to height two it is a quarter of the square of
   * the digits, and more.
   */
  lemma WalkIsLong(p: nat)
    requires p >= 3
    ensures Steps(Pow(2, p), 2) == (p + 1) * (p + 1) / 4 + p - 2
  {
    hide Steps, Pow, Below;
    WalkTakesBelow(p);
    BelowIs(p);
  }

  /** From a multiple of eight bits are cleared one at a time. */
  lemma {:induction false} SlowRun(p: nat, y: nat)
    requires p >= 3 && 8 * y < Pow(2, p)
    ensures Steps(Pow(2, p) + 8 * y, 2) == Steps(Pow(2, p), 2) + Ones(y)
    decreases y
  {
    hide Steps, Pow, Ones, InvertLowestOne, GetSkipHeight;
    OnesZero(y);
    if y > 0 {
      PowersReach(p);
      Walks(Pow(2, p) + 8 * y, 2);
      EvenClearsOne(0, p, y);
      OnesLess(y);
      SlowRun(p, InvertLowestOne(y));
    }
  }

  /** For every number of digits the bound is attained. */
  lemma BoundIsAttained(k: nat)
    requires k >= 10
    ensures Pow(2, k) >= 10 && Steps(Pow(2, k) - 8, 2) == k * k / 4 + 2 * k - 7
  {
    hide Steps, Pow, Ones;
    var p := k - 1;
    PowersReach(p);
    PowUnfold(2, p);
    PowUnfold(2, p - 1);
    PowUnfold(2, p - 2);
    PowUnfold(2, p - 3);
    AllOnes(p - 3);
    SlowRun(p, Pow(2, p - 3) - 1);
    WalkIsLong(p);
  }
}
