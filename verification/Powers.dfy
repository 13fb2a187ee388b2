/** Powers, quotients and little-endian numerals, as the limb and digit code uses them. */
module Powers {
  function Pow(b: nat, n: nat): (r: nat)
    ensures b > 0 ==> r > 0
  {
    if n == 0 then 1 else b * Pow(b, n - 1)
  }

  lemma PowZero(b: nat)
    ensures Pow(b, 0) == 1
  {
  }

  lemma PowOne(b: nat)
    ensures Pow(b, 1) == b
  {
  }

  lemma PowUnfold(b: nat, n: nat)
    ensures Pow(b, n + 1) == b * Pow(b, n)
  {
  }

  lemma Distribute(a: int, b: int, c: int)
    ensures (a + b) * c == a * c + b * c
    ensures c * (a + b) == c * a + c * b
  {
  }

  lemma Associate(a: int, b: int, c: int)
    ensures a * (b * c) == (a * b) * c == (a * c) * b
  {
  }

  lemma ScaleUp(a: int, b: int, c: int)
    requires a <= b && 0 <= c
    ensures a * c <= b * c && c * a <= c * b
  {
  }

  lemma ScaleUpStrictly(a: int, b: int, c: int)
    requires a < b && 0 < c
    ensures a * c < b * c && c * a < c * b
  {
  }

  lemma ScaleDown(a: int, b: int, c: int)
    requires a * c < b * c && 0 < c
    ensures a < b
  {
    if a >= b {
      ScaleUp(b, a, c);
    }
  }

  /** A quotient and a remainder that fit are the quotient and the remainder. */
  lemma DivideUniquely(a: int, d: int, q: int, r: int)
    requires a == q * d + r && 0 <= r < d
    ensures a / d == q && a % d == r
  {
    var q', r' := a / d, a % d;
    assert a == q' * d + r' && 0 <= r' < d;
    assert (q - q') * d == r' - r by {
      Distribute(q, -q', d);
    }
    if q - q' >= 1 {
      ScaleUp(1, q - q', d);
    } else if q - q' <= -1 {
      ScaleUp(q - q', -1, d);
    }
  }

  lemma Quotient(a: int, d: int)
    requires d > 0
    ensures a == (a / d) * d + a % d && 0 <= a % d < d
  {
  }

  lemma QuotientNatural(a: nat, d: nat)
    requires d > 0
    ensures a / d >= 0
  {
    Quotient(a, d);
    if a / d <= -1 {
      ScaleUp(a / d, -1, d);
    }
  }

  lemma DivideFits(x: nat, d: nat)
    requires d > 0
    ensures x / d <= x
  {
    Quotient(x, d);
    QuotientNatural(x, d);
    ScaleUp(1, d, x / d);
  }

  lemma DivideTwice(a: nat, b: nat, c: nat)
    requires b > 0 && c > 0
    ensures b * c > 0 && (a / b) / c == a / (b * c)
  {
    ScaleUpStrictly(0, b, c);
    var q := a / b;
    Quotient(a, b);
    Quotient(q, c);
    var r := (q % c) * b + a % b;
    assert a == (q / c) * (b * c) + r by {
      Distribute((q / c) * c, q % c, b);
      Associate(q / c, c, b);
    }
    assert r < b * c by {
      ScaleUp(q % c, c - 1, b);
      Distribute(c, -1, b);
    }
    assert r >= 0 by {
      ScaleUp(0, q % c, b);
    }
    DivideUniquely(a, b * c, q / c, r);
  }

  /** Division is monotone, and never exceeds what it is multiplied back to. */
  lemma DivideBelow(a: int, b: int, d: int)
    requires a <= b && d > 0
    ensures a / d <= b / d
  {
    if a / d > b / d {
      ScaleUp(b / d + 1, a / d, d);
      Distribute(b / d, 1, d);
    }
  }

  lemma {:induction false} PowPositive(b: nat, n: nat)
    requires b >= 1
    ensures Pow(b, n) >= 1
  {
    if n > 0 {
      PowPositive(b, n - 1);
      ScaleUp(1, b, Pow(b, n - 1));
    }
  }

  lemma {:induction false} PowAdd(b: nat, m: nat, n: nat)
    ensures Pow(b, m + n) == Pow(b, m) * Pow(b, n)
  {
    if m > 0 {
      PowAdd(b, m - 1, n);
      Associate(b, Pow(b, m - 1), Pow(b, n));
    }
  }

  lemma {:induction false} PowPow(b: nat, m: nat, n: nat)
    ensures Pow(Pow(b, m), n) == Pow(b, m * n)
  {
    if n > 0 {
      PowPow(b, m, n - 1);
      Distribute(n, -1, m);
      PowAdd(b, m, m * (n - 1));
    } else {
      assert m * n == 0;
    }
  }

  lemma {:induction false} PowGrows(b: nat, m: nat, n: nat)
    requires b >= 1 && m <= n
    ensures Pow(b, m) <= Pow(b, n)
  {
    PowAdd(b, m, n - m);
    PowPositive(b, m);
    PowPositive(b, n - m);
    ScaleUp(1, Pow(b, n - m), Pow(b, m));
  }

  lemma {:induction false} PowBelow(a: nat, b: nat, n: nat)
    requires a <= b
    ensures Pow(a, n) <= Pow(b, n)
  {
    if n > 0 {
      PowBelow(a, b, n - 1);
      ScaleUp(Pow(a, n - 1), Pow(b, n - 1), a);
      ScaleUp(a, b, Pow(b, n - 1));
    }
  }

  lemma {:induction false} PowProduct(a: nat, b: nat, n: nat)
    ensures Pow(a * b, n) == Pow(a, n) * Pow(b, n)
  {
    if n > 0 {
      PowProduct(a, b, n - 1);
      var x, y := Pow(a, n - 1), Pow(b, n - 1);
      assert (a * b) * (x * y) == (a * x) * (b * y) by {
        Associate(a * b, x, y);
        Associate(a, b, x);
        Associate(a * x, b, y);
      }
    }
  }
}
