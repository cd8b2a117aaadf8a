/** Bitwise operations on natural numbers, and when they amount to arithmetic. */
module Bits {

  function Pow2(n: nat): (p: nat)
    ensures p > 0
  {
    if n == 0 then 1 else 2 * Pow2(n - 1)
  }

  function Or(a: nat, b: nat): nat
    decreases a + b
  {
    if a == 0 then b
    else if b == 0 then a
    else (if a % 2 == 1 || b % 2 == 1 then 1 else 0) + 2 * Or(a / 2, b / 2)
  }

  function And(a: nat, b: nat): nat
    decreases a + b
  {
    if a == 0 || b == 0 then 0
    else (if a % 2 == 1 && b % 2 == 1 then 1 else 0) + 2 * And(a / 2, b / 2)
  }

  lemma {:induction false} Pow2Add(m: nat, n: nat)
    ensures Pow2(m + n) == Pow2(m) * Pow2(n)
  {
    if m == 0 {
    } else {
      Pow2Add(m - 1, n);
      DoubleFactor(Pow2(m - 1), Pow2(n));
    }
  }

  lemma DoubleFactor(p: nat, q: nat)
    ensures (2 * p) * q == 2 * (p * q)
  {
  }

  /** A number shifted up by `n` bits has its low `n` bits free for another one. */
  lemma {:induction false} OrIsSum(a: nat, b: nat, n: nat)
    requires b < Pow2(n)
    ensures Or(a * Pow2(n), b) == a * Pow2(n) + b
    decreases n
  {
    if n == 0 {
      assert b == 0 && a * Pow2(0) == a;
    } else {
      var p := Pow2(n - 1);
      assert a * Pow2(n) == 2 * (a * p);
      var x := a * p;
      if x != 0 && b != 0 {
        assert (2 * x) / 2 == x && (2 * x) % 2 == 0;
        OrIsSum(a, b / 2, n - 1);
      }
    }
  }

  lemma {:induction false} OrSymmetric(a: nat, b: nat)
    ensures Or(a, b) == Or(b, a)
    decreases a + b
  {
    if a != 0 && b != 0 {
      OrSymmetric(a / 2, b / 2);
    }
  }

  /** A mask of low ones keeps the remainder. */
  lemma {:induction false} AndLowMask(x: nat, n: nat)
    ensures And(x, Pow2(n) - 1) == x % Pow2(n)
    decreases n
  {
    if n == 0 {
    } else {
      var p := Pow2(n - 1);
      AndLowMask(x / 2, n - 1);
      RemainderByDouble(x, p);
      assert (2 * p - 1) / 2 == p - 1 && (2 * p - 1) % 2 == 1;
    }
  }

  /** A mask of high ones clears the remainder. */
  lemma {:induction false} AndHighMask(x: nat, ones: nat, n: nat)
    requires x < Pow2(ones) * Pow2(n)
    ensures And(x, (Pow2(ones) - 1) * Pow2(n)) == x - x % Pow2(n)
    decreases n
  {
    if n == 0 {
      AndLowMask(x, ones);
      SmallRemainder(x, Pow2(ones));
    } else {
      var p, q := Pow2(n - 1), Pow2(ones);
      HalfProduct(q - 1, p);
      HalfProduct(q, p);
      AndHighMask(x / 2, ones, n - 1);
      RemainderByDouble(x, p);
      EvenMask(x, (q - 1) * p);
    }
  }

  lemma SmallRemainder(x: nat, d: nat)
    requires x < d
    ensures x % d == x
  {
  }

  lemma HalfProduct(a: nat, p: nat)
    ensures a * (2 * p) == 2 * (a * p)
  {
  }

  lemma EvenMask(x: nat, mask: nat)
    ensures And(x, 2 * mask) == 2 * And(x / 2, mask)
  {
  }

  lemma RemainderByDouble(x: nat, p: nat)
    requires p > 0
    ensures x % (2 * p) == 2 * ((x / 2) % p) + x % 2
  {
    var q, r := (x / 2) / p, (x / 2) % p;
    assert x / 2 == q * p + r;
    assert x == q * (2 * p) + (2 * r + x % 2);
    DivModUnique(x, 2 * p, q, 2 * r + x % 2);
  }

  lemma DivModUnique(x: nat, d: nat, q: nat, r: nat)
    requires d > 0 && x == q * d + r && r < d
    ensures x / d == q && x % d == r
  {
    var q', r' := x / d, x % d;
    FundamentalDivMod(x, d);
    Distribute(q, q', d);
    OnlyZeroFits(q - q', d);
  }

  lemma FundamentalDivMod(x: nat, d: nat)
    requires d > 0
    ensures x == (x / d) * d + x % d && 0 <= x % d < d
  {
  }

  lemma Distribute(a: int, b: int, d: int)
    ensures (a - b) * d == a * d - b * d
  {
  }

  lemma AtLeastOnce(k: int, d: int)
    requires k >= 1 && d >= 0
    ensures k * d >= d
  {
  }

  lemma OnlyZeroFits(k: int, d: int)
    requires -d < k * d < d
    ensures k == 0
  {
    if k >= 1 {
      AtLeastOnce(k, d);
    } else if k <= -1 {
      AtLeastOnce(-k, d);
    }
  }

  lemma TimesSum(t: nat, q: nat, r: nat, p: nat)
    ensures (t * q + r) * p == t * (q * p) + r * p
  {
  }

  lemma DivideTwice(x: nat, d: nat, e: nat)
    requires d > 0 && e > 0
    ensures d * e > 0 && x / (d * e) == (x / d) / e
  {
    FundamentalDivMod(x, d);
    FundamentalDivMod(x / d, e);
    TwoSteps(x, d, e, (x / d) / e, (x / d) % e, x % d);
  }

  lemma TwoSteps(x: nat, d: nat, e: nat, q: nat, r: nat, s: nat)
    requires d > 0 && e > 0 && x == (q * e + r) * d + s && r < e && s < d
    ensures d * e > 0 && x / (d * e) == q
  {
    AtLeastOnce(d, e);
    TimesSum(q, e, r, d);
    assert e * d == d * e;
    Distribute(e, r, d);
    AtLeastOnce(e - r, d);
    DivModUnique(x, d * e, q, r * d + s);
  }
}
