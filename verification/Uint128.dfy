/**
 The 128-bit unsigned integer as two 64-bit halves: order, carries and shifts, each against its
 arithmetic meaning.
 */
module Uint128s {
  import opened Words
  import opened Bits

  type Uint64 = n: nat | n < 0x1_0000_0000_0000_0000

  datatype Uint128 = Uint128(hi: Uint64, lo: Uint64) {
    ghost function Value(): (v: nat)
      ensures v < B128
    {
      hi * B64 + lo
    }
  }

  const ZERO := Uint128(0, 0)
  const ONE := Uint128(0, 1)

  function Of(n: Uint64): (r: Uint128)
    ensures r.Value() == n
  {
    Uint128(0, n)
  }

  /** Two halves determine the value and the other way round. */
  lemma ValueInjective(a: Uint128, b: Uint128)
    ensures a.Value() == b.Value() <==> a == b
  {
  }

  predicate Less(a: Uint128, b: Uint128)
    ensures Less(a, b) <==> a.Value() < b.Value()
  {
    if a.hi == b.hi then a.lo < b.lo else a.hi < b.hi
  }

  // ----- Carries -----

  /** The sum of two words, truncated, and the carry it leaves. */
  function AddWord(x: Uint64, y: Uint64): (sum: Uint64)
    ensures sum == if x + y < B64 then x + y else x + y - B64
    ensures sum < x <==> x + y >= B64
  {
    (x + y) % B64
  }

  /** A value below twice the modulus, reduced. */
  ghost function Wrap(x: int): int
  {
    if x < B128 then x else x - B128
  }

  function Add(a: Uint128, b: Uint128): (r: Uint128)
    ensures r.Value() == Wrap(a.Value() + b.Value())
  {
    var lo := AddWord(a.lo, b.lo);
    Uint128(AddWord(AddWord(a.hi, b.hi), if lo < a.lo then 1 else 0), lo)
  }

  function Increment(a: Uint128): (r: Uint128)
    ensures r.Value() == Wrap(a.Value() + 1)
  {
    var lo := AddWord(a.lo, 1);
    Uint128(AddWord(a.hi, if lo == 0 then 1 else 0), lo)
  }

  function Complement(a: Uint128): (r: Uint128)
    ensures r.Value() == B128 - 1 - a.Value()
  {
    Uint128(B64 - 1 - a.hi, B64 - 1 - a.lo)
  }

  function Negate(a: Uint128): (r: Uint128)
    ensures r.Value() == Wrap(B128 - a.Value())
  {
    Increment(Complement(a))
  }

  function Subtract(a: Uint128, b: Uint128): (r: Uint128)
    ensures r.Value() == a.Value() - b.Value() + if a.Value() >= b.Value() then 0 else B128
  {
    Add(a, Negate(b))
  }

  // ----- Shifts -----

  /** What a 64-bit word keeps. */
  function Word(x: nat): (w: Uint64)
    ensures x < B64 ==> w == x
  {
    x % B64
  }

  lemma PowersOf64(n: nat)
    requires n <= 64
    ensures Pow2(n) * Pow2(64 - n) == B64
  {
    Pow2Add(n, 64 - n);
    FullWord();
  }

  lemma FullWord()
    ensures Pow2(64) == B64
  {
    FourMore(0);
    FourMore(4);
    FourMore(8);
    FourMore(12);
    FourMore(16);
    FourMore(20);
    FourMore(24);
    FourMore(28);
    FourMore(32);
    FourMore(36);
    FourMore(40);
    FourMore(44);
    FourMore(48);
    FourMore(52);
    FourMore(56);
    FourMore(60);
  }

  lemma FourMore(n: nat)
    ensures Pow2(n + 4) == 16 * Pow2(n)
  {
    assert Pow2(n + 2) == 4 * Pow2(n);
  }

  function ShlWord(x: nat, n: nat): Uint64 {
    Word(x * Pow2(n))
  }

  function Quotient(x: nat, d: nat): nat
    requires d > 0
  {
    x / d
  }

  function ShrWord(x: nat, n: nat): Uint64 {
    Word(Quotient(x, Pow2(n)))
  }

  function Not(x: Uint64): Uint64 {
    B64 - 1 - x
  }

  /** The left shift of the two halves by less than a half. */
  function ShlSmall(a: Uint128, n: nat): Uint128
    requires 0 < n < 64
  {
    var mask := Not(ShrWord(B64 - 1, n));
    Uint128(Word(Or(ShlWord(a.hi, n), ShrWord(And(a.lo, mask), 64 - n))), ShlWord(a.lo, n))
  }

  function Shl(a: Uint128, count: Uint128): Uint128 {
    if !Less(count, Of(128)) then ZERO
    else if count.lo >= 64 then
      var b := Uint128(a.lo, 0);
      if count.lo == 64 then b else ShlSmall(b, count.lo - 64)
    else if count.lo == 0 then a
    else ShlSmall(a, count.lo)
  }

  /** The right shift of the two halves by less than a half. */
  function ShrSmall(a: Uint128, n: nat): Uint128
    requires 0 < n < 64
  {
    var mask := Not(ShlWord(B64 - 1, n));
    Uint128(ShrWord(a.hi, n), Word(Or(ShrWord(a.lo, n), ShlWord(And(a.hi, mask), 64 - n))))
  }

  function Shr(a: Uint128, count: Uint128): Uint128 {
    if !Less(count, Of(128)) then ZERO
    else if count.lo >= 64 then
      var b := Uint128(0, a.hi);
      if count.lo == 64 then b else ShrSmall(b, count.lo - 64)
    else if count.lo == 0 then a
    else ShrSmall(a, count.lo)
  }

  // ----- What the shifts mean -----

  /** Shifting left inside a word of `p * q` values keeps the low part, shifted. */
  lemma KeptByShl(x: nat, p: nat, q: nat)
    requires p > 0 && q > 0 && p * q == B64
    ensures (x * p) % B64 == (x % q) * p <= B64 - p
    ensures x * p == (x / q) * B64 + (x % q) * p
  {
    FundamentalDivMod(x, q);
    var t, r := x / q, x % q;
    TimesSum(t, q, r, p);
    assert t * (q * p) == t * B64;
    Distribute(q, r, p);
    AtLeastOnce(q - r, p);
    DivModUnique(x * p, B64, t, r * p);
  }

  lemma QuotientBelow(x: nat, d: nat, m: nat)
    requires d > 0 && x < m * d
    ensures x / d < m
  {
    FundamentalDivMod(x, d);
    Distribute(m, x / d, d);
    PositiveFactor(m - x / d, d);
  }

  lemma PositiveFactor(k: int, d: nat)
    requires k * d > 0
    ensures k > 0
  {
  }

  lemma HighMask(n: nat)
    requires 0 < n < 64
    ensures Not(ShrWord(B64 - 1, n)) == (Pow2(n) - 1) * Pow2(64 - n)
  {
    var p, q := Pow2(n), Pow2(64 - n);
    PowersOf64(n);
    Distribute(q, 1, p);
    DivModUnique(B64 - 1, p, q - 1, p - 1);
    Distribute(p, 1, q);
    QuotientBelow(B64 - 1, p, B64);
  }

  lemma LowMask(n: nat)
    requires 0 < n < 64
    ensures Not(ShlWord(B64 - 1, n)) == Pow2(n) - 1
  {
    var p, q := Pow2(n), Pow2(64 - n);
    PowersOf64(n);
    Distribute(B64, 1, p);
    assert (B64 - 1) * p == (p - 1) * B64 + (B64 - p);
    AtLeastOnce(q, p);
    DivModUnique((B64 - 1) * p, B64, p - 1, B64 - p);
  }

  lemma FittingShl(x: nat, n: nat)
    requires x * Pow2(n) < B64
    ensures ShlWord(x, n) == x * Pow2(n)
  {
  }

  lemma FittingShr(x: Uint64, n: nat, q: nat)
    requires x < q * Pow2(n) && q <= B64
    ensures ShrWord(x, n) == x / Pow2(n) < q
  {
    QuotientBelow(x, Pow2(n), q);
  }

  /** The top bits of a word, masked out and brought down. */
  lemma TopBits(l: Uint64, n: nat, p: nat, q: nat)
    requires 0 < n < 64 && p == Pow2(n) && q == Pow2(64 - n) && p * q == B64
    ensures ShrWord(And(l, Not(ShrWord(B64 - 1, n))), 64 - n) == l / q < p
  {
    HighMask(n);
    AndHighMask(l, n, 64 - n);
    FundamentalDivMod(l, q);
    QuotientBelow(l, q, p);
    AtLeastOnce(q, p);
    hide Pow2, And;
    var top := l / q;
    DivModUnique(top * q, q, top, 0);
  }

  lemma ShlSmallHigh(h: Uint64, l: Uint64, n: nat, p: nat, q: nat)
    requires 0 < n < 64 && p == Pow2(n) && q == Pow2(64 - n) && p * q == B64
    ensures Word(Or(ShlWord(h, n), ShrWord(And(l, Not(ShrWord(B64 - 1, n))), 64 - n))) == (h % q) * p + l / q
    ensures (h % q) * p + l / q < B64
  {
    TopBits(l, n, p, q);
    KeptByShl(h, p, q);
    OrIsSum(h % q, l / q, n);
    hide Pow2, And, Or, Not, ShrWord;
  }

  lemma ShlSmallParts(a: Uint128, n: nat) returns (hTop: nat, hKept: nat, lTop: nat, lKept: nat)
    requires 0 < n < 64
    ensures hKept + lTop < B64 && lKept < B64 && ShlSmall(a, n) == Uint128(hKept + lTop, lKept)
    ensures a.hi * Pow2(n) == hTop * B64 + hKept && a.lo * Pow2(n) == lTop * B64 + lKept
  {
    hide Pow2, And, Or, Not, ShrWord;
    var p, q := Pow2(n), Pow2(64 - n);
    PowersOf64(n);
    ShlSmallHigh(a.hi, a.lo, n, p, q);
    KeptByShl(a.hi, p, q);
    KeptByShl(a.lo, p, q);
    hTop, hKept, lTop, lKept := a.hi / q, (a.hi % q) * p, a.lo / q, (a.lo % q) * p;
  }

  lemma ShlSmallValue(a: Uint128, n: nat)
    requires 0 < n < 64
    ensures ShlSmall(a, n).Value() == (a.Value() * Pow2(n)) % B128
  {
    var hTop, hKept, lTop, lKept := ShlSmallParts(a, n);
    hide ShlSmall, Pow2;
    JoinShl(a.hi, a.lo, Pow2(n), hTop, hKept, lTop, lKept);
  }

  lemma JoinShl(h: nat, l: nat, p: nat, hTop: nat, hKept: nat, lTop: nat, lKept: nat)
    requires h * p == hTop * B64 + hKept && l * p == lTop * B64 + lKept
    requires hKept + lTop < B64 && lKept < B64
    ensures ((h * B64 + l) * p) % B128 == (hKept + lTop) * B64 + lKept
  {
    TimesSum(h, B64, l, p);
    assert h * (B64 * p) == (h * p) * B64;
    DivModUnique((h * B64 + l) * p, B128, hTop, (hKept + lTop) * B64 + lKept);
  }

  /** The low bits of a word, masked out and brought up. */
  lemma LowBits(h: Uint64, n: nat, p: nat, q: nat)
    requires 0 < n < 64 && p == Pow2(n) && q == Pow2(64 - n) && p * q == B64
    ensures ShlWord(And(h, Not(ShlWord(B64 - 1, n))), 64 - n) == (h % p) * q <= B64 - q
  {
    LowMask(n);
    AndLowMask(h, n);
    RemainderTimes(h, p, q);
    hide Pow2, And;
    FittingShl(h % p, 64 - n);
  }

  lemma ShrSmallLow(h: Uint64, l: Uint64, n: nat, p: nat, q: nat)
    requires 0 < n < 64 && p == Pow2(n) && q == Pow2(64 - n) && p * q == B64
    ensures Word(Or(ShrWord(l, n), ShlWord(And(h, Not(ShlWord(B64 - 1, n))), 64 - n))) == (h % p) * q + l / p
    ensures (h % p) * q + l / p < B64
  {
    hide Pow2, And, Or, Not, ShrWord, ShlWord;
    LowBits(h, n, p, q);
    SwapFactors(p, q);
    AtLeastOnce(p, q);
    FittingShr(l, n, q);
    OrOfParts(h % p, l / p, 64 - n, q);
  }

  lemma OrOfParts(rest: nat, top: nat, n: nat, q: nat)
    requires q == Pow2(n) && top < q
    ensures Or(top, rest * q) == rest * q + top
  {
    OrIsSum(rest, top, n);
    OrSymmetric(top, rest * q);
  }

  lemma SwapFactors(p: nat, q: nat)
    ensures p * q == q * p
  {
  }

  lemma RemainderTimes(h: nat, p: nat, q: nat)
    requires p > 0
    ensures (h % p) * q <= p * q - q
  {
    FundamentalDivMod(h, p);
    Distribute(p, h % p, q);
    AtLeastOnce(p - h % p, q);
  }

  lemma ShrSmallParts(a: Uint128, n: nat, p: nat, q: nat) returns (hTop: nat, hRest: nat, lTop: nat, lRest: nat)
    requires 0 < n < 64 && p == Pow2(n) && q == Pow2(64 - n) && p * q == B64
    ensures hTop < B64 && hRest * q + lTop < B64 && ShrSmall(a, n) == Uint128(hTop, hRest * q + lTop)
    ensures a.hi == hTop * p + hRest && a.lo == lTop * p + lRest && lRest < p
  {
    hide Pow2, And, Or, Not, ShrWord, ShlWord, Word;
    ShrSmallLow(a.hi, a.lo, n, p, q);
    ShrSmallHigh(a.hi, n, p, q);
    FundamentalDivMod(a.hi, p);
    FundamentalDivMod(a.lo, p);
    hTop, hRest, lTop, lRest := a.hi / p, a.hi % p, a.lo / p, a.lo % p;
  }

  lemma ShrSmallHigh(h: Uint64, n: nat, p: nat, q: nat)
    requires 0 < n < 64 && p == Pow2(n) && q == Pow2(64 - n) && p * q == B64
    ensures ShrWord(h, n) == h / p < B64
  {
    hide Pow2, ShrWord;
    SwapFactors(p, q);
    AtLeastOnce(p, q);
    FittingShr(h, n, q);
  }

  lemma ShrSmallValue(a: Uint128, n: nat)
    requires 0 < n < 64
    ensures ShrSmall(a, n).Value() == a.Value() / Pow2(n)
  {
    PowersOf64(n);
    var hTop, hRest, lTop, lRest := ShrSmallParts(a, n, Pow2(n), Pow2(64 - n));
    hide ShrSmall, Pow2;
    JoinShr(a.hi, a.lo, Pow2(n), Pow2(64 - n), hTop, hRest, lTop, lRest);
  }

  lemma JoinShr(h: nat, l: nat, p: nat, q: nat, hTop: nat, hRest: nat, lTop: nat, lRest: nat)
    requires p > 0 && p * q == B64 && lRest < p
    requires h == hTop * p + hRest && l == lTop * p + lRest
    ensures (h * B64 + l) / p == hTop * B64 + hRest * q + lTop
  {
    TimesSum(hTop, p, hRest, B64);
    SwapFactors(p, q);
    TimesSum(hRest, q, lTop, p);
    TimesSum(hTop, B64, hRest * q + lTop, p);
    SwapFactors(p, B64);
    DivModUnique(h * B64 + l, p, hTop * B64 + (hRest * q + lTop), lRest);
  }

  /** A left shift multiplies by a power of two and reduces. */
  lemma ShlValue(a: Uint128, count: Uint128)
    ensures count.Value() < 128 ==> Shl(a, count).Value() == (a.Value() * Pow2(count.lo)) % B128
    ensures count.Value() >= 128 ==> Shl(a, count) == ZERO
  {
    if Less(count, Of(128)) {
      var n := count.lo;
      if n == 0 {
        DivModUnique(a.Value(), B128, 0, a.Value());
      } else if n < 64 {
        ShlSmallValue(a, n);
      } else {
        FullWord();
        Pow2Add(64, n - 64);
        var b := Uint128(a.lo, 0);
        if n == 64 {
          DivModUnique(a.Value() * B64, B128, a.hi, a.lo * B64);
        } else {
          ShlSmallValue(b, n - 64);
          DropWholeTurns(a, Pow2(n - 64));
        }
      }
    }
  }

  lemma DropWholeTurns(a: Uint128, p: nat)
    ensures (a.Value() * (B64 * p)) % B128 == ((a.lo * B64) * p) % B128
  {
    var x := (a.lo * B64) * p;
    FundamentalDivMod(x, B128);
    assert a.Value() * (B64 * p) == (a.hi * p) * B128 + x;
    DivModUnique(a.Value() * (B64 * p), B128, a.hi * p + x / B128, x % B128);
  }

  /** A right shift divides by a power of two. */
  lemma ShrValue(a: Uint128, count: Uint128)
    ensures count.Value() < 128 ==> Shr(a, count).Value() == a.Value() / Pow2(count.lo)
    ensures count.Value() >= 128 ==> Shr(a, count) == ZERO
  {
    if Less(count, Of(128)) {
      var n := count.lo;
      if n == 0 {
      } else if n < 64 {
        ShrSmallValue(a, n);
      } else {
        FullWord();
        Pow2Add(64, n - 64);
        DivModUnique(a.Value(), B64, a.hi, a.lo);
        if n > 64 {
          var p := Pow2(n - 64);
          ShrSmallValue(Uint128(0, a.hi), n - 64);
          DivideTwice(a.Value(), B64, p);
        }
      }
    }
  }
}
