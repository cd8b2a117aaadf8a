/** Shift-and-subtract division of 128-bit numbers. */
module Uint128Div {
  import opened Words
  import opened Bits
  import opened Uint128s
  import opened Uint128Mul

  const HALF: nat := 0x8000_0000_0000_0000_0000_0000_0000_0000

  function Double(v: Uint128): (r: Uint128)
    ensures v.Value() < HALF ==> r.Value() == 2 * v.Value()
  {
    ShlValue(v, ONE);
    DoubleIsShift(v);
    Shl(v, ONE)
  }

  lemma DoubleIsShift(v: Uint128)
    ensures v.Value() < HALF ==> (v.Value() * Pow2(1)) % B128 == 2 * v.Value()
  {
    assert Pow2(1) == 2;
    if v.Value() < HALF {
      DivModUnique(2 * v.Value(), B128, 0, 2 * v.Value());
    }
  }

  function Halve(v: Uint128): (r: Uint128)
    ensures r.Value() == v.Value() / 2
  {
    ShrValue(v, ONE);
    assert Pow2(1) == 2;
    Shr(v, ONE)
  }

  /** The bit that a left shift would lose. */
  predicate TopBitClear(v: Uint128)
    ensures TopBitClear(v) <==> v.Value() < HALF
  {
    TopBitValue(v);
    And(Shr(v, Of(127)).lo, 1) == 0
  }

  lemma TopBitValue(v: Uint128)
    ensures And(Shr(v, Of(127)).lo, 1) == 0 <==> v.Value() < HALF
  {
    ShrValue(v, Of(127));
    TopPower();
    hide Shr, Pow2;
    var top := Shr(v, Of(127));
    assert top.Value() == v.Value() / HALF;
    if v.Value() < HALF {
      DivModUnique(v.Value(), HALF, 0, v.Value());
    } else {
      DivModUnique(v.Value(), HALF, 1, v.Value() - HALF);
    }
    assert top.lo == 0 || top.lo == 1;
  }

  lemma TopPower()
    ensures Pow2(127) == HALF
  {
    FullWord();
    Pow2Add(64, 63);
    assert Pow2(64) == 2 * Pow2(63);
  }

  /** Bitwise or of the halves. */
  function OrBoth(a: Uint128, b: Uint128): Uint128 {
    Uint128(Word(Or(a.hi, b.hi)), Word(Or(a.lo, b.lo)))
  }

  /** A multiple of the double of a power of two has the bit of that power free. */
  lemma SetFreeBit(a: Uint128, x: Uint128, k: nat, m: nat)
    requires k < 128 && x.Value() == Pow2(k) && a.Value() == m * Pow2(k + 1)
    ensures OrBoth(a, x).Value() == a.Value() + x.Value()
  {
    if k < 64 {
      PowerInLow(x, k);
      SplitMultiple(a, m, k + 1);
      SetFreeBitOfWord(a.lo, k);
    } else {
      PowerInHigh(x, k);
      MultipleInHigh(a, m, k + 1);
      SetFreeBitOfWord(a.hi, k - 64);
    }
    assert Or(a.hi, 0) == a.hi by {
      OrSymmetric(a.hi, 0);
    }
    assert Or(a.lo, 0) == a.lo by {
      OrSymmetric(a.lo, 0);
    }
  }

  lemma SetFreeBitOfWord(w: Uint64, k: nat)
    requires k < 64 && w % Pow2(k + 1) == 0
    ensures Or(w, Pow2(k)) == w + Pow2(k) < B64
  {
    var p := Pow2(k + 1);
    FundamentalDivMod(w, p);
    OrIsSum(w / p, Pow2(k), k + 1);
    PowersOf64(k + 1);
    var q := Pow2(63 - k);
    hide Pow2, Or;
    SwapFactors(p, q);
    QuotientBelow(w, p, q);
    Distribute(q, w / p, p);
    AtLeastOnce(q - w / p, p);
  }

  lemma PowerInLow(x: Uint128, k: nat)
    requires k < 64 && x.Value() == Pow2(k)
    ensures x.hi == 0 && x.lo == Pow2(k)
  {
    PowersOf64(k + 1);
    AtLeastOnce(Pow2(63 - k), Pow2(k + 1));
  }

  lemma PowerInHigh(x: Uint128, k: nat)
    requires 64 <= k < 128 && x.Value() == Pow2(k)
    ensures x.lo == 0 && x.hi == Pow2(k - 64)
  {
    FullWord();
    Pow2Add(64, k - 64);
    WholeWords(x.hi, x.lo, Pow2(k - 64));
  }

  lemma WholeWords(h: nat, l: nat, p: nat)
    requires h * B64 + l == p * B64 && l < B64
    ensures h == p && l == 0
  {
    DivModUnique(p * B64, B64, h, l);
    DivModUnique(p * B64, B64, p, 0);
  }

  /** The low half of a multiple of a small power is a multiple of it. */
  lemma SplitMultiple(a: Uint128, m: nat, n: nat)
    requires n <= 64 && a.Value() == m * Pow2(n)
    ensures a.lo % Pow2(n) == 0
  {
    PowersOf64(n);
    hide Pow2;
    MultipleOfPart(a.hi, a.lo, m, Pow2(n), Pow2(64 - n));
  }

  lemma MultipleOfPart(h: nat, l: nat, m: nat, p: nat, q: nat)
    requires p > 0 && p * q == B64 && h * B64 + l == m * p
    ensures l % p == 0
  {
    var t := h * q;
    assert t * p == h * B64 by {
      TimesSum(h, q, 0, p);
      SwapFactors(p, q);
    }
    Distribute(m, t, p);
    NonNegativeFactor(m - t, p);
    DivModUnique(l, p, m - t, 0);
  }

  lemma NonNegativeFactor(k: int, d: nat)
    requires k * d >= 0 && d > 0
    ensures k >= 0
  {
  }

  lemma MultipleInHigh(a: Uint128, m: nat, n: nat)
    requires 64 < n <= 128 && a.Value() == m * Pow2(n)
    ensures a.lo == 0 && a.hi % Pow2(n - 64) == 0
  {
    FullWord();
    Pow2Add(64, n - 64);
    var p := Pow2(n - 64);
    hide Pow2;
    MovePower(m, p);
    OneSplit(a.hi, a.lo, m * p);
    DivModUnique(a.hi, p, m, 0);
  }

  lemma MovePower(m: nat, p: nat)
    ensures m * (B64 * p) == (m * p) * B64 && m * p >= 0
  {
  }

  lemma OneSplit(h: nat, l: Uint64, m: nat)
    requires h * B64 + l == m * B64
    ensures h == m && l == 0
  {
  }

  // ----- Division -----

  /** Where the search for the quotient stands: `x` is the bit being tried, `d` the divisor shifted
      as far, and the bits of the answer at and below `x` are still free. */
  ghost predicate Dividing(numerator: nat, divisor: nat, n: nat, d: nat, x: nat, answer: nat) {
    && divisor > 0 && numerator == answer * divisor + n
    && (x == 0 ==> n < divisor)
    && (x > 0 ==> d == x * divisor && n < 2 * d && exists k: nat, m: nat :: IsPlace(x, answer, k, m))
  }

  /** `x` is a power of two and `answer` a multiple of its double. */
  ghost predicate IsPlace(x: nat, answer: nat, k: nat, m: nat) {
    k < 128 && x == Pow2(k) && answer == m * Pow2(k + 1)
  }

  lemma TakeBit(divisor: nat, n: int, d: int, x: nat, answer: nat)
    requires d == x * divisor
    ensures answer * divisor + n == (answer + x) * divisor + (n - d)
  {
  }

  /** After the bit at `k` has been decided, the next place is the one below it. */
  lemma NextPlace(x: nat, answer: nat, k: nat, m: nat, take: bool)
    requires IsPlace(x, answer, k, m) && k > 0
    ensures x == 2 * Pow2(k - 1)
    ensures IsPlace(Pow2(k - 1), if take then answer + x else answer, k - 1, if take then 2 * m + 1 else 2 * m)
  {
    assert Pow2(k + 1) == 2 * Pow2(k) && Pow2(k) == 2 * Pow2(k - 1);
    hide Pow2;
    assert m * (2 * x) == (2 * m) * x;
    assert (2 * m + 1) * x == (2 * m) * x + x;
  }

  lemma HalfDivisor(d: nat, half: nat, divisor: nat)
    requires d == (2 * half) * divisor
    ensures d / 2 == half * divisor && 2 * (d / 2) == d
  {
    assert (2 * half) * divisor == 2 * (half * divisor);
  }

  /** Trying the bit at `k`, below an answer of `m` doubles of it: when the shifted divisor fits, it is
      subtracted and the bit set. */
  lemma TryBit(divisor: nat, n: nat, k: nat, m: nat)
    requires divisor > 0 && k < 128 && n < 2 * (Pow2(k) * divisor)
    ensures var x, answer := Pow2(k), m * Pow2(k + 1);
            var d, numerator := x * divisor, answer * divisor + n;
            if n >= d then Dividing(numerator, divisor, n - d, d / 2, x / 2, answer + x)
            else Dividing(numerator, divisor, n, d / 2, x / 2, answer)
  {
    var x, answer := Pow2(k), m * Pow2(k + 1);
    var d := x * divisor;
    TakeBit(divisor, n, d, x, answer);
    assert IsPlace(x, answer, k, m);
    if k == 0 {
      assert x == 1;
    } else {
      NextPlace(x, answer, k, m, n >= d);
      HalfDivisor(d, Pow2(k - 1), divisor);
      hide IsPlace, Pow2;
      assert x / 2 == Pow2(k - 1);
    }
  }

  /** The first phase: shift the divisor up until it exceeds the numerator or reaches the top. */
  method ShiftUp(n: Uint128, divisor: Uint128) returns (d: Uint128, x: Uint128)
    requires divisor.Value() > 0
    ensures Dividing(n.Value(), divisor.Value(), n.Value(), d.Value(), x.Value(), 0) && x.Value() > 0
  {
    d, x := divisor, ONE;
    ghost var k := 0;
    while !Less(n, d) && TopBitClear(d)
      invariant k < 128 && x.Value() == Pow2(k) && IsMultiple(d.Value(), x.Value(), divisor.Value())
      decreases B128 - d.Value()
    {
      hide IsMultiple, Double;
      DoubleBoth(x.Value(), divisor.Value(), d.Value());
      NoRoomAtTop(x.Value(), k);
      x := Double(x);
      d := Double(d);
      k := k + 1;
    }
    assert IsPlace(x.Value(), 0, k, 0);
    hide Double, Pow2;
  }

  ghost predicate IsMultiple(d: nat, x: nat, divisor: nat) {
    d == x * divisor
  }

  lemma DoubleBoth(x: nat, divisor: nat, d: nat)
    requires IsMultiple(d, x, divisor) && divisor > 0 && x > 0
    ensures 0 < x <= d && IsMultiple(2 * d, 2 * x, divisor)
  {
    AtLeastOnce(divisor, x);
    SwapFactors(divisor, x);
    assert (2 * x) * divisor == 2 * (x * divisor);
  }

  lemma NoRoomAtTop(x: nat, k: nat)
    requires k < 128 && x == Pow2(k) && x < HALF
    ensures k < 127
  {
    TopPower();
  }

  /** The second phase: try the bits from there down. */
  method SubtractDown(numerator: Uint128, divisor: Uint128, d0: Uint128, x0: Uint128) returns (n: Uint128, answer: Uint128)
    requires Dividing(numerator.Value(), divisor.Value(), numerator.Value(), d0.Value(), x0.Value(), 0)
    ensures numerator.Value() == answer.Value() * divisor.Value() + n.Value() && n.Value() < divisor.Value()
  {
    var d, x := d0, x0;
    n, answer := numerator, ZERO;
    while x != ZERO
      invariant Dividing(numerator.Value(), divisor.Value(), n.Value(), d.Value(), x.Value(), answer.Value())
      decreases x.Value()
    {
      n, answer := TryOneBit(numerator.Value(), divisor.Value(), n, d, x, answer);
      x := Halve(x);
      d := Halve(d);
    }
  }

  method TryOneBit(ghost numerator: nat, ghost divisor: nat, n0: Uint128, d: Uint128, x: Uint128, answer0: Uint128)
    returns (n: Uint128, answer: Uint128)
    requires Dividing(numerator, divisor, n0.Value(), d.Value(), x.Value(), answer0.Value()) && x.Value() > 0
    ensures Dividing(numerator, divisor, n.Value(), d.Value() / 2, x.Value() / 2, answer.Value())
  {
    n, answer := n0, answer0;
    ghost var k: nat, m: nat :| IsPlace(x.Value(), answer.Value(), k, m);
    SetFreeBit(answer, x, k, m);
    TryBit(divisor, n.Value(), k, m);
    hide Dividing, Add, Pow2, Subtract;
    if !Less(n, d) {
      n := Subtract(n, d);
      answer := OrBoth(answer, x);
    }
  }

  /** Quotient and remainder are written last, so they may be the variables the operands came
      from; the remainder is written after the quotient. Dividing by zero is refused. */
  method Divide(numerator: Cell, denominator: Cell, quotient: Cell, remainder: Cell) returns (ok: bool)
    modifies quotient, remainder
    ensures ok <==> old(denominator.v.Value()) != 0
    ensures !ok ==> quotient.v == old(quotient.v) && remainder.v == old(remainder.v)
    ensures ok && quotient != remainder ==> quotient.v.Value() == old(numerator.v.Value()) / old(denominator.v.Value())
    ensures ok ==> remainder.v.Value() == old(numerator.v.Value()) % old(denominator.v.Value())
  {
    if denominator.v == ZERO {
      return false;
    }
    ghost var a, b := numerator.v.Value(), denominator.v.Value();
    var d, x := ShiftUp(numerator.v, denominator.v);
    var n, answer := SubtractDown(numerator.v, denominator.v, d, x);
    DivModUnique(a, b, answer.Value(), n.Value());
    quotient.v := answer;
    remainder.v := n;
    ok := true;
  }
}
