/**
 Prices as ratios of two amounts: comparison by cross multiplication in 128 bits, and conversion
 of an amount at a price.
 */
module Prices {
  import opened Words
  import opened Bits

  const MAX_SATOSHIS := 0x3FFF_FFFF_FFFF_FFFF

  type Int64 = n: int | -0x8000_0000_0000_0000 <= n < 0x8000_0000_0000_0000

  datatype Asset = Asset(amount: Int64, symbol: nat)

  datatype Price = Price(base: Asset, quote: Asset)

  /** Both sides positive, in different symbols. */
  predicate Valid(p: Price) {
    0 < p.base.amount && 0 < p.quote.amount && p.base.symbol != p.quote.symbol
  }

  /** A signed amount as a 128-bit number. */
  function Extend(n: Int64): nat {
    if n < 0 then n + B128 else n
  }

  function Cross(x: Int64, y: Int64): nat {
    (Extend(x) * Extend(y)) % B128
  }

  predicate SamePair(a: Price, b: Price) {
    a.base.symbol == b.base.symbol && a.quote.symbol == b.quote.symbol
  }

  predicate PairBefore(a: Price, b: Price) {
    a.base.symbol < b.base.symbol || (a.base.symbol == b.base.symbol && a.quote.symbol < b.quote.symbol)
  }

  // The six operators, each as its own comparison of pairs and of cross products.

  predicate Equal(a: Price, b: Price) {
    SamePair(a, b) && Cross(b.quote.amount, a.base.amount) == Cross(a.quote.amount, b.base.amount)
  }

  predicate NotEqual(a: Price, b: Price) {
    !SamePair(a, b) || Cross(b.quote.amount, a.base.amount) != Cross(a.quote.amount, b.base.amount)
  }

  predicate Less(a: Price, b: Price) {
    if !SamePair(a, b) then PairBefore(a, b)
    else Cross(b.quote.amount, a.base.amount) < Cross(a.quote.amount, b.base.amount)
  }

  predicate LessEqual(a: Price, b: Price) {
    if !SamePair(a, b) then PairBefore(a, b)
    else Cross(b.quote.amount, a.base.amount) <= Cross(a.quote.amount, b.base.amount)
  }

  predicate Greater(a: Price, b: Price) {
    if !SamePair(a, b) then PairBefore(b, a)
    else Cross(b.quote.amount, a.base.amount) > Cross(a.quote.amount, b.base.amount)
  }

  predicate GreaterEqual(a: Price, b: Price) {
    if !SamePair(a, b) then PairBefore(b, a)
    else Cross(b.quote.amount, a.base.amount) >= Cross(a.quote.amount, b.base.amount)
  }

  /** On non-negative amounts the cross products are exact. */
  lemma CrossIsExact(x: Int64, y: Int64)
    requires 0 <= x && 0 <= y
    ensures Cross(x, y) == x * y
  {
    ProductFits(x, y);
    DivModUnique(x * y, B128, 0, x * y);
  }

  lemma ProductFits(x: nat, y: nat)
    requires x < B64 && y < B64
    ensures 0 <= x * y < B128
  {
    Distribute(B64, x, y);
    AtLeastOnce(B64 - x, y);
    if x > 0 {
      AtLeastOnce(x, y);
    }
  }

  /** The six operators agree with each other: one order, seen from six sides. */
  lemma OperatorsAgree(a: Price, b: Price)
    ensures NotEqual(a, b) <==> !Equal(a, b)
    ensures LessEqual(a, b) <==> Less(a, b) || Equal(a, b)
    ensures GreaterEqual(a, b) <==> !Less(a, b)
    ensures Greater(a, b) <==> !LessEqual(a, b)
    ensures Greater(a, b) <==> Less(b, a)
    ensures GreaterEqual(a, b) <==> LessEqual(b, a)
    ensures Equal(a, b) <==> Equal(b, a)
  {
    if SamePair(a, b) {
      SwapProduct(Extend(b.quote.amount), Extend(a.base.amount));
      SwapProduct(Extend(a.quote.amount), Extend(b.base.amount));
    }
  }

  /** Prices of different pairs are ordered by the symbol of the base, and then by that of the quote. */
  lemma PairsComeInOrder(a: Price, b: Price)
    requires a.base.symbol != b.base.symbol || a.quote.symbol != b.quote.symbol
    ensures Less(a, b) <==>
            a.base.symbol < b.base.symbol || (a.base.symbol == b.base.symbol && a.quote.symbol < b.quote.symbol)
    ensures (LessEqual(a, b) <==> Less(a, b)) && (Greater(a, b) <==> !Less(a, b)) && !Equal(a, b)
  {
  }

  lemma SwapProduct(x: int, y: int)
    ensures x * y == y * x
  {
  }

  /** Cross-multiplied comparison of ratios is transitive as long as the middle denominator is
      positive. */
  lemma RatiosChain(n1: nat, d1: nat, n2: nat, d2: nat, n3: nat, d3: nat)
    requires d2 > 0
    requires d2 * n1 <= d1 * n2 && d3 * n2 <= d2 * n3
    ensures d3 * n1 <= d1 * n3
    ensures d1 > 0 && d3 > 0 && (d2 * n1 < d1 * n2 || d3 * n2 < d2 * n3) ==> d3 * n1 < d1 * n3
  {
    var left, right := d3 * n1, d1 * n3;
    assert d2 * left == d3 * (d2 * n1);
    assert d2 * right == d1 * (d2 * n3);
    var middle := d3 * (d1 * n2);
    assert middle == d1 * (d3 * n2);
    ScaleOrder(d2 * n1, d1 * n2, d3);
    ScaleOrder(d3 * n2, d2 * n3, d1);
    assert d2 * left <= middle <= d2 * right;
    CancelFactor(left, right, d2);
  }

  lemma ScaleOrder(x: nat, y: nat, d: nat)
    requires x <= y
    ensures d * x <= d * y && (d > 0 && x < y ==> d * x < d * y)
  {
  }

  lemma CancelFactor(x: int, y: int, d: nat)
    requires d > 0 && d * x <= d * y
    ensures x <= y && (d * x < d * y ==> x < y)
  {
    Distribute(x, y, d);
    SwapProduct(x, d);
    SwapProduct(y, d);
    if x > y {
      AtLeastOnce(x - y, d);
    }
  }

  /** On valid prices the order is total and transitive, strictly when either part is strict. */
  lemma PriceOrderIsTransitive(a: Price, b: Price, c: Price)
    requires Valid(a) && Valid(b) && Valid(c)
    requires LessEqual(a, b) && LessEqual(b, c)
    ensures LessEqual(a, c)
    ensures Less(a, b) || Less(b, c) ==> Less(a, c)
    ensures Equal(a, b) && Equal(b, c) ==> Equal(a, c)
  {
    if SamePair(a, b) && SamePair(b, c) {
      CrossIsExact(b.quote.amount, a.base.amount);
      CrossIsExact(a.quote.amount, b.base.amount);
      CrossIsExact(c.quote.amount, b.base.amount);
      CrossIsExact(b.quote.amount, c.base.amount);
      CrossIsExact(c.quote.amount, a.base.amount);
      CrossIsExact(a.quote.amount, c.base.amount);
      hide Cross;
      RatiosChain(a.base.amount, a.quote.amount, b.base.amount, b.quote.amount, c.base.amount, c.quote.amount);
      if Equal(a, b) && Equal(b, c) {
        RatiosChain(c.base.amount, c.quote.amount, b.base.amount, b.quote.amount, a.base.amount, a.quote.amount);
      }
    }
  }

  /** The rate a price stands for: base units per quote unit. */
  ghost function Rate(p: Price): real
    requires Valid(p)
  {
    p.base.amount as real / p.quote.amount as real
  }

  /** Between valid prices of one pair, the operators compare the rates. */
  lemma OrderIsByRate(a: Price, b: Price)
    requires Valid(a) && Valid(b) && SamePair(a, b)
    ensures Less(a, b) <==> Rate(a) < Rate(b)
    ensures Equal(a, b) <==> Rate(a) == Rate(b)
  {
    CrossIsExact(b.quote.amount, a.base.amount);
    CrossIsExact(a.quote.amount, b.base.amount);
    hide Cross;
    RatesCross(a.base.amount, a.quote.amount, b.base.amount, b.quote.amount);
  }

  lemma RatesCross(n1: nat, d1: nat, n2: nat, d2: nat)
    requires d1 > 0 && d2 > 0
    ensures d2 * n1 < d1 * n2 <==> n1 as real / d1 as real < n2 as real / d2 as real
    ensures d2 * n1 == d1 * n2 <==> n1 as real / d1 as real == n2 as real / d2 as real
  {
    var r1, r2 := n1 as real / d1 as real, n2 as real / d2 as real;
    var d := d1 as real * d2 as real;
    assert (d2 * n1) as real == r1 * d by {
      assert r1 * d1 as real == n1 as real;
      ProductAsReal(d2, n1);
    }
    assert (d1 * n2) as real == r2 * d by {
      assert r2 * d2 as real == n2 as real;
      ProductAsReal(d1, n2);
    }
    ScaleReals(r1, r2, d);
  }

  lemma {:induction false} ProductAsReal(x: nat, y: nat)
    ensures (x * y) as real == x as real * y as real
  {
    if x == 0 {
    } else {
      ProductAsReal(x - 1, y);
      assert x * y == (x - 1) * y + y;
    }
  }

  lemma ScaleReals(r: real, s: real, d: real)
    requires d > 0.0
    ensures r * d < s * d <==> r < s
    ensures r * d == s * d <==> r == s
  {
  }

  /** Without validation, the price of nothing for nothing is equal to every price of its pair. */
  lemma NullPriceBreaksEquality(base: nat, quote: nat)
    ensures var zero := Price(Asset(0, base), Asset(0, quote));
            var one, two := Price(Asset(1, base), Asset(1, quote)), Price(Asset(2, base), Asset(1, quote));
            && Equal(one, zero) && Equal(zero, two) && !Equal(one, two)
            && LessEqual(two, zero) && LessEqual(zero, one) && !LessEqual(two, one)
  {
  }

  predicate NonNegative(p: Price) {
    0 <= p.base.amount && 0 <= p.quote.amount
  }

  /** What is at most `b` is at most whatever `b` is at most. */
  ghost predicate OrderPassesThrough(b: Price) {
    forall a, c :: NonNegative(a) && NonNegative(c) && LessEqual(a, b) && LessEqual(b, c) ==> LessEqual(a, c)
  }

  /** What equals `b` equals whatever `b` equals. */
  ghost predicate EqualityPassesThrough(b: Price) {
    forall a, c :: NonNegative(a) && NonNegative(c) && Equal(a, b) && Equal(b, c) ==> Equal(a, c)
  }

  /** Among prices without negative amounts, order and equality are transitive through a price exactly
      when one of its amounts is positive. */
  lemma TransitiveThrough(b: Price)
    requires NonNegative(b)
    ensures OrderPassesThrough(b) <==> 0 < b.base.amount || 0 < b.quote.amount
    ensures EqualityPassesThrough(b) <==> 0 < b.base.amount || 0 < b.quote.amount
  {
    hide Equal, LessEqual;
    if 0 < b.base.amount || 0 < b.quote.amount {
      forall a, c | NonNegative(a) && NonNegative(c) && LessEqual(a, b) && LessEqual(b, c)
        ensures LessEqual(a, c)
      {
        OrderChains(a, b, c);
      }
      forall a, c | NonNegative(a) && NonNegative(c) && Equal(a, b) && Equal(b, c)
        ensures Equal(a, c)
      {
        EqualityChains(a, b, c);
      }
    } else {
      var base, quote := b.base.symbol, b.quote.symbol;
      NullPriceBreaksEquality(base, quote);
      assert b == Price(Asset(0, base), Asset(0, quote));
    }
  }

  lemma OrderChains(a: Price, b: Price, c: Price)
    requires NonNegative(a) && NonNegative(b) && NonNegative(c) && (0 < b.base.amount || 0 < b.quote.amount)
    requires LessEqual(a, b) && LessEqual(b, c)
    ensures LessEqual(a, c)
  {
    if SamePair(a, b) && SamePair(b, c) {
      ComparesProducts(a, b);
      ComparesProducts(b, c);
      ComparesProducts(a, c);
      hide LessEqual;
      AmountsChain(a.base.amount, a.quote.amount, b.base.amount, b.quote.amount, c.base.amount, c.quote.amount);
    }
  }

  lemma EqualityChains(a: Price, b: Price, c: Price)
    requires NonNegative(a) && NonNegative(b) && NonNegative(c) && (0 < b.base.amount || 0 < b.quote.amount)
    requires Equal(a, b) && Equal(b, c)
    ensures Equal(a, c)
  {
    OperatorsAgree(a, b);
    OperatorsAgree(b, c);
    OperatorsAgree(a, c);
    OrderChains(a, b, c);
    OrderChains(c, b, a);
  }

  lemma ComparesProducts(a: Price, b: Price)
    requires NonNegative(a) && NonNegative(b) && SamePair(a, b)
    ensures LessEqual(a, b) <==> b.quote.amount * a.base.amount <= a.quote.amount * b.base.amount
  {
    CrossIsExact(b.quote.amount, a.base.amount);
    CrossIsExact(a.quote.amount, b.base.amount);
  }

  /** Cross-multiplied comparison chains through a middle pair that is not all zero. */
  lemma AmountsChain(n1: nat, d1: nat, n2: nat, d2: nat, n3: nat, d3: nat)
    requires n2 > 0 || d2 > 0
    requires d2 * n1 <= d1 * n2 && d3 * n2 <= d2 * n3
    ensures d3 * n1 <= d1 * n3
  {
    if d2 > 0 {
      RatiosChain(n1, d1, n2, d2, n3, d3);
    } else if d3 > 0 {
      AtLeastOnce(d3, n2);
    }
  }

  // ----- Conversion -----

  datatype Result = Ok(asset: Asset) | AssertionFailed

  /** A 64-bit number stored in a signed amount. */
  function ToAmount(n: nat): Int64
    requires n < B64
  {
    if n < 0x8000_0000_0000_0000 then n else n - B64
  }

  function ConvertAt(amount: Int64, from: Int64, to: Int64, symbol: nat): Result {
    if from <= 0 then AssertionFailed
    else
      var result := Cross(amount, to) / from;
      if result >= B64 then AssertionFailed else Ok(Asset(ToAmount(result), symbol))
  }

  /** An amount of either side of the price, expressed in the other. */
  function Multiply(a: Asset, p: Price): Result {
    if a.symbol == p.base.symbol then ConvertAt(a.amount, p.base.amount, p.quote.amount, p.quote.symbol)
    else if a.symbol == p.quote.symbol then ConvertAt(a.amount, p.quote.amount, p.base.amount, p.base.symbol)
    else AssertionFailed
  }

  const HALF := 0x8000_0000_0000_0000

  /** The amounts the two symbols of a price exchange at: so much of the first for the second. */
  predicate Sides(a: Asset, p: Price, from: Asset, to: Asset) {
    ((from == p.base && to == p.quote) || (from == p.quote && to == p.base)) && a.symbol == from.symbol
  }

  /** The conversion rounds down. It is refused when the result does not fit 64 bits, and right
      exactly when it fits a signed amount: in between it comes out negative. */
  lemma MultiplyRoundsDown(a: Asset, p: Price, from: Asset, to: Asset)
    requires Valid(p) && a.amount >= 0 && Sides(a, p, from, to)
    ensures var exact := (a.amount * to.amount) / from.amount; var r := Multiply(a, p);
            && exact >= 0
            && (r.AssertionFailed? <==> exact >= B64)
            && (r.Ok? ==> r.asset.symbol == to.symbol)
            && (r.Ok? ==> (r.asset.amount == exact <==> exact < HALF))
            && (r.Ok? ==> (r.asset.amount >= 0 <==> exact < HALF))
  {
    CrossIsExact(a.amount, to.amount);
    ProductFits(a.amount, to.amount);
    hide Cross;
    NonNegativeQuotient(a.amount * to.amount, from.amount);
  }

  lemma NonNegativeQuotient(x: nat, d: nat)
    requires d > 0
    ensures x / d >= 0
  {
  }

  /** A valid amount, at a valid price, can come out negative. */
  lemma ConversionCanTurnNegative()
    ensures var p := Price(Asset(1, 1), Asset(4, 2));
            Valid(p) && Multiply(Asset(MAX_SATOSHIS, 1), p) == Ok(Asset(-4, 2))
  {
    CrossIsExact(MAX_SATOSHIS, 4);
  }

  /** The first amount converts, and to no more than the second does. */
  ghost predicate ConvertsToNoMore(a: Asset, b: Asset, p: Price) {
    Multiply(a, p).Ok? && Multiply(b, p).Ok? && Multiply(a, p).asset.amount <= Multiply(b, p).asset.amount
  }

  /** Smaller amounts convert to no more than a given one exactly when its exact conversion fits a
      signed amount. */
  lemma MultiplyIsMonotone(b: Asset, p: Price, from: Asset, to: Asset)
    requires Valid(p) && b.amount >= 0 && Sides(b, p, from, to)
    ensures (forall x: Int64 :: 0 <= x <= b.amount ==> ConvertsToNoMore(Asset(x, b.symbol), b, p)) <==>
            (b.amount * to.amount) / from.amount < HALF
  {
    MultiplyRoundsDown(b, p, from, to);
    MultiplyRoundsDown(Asset(0, b.symbol), p, from, to);
    if (b.amount * to.amount) / from.amount < HALF {
      forall x: Int64 | 0 <= x <= b.amount
        ensures ConvertsToNoMore(Asset(x, b.symbol), b, p)
      {
        MultiplyRoundsDown(Asset(x, b.symbol), p, from, to);
        ScaledQuotient(x, b.amount, to.amount, from.amount);
        hide Multiply;
      }
    } else {
      NothingConverts(to.amount, from.amount);
      hide Multiply;
      assert !ConvertsToNoMore(Asset(0, b.symbol), b, p);
    }
  }

  lemma NothingConverts(to: nat, from: nat)
    requires from > 0
    ensures (0 * to) / from == 0
  {
  }

  lemma ScaledQuotient(x: nat, y: nat, to: nat, from: nat)
    requires x <= y && from > 0
    ensures (x * to) / from <= (y * to) / from
  {
    ScaleOrder(x, y, to);
    SwapProduct(x, to);
    SwapProduct(y, to);
    QuotientMonotone(x * to, y * to, from);
  }

  lemma QuotientMonotone(x: nat, y: nat, d: nat)
    requires x <= y && d > 0
    ensures x / d <= y / d
  {
    FundamentalDivMod(x, d);
    FundamentalDivMod(y, d);
    Distribute(x / d, y / d, d);
    BelowOne(x / d - y / d, d);
  }

  lemma BelowOne(k: int, d: nat)
    requires k * d < d
    ensures k < 1
  {
    if k >= 1 {
      AtLeastOnce(k, d);
    }
  }

  /** Both ways succeed, with no gain, and with no more loss than the one side over the other,
      rounded up. */
  ghost predicate ComesBack(a: Asset, p: Price, from: Asset, to: Asset)
    requires to.amount > 0
  {
    && Multiply(a, p).Ok?
    && var back := Multiply(Multiply(a, p).asset, p);
       && back.Ok? && back.asset.symbol == a.symbol
       && back.asset.amount <= a.amount <= back.asset.amount + (from.amount + to.amount - 1) / to.amount
  }

  /** Converting there and back is so exactly when the exact conversion fits a signed amount; a
      negative result does not convert back. */
  lemma ThereAndBack(a: Asset, p: Price, from: Asset, to: Asset)
    requires Valid(p) && a.amount >= 0 && Sides(a, p, from, to)
    ensures ComesBack(a, p, from, to) <==> (a.amount * to.amount) / from.amount < HALF
  {
    MultiplyRoundsDown(a, p, from, to);
    if (a.amount * to.amount) / from.amount < HALF {
      var there := Multiply(a, p).asset;
      ExactThereAndBack(a.amount, from.amount, to.amount);
      MultiplyRoundsDown(there, p, to, from);
      hide Multiply;
    } else if Multiply(a, p).Ok? {
      NegativeIsRefused(Multiply(a, p).asset, p, to, from);
      hide Multiply;
    }
  }

  /** A negative amount reads as a number just below 2^128, which no valid price brings below 2^64. */
  lemma NegativeIsRefused(a: Asset, p: Price, from: Asset, to: Asset)
    requires Valid(p) && a.amount < 0 && Sides(a, p, from, to)
    ensures Multiply(a, p).AssertionFailed?
  {
    NegativeCross(a.amount, to.amount);
    hide Cross;
    FarAbove(Cross(a.amount, to.amount), from.amount);
  }

  const QUARTER: nat := 0x4000_0000_0000_0000_0000_0000_0000_0000

  lemma NegativeCross(x: Int64, y: Int64)
    requires x < 0 && y > 0
    ensures Cross(x, y) >= B128 - QUARTER
  {
    var size: int := x;
    var loss := (-size) * y;
    LossIsSmall(-size, y);
    TurnAround(x, y);
    assert Extend(x) * y == (y - 1) * B128 + (B128 - loss);
    DivModUnique(Extend(x) * y, B128, y - 1, B128 - loss);
  }

  lemma LossIsSmall(x: nat, y: nat)
    requires 0 < x <= HALF && 0 < y < HALF
    ensures 0 < x * y <= QUARTER
  {
    AtLeastOnce(x, y);
    ScaleOrder(y, HALF, x);
    ScaleOrder(x, HALF, HALF);
    assert HALF * HALF == QUARTER;
  }

  lemma TurnAround(x: int, y: int)
    ensures (x + B128) * y == (y - 1) * B128 + (B128 - (-x) * y)
  {
  }

  lemma AtLeast(q: int, k: int, d: nat, r: nat)
    requires r < d && q * d + r >= k * d + d
    ensures q >= k
  {
    Distribute(q, k, d);
    if q < k {
      AtLeastOnce(k - q, d);
      Distribute(k, q, d);
    }
  }

  lemma FarAbove(x: nat, d: nat)
    requires x >= B128 - QUARTER && 0 < d < HALF
    ensures x / d >= B64
  {
    QuotientMonotone(B128 - QUARTER, x, d);
    FundamentalDivMod(B128 - QUARTER, d);
    ScaleOrder(d, HALF, B64);
    SwapProduct(B64, d);
    AtLeast((B128 - QUARTER) / d, B64, d, (B128 - QUARTER) % d);
  }

  lemma ExactThereAndBack(x: nat, from: nat, to: nat)
    requires from > 0 && to > 0
    ensures var there := (x * to) / from; var back := (there * from) / to;
            back <= x <= back + (from + to - 1) / to
  {
    var there := (x * to) / from;
    FundamentalDivMod(x * to, from);
    var rest := (x * to) % from;
    var y := there * from;
    assert y == x * to - rest;
    FundamentalDivMod(y, to);
    var back := y / to;
    // x * to - back * to == rest + y % to < from + to
    Distribute(x, back, to);
    BackIsNoMore(x - back, to);
    FundamentalDivMod(from + to - 1, to);
    var most := (from + to - 1) / to;
    Distribute(x - back, most, to);
    BelowOne(x - back - most, to);
  }

  lemma BackIsNoMore(k: int, d: nat)
    requires k * d >= 0 && d > 0
    ensures k >= 0
  {
  }
}
