/** In-place limb multiplication modulo 2^128, and the exact 256-bit product. */
module Uint128Mul {
  import opened Words
  import opened Bits
  import opened Uint128s

  /** A variable that operators overwrite; two references may be to the same one. */
  class Cell {
    var v: Uint128

    constructor (v: Uint128)
      ensures this.v == v
    {
      this.v := v;
    }
  }

  type Limb = n: nat | n < 0x1_0000_0000

  ghost predicate Reduces(v: Uint128, e: nat) {
    v.Value() == e % B128
  }

  lemma AddReduces(v: Uint128, e: nat, t: Uint64)
    requires Reduces(v, e)
    ensures Reduces(Add(v, Of(t)), e + t)
  {
    FundamentalDivMod(e, B128);
    var q, sum := e / B128, e % B128 + t;
    if sum < B128 {
      DivModUnique(e + t, B128, q, sum);
    } else {
      DivModUnique(e + t, B128, q + 1, sum - B128);
    }
  }

  lemma ShiftReduces(v: Uint128, e: nat)
    requires Reduces(v, e)
    ensures Reduces(Shl(v, Of(32)), e * B32)
  {
    ShlValue(v, Of(32));
    LimbPower();
    hide Shl, Pow2;
    FundamentalDivMod(e, B128);
    var q, r := e / B128, e % B128;
    FundamentalDivMod(r * B32, B128);
    DivModUnique(e * B32, B128, q * B32 + (r * B32) / B128, (r * B32) % B128);
  }

  lemma LimbPower()
    ensures Pow2(32) == B32
  {
    FourMore(0);
    FourMore(4);
    FourMore(8);
    FourMore(12);
    FourMore(16);
    FourMore(20);
    FourMore(24);
    FourMore(28);
  }

  function TimesLimb(x: Limb, y: Limb): (r: Uint64)
    ensures r == Times(x, y)
  {
    LimbsFit(x, y);
    x * y
  }

  lemma LimbsFit(x: Limb, y: Limb)
    ensures 0 <= x * y < B64
  {
    Distribute(B32, x, y);
    AtLeastOnce(B32 - x, y);
    assert B32 * y < B64;
    if x > 0 {
      AtLeastOnce(x, y);
    }
  }

  /** What the four groups of cross terms add up to when each group is shifted into place. */
  ghost function Shifted(s3: nat, s2: nat, s1: nat, s0: nat): nat {
    ((s3 * B32 + s2) * B32 + s1) * B32 + s0
  }

  /** The in-place multiplication is exact modulo 2^128 for all operands, even when both are the
      same variable: every limb is read before anything is overwritten. */
  method MulAssign(self: Cell, b: Cell)
    modifies self
    ensures self.v.Value() == (old(self.v.Value()) * old(b.v.Value())) % B128
  {
    hide Shifted;
    ghost var x, y := self.v, b.v;
    var a0: Limb, a1: Limb, a2: Limb, a3: Limb := self.v.lo % B32, self.v.lo / B32, self.v.hi % B32, self.v.hi / B32;
    var b0: Limb, b1: Limb, b2: Limb, b3: Limb := b.v.lo % B32, b.v.lo / B32, b.v.hi % B32, b.v.hi / B32;
    CrossTerms(x, y, a0, a1, a2, a3, b0, b1, b2, b3);
    var p30, p21, p12, p03 := TimesLimb(a3, b0), TimesLimb(a2, b1), TimesLimb(a1, b2), TimesLimb(a0, b3);
    var p20, p11, p02 := TimesLimb(a2, b0), TimesLimb(a1, b1), TimesLimb(a0, b2);
    var p10, p01, p00 := TimesLimb(a1, b0), TimesLimb(a0, b1), TimesLimb(a0, b0);
    self.v := Accumulate(p30, p21, p12, p03, p20, p11, p02, p10, p01, p00);
  }

  /** The overwriting sequence of additions and shifts, on the products of the limbs. */
  method Accumulate(p30: Uint64, p21: Uint64, p12: Uint64, p03: Uint64, p20: Uint64, p11: Uint64, p02: Uint64,
                    p10: Uint64, p01: Uint64, p00: Uint64) returns (v: Uint128)
    ensures Reduces(v, Shifted(p30 + p21 + p12 + p03, p20 + p11 + p02, p10 + p01, p00))
  {
    hide Reduces, StartWith, Plus, Up;
    v := StartWith(p30);
    ghost var e: nat := p30;
    v, e := Plus(v, p21, e), e + p21;
    v, e := Plus(v, p12, e), e + p12;
    v, e := Plus(v, p03, e), e + p03;
    v, e := Up(v, e), e * B32;
    v, e := Plus(v, p20, e), e + p20;
    v, e := Plus(v, p11, e), e + p11;
    v, e := Plus(v, p02, e), e + p02;
    v, e := Up(v, e), e * B32;
    v, e := Plus(v, p10, e), e + p10;
    v, e := Plus(v, p01, e), e + p01;
    v, e := Up(v, e), e * B32;
    v, e := Plus(v, p00, e), e + p00;
  }

  function StartWith(t: Uint64): (r: Uint128)
    ensures Reduces(r, t)
  {
    DivModUnique(t, B128, 0, t);
    Of(t)
  }

  function Plus(v: Uint128, t: Uint64, ghost e: nat): (r: Uint128)
    requires Reduces(v, e)
    ensures Reduces(r, e + t)
  {
    AddReduces(v, e, t);
    Add(v, Of(t))
  }

  function Up(v: Uint128, ghost e: nat): (r: Uint128)
    requires Reduces(v, e)
    ensures Reduces(r, e * B32)
  {
    ShiftReduces(v, e);
    Shl(v, Of(32))
  }

  /** A number from its limbs. */
  ghost function FromLimbs(b0: nat, b1: nat, b2: nat, b3: nat): nat {
    b0 + b1 * B32 + b2 * B64 + b3 * (B32 * B64)
  }

  ghost function Times(x: nat, y: nat): nat {
    x * y
  }

  lemma ScaleLimbs(a: nat, b0: nat, b1: nat, b2: nat, b3: nat)
    ensures Times(a, FromLimbs(b0, b1, b2, b3)) == FromLimbs(Times(a, b0), Times(a, b1), Times(a, b2), Times(a, b3))
  {
  }

  lemma SumRows(y: nat, a0: nat, a1: nat, a2: nat, a3: nat)
    ensures Times(FromLimbs(a0, a1, a2, a3), y) == FromLimbs(Times(a0, y), Times(a1, y), Times(a2, y), Times(a3, y))
  {
    ScaleLimbs(y, a0, a1, a2, a3);
  }

  /** The cross terms shifted by 128 bits or more are whole turns. */
  lemma DropHighTerms(r0: nat, r1: nat, r2: nat, r3: nat,
                      q00: nat, q01: nat, q02: nat, q03: nat, q10: nat, q11: nat, q12: nat, q13: nat,
                      q20: nat, q21: nat, q22: nat, q23: nat, q30: nat, q31: nat, q32: nat, q33: nat)
    requires r0 == FromLimbs(q00, q01, q02, q03) && r1 == FromLimbs(q10, q11, q12, q13)
    requires r2 == FromLimbs(q20, q21, q22, q23) && r3 == FromLimbs(q30, q31, q32, q33)
    ensures FromLimbs(r0, r1, r2, r3) % B128
            == Shifted(q30 + q21 + q12 + q03, q20 + q11 + q02, q10 + q01, q00) % B128
  {
    var turns := q13 + q22 + q31 + (q23 + q32) * B32 + q33 * B64;
    WholeTurns(FromLimbs(r0, r1, r2, r3), Shifted(q30 + q21 + q12 + q03, q20 + q11 + q02, q10 + q01, q00), turns);
  }

  lemma CrossTerms(x: Uint128, y: Uint128, a0: Limb, a1: Limb, a2: Limb, a3: Limb, b0: Limb, b1: Limb, b2: Limb, b3: Limb)
    requires x.lo == a1 * B32 + a0 && x.hi == a3 * B32 + a2
    requires y.lo == b1 * B32 + b0 && y.hi == b3 * B32 + b2
    ensures Times(x.Value(), y.Value()) % B128
            == Shifted(Times(a3, b0) + Times(a2, b1) + Times(a1, b2) + Times(a0, b3),
                       Times(a2, b0) + Times(a1, b1) + Times(a0, b2), Times(a1, b0) + Times(a0, b1), Times(a0, b0)) % B128
  {
    assert x.Value() == FromLimbs(a0, a1, a2, a3) && y.Value() == FromLimbs(b0, b1, b2, b3);
    hide FromLimbs, Shifted, Times, Uint128.Value;
    SumRows(y.Value(), a0, a1, a2, a3);
    ScaleLimbs(a0, b0, b1, b2, b3);
    ScaleLimbs(a1, b0, b1, b2, b3);
    ScaleLimbs(a2, b0, b1, b2, b3);
    ScaleLimbs(a3, b0, b1, b2, b3);
    DropHighTerms(Times(a0, y.Value()), Times(a1, y.Value()), Times(a2, y.Value()), Times(a3, y.Value()),
                  Times(a0, b0), Times(a0, b1), Times(a0, b2), Times(a0, b3),
                  Times(a1, b0), Times(a1, b1), Times(a1, b2), Times(a1, b3),
                  Times(a2, b0), Times(a2, b1), Times(a2, b2), Times(a2, b3),
                  Times(a3, b0), Times(a3, b1), Times(a3, b2), Times(a3, b3));
  }

  lemma WholeTurns(x: nat, e: nat, turns: nat)
    requires x == e + turns * B128
    ensures x % B128 == e % B128
  {
    FundamentalDivMod(e, B128);
    DivModUnique(x, B128, e / B128 + turns, e % B128);
  }

  // ----- The full product -----

  lemma ProductBound(x: nat, y: nat, m: nat, n: nat)
    requires x < m && y < n
    ensures Times(x, y) < m * n && Times(x, y) <= m * n - n
  {
    Distribute(m, x, n);
    AtLeastOnce(m - x, n);
    Distribute(n, y, x);
    if x > 0 {
      AtLeastOnce(n - y, x);
    }
  }

  /** The product of two words, exactly. */
  method WordProduct(x: Uint64, y: Uint64) returns (r: Uint128)
    ensures r.Value() == Times(x, y)
  {
    var a := new Cell(Of(x));
    var b := new Cell(Of(y));
    MulAssign(a, b);
    r := a.v;
    ProductBound(x, y, B64, B64);
    DivModUnique(Times(x, y), B128, 0, Times(x, y));
  }

  /** The four word products put together. */
  lemma FourWords(ah: Uint64, al: Uint64, bh: Uint64, bl: Uint64)
    ensures Times(ah * B64 + al, bh * B64 + bl)
            == Times(ah, bh) * B128 + (Times(al, bh) + Times(ah, bl)) * B64 + Times(al, bl)
  {
    TimesSum(ah, B64, al, bh * B64 + bl);
    TimesSum(bh, B64, bl, ah);
    TimesSum(bh, B64, bl, al);
    assert ah * (B64 * (bh * B64 + bl)) == B64 * (ah * (bh * B64 + bl));
  }

  function Sum3(x: Uint64, y: Uint64, z: Uint64): (r: Uint128)
    ensures r.Value() == x + y + z
  {
    Add(Add(Of(x), Of(y)), Of(z))
  }

  function Sum4(w: Uint64, x: Uint64, y: Uint64, z: Uint64): (r: Uint128)
    ensures r.Value() == w + x + y + z
  {
    Add(Sum3(w, x, y), Of(z))
  }

  /** Adding up the columns of words: the carries go up, and nothing leaves the top. */
  lemma ColumnsAddUp(p: Uint128, q: Uint128, r: Uint128, s: Uint128, middle: Uint128, upper: Uint128)
    requires middle.Value() == s.hi + q.lo + r.lo
    requires upper.Value() == middle.hi + q.hi + r.hi + p.lo
    requires p.Value() * B128 + (q.Value() + r.Value()) * B64 + s.Value() < B128 * B128
    ensures upper.hi + p.hi < B64
    ensures Uint128(upper.hi + p.hi, upper.lo).Value() * B128 + Uint128(middle.lo, s.lo).Value()
            == p.Value() * B128 + (q.Value() + r.Value()) * B64 + s.Value()
  {
  }

  /** The four words of the product of two numbers of two words; the top one does not overflow. */
  method ProductWords(ah: Uint64, al: Uint64, bh: Uint64, bl: Uint64) returns (hi: Uint128, lo: Uint128)
    ensures hi.Value() * B128 + lo.Value() == Times(ah * B64 + al, bh * B64 + bl)
  {
    FourWords(ah, al, bh, bl);
    ProductBound(ah * B64 + al, bh * B64 + bl, B128, B128);
    hide Times, Add, Of, Sum3, Sum4, Uint128.Value;
    var s := WordProduct(al, bl);
    var r := WordProduct(ah, bl);
    var q := WordProduct(al, bh);
    var p := WordProduct(ah, bh);
    var middle := Sum3(s.hi, q.lo, r.lo);
    var upper := Sum4(middle.hi, q.hi, r.hi, p.lo);
    ColumnsAddUp(p, q, r, s, middle, upper);
    var top := AddWord(upper.hi, p.hi);
    hi, lo := Uint128(top, upper.lo), Uint128(middle.lo, s.lo);
  }

  /** The two halves of the result are exactly the 256-bit product, and the results may be written
      over the operands. The low half is written last, which only shows when both go to one
      variable. */
  method FullProduct(a: Cell, b: Cell, resultHi: Cell, resultLo: Cell)
    modifies resultHi, resultLo
    ensures resultHi != resultLo ==>
              resultHi.v.Value() * B128 + resultLo.v.Value() == Times(old(a.v.Value()), old(b.v.Value()))
    ensures resultLo.v.Value() == Times(old(a.v.Value()), old(b.v.Value())) % B128
  {
    hide Times;
    var hi, lo := ProductWords(a.v.hi, a.v.lo, b.v.hi, b.v.lo);
    DivModUnique(Times(a.v.Value(), b.v.Value()), B128, hi.Value(), lo.Value());
    resultHi.v := hi;
    resultLo.v := lo;
  }
}
