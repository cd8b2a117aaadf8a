/** The decimal printer and the string constructor of the 128-bit integer. */
module Uint128Text {
  import opened Words
  import opened Bits
  import opened Uint128s
  import opened Uint128Mul
  import opened Uint128Div
  import opened Decimals
  import opened Options

  /** The decimal digits of a number without leading zeros; none for zero. */
  ghost function Digits(v: nat): string {
    if v == 0 then "" else Digits(v / 10) + [DigitChar(v % 10)]
  }

  ghost function Decimal(v: nat): string {
    if v == 0 then "0" else Digits(v)
  }

  /** The numeral is as short as it can be, and its digits are those of the number. */
  lemma {:induction false} DigitsAre(v: nat, k: nat)
    requires v > 0
    ensures Digits(v) != "" && Pow10(|Digits(v)| - 1) <= v < Pow10(|Digits(v)|)
    ensures k < |Digits(v)| ==> Digits(v)[|Digits(v)| - 1 - k] == DigitChar(v / Pow10(k) % 10)
  {
    if v < 10 {
      assert Digits(v / 10) == "";
    } else {
      DigitsAre(v / 10, if k == 0 then 0 else k - 1);
      if k > 0 {
        DivideTwice(v, 10, Pow10(k - 1));
      }
    }
  }

  // ----- Printing -----

  lemma ThreeMore(n: nat)
    ensures Pow10(n + 3) == 1000 * Pow10(n)
  {
    assert Pow10(n + 2) == 100 * Pow10(n);
  }

  lemma ThirtyNineDigits()
    ensures Pow10(39) >= B128
  {
    ThreeMore(0);
    ThreeMore(3);
    ThreeMore(6);
    ThreeMore(9);
    ThreeMore(12);
    ThreeMore(15);
    ThreeMore(18);
    ThreeMore(21);
    ThreeMore(24);
    ThreeMore(27);
    ThreeMore(30);
    ThreeMore(33);
    ThreeMore(36);
  }

  /** The characters from `i` up to the terminator. */
  method ReadCString(buffer: array<char>, i: nat, ghost end: nat) returns (s: string)
    requires i <= end < buffer.Length && buffer[end] == '\0'
    requires forall k :: i <= k < end ==> buffer[k] != '\0'
    ensures s == buffer[i..end]
  {
    s := "";
    var k := i;
    while buffer[k] != '\0'
      invariant i <= k <= end && s == buffer[i..k]
      decreases end - k
    {
      s := s + [buffer[k]];
      k := k + 1;
    }
  }

  lemma DigitMoves(v: nat, rest: string)
    requires v > 0
    ensures Digits(v) + rest == Digits(v / 10) + ([DigitChar(v % 10)] + rest)
  {
  }

  lemma ShorterByOne(v: nat, n: nat)
    requires 0 < v < Pow10(n)
    ensures n > 0 && v / 10 < Pow10(n - 1)
  {
  }

  /** Takes the last digit off: the dividend is also where the quotient goes. */
  method TakeDigit(ii: Cell) returns (digit: char)
    modifies ii
    ensures ii.v.Value() == old(ii.v.Value()) / 10 && digit == DigitChar(old(ii.v.Value()) % 10)
    ensures digit != '\0'
  {
    var ten := new Cell(Of(10));
    var remainder := new Cell(ZERO);
    var divided := Divide(ii, ten, ii, remainder);
    digit := DigitChar(remainder.v.lo);
  }

  /** Fills a buffer with digits from the back. Every 128-bit number runs out of digits long
      before the buffer runs out of room. */
  method ToText(v: Uint128) returns (s: string)
    ensures s == Decimal(v.Value())
  {
    if v == ZERO {
      return "0";
    }
    var sz := new char[129](_ => '\0');
    var ii := new Cell(v);
    ThirtyNineDigits();
    var i := FillDigits(sz, ii);
    s := ReadCString(sz, i, 127);
  }

  method FillDigits(sz: array<char>, ii: Cell) returns (i: nat)
    requires IsText(sz, 127, "") && ii.v.Value() < Pow10(39)
    modifies sz, ii
    ensures IsText(sz, i, Digits(old(ii.v.Value())))
  {
    ghost var v := ii.v.Value();
    i := 127;
    ghost var written: string := "";
    hide Digits, Pow10, IsText;
    while ii.v != ZERO && i != 0
      invariant 88 <= i <= 127 && IsText(sz, i, written) && IsPrinted(v, ii.v.Value(), written, i - 88)
      decreases i
    {
      hide IsPrinted;
      i, written := WriteDigit(sz, ii, i, v, written);
    }
    assert Digits(0) + written == written;
  }

  /** What is written stands for the digits of `v` that are no longer in `value`, which has at most
      `room` digits left. */
  ghost predicate IsPrinted(v: nat, value: nat, written: string, room: nat) {
    Digits(v) == Digits(value) + written && value < Pow10(room)
  }

  method WriteDigit(sz: array<char>, ii: Cell, i: nat, ghost v: nat, ghost written: string)
    returns (next: nat, ghost more: string)
    requires 88 <= i <= 127 && IsText(sz, i, written) && ii.v.Value() > 0
    requires IsPrinted(v, ii.v.Value(), written, i - 88)
    modifies sz, ii
    ensures next == i - 1 && 88 <= next && IsText(sz, next, more)
    ensures IsPrinted(v, ii.v.Value(), more, next - 88)
  {
    DigitMoves(ii.v.Value(), written);
    ShorterByOne(ii.v.Value(), i - 88);
    hide Digits, Pow10, DigitChar, IsText;
    var digit := TakeDigit(ii);
    Prepend(sz, i, digit, written);
    next, more := i - 1, [digit] + written;
  }

  /** The buffer holds `written` from position `i` up to its terminator. */
  ghost predicate IsText(sz: array<char>, i: nat, written: string)
    reads sz
  {
    && sz.Length == 129 && i <= 127 && sz[i..127] == written && sz[127] == '\0'
    && forall k :: i <= k < 127 ==> sz[k] != '\0'
  }

  method Prepend(sz: array<char>, i: nat, digit: char, ghost written: string)
    requires IsText(sz, i, written) && i > 0 && digit != '\0'
    modifies sz
    ensures IsText(sz, i - 1, [digit] + written)
  {
    sz[i - 1] := digit;
    assert sz[i - 1..127] == [digit] + sz[i..127];
  }

  // ----- Parsing -----

  /** The value of a digit in the given radix, if it is one. */
  function DigitOf(ch: char, radix: nat): Option<nat> {
    var d := if 'A' <= ch <= 'Z' then (ch as nat) - ('A' as nat) + 10
             else if 'a' <= ch <= 'z' then (ch as nat) - ('a' as nat) + 10
             else if '0' <= ch <= '9' then (ch as nat) - ('0' as nat)
             else radix;
    if d < radix then Some(d) else None
  }

  /** The digits at the front of a text, read in a radix onto what has been read so far. */
  ghost function Fold(t: string, radix: nat, acc: nat): nat {
    if t == "" then acc
    else match DigitOf(t[0], radix)
         case None => acc
         case Some(d) => Fold(t[1..], radix, (acc * radix + d) % B128)
  }

  ghost function ParseUnsigned(t: string): nat {
    if t == "" then 0
    else if t[0] != '0' then Fold(t, 10, 0)
    else if |t| > 1 && t[1] == 'x' then Fold(t[2..], 16, 0)
    else Fold(t[1..], 8, 0)
  }

  /** A leading minus sign takes the two's complement. */
  ghost function Parse(sz: string): int {
    if sz != "" && sz[0] == '-' then Wrap(B128 - ParseUnsigned(sz[1..])) else ParseUnsigned(sz)
  }

  /** The digits of a base, as character codes: the letters stand for ten and more, in either case. */
  lemma DigitsOfBase(c: char, radix: nat, d: nat)
    requires d < radix <= 36
    ensures DigitOf(c, radix) == Some(d) <==>
            if d < 10 then c as nat == 48 + d else c as nat == 55 + d || c as nat == 87 + d
  {
  }

  lemma FoldStep(c: char, rest: string, radix: nat, acc: nat, d: nat, next: nat)
    requires DigitOf(c, radix) == Some(d) && next == acc * radix + d < B128
    ensures Fold([c] + rest, radix, acc) == Fold(rest, radix, next)
  {
    hide DigitOf;
    SmallWraps(next);
    var all := [c] + rest;
    assert all[0] == c && all[1..] == rest;
  }

  lemma SmallWraps(n: nat)
    requires n < B128
    ensures n % B128 == n
  {
  }

  /** A prefix tells the base. */
  lemma UnsignedRead()
    ensures ParseUnsigned("17") == 17 && ParseUnsigned("017") == 15 && ParseUnsigned("0x1F") == 31
  {
    FoldStep('1', "7", 10, 0, 1, 1);
    FoldStep('7', "", 10, 1, 7, 17);
    FoldStep('1', "7", 8, 0, 1, 1);
    FoldStep('7', "", 8, 1, 7, 15);
    FoldStep('1', "F", 16, 0, 1, 1);
    FoldStep('F', "", 16, 1, 15, 31);
    var decimal, octal, hex := "17", "017", "0x1F";
    assert decimal == "1" + "7" && octal[1..] == "1" + "7" && hex[2..] == "1" + "F" && "7" == "7" + "" && "F" == "F" + "";
  }

  method FromText(sz: string) returns (r: Uint128)
    ensures r.Value() == Parse(sz)
  {
    if sz == "" {
      return ZERO;
    }
    var radix, minus, i := 10, false, 0;
    if sz[0] == '-' {
      i, minus := 1, true;
    }
    ghost var t := sz[i..];
    if i < |sz| && sz[i] == '0' {
      radix, i := 8, i + 1;
      if i < |sz| && sz[i] == 'x' {
        radix, i := 16, i + 1;
      }
    }
    assert ParseUnsigned(t) == Fold(sz[i..], radix, 0);
    r := ReadDigits(sz, i, radix);
    if minus {
      r := Negate(r);
    }
  }

  method ReadDigits(sz: string, start: nat, radix: nat) returns (r: Uint128)
    requires start <= |sz| && radix <= 16
    ensures r.Value() == Fold(sz[start..], radix, 0)
  {
    var acc := new Cell(ZERO);
    var i := start;
    while i < |sz|
      invariant start <= i <= |sz|
      invariant Fold(sz[start..], radix, 0) == Fold(sz[i..], radix, acc.v.Value())
    {
      assert sz[i..][1..] == sz[i + 1..];
      match DigitOf(sz[i], radix) {
        case None => break;
        case Some(d) =>
          ghost var before := acc.v.Value();
          var factor := new Cell(Of(radix));
          MulAssign(acc, factor);
          AddReduces(acc.v, Times(before, radix), d);
          acc.v := Add(acc.v, Of(d));
      }
      i := i + 1;
    }
    r := acc.v;
  }

  // ----- Round trip -----

  lemma {:induction false} FoldAppend(s: string, c: char, acc: nat)
    requires DigitOf(c, 10).Some? && forall i :: 0 <= i < |s| ==> DigitOf(s[i], 10).Some?
    ensures Fold(s + [c], 10, acc) == (Fold(s, 10, acc) * 10 + DigitOf(c, 10).value) % B128
  {
    if s == "" {
      assert s + [c] == [c];
      assert [c][1..] == "";
    } else {
      assert (s + [c])[1..] == s[1..] + [c];
      FoldAppend(s[1..], c, (acc * 10 + DigitOf(s[0], 10).value) % B128);
    }
  }

  lemma DigitRoundTrip(d: nat)
    requires d < 10
    ensures DigitOf(DigitChar(d), 10) == Some(d) && (d > 0 ==> DigitChar(d) != '0')
  {
  }

  /** Digits are digits, and the first of them is not zero. */
  lemma {:induction false} DigitsAreDigits(v: nat)
    ensures forall i :: 0 <= i < |Digits(v)| ==> DigitOf(Digits(v)[i], 10).Some?
    ensures v > 0 ==> Digits(v) != "" && Digits(v)[0] != '0'
  {
    if v == 0 {
    } else {
      DigitsAreDigits(v / 10);
      DigitRoundTrip(v % 10);
    }
  }

  lemma {:induction false} FoldDigits(v: nat)
    requires v < B128
    ensures Fold(Digits(v), 10, 0) == v
  {
    if v == 0 {
    } else {
      FoldDigits(v / 10);
      DigitsAreDigits(v / 10);
      DigitRoundTrip(v % 10);
      FoldAppend(Digits(v / 10), DigitChar(v % 10), 0);
      DivModUnique(v, B128, 0, v);
    }
  }

  /** Parsing what was printed gives the number back, for every 128-bit number. */
  lemma PrintParseRoundTrip(v: Uint128)
    ensures Parse(Decimal(v.Value())) == v.Value()
  {
    if v.Value() == 0 {
      var zero := Decimal(0);
      assert zero[1..] == "";
      assert zero[0] == '0';
    } else {
      DigitsAreDigits(v.Value());
      FoldDigits(v.Value());
    }
  }

  /** The printer and the string constructor undo each other. */
  method Reprint(v: Uint128) returns (r: Uint128)
    ensures r == v
  {
    var text := ToText(v);
    r := FromText(text);
    PrintParseRoundTrip(v);
    ValueInjective(r, v);
  }
}
