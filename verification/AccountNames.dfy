/** Sixteen-character account names that carry a kind, a level and a number. */
module AccountNames {
  import opened Authorities
  import opened Decimals

  function Digit(c: char): nat {
    if '0' <= c <= '9' then (c - '0') as nat else 0
  }

  function Numeral(n: nat, width: nat): (s: string)
    ensures |s| == width
  {
    if width == 0 then "" else Numeral(n / 10, width - 1) + [DigitChar(n % 10)]
  }

  function NumberOf(s: string): nat {
    if s == "" then 0 else 10 * NumberOf(s[..|s| - 1]) + Digit(s[|s| - 1])
  }

  lemma {:induction false} ReadBack(n: nat, width: nat)
    requires n < Pow10(width)
    ensures NumberOf(Numeral(n, width)) == n
  {
    hide Digit, DigitChar, NumberOf, Numeral, Pow10;
    if width == 0 {
      NothingReadsBack(n);
    } else {
      var tenth, last := n / 10, n % 10;
      PowerSteps(width);
      TenthFits(n, Pow10(width - 1));
      NumeralEnds(n, width, tenth, last);
      ReadBack(tenth, width - 1);
      DigitReadsBack(last);
      LastDigit(Numeral(tenth, width - 1), DigitChar(last));
    }
  }

  lemma NothingReadsBack(n: nat)
    requires n < Pow10(0)
    ensures NumberOf(Numeral(n, 0)) == n
  {
  }

  lemma PowerSteps(width: nat)
    requires width > 0
    ensures Pow10(width) == 10 * Pow10(width - 1)
  {
  }

  lemma NumeralEnds(n: nat, width: nat, tenth: nat, last: nat)
    requires width > 0 && tenth == n / 10 && last == n % 10
    ensures Numeral(n, width) == Numeral(tenth, width - 1) + [DigitChar(last)]
  {
  }

  lemma TenthFits(n: nat, p: nat)
    requires n < 10 * p
    ensures n / 10 < p && 10 * (n / 10) + n % 10 == n
  {
  }

  lemma LastDigit(s: string, c: char)
    ensures NumberOf(s + [c]) == 10 * NumberOf(s) + Digit(c)
  {
    assert (s + [c])[..|s|] == s;
  }

  lemma DigitReadsBack(d: nat)
    requires d < 10
    ensures Digit(DigitChar(d)) == d
  {
  }

  function Name(kind: char, level: nat, number: nat): (a: AccountName)
    ensures |a| == 16
  {
    [kind] + Numeral(level, 5) + Numeral(number, 10)
  }

  function LevelOf(a: AccountName): nat
    requires |a| == 16
  {
    NumberOf(a[1..6])
  }

  function NumberIn(a: AccountName): nat
    requires |a| == 16
  {
    NumberOf(a[6..])
  }

  /** Names are told apart by what they carry. */
  lemma NameParts(kind: char, level: nat, number: nat)
    requires level < 100_000 && number < 10_000_000_000
    ensures var a := Name(kind, level, number);
            a[0] == kind && LevelOf(a) == level && NumberIn(a) == number
  {
    var a := Name(kind, level, number);
    assert Pow10(5) == 100_000 && Pow10(10) == 10_000_000_000 by {
      assert Pow10(5) == 100_000;
      assert Pow10(8) == 1000 * Pow10(5);
    }
    ReadBack(level, 5);
    ReadBack(number, 10);
    assert a[1..6] == Numeral(level, 5) && a[6..] == Numeral(number, 10);
  }
}
