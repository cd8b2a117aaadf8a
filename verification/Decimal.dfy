/** Decimal digits and powers of ten. */
module Decimals {
  function DigitChar(d: nat): char
    requires d < 10
  {
    "0123456789"[d]
  }

  function Pow10(n: nat): (p: nat)
    ensures p > 0
  {
    if n == 0 then 1 else 10 * Pow10(n - 1)
  }
}
