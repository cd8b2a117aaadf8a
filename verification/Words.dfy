/** Machine words and the sizes at which their arithmetic wraps. */
module Words {
  const B32: nat := 0x1_0000_0000
  const B64: nat := 0x1_0000_0000_0000_0000
  const B128: nat := 0x1_0000_0000_0000_0000_0000_0000_0000_0000

  type Uint32 = n: nat | n < 0x1_0000_0000

  /** One more, in 32 bits. */
  function Increment(n: Uint32): Uint32 {
    (n + 1) % 0x1_0000_0000
  }
}
