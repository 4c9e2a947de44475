/** Unsigned 32-bit words. */
module Words {
  const WORD := 0x1_0000_0000

  type Word = x: nat | x < WORD
}
