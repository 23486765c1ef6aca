/** Machine words of 64 bits, whose arithmetic wraps around. */
module Words {
  const WORD: int := 0x1_0000_0000_0000_0000

  type Word = x: nat | x < WORD
}
