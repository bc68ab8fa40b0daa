/** Numbers that several modules need. */
module Numbers {

  /** One more than the largest 32-bit number. */
  const WORD: nat := 0x1_0000_0000

  function Min(a: int, b: int): int { if a <= b then a else b }
}
