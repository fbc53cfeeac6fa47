/** The machine: sizes, ticks and arguments are words of 32 bits. */
module Words {

  const WORD := 0x1_0000_0000

  function Max(a: int, b: int): int { if a < b then b else a }
}
