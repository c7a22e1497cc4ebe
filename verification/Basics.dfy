/** What every component shares: the processing block size and the two integer extremes. */
module Basics {

  /** Samples per processing tick, the size of every scratch buffer. */
  const BLOCK: nat := 256

  function Min(a: int, b: int): int { if a <= b then a else b }

  function Max(a: int, b: int): int { if a >= b then a else b }
}
