/** Bytes, powers of two and the width of a `u64`. */
module Numbers {
  const U64_LIMIT: nat := 0x1_0000_0000_0000_0000

  /** A `u8` as its bits, least significant first. */
  type byte = b: seq<bool> | |b| == 8 witness ZERO

  const ZERO: seq<bool> := [false, false, false, false, false, false, false, false]

  function Pow2(n: nat): (p: nat)
    ensures p > 0
  {
    if n == 0 then 1 else 2 * Pow2(n - 1)
  }
}
