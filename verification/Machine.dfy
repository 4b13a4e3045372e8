/** Machine arithmetic and the units of time.Duration. */
module Machine {
  const TWO_63: int := 0x8000_0000_0000_0000
  const TWO_64: int := 0x1_0000_0000_0000_0000

  const SECOND: int := 1_000_000_000
  const MILLISECOND: int := 1_000_000

  // A number as a 64-bit two's-complement int.
  function Int64(x: int): int {
    var low := x % TWO_64;
    if low < TWO_63 then low else low - TWO_64
  }

  lemma Int64Keeps(x: int)
    requires -TWO_63 <= x < TWO_63
    ensures Int64(x) == x
  {
  }
}
