/** Shared vocabulary: optional values, Go durations and 64-bit wrap-around. */
module Common {
  datatype Option<+T> = None | Some(value: T)

  // Durations and instants are integers counting nanoseconds, as in Go's time package.
  // Go's zero time.Time is None.
  const MILLISECOND := 1_000_000
  const SECOND := 1_000_000_000

  const TWO_63 := 0x8000_0000_0000_0000
  const TWO_64 := 0x1_0000_0000_0000_0000
  const MAX_INT64 := 0x7FFF_FFFF_FFFF_FFFF

  /** time.Since(since) >= d at instant now; the zero time is further back than any duration. */
  predicate Elapsed(since: Option<int>, now: int, d: int) {
    since.None? || now - since.value >= d
  }

  /** Two's-complement wrap-around of a 64-bit signed integer. */
  function Wrap64(x: int): int {
    (x + TWO_63) % TWO_64 - TWO_63
  }

  lemma WrapRange(x: int)
    ensures -TWO_63 <= Wrap64(x) <= MAX_INT64
    ensures -TWO_63 <= x <= MAX_INT64 ==> Wrap64(x) == x
  {
  }

  /** Go's integer division truncates toward zero. */
  function TruncDiv(a: int, b: int): int
    requires b > 0
  {
    if a >= 0 then a / b else -((-a) / b)
  }
}
