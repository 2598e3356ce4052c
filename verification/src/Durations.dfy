// Durations are integers in nanoseconds, as in Go.
module Durations {
  import opened Wrappers

  const MILLISECOND: int := 1_000_000
  const SECOND: int := 1_000 * MILLISECOND
  const MINUTE: int := 60 * SECOND
  const MAX_DURATION: int := 0x7fff_ffff_ffff_ffff

  function Milliseconds(d: int): int {
    TruncDiv(d, MILLISECOND)
  }
}
