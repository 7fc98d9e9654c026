// Instants and durations of package time, in nanoseconds.
module Clock {
  type Time = int     // since 1970-01-01 UTC
  type Duration = int

  const SECOND: int := 1_000_000_000
  const DAY: int := 86_400 * SECOND
  const ZERO_TIME: Time := -62_135_596_800 * SECOND // time.Time{}
  const MAX_DURATION: int := 0x7FFF_FFFF_FFFF_FFFF
  const MIN_DURATION: int := -0x8000_0000_0000_0000

  /** t.Sub(u): saturates at the range of a 64-bit duration. */
  function Sub(t: Time, u: Time): Duration
  {
    if t - u > MAX_DURATION then MAX_DURATION else if t - u < MIN_DURATION then MIN_DURATION else t - u
  }

  /** time.Duration(days) * 24 * time.Hour in 64 bits. */
  function Days(days: int): Duration
  {
    var d := (days * DAY) % 0x1_0000_0000_0000_0000;
    if d > MAX_DURATION then d - 0x1_0000_0000_0000_0000 else d
  }

  function Unix(t: Time): int { t / SECOND }

  /** Go's %, which takes the sign of the dividend. */
  function TruncatedMod(a: int, m: int): int
    requires m > 0
  {
    if a >= 0 then a % m else -((-a) % m)
  }
}
