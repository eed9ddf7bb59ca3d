/** Clock readings in ticks of a nanosecond, and their whole seconds. */
module Clocks {

  const TICKS := 1_000_000_000

  /** Rounded towards zero, as `duration_cast` does. */
  function WholeSeconds(ticks: int): int {
    if ticks >= 0 then ticks / TICKS else -((-ticks) / TICKS)
  }

  /** Truncation loses less than a second, towards zero. */
  lemma WholeSecondsBounds(ticks: int)
    ensures 0 <= ticks ==> 0 <= ticks - 1_000_000_000 * WholeSeconds(ticks) < 1_000_000_000
    ensures ticks <= 0 ==> -1_000_000_000 < ticks - 1_000_000_000 * WholeSeconds(ticks) <= 0
  {
  }

  /** The first tick whose whole seconds reach a number. */
  function FirstTick(seconds: int): int {
    if seconds > 0 then seconds * TICKS else (seconds - 1) * TICKS + 1
  }

  lemma SecondIsReachedAt(ticks: int, seconds: int)
    ensures WholeSeconds(ticks) >= seconds <==> ticks >= FirstTick(seconds)
  {
    if ticks >= 0 {
      assert ticks == TICKS * (ticks / TICKS) + ticks % TICKS;
    } else {
      assert -ticks == TICKS * (-ticks / TICKS) + -ticks % TICKS;
    }
  }
}
