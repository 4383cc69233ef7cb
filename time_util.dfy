/** Wrap-safe interval tests on the 32-bit millisecond clock (include/TimeUtil.h). */
module TimeUtil {

  /** The number of distinct 32-bit timestamps. */
  const WRAP: int := 0x1_0000_0000

  /** A `uint32_t` millisecond timestamp or duration. */
  type Millis = x: int | 0 <= x < WRAP

  /** `uint32_t` subtraction: `a - b` wrapped into 0 .. 2^32-1. */
  function Sub(a: Millis, b: Millis): (d: Millis)
    ensures d == (a - b) % WRAP
  {
    if a >= b then a - b else a - b + WRAP
  }

  /** `uint32_t` addition: `a + b` wrapped into 0 .. 2^32-1. */
  function Add(a: Millis, b: Millis): (s: Millis)
    ensures s == (a + b) % WRAP
  {
    if a + b < WRAP then a + b else a + b - WRAP
  }

  /**
   * `elapsed(now, since, interval)`: true once at least `interval` milliseconds have
   * passed since `since`, measured by unsigned 32-bit subtraction so that it stays
   * correct when the clock wraps between `since` and `now`.
   */
  function Elapsed(now: Millis, since: Millis, interval: Millis): (r: bool)
    ensures r <==> (now - since) % WRAP >= interval
  {
    Sub(now, since) >= interval
  }

  /** A zero interval has always elapsed. */
  lemma ElapsedZero(now: Millis, since: Millis)
    ensures Elapsed(now, since, 0)
  {
  }

  /** Shifting both instants by the same amount, across a wrap or not, changes nothing. */
  lemma ElapsedShift(now: Millis, since: Millis, interval: Millis, offset: Millis)
    ensures Elapsed(Add(now, offset), Add(since, offset), interval) == Elapsed(now, since, interval)
  {
    assert Sub(Add(now, offset), Add(since, offset)) == Sub(now, since);
  }

  /** `d` milliseconds after `since` (the clock may wrap on the way), `interval` has elapsed iff `d >= interval`. */
  lemma ElapsedAfter(since: Millis, d: Millis, interval: Millis)
    ensures Elapsed(Add(since, d), since, interval) <==> d >= interval
  {
    assert Sub(Add(since, d), since) == d;
  }

  /** An interval that has elapsed implies every shorter one has. */
  lemma ElapsedMonotone(now: Millis, since: Millis, interval: Millis, shorter: Millis)
    requires shorter <= interval
    requires Elapsed(now, since, interval)
    ensures Elapsed(now, since, shorter)
  {
  }
}
