/** The clock arithmetic both rate limiters share: elapsed time in nanoseconds, converted to
    whole milliseconds by truncation toward zero, and the number of whole refresh periods in
    it. */
module Timing {
  import opened MachineSpecs

  const NANOSECONDS_PER_MILLISECOND := 1_000_000

  /** duration_cast<milliseconds>(elapsed).count(), and Python's int(elapsed / 1e6): both
      truncate toward zero, so a negative duration gives minus the milliseconds of its
      magnitude. */
  function TruncatedMilliseconds(ns: int): (ms: int)
    ensures ns >= 0 ==> 0 <= ms * NANOSECONDS_PER_MILLISECOND <= ns < (ms + 1) * NANOSECONDS_PER_MILLISECOND
    ensures ns < 0 ==> ms <= 0 && 0 <= -ms * NANOSECONDS_PER_MILLISECOND <= -ns < (-ms + 1) * NANOSECONDS_PER_MILLISECOND
  {
    if ns >= 0 then ns / NANOSECONDS_PER_MILLISECOND
    else -((-ns) / NANOSECONDS_PER_MILLISECOND)
  }

  /** Whole refresh periods in ms milliseconds, for ms of at least one period. */
  function RefreshesElapsed(ms: int): (refreshes: nat)
    requires ms >= MILLISECONDS_PER_REFRESH
    ensures refreshes >= 1
    ensures refreshes * MILLISECONDS_PER_REFRESH <= ms < (refreshes + 1) * MILLISECONDS_PER_REFRESH
  {
    RefreshTiming();
    ms / MILLISECONDS_PER_REFRESH
  }

  /** Truncating two intervals separately never gives more than truncating their sum. */
  lemma TruncationSuperadditive(a: int, b: int)
    requires a >= 0 && b >= 0
    ensures TruncatedMilliseconds(a) + TruncatedMilliseconds(b) <= TruncatedMilliseconds(a + b)
  {
    var n := NANOSECONDS_PER_MILLISECOND;
    var qa, qb := a / n, b / n;
    assert qa * n + qb * n <= a + b;
    assert (qa + qb) * n <= a + b;
    var q := (a + b) / n;
    assert a + b < (q + 1) * n;
  }
}
