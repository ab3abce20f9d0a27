/** When a stored record answers on its own, and how long a failing origin is left alone. */
module Schedule {
  import opened Base

  const MINUTE: int := 60_000
  const HOUR: int := 60 * MINUTE
  const DAY: int := 24 * HOUR
  const REMOTE_KEY_LIFESPAN: int := 7 * DAY

  // ---------------------------------------------------------------- backoff

  const ORIGIN_BACKOFF_LADDER: seq<int> := [5 * MINUTE, 15 * MINUTE, HOUR, 6 * HOUR, 24 * HOUR]
  const TRANSIENT_ORIGIN_BACKOFF: int := MINUTE
  const TRANSIENT_ORIGIN_FAILURE_LIMIT: int := 2

  datatype FetchError = StatusError(code: int) | OtherError

  /** A 5xx proves that the host is up; nothing else does. */
  predicate IsTransient(e: FetchError) {
    e.StatusError? && e.code >= 500
  }

  /**
    How long to wait after the given number of consecutive failures: at least a minute and at most a
    day, and a full day from the fifth failure on, whatever kind of failures they were.
   */
  function OriginBackoff(failures: int, transient: bool): (wait: int)
    ensures MINUTE <= wait <= DAY
    ensures failures >= |ORIGIN_BACKOFF_LADDER| ==> wait == DAY
  {
    if transient && failures <= TRANSIENT_ORIGIN_FAILURE_LIMIT then TRANSIENT_ORIGIN_BACKOFF
    else if failures < 1 then ORIGIN_BACKOFF_LADDER[0]
    else if failures > |ORIGIN_BACKOFF_LADDER| then ORIGIN_BACKOFF_LADDER[|ORIGIN_BACKOFF_LADDER| - 1]
    else ORIGIN_BACKOFF_LADDER[failures - 1]
  }

  /**
    The ladder: more failures never wait less, and a host that proved to be up never waits longer than one
    that did not. The hard rungs are 5 and 15 minutes, 1, 6 and 24 hours; the first two transient failures
    wait a minute, and from the third on transience is worth nothing.
   */
  lemma BackoffClimbs(failures: int, more: int, transient: bool)
    requires failures <= more
    ensures OriginBackoff(failures, transient) <= OriginBackoff(more, transient)
    ensures OriginBackoff(failures, true) <= OriginBackoff(failures, false)
    ensures failures > 2 ==> OriginBackoff(failures, true) == OriginBackoff(failures, false)
    ensures OriginBackoff(1, false) == 300_000 && OriginBackoff(2, false) == 900_000
              && OriginBackoff(3, false) == 3_600_000
    ensures OriginBackoff(4, false) == 21_600_000 && OriginBackoff(5, false) == 86_400_000
    ensures OriginBackoff(1, true) == OriginBackoff(2, true) == 60_000
  {
    assert forall i, j | 0 <= i <= j < |ORIGIN_BACKOFF_LADDER| :: ORIGIN_BACKOFF_LADDER[i] <= ORIGIN_BACKOFF_LADDER[j];
  }

  // ---------------------------------------------------------------- freshness

  /** Two's-complement wrap-around of a 64-bit sum. */
  function Wrap64(x: int): int {
    (x - INT64_MIN) % 0x1_0000_0000_0000_0000 + INT64_MIN
  }

  /** Go's integer halving, which truncates toward zero. */
  function Half(x: int): int {
    if x >= 0 then x / 2 else -((-x) / 2)
  }

  predicate IsFresh(updatedTs: int, validUntilTs: int, minValidUntilTs: int, now: int) {
    var isBeyondLifespan := now > Wrap64(updatedTs + REMOTE_KEY_LIFESPAN);
    var isHalfwayDead := Half(Wrap64(updatedTs + validUntilTs)) < now;
    var isMinimallyAccepted := validUntilTs >= minValidUntilTs;
    isMinimallyAccepted && !isHalfwayDead && !isBeyondLifespan
  }

  /** A clock reading that leaves room for a lifespan in an int64. */
  predicate IsClock(t: int) {
    0 <= t <= INT64_MAX - REMOTE_KEY_LIFESPAN
  }

  /**
    What fresh means, 64-bit overflow included: the caller's minimum is met, the record was updated
    within seven days, and at least as much validity lies ahead as time has passed since. A sum that
    overflows counts as halfway dead.
   */
  lemma FreshIff(updatedTs: int, validUntilTs: Timestamp, minValidUntilTs: int, now: int)
    requires IsClock(updatedTs) && now > 0
    ensures IsFresh(updatedTs, validUntilTs, minValidUntilTs, now) <==>
            && validUntilTs >= minValidUntilTs
            && now - updatedTs <= 604_800_000
            && now - updatedTs <= validUntilTs - now
            && updatedTs + validUntilTs <= INT64_MAX
  {
    var sum := updatedTs + validUntilTs;
    if sum <= INT64_MAX {
      assert Wrap64(sum) == sum;
    } else {
      assert Wrap64(sum) == sum - 0x1_0000_0000_0000_0000;
    }
  }

  /** An answer from the fresh path is unexpired, and younger than what it still has ahead of it. */
  lemma FreshIsUnexpired(updatedTs: int, validUntilTs: Timestamp, minValidUntilTs: int, now: int)
    requires IsClock(updatedTs) && 0 < now && updatedTs <= now
    requires IsFresh(updatedTs, validUntilTs, minValidUntilTs, now)
    ensures now <= validUntilTs && minValidUntilTs <= validUntilTs
    ensures now - updatedTs <= validUntilTs - now
  {
    FreshIff(updatedTs, validUntilTs, minValidUntilTs, now);
  }
}
