/** The respawn-timer recomputation: the countdown of a boss is its period
    minus the time elapsed since its last kill, wrapped forward by whole
    periods until it is no more than a five-minute grace window overdue. */
module Timer {
  import opened BossModel

  /** A countdown may sit this many seconds below zero before the timer
      rolls it over to the next respawn. */
  const Grace: int := 300

  const SecondsPerHour: int := 3600

  /** The respawn period of a boss, in seconds. */
  function PeriodSeconds(respawn: int): int
  {
    respawn * SecondsPerHour
  }

  /** The countdown left by the wrap loop started from `x`: add whole
      periods while the value is below -Grace. */
  function Wrap(x: int, period: int): (r: int)
    requires period > 0
    decreases if x < -Grace then -Grace - x else 0
    ensures r >= -Grace
    ensures r >= x
    ensures x >= -Grace ==> r == x
    ensures r > x ==> r < -Grace + period
  {
    if x < -Grace then Wrap(x + period, period) else x
  }

  /** How many periods the wrap loop adds to `x`. */
  function WrapCount(x: int, period: int): nat
    requires period > 0
    decreases if x < -Grace then -Grace - x else 0
  {
    if x < -Grace then WrapCount(x + period, period) + 1 else 0
  }

  /** The wrap result differs from the start by a whole number of periods:
      it is congruent to the start modulo the period. */
  lemma {:induction false} WrapAddsWholePeriods(x: int, period: int)
    requires period > 0
    decreases if x < -Grace then -Grace - x else 0
    ensures Wrap(x, period) == x + WrapCount(x, period) * period
    ensures (Wrap(x, period) - x) % period == 0
  {
    var c := WrapCount(x, period);
    if x < -Grace {
      WrapAddsWholePeriods(x + period, period);
      assert c * period == (c - 1) * period + period;
    }
    MultipleModIsZero(c, period);
  }

  /** A whole number of periods leaves no remainder. */
  lemma MultipleModIsZero(c: nat, p: int)
    requires p > 0
    ensures (c * p) % p == 0
  {
    var q, m := (c * p) / p, (c * p) % p;
    assert p * (c - q) == m;
    PeriodsBound(c - q, p);
  }

  /** A non-zero whole number of periods is at least one period away from zero. */
  lemma PeriodsBound(n: int, p: int)
    requires p > 0
    ensures n >= 1 ==> n * p >= p
    ensures n <= -1 ==> n * p <= -p
  {
  }

  /** The wrap result is the only value that is at least -Grace, lies a
      whole number `k` of periods above the start and, when `k` is not zero,
      is below the end of the first period past -Grace: the properties of
      Wrap determine it. */
  lemma WrapUnique(x: int, period: int, r: int, k: nat)
    requires period > 0
    requires r == x + k * period && r >= -Grace
    requires k > 0 ==> r < -Grace + period
    ensures r == Wrap(x, period)
  {
    var c := WrapCount(x, period);
    WrapAddsWholePeriods(x, period);
    var w := Wrap(x, period);
    if k > c {
      assert r - w == (k - c) * period;
      PeriodsBound(k - c, period);
    } else if k < c {
      assert w - r == (c - k) * period;
      PeriodsBound(c - k, period);
    }
  }

  /** The wrap loop itself: starts from the period minus the elapsed
      seconds `diff` and adds whole periods while the value is below -Grace. */
  method ComputeRemaining(respawn: int, diff: int) returns (remaining: int)
    requires respawn > 0
    ensures remaining == Wrap(PeriodSeconds(respawn) - diff, PeriodSeconds(respawn))
  {
    var period := PeriodSeconds(respawn);
    remaining := period - diff;
    while remaining < -Grace
      invariant Wrap(remaining, period) == Wrap(period - diff, period)
      decreases -Grace - remaining
    {
      remaining := remaining + period;
    }
  }

  /** One boss after the fast tick at time `now`: a boss with no recorded
      kill is untouched; otherwise only its countdown is replaced, by the
      wrapped difference between its period and the seconds since the kill. */
  function Recompute(b: Boss, now: int): (r: Boss)
    requires b.respawn > 0
    ensures SameDurable(r, b)
    ensures b.lastKill.None? ==> r == b
    ensures b.lastKill.Some? ==> r.remaining.Some? && r.remaining.value >= -Grace
    ensures b.lastKill.Some? ==>
      r.remaining.value >= PeriodSeconds(b.respawn) - (now - b.lastKill.value)
    ensures b.lastKill.Some? ==>
      r.remaining == Some(Wrap(PeriodSeconds(b.respawn) - (now - b.lastKill.value), PeriodSeconds(b.respawn)))
  {
    match b.lastKill
    case None => b
    case Some(kill) =>
      b.(remaining := Some(Wrap(PeriodSeconds(b.respawn) - (now - kill), PeriodSeconds(b.respawn))))
  }

  /** A kill 8 h 4 min ago on an 8-hour boss leaves the countdown at -240:
      four minutes overdue is inside the grace window, so nothing wraps. */
  lemma GraceWindowKeepsOverdue()
    ensures Wrap(PeriodSeconds(8) - (8 * 3600 + 4 * 60), PeriodSeconds(8)) == -240
  {
  }

  /** A kill 16 h 10 min ago on an 8-hour boss wraps twice: the start value
      -29400 becomes -600 and then 28200, the next respawn 7 h 50 min away. */
  lemma TwoMissedPeriodsWrap()
    ensures Wrap(PeriodSeconds(8) - (16 * 3600 + 10 * 60), PeriodSeconds(8)) == 28200
  {
  }

  /** Recomputing twice at the same time gives the same boss as once: the
      countdown is a function of the durable fields and the clock only. */
  lemma RecomputeIdempotent(b: Boss, now: int)
    requires b.respawn > 0
    ensures Recompute(Recompute(b, now), now) == Recompute(b, now)
  {
  }
}
