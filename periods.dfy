/** Period boundaries: `get_current_period` of `ExtraParticipationTime`.

    Instants are whole seconds on one absolute timeline. A period is a run of
    `length` seconds whose starts fall on the instants that are multiples of
    `length` once shifted by the local UTC offset; the default period is the
    local calendar day, whose start is local midnight. */
module Periods {

  /** Seconds in a calendar day. */
  const Day: int := 86400

  type Length = n: int | 0 < n witness 1

  /** A period of `length` seconds, aligned to local time at `utcOffset`
      seconds east of UTC. */
  datatype Period = Period(length: Length, utcOffset: int)

  /** The default period: the local day, so that its start is local midnight
      (truncating the local time to the day). */
  function Daily(utcOffset: int): Period
  {
    Period(Day, utcOffset)
  }

  /** True when `b` is the local start of some period. */
  predicate IsPeriodStart(p: Period, b: int)
  {
    (b + p.utcOffset) % p.length == 0
  }

  /** The start of the period that contains `now`: the latest period start at
      or before `now`. */
  function CurrentPeriod(p: Period, now: int): (b: int)
    ensures IsPeriodStart(p, b)
    ensures b <= now < b + p.length
  {
    var local := now + p.utcOffset;
    DivMod(local, p.length);
    now - local % p.length
  }

  /** Scaling by a positive `m` moves a non-zero `d` at least `m` away from 0. */
  lemma MulBounds(m: int, d: int)
    requires 0 < m
    ensures 1 <= d ==> m <= m * d
    ensures d <= -1 ==> m * d <= -m
  {
    assert m * d == m * (d - 1) + m;
    assert m * d == m * (d + 1) - m;
  }

  /** Writing `x` as a quotient and a remainder leaves a period start. */
  lemma DivMod(x: int, m: Length)
    ensures (x - x % m) % m == 0
  {
    var y := x - x % m;
    assert x == m * (x / m) + x % m;
    assert y == m * (x / m);
    assert y == m * (y / m) + y % m;
    var d := x / m - y / m;
    assert y % m == m * d;
    MulBounds(m, d);
  }

  /** There is only one period start within `length` seconds at or before
      `now`, so `CurrentPeriod` is the unique such instant. */
  lemma CurrentPeriodUnique(p: Period, now: int, b: int)
    requires IsPeriodStart(p, b)
    requires b <= now < b + p.length
    ensures b == CurrentPeriod(p, now)
  {
    var c := CurrentPeriod(p, now);
    var m: int := p.length;
    var x, y := b + p.utcOffset, c + p.utcOffset;
    assert x == m * (x / m) + x % m;
    assert y == m * (y / m) + y % m;
    var d := x / m - y / m;
    assert b - c == m * d;
    MulBounds(m, d);
  }

  /** Every instant from a period's start up to its end lies in that period. */
  lemma SamePeriod(p: Period, t: int, u: int)
    requires CurrentPeriod(p, t) <= u < CurrentPeriod(p, t) + p.length
    ensures CurrentPeriod(p, u) == CurrentPeriod(p, t)
  {
    CurrentPeriodUnique(p, u, CurrentPeriod(p, t));
  }

  /** Some period starts at or after `t` and at or before `now`: a period
      boundary has been reached since `t`. */
  ghost predicate PeriodStartReached(p: Period, t: int, now: int)
  {
    exists s :: IsPeriodStart(p, s) && t <= s <= now
  }

  /** The current period started at or after `t` exactly when some period
      started between `t` and `now`; so `CurrentPeriod` is the latest period
      start at or before `now`. */
  lemma CurrentPeriodReached(p: Period, t: int, now: int)
    ensures CurrentPeriod(p, now) >= t <==> PeriodStartReached(p, t, now)
  {
    var c := CurrentPeriod(p, now);
    if c >= t {
      assert IsPeriodStart(p, c) && t <= c <= now;
    }
    forall s | IsPeriodStart(p, s) && t <= s <= now
      ensures s <= c
    {
      if now < s + p.length {
        CurrentPeriodUnique(p, now, s);
      }
    }
  }
}
