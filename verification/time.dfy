/** UTC day bucketing (the `startOfDay` helper) and the calendar arithmetic the handlers use. */
module Time {

  /** Milliseconds in one day; JavaScript dates have no leap seconds, so every UTC day has this length. */
  const DayMs: int := 86400000

  /** `startOfDay`: the UTC midnight at or before the timestamp `t` (milliseconds since the epoch). */
  function StartOfDay(t: int): (d: int)
    ensures d % DayMs == 0
    ensures d <= t < d + DayMs
  {
    t - t % DayMs
  }

  /** True when `t` is a UTC midnight, i.e. a value `StartOfDay` can return. */
  predicate IsMidnight(t: int) {
    t % DayMs == 0
  }

  /** Moves a UTC midnight by `n` calendar days: UTC has no daylight saving, so this is exactly `n` days. */
  function AddDays(t: int, n: int): (r: int)
    ensures IsMidnight(t) ==> IsMidnight(r)
    ensures r - t == n * DayMs
  {
    t + n * DayMs
  }

  /** `getDay()` of the day with index `day` (days since 1970-01-01, which was a Thursday): 0 is Sunday. */
  function Weekday(day: int): (w: int)
    ensures 0 <= w < 7
  {
    (day + 4) % 7
  }

  /** A multiple of one day lying within a day at or below `t` is `StartOfDay(t)`: the midnight is unique. */
  lemma MidnightUnique(t: int, m: int)
    requires IsMidnight(m)
    requires m <= t < m + DayMs
    ensures m == StartOfDay(t)
  {
    var d := StartOfDay(t);
    assert (m - d) % DayMs == 0;
    assert -DayMs < m - d < DayMs;
  }

  /** `startOfDay` is idempotent. */
  lemma StartOfDayIdempotent(t: int)
    ensures StartOfDay(StartOfDay(t)) == StartOfDay(t)
  {
    MidnightUnique(StartOfDay(t), StartOfDay(t));
  }

  /** Two timestamps get the same key exactly when they fall on the same UTC calendar day. */
  lemma SameDayKey(t1: int, t2: int)
    ensures StartOfDay(t1) == StartOfDay(t2) <==> t1 / DayMs == t2 / DayMs
  {
    assert StartOfDay(t1) == (t1 / DayMs) * DayMs;
    assert StartOfDay(t2) == (t2 / DayMs) * DayMs;
  }
}
