/** `analyseWeeklyGoal`: this week's emissions against a fixed 10 kg target. */
module WeeklyGoal {
  import opened Time
  import opened Wrappers
  import opened ActivityLog
  import opened Pipeline

  /** The weekly target in kg CO2. */
  const WeeklyTarget: real := 10.0

  /** The advice the result carries: how much is left, or that the goal is reached. */
  datatype Tip = CanStillSave(remaining: real) | GoalReached

  /** The returned object. */
  datatype GoalResult = GoalResult(totalCO2: real, weeklyTarget: real, remaining: real, progress: real, tip: Tip)

  // ---------------------------------------------------------------------------
  // The week start
  // ---------------------------------------------------------------------------

  /** The local midnight of the most recent Sunday at or before `now`. `offset` is the local zone's
      distance from UTC in milliseconds; a fixed offset leaves daylight-saving changes out. */
  function StartOfWeek(now: int, offset: int): (w: int)
    ensures IsMidnight(w + offset)
    ensures Weekday((w + offset) / DayMs) == 0
    ensures w <= now < w + 7 * DayMs
  {
    var today := StartOfDay(now + offset);
    var back := Weekday(today / DayMs);
    var start := today - back * DayMs;
    assert today == (today / DayMs) * DayMs;
    assert start == (today / DayMs - back) * DayMs;
    assert start / DayMs == today / DayMs - back;
    start - offset
  }

  /** No later local Sunday midnight lies at or before `now`: the week start is the latest one. */
  lemma StartOfWeekLatest(now: int, offset: int, v: int)
    requires IsMidnight(v + offset)
    requires Weekday((v + offset) / DayMs) == 0
    requires v <= now
    ensures v <= StartOfWeek(now, offset)
  {
    var w := StartOfWeek(now, offset);
    var a := (w + offset) / DayMs;
    var b := (v + offset) / DayMs;
    assert w + offset == a * DayMs;
    assert v + offset == b * DayMs;
    assert (b + 4) % 7 == 0 && (a + 4) % 7 == 0;
    assert (b - a) % 7 == 0;
    assert b * DayMs < a * DayMs + 7 * DayMs;
    assert b < a + 7;
  }

  // ---------------------------------------------------------------------------
  // The week's total
  // ---------------------------------------------------------------------------

  /** Sum of `quantity * co2Value` over some items. The stored `totalCO2` is not consulted, yet where every
      stored total is its product the two sums agree. */
  function ItemProducts(items: seq<Item>): (r: real)
    ensures (forall k :: 0 <= k < |items| ==> ItemConsistent(items[k])) ==> r == SumTotals(items)
  {
    if |items| == 0 then 0.0 else items[0].quantity * items[0].co2Value + ItemProducts(items[1..])
  }

  /** Sum of `quantity * co2Value` over the logs of `user` dated at or after `start`, with no upper bound.
      Where stored totals are consistent, this is the user's matched total of the aggregation handlers
      over `[start, ∞)`. */
  function WeekTotal(s: Store, user: UserId, start: int): (r: real)
    ensures TotalsConsistent(s) ==> r == UserMatchedTotal(s, WeekMatch(user, start), user)
  {
    if |s| == 0 then 0.0
    else
      assert TotalsConsistent(s) ==> TotalsConsistent(s[1..]) by {
        if TotalsConsistent(s) {
          forall i, k | 0 <= i < |s[1..]| && 0 <= k < |s[1..][i].activities|
            ensures ItemConsistent(s[1..][i].activities[k])
          {
            assert s[1..][i] == s[i + 1];
          }
        }
      }
      (if s[0].user == user && start <= s[0].date then ItemProducts(s[0].activities) else 0.0)
      + WeekTotal(s[1..], user, start)
  }

  /** The `find` filter `{ user, date: { $gte: start } }` as a `$match`. */
  function WeekMatch(user: UserId, start: int): (m: Match)
    ensures forall l :: Matches(l, m) <==> l.user == user && start <= l.date
  {
    Match(Some(user), Window(Some(start), None))
  }

  // ---------------------------------------------------------------------------
  // The result
  // ---------------------------------------------------------------------------

  /** `analyseWeeklyGoal(user)` at time `now` in a zone `offset` milliseconds from UTC. */
  function AnalyseWeeklyGoal(s: Store, user: UserId, now: int, offset: int): (r: GoalResult)
    ensures r.totalCO2 == WeekTotal(s, user, StartOfWeek(now, offset))
    ensures r.weeklyTarget == WeeklyTarget
    ensures r.remaining >= 0.0 && r.remaining >= WeeklyTarget - r.totalCO2
    ensures r.remaining == 0.0 || r.remaining == WeeklyTarget - r.totalCO2
    ensures r.progress <= 100.0
    ensures r.progress == 100.0 || r.progress == r.totalCO2 / WeeklyTarget * 100.0
    ensures r.remaining == WeeklyTarget - r.progress / 100.0 * WeeklyTarget
    ensures r.tip == GoalReached <==> r.totalCO2 >= WeeklyTarget
    ensures r.tip.CanStillSave? ==> r.tip.remaining == r.remaining
  {
    var total := WeekTotal(s, user, StartOfWeek(now, offset));
    var remaining := if 0.0 >= WeeklyTarget - total then 0.0 else WeeklyTarget - total;
    var progress := if 100.0 <= total / WeeklyTarget * 100.0 then 100.0 else total / WeeklyTarget * 100.0;
    var tip := if remaining > 0.0 then CanStillSave(remaining) else GoalReached;
    GoalResult(total, WeeklyTarget, remaining, progress, tip)
  }

  /** More emissions never lower progress nor raise what remains. */
  lemma GoalMonotone(s1: Store, s2: Store, user: UserId, now: int, offset: int)
    requires WeekTotal(s1, user, StartOfWeek(now, offset)) <= WeekTotal(s2, user, StartOfWeek(now, offset))
    ensures AnalyseWeeklyGoal(s1, user, now, offset).progress <= AnalyseWeeklyGoal(s2, user, now, offset).progress
    ensures AnalyseWeeklyGoal(s1, user, now, offset).remaining >= AnalyseWeeklyGoal(s2, user, now, offset).remaining
  {
  }
}
