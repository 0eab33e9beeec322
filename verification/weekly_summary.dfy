/** `GET /weekly-summary`: seven zero-filled UTC day totals ending at `end`, and the streak. */
module Summary {
  import opened Wrappers
  import opened Time
  import opened Numbers
  import opened ActivityLog
  import opened Grouping
  import opened Pipeline
  import ActivityStore

  /** One entry of the summary: a UTC midnight and the day's total rounded with `toFixed(2)`. */
  datatype SummaryDay = SummaryDay(date: int, total: real)

  /** The response: `summary` (oldest day first) and `streak`. */
  datatype WeeklySummary = WeeklySummary(summary: seq<SummaryDay>, streak: nat)

  /** Number of days in the summary window. */
  const WindowDays: nat := 7

  // ---------------------------------------------------------------------------
  // Streak

  /** The position of the first zero, or the length when there is none. */
  function FirstZero(ts: seq<real>): (i: nat)
    ensures i <= |ts|
    ensures forall j :: 0 <= j < i ==> ts[j] != 0.0
    ensures i < |ts| ==> ts[i] == 0.0
  {
    if |ts| == 0 then 0 else if ts[0] == 0.0 then 0 else 1 + FirstZero(ts[1..])
  }

  /** The number of positive entries. */
  function CountPositive(ts: seq<real>): nat {
    if |ts| == 0 then 0 else (if ts[0] > 0.0 then 1 else 0) + CountPositive(ts[1..])
  }

  /** The streak loop: scanning from the first (oldest) entry, a positive total adds one, a zero
      total ends the scan, and a negative total is passed over. */
  function Streak(ts: seq<real>): (n: nat)
    ensures n <= |ts|
    ensures n == CountPositive(ts[..FirstZero(ts)])
  {
    if |ts| == 0 then 0
    else
      assert ts[0] != 0.0 ==> ts[..FirstZero(ts)] == [ts[0]] + ts[1..][..FirstZero(ts[1..])];
      if ts[0] > 0.0 then 1 + Streak(ts[1..])
      else if ts[0] == 0.0 then 0
      else Streak(ts[1..])
  }

  /** With no negative totals, the streak is the length of the leading run of positive days. */
  lemma {:induction false} StreakIsLeadingRun(ts: seq<real>)
    requires forall i :: 0 <= i < |ts| ==> ts[i] >= 0.0
    ensures Streak(ts) == FirstZero(ts)
    ensures forall i :: 0 <= i < Streak(ts) ==> ts[i] > 0.0
  {
    if |ts| > 0 && ts[0] != 0.0 {
      StreakIsLeadingRun(ts[1..]);
    }
  }

  /** The scan runs oldest to newest: a week that is empty except for today has streak 0. */
  lemma StreakScansOldestFirst()
    ensures Streak([0.0, 0.0, 0.0, 0.0, 0.0, 0.0, 5.0]) == 0
    ensures Streak([2.0, 0.0, 3.0, 1.0, 1.0, 0.0, 2.0]) == 1
    ensures Streak([1.0, -1.0, 2.0, 0.0, 3.0, 3.0, 3.0]) == 2
  {
  }

  // ---------------------------------------------------------------------------
  // The summary

  /** The totals of the summary entries, in order. */
  function Totals(days: seq<SummaryDay>): (ts: seq<real>)
    ensures |ts| == |days|
    ensures forall i :: 0 <= i < |days| ==> ts[i] == days[i].total
  {
    seq(|days|, i requires 0 <= i < |days| => days[i].total)
  }

  /** The value a summary day gets from the `$group` output: its group's sum rounded to two decimals,
      or 0 when the day has no group. */
  function FilledTotal(agg: seq<Bucket<(UserId, int)>>, user: UserId, day: int): (r: real)
    ensures IsHundredths(r)
    ensures FindKey(agg, (user, day)).None? ==> r == 0.0
    ensures FindKey(agg, (user, day)).Some? ==>
      var g := agg[FindKey(agg, (user, day)).value];
      g.sum - 1.0 / 200.0 <= r <= g.sum + 1.0 / 200.0
  {
    match FindKey(agg, (user, day))
    case Some(j) => Round2(agg[j].sum)
    case None => 0.0
  }

  /** The zero fill agrees with rounding the day's total: a day without a group has total 0. */
  lemma FilledTotalIsRoundedDayTotal(s: Store, m: Match, user: UserId, day: int)
    requires Admits(m, user, day)
    ensures FilledTotal(Group(Unwind(s, m)), user, day) == Round2(ActivityStore.UserDayTotal(s, user, day))
  {
    var rows := Unwind(s, m);
    UnwindDaySum(s, m, user, day);
    GroupSums(rows);
    if FindKey(Group(rows), (user, day)).None? {
      AbsentKey(rows, (user, day));
      Round2ZeroIff(0.0);
    }
  }

  /** The loop that builds the summary: seven consecutive days from `start`, each with its filled total. */
  function FilledDays(agg: seq<Bucket<(UserId, int)>>, user: UserId, start: int): (days: seq<SummaryDay>)
    ensures |days| == WindowDays
    ensures forall i :: 0 <= i < WindowDays ==>
      days[i] == SummaryDay(AddDays(start, i), FilledTotal(agg, user, AddDays(start, i)))
  {
    seq(WindowDays, i requires 0 <= i < WindowDays =>
      SummaryDay(AddDays(start, i), FilledTotal(agg, user, AddDays(start, i))))
  }

  /** `GET /weekly-summary` for `user`; `end` is the optional query date and `now` the clock.
      The `$group` stage keys on `$date`; with `user` fixed by `$match` this is keying on (user, date). */
  function WeeklySummaryOf(s: Store, user: UserId, end: Option<int>, now: int): (r: WeeklySummary)
    ensures |r.summary| == WindowDays
    ensures forall i :: 0 <= i < WindowDays ==>
      r.summary[i].date == AddDays(StartOfDay(end.GetOr(now)), i - 6) && IsMidnight(r.summary[i].date)
    ensures forall i :: 0 <= i < WindowDays ==>
      r.summary[i].total == Round2(ActivityStore.UserDayTotal(s, user, r.summary[i].date))
    ensures r.streak <= WindowDays
    ensures r.streak == CountPositive(Totals(r.summary)[..FirstZero(Totals(r.summary))])
  {
    var endDay := StartOfDay(end.GetOr(now));
    var start := AddDays(endDay, -6);
    var m := Match(Some(user), Window(Some(start), Some(endDay)));
    var agg := Group(Unwind(s, m));
    var days := FilledDays(agg, user, start);
    assert forall i :: 0 <= i < WindowDays ==>
      days[i].total == Round2(ActivityStore.UserDayTotal(s, user, days[i].date)) by {
      forall i | 0 <= i < WindowDays
        ensures days[i].total == Round2(ActivityStore.UserDayTotal(s, user, days[i].date))
      {
        FilledTotalIsRoundedDayTotal(s, m, user, AddDays(start, i));
      }
    }
    WeeklySummary(days, Streak(Totals(days)))
  }

  /** The first summary entry dated `date`: the lookup the streak loop makes for each of its days. */
  function FindDate(days: seq<SummaryDay>, date: int): (r: Option<nat>)
    ensures r.Some? ==> r.value < |days| && days[r.value].date == date
    ensures r.Some? ==> forall j :: 0 <= j < r.value ==> days[j].date != date
    ensures r.None? ==> forall j :: 0 <= j < |days| ==> days[j].date != date
  {
    if |days| == 0 then None
    else if days[0].date == date then Some(0)
    else match FindDate(days[1..], date)
      case None => None
      case Some(j) => Some(j + 1)
  }

  /** The streak loop's `i`-th step, counting from the oldest day, looks up `end - (6 - i)` days and finds
      summary entry `i`: the seven dates are distinct, so scanning `Totals` in order is the loop's scan. */
  lemma StreakFindsEachDay(s: Store, user: UserId, end: Option<int>, now: int, i: nat)
    requires i < WindowDays
    ensures FindDate(WeeklySummaryOf(s, user, end, now).summary, AddDays(StartOfDay(end.GetOr(now)), i - 6)) == Some(i)
  {
    var days := WeeklySummaryOf(s, user, end, now).summary;
    var endDay := StartOfDay(end.GetOr(now));
    var r := FindDate(days, AddDays(endDay, i - 6));
    assert days[i].date == AddDays(endDay, i - 6);
    assert r.Some?;
    assert r.value == i by {
      var j := r.value;
      assert days[j].date == AddDays(endDay, j - 6);
      assert AddDays(endDay, j - 6) - AddDays(endDay, i - 6) == (j - i) * DayMs;
    }
  }

  /** A summary day reads 0, and so stops the streak, exactly when its raw total is within half a hundredth of 0. */
  lemma SummaryZeroIff(s: Store, user: UserId, end: Option<int>, now: int, i: nat)
    requires i < WindowDays
    ensures
      var d := WeeklySummaryOf(s, user, end, now).summary[i];
      d.total == 0.0 <==> -1.0 / 200.0 < ActivityStore.UserDayTotal(s, user, d.date) < 1.0 / 200.0
  {
    var d := WeeklySummaryOf(s, user, end, now).summary[i];
    Round2ZeroIff(ActivityStore.UserDayTotal(s, user, d.date));
  }

  /** With one log per (user, day), each summary entry is the rounded `/my-total` of its day. */
  lemma SummaryAgreesWithMyTotal(s: Store, user: UserId, end: Option<int>, now: int, i: nat)
    requires UniqueDays(s)
    requires i < WindowDays
    ensures
      var d := WeeklySummaryOf(s, user, end, now).summary[i];
      d.total == Round2(ActivityStore.MyTotal(s, user, Some(d.date), now).total)
  {
    var d := WeeklySummaryOf(s, user, end, now).summary[i];
    ActivityStore.MyTotalIsDayTotal(s, user, Some(d.date), now);
    StartOfDayIdempotent(d.date);
    MidnightUnique(d.date, d.date);
  }
}
