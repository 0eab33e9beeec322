/** The `$match` and `$unwind` stages the aggregation handlers share, and what they select from the store. */
module Pipeline {
  import opened Wrappers
  import opened ActivityLog
  import opened Grouping
  import ActivityStore

  /** A `$match` stage: an optional `user` equality and a `date` window. */
  datatype Match = Match(user: Option<UserId>, window: Window)

  /** The log passes the `$match` stage. */
  predicate Matches(l: DayLog, m: Match) {
    (m.user.None? || l.user == m.user.value) && InWindow(l.date, m.window)
  }

  /** A (user, date) pair the `$match` stage would let through. */
  predicate Admits(m: Match, user: UserId, date: int) {
    (m.user.None? || user == m.user.value) && InWindow(date, m.window)
  }

  /** `$unwind: "$activities"` of one log: one row per item, keyed by the log's (user, date). */
  function ItemRows(l: DayLog): (r: seq<((UserId, int), real)>)
    ensures |r| == |l.activities|
    ensures forall k :: 0 <= k < |r| ==> r[k] == ((l.user, l.date), l.activities[k].totalCO2)
  {
    seq(|l.activities|, k requires 0 <= k < |l.activities| => ((l.user, l.date), l.activities[k].totalCO2))
  }

  /** `$match` followed by `$unwind`, over the store in natural order: one row per item of each matched log. */
  function Unwind(s: Store, m: Match): (r: seq<((UserId, int), real)>)
    ensures forall k :: 0 <= k < |r| ==> Admits(m, r[k].0.0, r[k].0.1)
  {
    if |s| == 0 then []
    else (if Matches(s[0], m) then ItemRows(s[0]) else []) + Unwind(s[1..], m)
  }

  /** The (user, date) pairs of matched logs that hold at least one item. */
  function DayKeys(s: Store, m: Match): set<(UserId, int)> {
    set i | 0 <= i < |s| && Matches(s[i], m) && |s[i].activities| > 0 :: (s[i].user, s[i].date)
  }

  /** The users with at least one matched item. */
  function ActiveUsers(s: Store, m: Match): set<UserId> {
    Firsts(DayKeys(s, m))
  }

  /** The dates on which `user` has at least one matched item. */
  function ActiveDays(s: Store, m: Match, user: UserId): set<int> {
    Seconds(DayKeys(s, m), user)
  }

  /** Sum of the totals of the matched logs. */
  function MatchedTotal(s: Store, m: Match): real {
    if |s| == 0 then 0.0
    else (if Matches(s[0], m) then LogTotal(s[0]) else 0.0) + MatchedTotal(s[1..], m)
  }

  /** Sum of the totals of the matched logs of `user`. */
  function UserMatchedTotal(s: Store, m: Match, user: UserId): real {
    if |s| == 0 then 0.0
    else (if Matches(s[0], m) && s[0].user == user then LogTotal(s[0]) else 0.0) + UserMatchedTotal(s[1..], m, user)
  }

  // ---------------------------------------------------------------------------
  // What the unwound rows add up to

  lemma {:induction false} ItemRowsSums(l: DayLog)
    ensures SumAll(ItemRows(l)) == LogTotal(l)
    ensures forall k :: SumOf(ItemRows(l), k) == if k == (l.user, l.date) then LogTotal(l) else 0.0
    ensures forall u :: SumOf(Project(ItemRows(l)), u) == if u == l.user then LogTotal(l) else 0.0
    decreases |l.activities|
  {
    var items := l.activities;
    if |items| > 0 {
      var l' := l.(activities := items[1..]);
      ItemRowsSums(l');
      assert ItemRows(l)[1..] == ItemRows(l');
      assert Project(ItemRows(l))[1..] == Project(ItemRows(l'));
    }
  }

  /** The rows of `user` on `date` add up to the day's total when the match admits the pair, else to nothing. */
  lemma {:induction false} UnwindDaySum(s: Store, m: Match, user: UserId, date: int)
    ensures SumOf(Unwind(s, m), (user, date)) ==
            if Admits(m, user, date) then ActivityStore.UserDayTotal(s, user, date) else 0.0
  {
    if |s| > 0 {
      UnwindDaySum(s[1..], m, user, date);
      var head := if Matches(s[0], m) then ItemRows(s[0]) else [];
      AppendRows(head, Unwind(s[1..], m));
      ItemRowsSums(s[0]);
    }
  }

  /** The rows add up to the matched logs' totals, in all and per user. */
  lemma UnwindTotals(s: Store, m: Match)
    ensures SumAll(Unwind(s, m)) == MatchedTotal(s, m)
    ensures forall u :: SumOf(Project(Unwind(s, m)), u) == UserMatchedTotal(s, m, u)
  {
    UnwindSumAll(s, m);
    forall u ensures SumOf(Project(Unwind(s, m)), u) == UserMatchedTotal(s, m, u) {
      UnwindUserSum(s, m, u);
    }
  }

  lemma {:induction false} UnwindSumAll(s: Store, m: Match)
    ensures SumAll(Unwind(s, m)) == MatchedTotal(s, m)
  {
    if |s| > 0 {
      UnwindSumAll(s[1..], m);
      var head := if Matches(s[0], m) then ItemRows(s[0]) else [];
      AppendRows(head, Unwind(s[1..], m));
      ItemRowsSums(s[0]);
    }
  }

  lemma {:induction false} UnwindUserSum(s: Store, m: Match, u: UserId)
    ensures SumOf(Project(Unwind(s, m)), u) == UserMatchedTotal(s, m, u)
  {
    if |s| > 0 {
      UnwindUserSum(s[1..], m, u);
      var head := if Matches(s[0], m) then ItemRows(s[0]) else [];
      var tail := Unwind(s[1..], m);
      var ph, pt := Project(head), Project(tail);
      assert Project(Unwind(s, m)) == ph + pt by {
        assert Unwind(s, m) == head + tail;
      }
      assert SumOf(ph + pt, u) == SumOf(ph, u) + SumOf(pt, u) by {
        AppendRows(ph, pt);
      }
      assert SumOf(ph, u) == if Matches(s[0], m) && s[0].user == u then LogTotal(s[0]) else 0.0 by {
        ItemRowsSums(s[0]);
      }
    }
  }

  /** The keys of the unwound rows are exactly the (user, date) pairs of matched non-empty logs. */
  lemma {:induction false} UnwindKeys(s: Store, m: Match)
    ensures KeySet(Unwind(s, m)) == DayKeys(s, m)
  {
    if |s| > 0 {
      UnwindKeys(s[1..], m);
      var head := if Matches(s[0], m) then ItemRows(s[0]) else [];
      var tail := Unwind(s[1..], m);
      assert Unwind(s, m) == head + tail;
      KeySetAppend(head, tail);
      assert KeySet(head) == if Matches(s[0], m) && |s[0].activities| > 0 then {(s[0].user, s[0].date)} else {} by {
        if Matches(s[0], m) && |s[0].activities| > 0 {
          assert head[0].0 == (s[0].user, s[0].date);
        }
      }
      assert DayKeys(s, m) == (if Matches(s[0], m) && |s[0].activities| > 0 then {(s[0].user, s[0].date)} else {})
                              + DayKeys(s[1..], m) by {
        assert forall i :: 0 < i < |s| ==> s[i] == s[1..][i - 1];
        forall p | p in DayKeys(s[1..], m) ensures p in DayKeys(s, m) {
          var i :| 0 <= i < |s[1..]| && Matches(s[1..][i], m) && |s[1..][i].activities| > 0
                   && p == (s[1..][i].user, s[1..][i].date);
          assert s[i + 1] == s[1..][i];
        }
      }
    }
  }

  lemma KeySetAppend<K>(xs: seq<(K, real)>, ys: seq<(K, real)>)
    ensures KeySet(xs + ys) == KeySet(xs) + KeySet(ys)
  {
    var zs := xs + ys;
    assert forall i :: 0 <= i < |xs| ==> zs[i] == xs[i];
    assert forall i :: 0 <= i < |ys| ==> zs[|xs| + i] == ys[i];
    forall k | k in KeySet(zs) ensures k in KeySet(xs) + KeySet(ys) {
      var i :| 0 <= i < |zs| && zs[i].0 == k;
      if i >= |xs| {
        assert ys[i - |xs|].0 == k;
      }
    }
  }
}
