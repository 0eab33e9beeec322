/** `GET /leaderboard`: the users with the lowest average daily footprint over the last `days` days. */
module Leaders {
  import opened Wrappers
  import opened Time
  import opened Numbers
  import opened ActivityLog
  import opened Sorting
  import opened Grouping
  import opened Pipeline

  /** `days` when the query leaves it out. */
  const DefaultDays: int := 7
  /** The `$limit` stage. */
  const Limit: nat := 10

  /** The fields of a `users` document the `$lookup` reads. */
  datatype UserInfo = UserInfo(name: Option<string>, email: string)

  /** A row after the second `$group` stage: a user, the mean of their day totals, and their sum. */
  datatype Ranked = Ranked(user: UserId, avgDaily: real, total: real)

  /** A row of the response. */
  datatype LeaderRow = LeaderRow(userId: UserId, name: Option<string>, email: string, avgDaily: real, total: real)

  /** The sort key of `{ $sort: { avgDaily: 1 } }`. */
  function AvgOf(x: Ranked): real {
    x.avgDaily
  }

  // ---------------------------------------------------------------------------
  // The date range and what the aggregation computes in it
  // ---------------------------------------------------------------------------

  /** The `$match` range: from `days - 1` days before today's UTC midnight up to that midnight. */
  function LeaderWindow(days: Option<int>, now: int): (w: Window)
    ensures w.lo.Some? && w.hi.Some?
    ensures IsMidnight(w.lo.value) && IsMidnight(w.hi.value)
    ensures w.hi.value <= now < w.hi.value + DayMs
    ensures w.hi.value - w.lo.value == (days.GetOr(DefaultDays) - 1) * DayMs
  {
    var end := StartOfDay(now);
    Window(Some(AddDays(end, -(days.GetOr(DefaultDays) - 1))), Some(end))
  }

  /** The average of a user's day totals among the matched logs (0 for a user with no matched item). */
  function UserAvg(s: Store, m: Match, u: UserId): real {
    if |ActiveDays(s, m, u)| == 0 then 0.0
    else UserMatchedTotal(s, m, u) / (|ActiveDays(s, m, u)| as real)
  }

  /** `row` is what the two `$group` stages produce for its user. */
  predicate RowFor(s: Store, m: Match, row: Ranked) {
    && row.user in ActiveUsers(s, m)
    && row.total == UserMatchedTotal(s, m, row.user)
    && row.avgDaily == UserAvg(s, m, row.user)
  }

  /** The users of some rows. */
  function RankedUsers(rows: seq<Ranked>): set<UserId> {
    set i | 0 <= i < |rows| :: rows[i].user
  }

  /** No user has two rows. */
  predicate DistinctUsers(rows: seq<Ranked>) {
    forall i, j :: 0 <= i < j < |rows| ==> rows[i].user != rows[j].user
  }

  /** The two `$group` stages: by (user, date) summing `totalCO2`, then by user summing the day totals. */
  function PerUser(s: Store, m: Match): (r: seq<Bucket<UserId>>)
    ensures DistinctKeys(r)
    ensures forall i :: 0 <= i < |r| ==> r[i].count >= 1
  {
    Group(Regroup(Group(Unwind(s, m))))
  }

  /** The second `$group` stage has one group per active user. */
  lemma PerUserKeys(s: Store, m: Match)
    ensures BucketKeys(PerUser(s, m)) == ActiveUsers(s, m)
    ensures |PerUser(s, m)| == |ActiveUsers(s, m)|
  {
    var xs := Unwind(s, m);
    UnwindKeys(s, m);
    RegroupKeys(xs);
    GroupCount(Regroup(Group(xs)));
  }

  /** Each group of the second stage holds its user's matched total. */
  lemma PerUserSums(s: Store, m: Match)
    ensures forall i :: 0 <= i < |PerUser(s, m)| ==>
              PerUser(s, m)[i].sum == UserMatchedTotal(s, m, PerUser(s, m)[i].key)
  {
    var xs := Unwind(s, m);
    GroupSums(Regroup(Group(xs)));
    RegroupSums(xs);
    UnwindTotals(s, m);
  }

  /** Each group of the second stage counts the days on which its user has a matched item. */
  lemma PerUserDays(s: Store, m: Match)
    ensures forall i :: 0 <= i < |PerUser(s, m)| ==>
              PerUser(s, m)[i].count == |ActiveDays(s, m, PerUser(s, m)[i].key)|
  {
    var xs := Unwind(s, m);
    GroupSums(Regroup(Group(xs)));
    RegroupCounts(xs);
    UnwindKeys(s, m);
  }

  /** Turns groups into rows, with `$avg` as sum over count. */
  function RowsOf(bs: seq<Bucket<UserId>>): (r: seq<Ranked>)
    requires forall i :: 0 <= i < |bs| ==> bs[i].count >= 1
    ensures |r| == |bs|
    ensures forall i :: 0 <= i < |bs| ==> r[i] == Ranked(bs[i].key, bs[i].sum / (bs[i].count as real), bs[i].sum)
    ensures RankedUsers(r) == BucketKeys(bs)
    ensures DistinctKeys(bs) ==> DistinctUsers(r)
  {
    var r := seq(|bs|, i requires 0 <= i < |bs| => Ranked(bs[i].key, bs[i].sum / (bs[i].count as real), bs[i].sum));
    assert forall i :: 0 <= i < |bs| ==> r[i].user == bs[i].key;
    r
  }

  /** The rows after the second `$group`: one correct row per active user. */
  function RankRows(s: Store, m: Match): (r: seq<Ranked>)
    ensures |r| == |ActiveUsers(s, m)|
    ensures forall i :: 0 <= i < |r| ==> RowFor(s, m, r[i])
  {
    PerUserKeys(s, m);
    PerUserSums(s, m);
    PerUserDays(s, m);
    var bs := PerUser(s, m);
    RowsOfCorrect(s, m, bs);
    RowsOf(bs)
  }

  /** Groups holding each active user's matched total and day count make correct rows. */
  lemma RowsOfCorrect(s: Store, m: Match, bs: seq<Bucket<UserId>>)
    requires BucketKeys(bs) == ActiveUsers(s, m)
    requires forall i :: 0 <= i < |bs| ==> bs[i].sum == UserMatchedTotal(s, m, bs[i].key)
    requires forall i :: 0 <= i < |bs| ==> bs[i].count == |ActiveDays(s, m, bs[i].key)| && bs[i].count >= 1
    ensures forall i :: 0 <= i < |bs| ==> RowFor(s, m, RowsOf(bs)[i])
  {
    var r := RowsOf(bs);
    forall i | 0 <= i < |bs| ensures RowFor(s, m, r[i]) {
      assert bs[i].key in BucketKeys(bs);
    }
  }

  /** The rows name every active user exactly once. */
  lemma RankRowsUsers(s: Store, m: Match)
    ensures RankedUsers(RankRows(s, m)) == ActiveUsers(s, m)
    ensures DistinctUsers(RankRows(s, m))
  {
    PerUserKeys(s, m);
    assert RankRows(s, m) == RowsOf(PerUser(s, m));
  }

  /** Distinct users make distinct rows. */
  lemma DistinctUsersNoDup(rows: seq<Ranked>)
    requires DistinctUsers(rows)
    ensures NoDup(rows)
  {
  }

  /** Reordering rows keeps their users distinct. */
  lemma PermutationDistinctUsers(rows: seq<Ranked>, sorted: seq<Ranked>)
    requires multiset(rows) == multiset(sorted)
    ensures DistinctUsers(rows) ==> DistinctUsers(sorted)
  {
    if DistinctUsers(rows) {
      DistinctUsersNoDup(rows);
      PermutationNoDup(rows, sorted);
      forall i, j | 0 <= i < j < |sorted| ensures sorted[i].user != sorted[j].user {
        assert sorted[i] in multiset(rows) && sorted[j] in multiset(rows);
        var a :| 0 <= a < |rows| && rows[a] == sorted[i];
        var b :| 0 <= b < |rows| && rows[b] == sorted[j];
        assert a != b;
      }
    }
  }

  // ---------------------------------------------------------------------------
  // `$sort` and `$limit`
  // ---------------------------------------------------------------------------

  /** `$sort: { avgDaily: 1 }` then `$limit: 10`, over any rows. */
  function TopRows(rows: seq<Ranked>): (r: seq<Ranked>)
    ensures |r| == if |rows| < Limit then |rows| else Limit
    ensures SortedBy(r, AvgOf)
    ensures forall i :: 0 <= i < |r| ==> r[i] in multiset(rows)
    ensures DistinctUsers(rows) ==> DistinctUsers(r)
  {
    var sorted := SortBy(rows, AvgOf);
    PermutationDistinctUsers(rows, sorted);
    var k := if |sorted| < Limit then |sorted| else Limit;
    assert forall i :: 0 <= i < k ==> sorted[..k][i] == sorted[i];
    sorted[..k]
  }

  /** The ranked rows: the lowest ten averages, in order, each correct, no user twice. */
  function Ranking(s: Store, m: Match): (r: seq<Ranked>)
    ensures |r| == if |ActiveUsers(s, m)| < Limit then |ActiveUsers(s, m)| else Limit
    ensures SortedBy(r, AvgOf)
    ensures forall i :: 0 <= i < |r| ==> RowFor(s, m, r[i])
    ensures DistinctUsers(r)
  {
    var rows := RankRows(s, m);
    RankRowsUsers(s, m);
    var r := TopRows(rows);
    RowsCorrect(s, m, rows, r);
    r
  }

  /** Rows drawn from correct rows are correct. */
  lemma RowsCorrect(s: Store, m: Match, rows: seq<Ranked>, r: seq<Ranked>)
    requires forall i :: 0 <= i < |rows| ==> RowFor(s, m, rows[i])
    requires forall i :: 0 <= i < |r| ==> r[i] in multiset(rows)
    ensures forall i :: 0 <= i < |r| ==> RowFor(s, m, r[i])
  {
    forall i | 0 <= i < |r| ensures RowFor(s, m, r[i]) {
      var j :| 0 <= j < |rows| && rows[j] == r[i];
    }
  }

  /** Reordering rows keeps the set of users. */
  lemma PermutationUsers(rows: seq<Ranked>, sorted: seq<Ranked>)
    requires multiset(rows) == multiset(sorted)
    ensures RankedUsers(sorted) == RankedUsers(rows)
  {
    forall u | u in RankedUsers(rows) ensures u in RankedUsers(sorted) {
      var i :| 0 <= i < |rows| && rows[i].user == u;
      assert rows[i] in multiset(sorted);
      var j :| 0 <= j < |sorted| && sorted[j] == rows[i];
    }
    forall u | u in RankedUsers(sorted) ensures u in RankedUsers(rows) {
      var j :| 0 <= j < |sorted| && sorted[j].user == u;
      assert sorted[j] in multiset(rows);
      var i :| 0 <= i < |rows| && rows[i] == sorted[j];
    }
  }

  /** A user present in sorted rows but not in their first `k` was cut: the prefix is shorter than
      the rows, and every average in it is at most the user's. */
  lemma CutByLimit(sorted: seq<Ranked>, k: nat, u: UserId, b: real)
    requires SortedBy(sorted, AvgOf) && k <= |sorted|
    requires u in RankedUsers(sorted) && u !in RankedUsers(sorted[..k])
    requires forall j :: 0 <= j < |sorted| && sorted[j].user == u ==> sorted[j].avgDaily <= b
    ensures k < |sorted|
    ensures forall l :: 0 <= l < k ==> sorted[l].avgDaily <= b
  {
    var j :| 0 <= j < |sorted| && sorted[j].user == u;
    forall l | 0 <= l < k ensures sorted[l].user != u {
      assert sorted[..k][l] == sorted[l];
      assert sorted[..k][l].user in RankedUsers(sorted[..k]);
    }
    assert j >= k;
    forall l | 0 <= l < k ensures sorted[l].avgDaily <= b {
      assert AvgOf(sorted[l]) <= AvgOf(sorted[j]);
    }
  }

  /** A user of the rows left out of the top rows was cut by the limit: the top rows are full and
      none of them averages more than any row of that user. */
  lemma TopRowsCutoff(rows: seq<Ranked>, u: UserId, b: real)
    requires u in RankedUsers(rows) && u !in RankedUsers(TopRows(rows))
    requires forall j :: 0 <= j < |rows| && rows[j].user == u ==> rows[j].avgDaily <= b
    ensures |TopRows(rows)| == Limit
    ensures forall i :: 0 <= i < |TopRows(rows)| ==> TopRows(rows)[i].avgDaily <= b
  {
    var sorted := SortBy(rows, AvgOf);
    PermutationUsers(rows, sorted);
    forall j | 0 <= j < |sorted| && sorted[j].user == u ensures sorted[j].avgDaily <= b {
      assert sorted[j] in multiset(rows);
      var a :| 0 <= a < |rows| && rows[a] == sorted[j];
    }
    var k := if |sorted| < Limit then |sorted| else Limit;
    assert TopRows(rows) == sorted[..k];
    CutByLimit(sorted, k, u, b);
  }

  /** Ten rows or fewer all make the top rows. */
  lemma TopRowsComplete(rows: seq<Ranked>)
    requires |rows| <= Limit
    ensures RankedUsers(TopRows(rows)) == RankedUsers(rows)
  {
    var sorted := SortBy(rows, AvgOf);
    PermutationUsers(rows, sorted);
    assert TopRows(rows) == sorted[..|sorted|];
    assert sorted[..|sorted|] == sorted;
  }

  /** An active user left out of the ranking was cut by the limit: the ranking is full and
      nobody in it has a higher average. */
  lemma RankingCutoff(s: Store, m: Match, u: UserId)
    requires u in ActiveUsers(s, m)
    requires u !in RankedUsers(Ranking(s, m))
    ensures |Ranking(s, m)| == Limit
    ensures forall i :: 0 <= i < |Ranking(s, m)| ==> Ranking(s, m)[i].avgDaily <= UserAvg(s, m, u)
  {
    var rows := RankRows(s, m);
    var b := UserAvg(s, m, u);
    assert u in RankedUsers(rows) by {
      RankRowsUsers(s, m);
    }
    RankRowsAvg(s, m, u);
    var r := Ranking(s, m);
    assert r == TopRows(rows);
    TopRowsCutoff(rows, u, b);
    assert |r| == Limit;
    assert forall i :: 0 <= i < |r| ==> r[i].avgDaily <= b;
  }

  /** Every row of a user carries that user's average. */
  lemma RankRowsAvg(s: Store, m: Match, u: UserId)
    ensures forall j :: 0 <= j < |RankRows(s, m)| && RankRows(s, m)[j].user == u ==>
              RankRows(s, m)[j].avgDaily == UserAvg(s, m, u)
  {
  }

  /** With at most ten active users, every one of them is ranked. */
  lemma RankingComplete(s: Store, m: Match)
    requires |ActiveUsers(s, m)| <= Limit
    ensures RankedUsers(Ranking(s, m)) == ActiveUsers(s, m)
  {
    var rows := RankRows(s, m);
    RankRowsUsers(s, m);
    assert Ranking(s, m) == TopRows(rows);
    TopRowsComplete(rows);
  }

  // ---------------------------------------------------------------------------
  // `$lookup`, `$unwind: "$user"`, `$project` and the final rounding
  // ---------------------------------------------------------------------------

  /** The users of some response rows. */
  function RowUsers(r: seq<LeaderRow>): set<UserId> {
    set k | 0 <= k < |r| :: r[k].userId
  }

  /** A ranked row rendered with its user document; both numbers go through `toFixed(2)`. */
  function Render(x: Ranked, info: UserInfo): (r: LeaderRow)
    ensures r.userId == x.user && r.name == info.name && r.email == info.email
    ensures IsHundredths(r.avgDaily) && x.avgDaily - 1.0 / 200.0 <= r.avgDaily <= x.avgDaily + 1.0 / 200.0
    ensures IsHundredths(r.total) && x.total - 1.0 / 200.0 <= r.total <= x.total + 1.0 / 200.0
  {
    LeaderRow(x.user, info.name, info.email, Round2(x.avgDaily), Round2(x.total))
  }

  /** Joins the ranked rows with `users`; a row whose user document is missing is dropped. */
  function Join(s: Store, m: Match, rows: seq<Ranked>, users: map<UserId, UserInfo>): (r: seq<LeaderRow>)
    requires forall i :: 0 <= i < |rows| ==> RowFor(s, m, rows[i])
    ensures |r| <= |rows|
    ensures RowUsers(r) == RankedUsers(rows) * users.Keys
    ensures forall k :: 0 <= k < |r| ==>
              && r[k].userId in users
              && r[k].userId in ActiveUsers(s, m)
              && r[k].name == users[r[k].userId].name
              && r[k].email == users[r[k].userId].email
              && r[k].avgDaily == Round2(UserAvg(s, m, r[k].userId))
              && r[k].total == Round2(UserMatchedTotal(s, m, r[k].userId))
  {
    if |rows| == 0 then []
    else
      var head := if rows[0].user in users then [Render(rows[0], users[rows[0].user])] else [];
      var tail := Join(s, m, rows[1..], users);
      RankedUsersCons(rows);
      RowUsersAppend(head, tail);
      assert RowUsers(head) == if rows[0].user in users then {rows[0].user} else {} by {
        if rows[0].user in users {
          assert head[0].userId == rows[0].user;
        }
      }
      assert RowFor(s, m, rows[0]);
      head + tail
  }

  lemma RankedUsersCons(rows: seq<Ranked>)
    requires |rows| > 0
    ensures RankedUsers(rows) == {rows[0].user} + RankedUsers(rows[1..])
  {
    assert forall i :: 1 <= i < |rows| ==> rows[i] == rows[1..][i - 1];
  }

  lemma RowUsersAppend(a: seq<LeaderRow>, b: seq<LeaderRow>)
    ensures RowUsers(a + b) == RowUsers(a) + RowUsers(b)
  {
    assert forall k :: 0 <= k < |a| ==> (a + b)[k] == a[k];
    assert forall k :: 0 <= k < |b| ==> (a + b)[|a| + k] == b[k];
    forall x | x in RowUsers(a + b) ensures x in RowUsers(a) + RowUsers(b) {
      var k :| 0 <= k < |a + b| && (a + b)[k].userId == x;
      if k >= |a| {
        assert b[k - |a|].userId == x;
      }
    }
  }

  /** The join keeps the order of the ranking: the response is sorted by rounded average. */
  lemma {:induction false} JoinSorted(s: Store, m: Match, rows: seq<Ranked>, users: map<UserId, UserInfo>)
    requires forall i :: 0 <= i < |rows| ==> RowFor(s, m, rows[i])
    requires SortedBy(rows, AvgOf)
    ensures forall k, l :: 0 <= k < l < |Join(s, m, rows, users)| ==>
              Join(s, m, rows, users)[k].avgDaily <= Join(s, m, rows, users)[l].avgDaily
  {
    if |rows| > 0 {
      JoinSorted(s, m, rows[1..], users);
      JoinAbove(s, m, rows[1..], users, rows[0].avgDaily);
    }
  }

  /** Rows whose averages are at least `b` render to averages at least `Round2(b)`. */
  lemma {:induction false} JoinAbove(s: Store, m: Match, rows: seq<Ranked>, users: map<UserId, UserInfo>, b: real)
    requires forall i :: 0 <= i < |rows| ==> RowFor(s, m, rows[i])
    requires forall i :: 0 <= i < |rows| ==> b <= rows[i].avgDaily
    ensures forall k :: 0 <= k < |Join(s, m, rows, users)| ==> Round2(b) <= Join(s, m, rows, users)[k].avgDaily
  {
    if |rows| > 0 {
      JoinAbove(s, m, rows[1..], users, b);
      Round2Monotone(b, rows[0].avgDaily);
    }
  }

  /** Rows whose averages are at most `b` render to averages at most `Round2(b)`. */
  lemma {:induction false} JoinBelow(s: Store, m: Match, rows: seq<Ranked>, users: map<UserId, UserInfo>, b: real)
    requires forall i :: 0 <= i < |rows| ==> RowFor(s, m, rows[i])
    requires forall i :: 0 <= i < |rows| ==> rows[i].avgDaily <= b
    ensures forall k :: 0 <= k < |Join(s, m, rows, users)| ==> Join(s, m, rows, users)[k].avgDaily <= Round2(b)
  {
    if |rows| > 0 {
      JoinBelow(s, m, rows[1..], users, b);
      Round2Monotone(rows[0].avgDaily, b);
    }
  }

  /** `GET /leaderboard?days=…` at time `now`, against the `users` collection. */
  function Leaderboard(s: Store, users: map<UserId, UserInfo>, days: Option<int>, now: int): (r: seq<LeaderRow>)
    ensures |r| <= Limit
    ensures RowUsers(r) == RankedUsers(Ranking(s, Match(None, LeaderWindow(days, now)))) * users.Keys
    ensures forall k :: 0 <= k < |r| ==>
              && r[k].userId in users
              && r[k].userId in ActiveUsers(s, Match(None, LeaderWindow(days, now)))
              && r[k].name == users[r[k].userId].name
              && r[k].email == users[r[k].userId].email
              && r[k].avgDaily == Round2(UserAvg(s, Match(None, LeaderWindow(days, now)), r[k].userId))
              && r[k].total == Round2(UserMatchedTotal(s, Match(None, LeaderWindow(days, now)), r[k].userId))
  {
    Join(s, Match(None, LeaderWindow(days, now)), Ranking(s, Match(None, LeaderWindow(days, now))), users)
  }

  /** The response is ordered by rounded average, lowest first, and lists no user twice. */
  lemma LeaderboardOrdered(s: Store, users: map<UserId, UserInfo>, days: Option<int>, now: int)
    ensures forall k, l :: 0 <= k < l < |Leaderboard(s, users, days, now)| ==>
              Leaderboard(s, users, days, now)[k].avgDaily <= Leaderboard(s, users, days, now)[l].avgDaily
    ensures forall k, l :: 0 <= k < l < |Leaderboard(s, users, days, now)| ==>
              Leaderboard(s, users, days, now)[k].userId != Leaderboard(s, users, days, now)[l].userId
  {
    var m := Match(None, LeaderWindow(days, now));
    JoinSorted(s, m, Ranking(s, m), users);
    JoinDistinct(s, m, Ranking(s, m), users);
  }

  /** Distinct ranked users give distinct response users. */
  lemma {:induction false} JoinDistinct(s: Store, m: Match, rows: seq<Ranked>, users: map<UserId, UserInfo>)
    requires forall i :: 0 <= i < |rows| ==> RowFor(s, m, rows[i])
    requires DistinctUsers(rows)
    ensures forall k, l :: 0 <= k < l < |Join(s, m, rows, users)| ==>
              Join(s, m, rows, users)[k].userId != Join(s, m, rows, users)[l].userId
  {
    if |rows| > 0 {
      var tail := Join(s, m, rows[1..], users);
      JoinDistinct(s, m, rows[1..], users);
      assert rows[0].user !in RankedUsers(rows[1..]) by {
        forall i | 0 <= i < |rows[1..]| ensures rows[1..][i].user != rows[0].user {
          assert rows[1..][i] == rows[i + 1];
        }
      }
      assert forall k :: 0 <= k < |tail| ==> tail[k].userId in RowUsers(tail);
    }
  }

  /** An active user with an account who is missing from the response averages at least as much,
      once rounded, as everyone listed. */
  lemma LeaderboardCutoff(s: Store, users: map<UserId, UserInfo>, days: Option<int>, now: int, u: UserId)
    requires u in ActiveUsers(s, Match(None, LeaderWindow(days, now)))
    requires u in users
    requires u !in RowUsers(Leaderboard(s, users, days, now))
    ensures forall k :: 0 <= k < |Leaderboard(s, users, days, now)| ==>
              Leaderboard(s, users, days, now)[k].avgDaily <= Round2(UserAvg(s, Match(None, LeaderWindow(days, now)), u))
  {
    var m := Match(None, LeaderWindow(days, now));
    RankingCutoff(s, m, u);
    JoinBelow(s, m, Ranking(s, m), users, UserAvg(s, m, u));
  }

  /** With at most ten active users, every one with an account is listed. */
  lemma LeaderboardComplete(s: Store, users: map<UserId, UserInfo>, days: Option<int>, now: int)
    requires |ActiveUsers(s, Match(None, LeaderWindow(days, now)))| <= Limit
    ensures RowUsers(Leaderboard(s, users, days, now)) == ActiveUsers(s, Match(None, LeaderWindow(days, now))) * users.Keys
  {
    RankingComplete(s, Match(None, LeaderWindow(days, now)));
  }
}
