/** `GET /community-average`: per-user totals in an optional date range, then their mean, sum and count. */
module Community {
  import opened Wrappers
  import opened ActivityLog
  import opened Grouping
  import opened Pipeline

  /** The response fields. */
  datatype CommunityStats = CommunityStats(avgPerUser: real, totalAll: real, usersCount: nat)

  /** The first `$group` stage (by user, summing `totalCO2`) has one group per active user, and
      the groups add up to everything matched. */
  lemma PerUserCount(s: Store, m: Match)
    ensures |Group(Project(Unwind(s, m)))| == |ActiveUsers(s, m)|
    ensures BucketTotal(Group(Project(Unwind(s, m)))) == MatchedTotal(s, m)
  {
    var rows := Unwind(s, m);
    UnwindKeys(s, m);
    ProjectKeys(rows);
    GroupCount(Project(rows));
    GroupSums(Project(rows));
    ProjectTotal(rows);
    UnwindTotals(s, m);
  }

  /** Each group of the first `$group` stage is an active user holding that user's matched total. */
  lemma PerUserSums(s: Store, m: Match)
    ensures forall i :: 0 <= i < |Group(Project(Unwind(s, m)))| ==>
              Group(Project(Unwind(s, m)))[i].key in ActiveUsers(s, m) &&
              Group(Project(Unwind(s, m)))[i].sum == UserMatchedTotal(s, m, Group(Project(Unwind(s, m)))[i].key)
  {
    var rows := Unwind(s, m);
    var pr := Project(rows);
    var perUser := Group(pr);
    forall i | 0 <= i < |perUser|
      ensures perUser[i].key in ActiveUsers(s, m) && perUser[i].sum == UserMatchedTotal(s, m, perUser[i].key)
    {
      var u := perUser[i].key;
      assert u in BucketKeys(perUser);
      assert u in ActiveUsers(s, m) by {
        UnwindKeys(s, m);
        ProjectKeys(rows);
      }
      assert perUser[i].sum == SumOf(pr, u) by {
        GroupSums(pr);
      }
      assert SumOf(pr, u) == UserMatchedTotal(s, m, u) by {
        UnwindUserSum(s, m, u);
      }
    }
  }

  /** `GET /community-average` with optional `from` / `to` dates. With no matching activity the
      aggregation returns no document and the handler answers zeros. */
  function CommunityAverage(s: Store, from: Option<int>, to: Option<int>): (r: CommunityStats)
    ensures r.usersCount == |ActiveUsers(s, Match(None, QueryWindow(from, to)))|
    ensures r.totalAll == MatchedTotal(s, Match(None, QueryWindow(from, to)))
    ensures r.usersCount > 0 ==> r.avgPerUser == r.totalAll / (r.usersCount as real)
    ensures r.usersCount == 0 ==> r == CommunityStats(0.0, 0.0, 0)
  {
    var m := Match(None, QueryWindow(from, to));
    var perUser := Group(Project(Unwind(s, m)));
    PerUserCount(s, m);
    if |perUser| == 0 then
      CommunityStats(0.0, 0.0, 0)
    else
      var total := BucketTotal(perUser);
      CommunityStats(total / (|perUser| as real), total, |perUser|)
  }
}
