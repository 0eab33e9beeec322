/** The day-log store handlers of the activities router: `/log`, the single-activity delete,
    `/my-total`, `/my-logs` and `/all`, each a pure function of the store. */
module ActivityStore {
  import opened Wrappers
  import opened Time
  import opened ActivityLog
  import Sorting

  // ---------------------------------------------------------------------------
  // Lookups shared by the handlers

  /** The day-log lookup: the first log, in natural order, filed for `user` under `day`. */
  function FindLog(s: Store, user: UserId, day: int): (r: Option<nat>)
    ensures r.Some? ==> r.value < |s| && s[r.value].user == user && s[r.value].date == day
    ensures r.Some? ==> forall j :: 0 <= j < r.value ==> !(s[j].user == user && s[j].date == day)
    ensures r.None? ==> forall j :: 0 <= j < |s| ==> !(s[j].user == user && s[j].date == day)
  {
    if |s| == 0 then None
    else if s[0].user == user && s[0].date == day then Some(0)
    else match FindLog(s[1..], user, day)
      case None => None
      case Some(k) => Some(k + 1)
  }

  /** The owned-log lookup: the first log with that id owned by `user`. */
  function FindOwnedLog(s: Store, user: UserId, logId: Id): (r: Option<nat>)
    ensures r.Some? ==> r.value < |s| && s[r.value].user == user && s[r.value].id == logId
    ensures r.Some? ==> forall j :: 0 <= j < r.value ==> !(s[j].user == user && s[j].id == logId)
    ensures r.None? ==> forall j :: 0 <= j < |s| ==> !(s[j].user == user && s[j].id == logId)
  {
    if |s| == 0 then None
    else if s[0].user == user && s[0].id == logId then Some(0)
    else match FindOwnedLog(s[1..], user, logId)
      case None => None
      case Some(k) => Some(k + 1)
  }

  /** Sum of the totals of every log `user` has filed under `day` (duplicates included). */
  function UserDayTotal(s: Store, user: UserId, day: int): real {
    if |s| == 0 then 0.0
    else (if s[0].user == user && s[0].date == day then LogTotal(s[0]) else 0.0)
         + UserDayTotal(s[1..], user, day)
  }

  /** Some log of `user` under `day` holds at least one item (so `$unwind` produces a row for the day). */
  predicate HasItems(s: Store, user: UserId, day: int) {
    exists i :: 0 <= i < |s| && s[i].user == user && s[i].date == day && |s[i].activities| > 0
  }

  /** With no item logged for the day, the day's total is zero. */
  lemma {:induction false} NoItemsZeroTotal(s: Store, user: UserId, day: int)
    requires !HasItems(s, user, day)
    ensures UserDayTotal(s, user, day) == 0.0
  {
    if |s| > 0 {
      assert !HasItems(s[1..], user, day) by {
        forall i | 0 <= i < |s[1..]|
          ensures !(s[1..][i].user == user && s[1..][i].date == day && |s[1..][i].activities| > 0)
        {
          assert s[1..][i] == s[i + 1];
        }
      }
      NoItemsZeroTotal(s[1..], user, day);
      if s[0].user == user && s[0].date == day {
        assert |s[0].activities| == 0;
      }
    }
  }

  /** When no later log shares (user, day) with the first, the day's total is that of the first matching log. */
  lemma {:induction false} UniqueDayTotal(s: Store, user: UserId, day: int, i: nat)
    requires i < |s| && s[i].user == user && s[i].date == day
    requires forall j :: 0 <= j < |s| && j != i ==> !(s[j].user == user && s[j].date == day)
    ensures UserDayTotal(s, user, day) == LogTotal(s[i])
  {
    if i == 0 {
      NoMatchZero(s[1..], user, day);
    } else {
      UniqueDayTotal(s[1..], user, day, i - 1);
    }
  }

  lemma {:induction false} NoMatchZero(s: Store, user: UserId, day: int)
    requires forall j :: 0 <= j < |s| ==> !(s[j].user == user && s[j].date == day)
    ensures UserDayTotal(s, user, day) == 0.0
  {
    if |s| > 0 {
      NoMatchZero(s[1..], user, day);
    }
  }

  // ---------------------------------------------------------------------------
  // POST /log

  /** The `activity` object of the request body; a number is `None` when `Number(...)` of it is NaN. */
  datatype ActivityInput = ActivityInput(
    name: Option<string>,
    activity: Option<string>,
    category: Option<string>,
    unit: Option<string>,
    quantity: Option<real>,
    co2Value: Option<real>)

  /** The request body: `date` (a timestamp; `None` when missing or empty) and `activity`. */
  datatype LogRequest = LogRequest(date: Option<int>, activity: Option<ActivityInput>)

  /** 400 "date and activity required", or 500 when saving the document fails validation. */
  datatype LogError = DateAndActivityRequired | ServerError

  /** The saved store and the log sent back in the response. */
  datatype Posted = Posted(store: Store, log: DayLog)

  /** The item document the handler builds: `activity` falls back to `name`, `totalCO2` is the product. */
  function BuildItem(a: ActivityInput): (d: ItemDoc)
    ensures d.totalCO2.Some? <==> a.quantity.Some? && a.co2Value.Some?
    ensures d.totalCO2.Some? ==> d.totalCO2.value == a.quantity.value * a.co2Value.value
    ensures Present(a.activity) ==> d.activity == a.activity
    ensures !Present(a.activity) ==> d.activity == a.name
    ensures ItemDocValid(d) <==>
      Present(a.name) && Present(a.category) && a.quantity.Some? && a.co2Value.Some?
  {
    ItemDoc(
      a.name,
      if Present(a.activity) then a.activity else a.name,
      a.category,
      a.unit,
      a.quantity,
      a.co2Value,
      if a.quantity.Some? && a.co2Value.Some? then Some(a.quantity.value * a.co2Value.value) else None)
  }

  /** `POST /log`: append the item to the user's first log for the day, or create the log.
      `newLogId` and `newItemId` are the ObjectIds the driver would generate. */
  function PostLog(s: Store, user: UserId, req: LogRequest, newLogId: Id, newItemId: Id): (r: Result<Posted, LogError>)
    ensures r.Err? && r.error == DateAndActivityRequired <==> req.date.None? || req.activity.None?
    ensures r.Ok? <==>
      && req.date.Some? && req.activity.Some?
      && Present(req.activity.value.name) && Present(req.activity.value.category)
      && req.activity.value.quantity.Some? && req.activity.value.co2Value.Some?
    ensures r.Ok? ==>
      var a := req.activity.value;
      var l := r.value.log;
      && l.user == user
      && l.date == StartOfDay(req.date.value)
      && |l.activities| > 0
      && l.activities[|l.activities| - 1].id == newItemId
      && l.activities[|l.activities| - 1].totalCO2 == a.quantity.value * a.co2Value.value
      && l.activities[|l.activities| - 1].quantity == a.quantity.value
      && l.activities[|l.activities| - 1].co2Value == a.co2Value.value
    ensures r.Ok? ==>
      var a := req.activity.value;
      var it := r.value.log.activities[|r.value.log.activities| - 1];
      && Some(it.name) == a.name
      && Some(it.category) == a.category
      && it.unit == a.unit
      && it.activity == (if Present(a.activity) then a.activity else a.name)
    ensures r.Ok? && FindLog(s, user, StartOfDay(req.date.value)).None? ==>
      && r.value.store == s + [r.value.log]
      && r.value.log.id == newLogId
      && |r.value.log.activities| == 1
    ensures r.Ok? && FindLog(s, user, StartOfDay(req.date.value)).Some? ==>
      var i := FindLog(s, user, StartOfDay(req.date.value)).value;
      && |r.value.store| == |s|
      && r.value.store[i] == r.value.log
      && r.value.log.id == s[i].id
      && |r.value.log.activities| == |s[i].activities| + 1
      && r.value.log.activities[..|s[i].activities|] == s[i].activities
      && forall j :: 0 <= j < |s| && j != i ==> r.value.store[j] == s[j]
  {
    if req.date.None? || req.activity.None? then Err(DateAndActivityRequired)
    else
      var day := StartOfDay(req.date.value);
      match CastItem(newItemId, BuildItem(req.activity.value))
      case Err(_) => Err(ServerError)
      case Ok(item) =>
        match FindLog(s, user, day)
        case None =>
          var log := DayLog(newLogId, user, day, [item]);
          Ok(Posted(s + [log], log))
        case Some(i) =>
          var log := s[i].(activities := s[i].activities + [item]);
          assert log.activities[..|s[i].activities|] == s[i].activities;
          Ok(Posted(s[i := log], log))
  }

  /** `/log` keeps at most one log per (user, day) when there was at most one before. */
  lemma PostLogPreservesUniqueDays(s: Store, user: UserId, req: LogRequest, newLogId: Id, newItemId: Id)
    requires UniqueDays(s)
    requires PostLog(s, user, req, newLogId, newItemId).Ok?
    ensures UniqueDays(PostLog(s, user, req, newLogId, newItemId).value.store)
  {
    var s' := PostLog(s, user, req, newLogId, newItemId).value.store;
    var day := StartOfDay(req.date.value);
    match FindLog(s, user, day)
    case None =>
      assert s' == s + [DayLog(newLogId, user, day, s'[|s|].activities)];
    case Some(i) =>
      forall a, b | 0 <= a < b < |s'|
        ensures !(s'[a].user == s'[b].user && s'[a].date == s'[b].date)
      {
        assert s'[a].user == s[a].user && s'[a].date == s[a].date;
        assert s'[b].user == s[b].user && s'[b].date == s[b].date;
      }
  }

  /** `/log` files logs under midnights, keeps logs non-empty and stores consistent totals. */
  lemma PostLogPreservesShape(s: Store, user: UserId, req: LogRequest, newLogId: Id, newItemId: Id)
    requires PostLog(s, user, req, newLogId, newItemId).Ok?
    ensures NormalizedDates(s) ==> NormalizedDates(PostLog(s, user, req, newLogId, newItemId).value.store)
    ensures NoEmptyLogs(s) ==> NoEmptyLogs(PostLog(s, user, req, newLogId, newItemId).value.store)
    ensures TotalsConsistent(s) ==> TotalsConsistent(PostLog(s, user, req, newLogId, newItemId).value.store)
  {
    var p := PostLog(s, user, req, newLogId, newItemId).value;
    var day := StartOfDay(req.date.value);
    var items := p.log.activities;
    var item := items[|items| - 1];
    match FindLog(s, user, day)
    case None =>
      AppendLogShape(s, p.log);
    case Some(i) =>
      var n := |s[i].activities|;
      assert items == s[i].activities + [item] by {
        assert items == items[..n] + [item];
      }
      assert p.store == s[i := s[i].(activities := items)];
      ReplaceItemsShape(s, i, s[i].activities + [item]);
  }

  /** The shape predicates of a store with one more log. */
  lemma AppendLogShape(s: Store, l: DayLog)
    ensures NormalizedDates(s) && IsMidnight(l.date) ==> NormalizedDates(s + [l])
    ensures NoEmptyLogs(s) && |l.activities| > 0 ==> NoEmptyLogs(s + [l])
    ensures TotalsConsistent(s) && TotalsConsistent([l]) ==> TotalsConsistent(s + [l])
  {
    assert forall j :: 0 <= j < |s| ==> (s + [l])[j] == s[j];
    assert (s + [l])[|s|] == [l][0];
  }

  /** The shape predicates of a store whose log `i` gets other items. */
  lemma ReplaceItemsShape(s: Store, i: nat, items: seq<Item>)
    requires i < |s|
    ensures NormalizedDates(s) ==> NormalizedDates(s[i := s[i].(activities := items)])
    ensures UniqueDays(s) ==> UniqueDays(s[i := s[i].(activities := items)])
    ensures DistinctLogIds(s) ==> DistinctLogIds(s[i := s[i].(activities := items)])
    ensures NoEmptyLogs(s) && |items| > 0 ==> NoEmptyLogs(s[i := s[i].(activities := items)])
    ensures TotalsConsistent(s) && TotalsConsistent([s[i].(activities := items)]) ==>
            TotalsConsistent(s[i := s[i].(activities := items)])
  {
    var t := s[i := s[i].(activities := items)];
    assert forall j :: 0 <= j < |s| ==> t[j].user == s[j].user && t[j].date == s[j].date && t[j].id == s[j].id;
    if TotalsConsistent(s) && TotalsConsistent([s[i].(activities := items)]) {
      forall j, k | 0 <= j < |t| && 0 <= k < |t[j].activities|
        ensures ItemConsistent(t[j].activities[k])
      {
        if j == i {
          assert t[j] == [s[i].(activities := items)][0];
        }
      }
    }
  }

  /** The shape predicates of a store with log `i` taken out. */
  lemma DropLogShape(s: Store, i: nat)
    requires i < |s|
    ensures NormalizedDates(s) ==> NormalizedDates(s[..i] + s[i + 1..])
    ensures UniqueDays(s) ==> UniqueDays(s[..i] + s[i + 1..])
    ensures DistinctLogIds(s) ==> DistinctLogIds(s[..i] + s[i + 1..])
    ensures NoEmptyLogs(s) ==> NoEmptyLogs(s[..i] + s[i + 1..])
  {
    var t := s[..i] + s[i + 1..];
    assert forall j :: 0 <= j < |t| ==> t[j] == s[Skip(j, i)];
  }

  /** The index in the full store of entry `j` of the store with entry `i` removed. */
  function Skip(j: nat, i: nat): (k: nat)
    ensures k == j || k == j + 1
    ensures j < i <==> k < i
    ensures k != i
  {
    if j < i then j else j + 1
  }

  // ---------------------------------------------------------------------------
  // GET /my-total

  /** The response of `/my-total`. */
  datatype DayTotal = DayTotal(date: int, total: real)

  /** `GET /my-total`: the total of the first log for the day (`date`, else today's UTC date), or 0. */
  function MyTotal(s: Store, user: UserId, date: Option<int>, now: int): (r: DayTotal)
    ensures r.date == StartOfDay(date.GetOr(now))
    ensures (forall j :: 0 <= j < |s| ==> !(s[j].user == user && s[j].date == r.date)) ==> r.total == 0.0
    ensures forall i :: 0 <= i < |s| && s[i].user == user && s[i].date == r.date
                        && (forall j :: 0 <= j < i ==> !(s[j].user == user && s[j].date == r.date))
                        ==> r.total == LogTotal(s[i])
  {
    var day := StartOfDay(date.GetOr(now));
    match FindLog(s, user, day)
    case None => DayTotal(day, 0.0)
    case Some(i) => DayTotal(day, SumTotals(s[i].activities))
  }

  /** With one log per (user, day), `/my-total` sees every item of the day. */
  lemma MyTotalIsDayTotal(s: Store, user: UserId, date: Option<int>, now: int)
    requires UniqueDays(s)
    ensures MyTotal(s, user, date, now).total == UserDayTotal(s, user, StartOfDay(date.GetOr(now)))
  {
    var day := StartOfDay(date.GetOr(now));
    match FindLog(s, user, day)
    case None => NoMatchZero(s, user, day);
    case Some(i) => UniqueDayTotal(s, user, day, i);
  }

  /** A successful `/log` raises the day's `/my-total` by exactly `quantity * co2Value`. */
  lemma PostLogRaisesMyTotal(s: Store, user: UserId, req: LogRequest, newLogId: Id, newItemId: Id, now: int)
    requires PostLog(s, user, req, newLogId, newItemId).Ok?
    ensures
      var a := req.activity.value;
      MyTotal(PostLog(s, user, req, newLogId, newItemId).value.store, user, req.date, now).total
        == MyTotal(s, user, req.date, now).total + a.quantity.value * a.co2Value.value
  {
    var p := PostLog(s, user, req, newLogId, newItemId).value;
    var s' := p.store;
    var day := StartOfDay(req.date.value);
    var item := p.log.activities[|p.log.activities| - 1];
    match FindLog(s, user, day)
    case None =>
      assert s'[|s|] == p.log;
      assert forall j :: 0 <= j < |s| ==> s'[j] == s[j];
      assert p.log.activities == [item];
      assert SumTotals([item]) == item.totalCO2 + SumTotals([]);
    case Some(i) =>
      var n := |s[i].activities|;
      assert p.log.activities == s[i].activities + [item] by {
        assert p.log.activities == p.log.activities[..n] + [item];
      }
      SumTotalsAppend(s[i].activities, [item]);
      assert SumTotals([item]) == item.totalCO2 + SumTotals([]);
      assert forall j :: 0 <= j < i ==> s'[j] == s[j];
  }

  // ---------------------------------------------------------------------------
  // DELETE /:logId/activities/:activityId

  /** 400 for an id `ObjectId.isValid` rejects, 404 for a missing log or activity. */
  datatype DeleteError = InvalidId | LogNotFound | ActivityNotFound

  /** The saved store, and whether the whole log was removed because it became empty. */
  datatype Deleted = Deleted(store: Store, logRemoved: bool)

  /** `subdoc.deleteOne()` pulls every item with that `_id` from the array, keeping the rest in order. */
  function RemoveItem(items: seq<Item>, id: Id): (r: seq<Item>)
    ensures |r| <= |items|
    ensures forall k :: 0 <= k < |r| ==> r[k].id != id
    ensures id !in ItemIds(items) ==> r == items
  {
    if |items| == 0 then []
    else if items[0].id == id then RemoveItem(items[1..], id)
    else
      assert items == [items[0]] + items[1..];
      [items[0]] + RemoveItem(items[1..], id)
  }

  /** The pull takes out every copy of the id and keeps every other item as often as it occurred. */
  lemma {:induction false} RemoveItemCounts(items: seq<Item>, id: Id)
    ensures forall it :: multiset(RemoveItem(items, id))[it] == if it.id == id then 0 else multiset(items)[it]
  {
    if |items| > 0 {
      RemoveItemCounts(items[1..], id);
      assert items == [items[0]] + items[1..];
    }
  }

  /** With distinct item ids, the first item's id does not recur in the tail. */
  lemma HeadIdNotInTail(items: seq<Item>)
    requires |items| > 0
    requires DistinctItemIds(items)
    ensures items[0].id !in ItemIds(items[1..])
    ensures DistinctItemIds(items[1..])
  {
    forall j | 0 <= j < |items[1..]|
      ensures items[1..][j].id != items[0].id
    {
      assert items[1..][j] == items[j + 1];
    }
  }

  /** With distinct item ids, the pull removes exactly the one item, leaving the others in order. */
  lemma {:induction false} RemoveItemDistinct(items: seq<Item>, k: nat)
    requires k < |items|
    requires DistinctItemIds(items)
    ensures RemoveItem(items, items[k].id) == items[..k] + items[k + 1..]
  {
    HeadIdNotInTail(items);
    if k == 0 {
      assert items[..0] + items[1..] == items[1..];
    } else {
      RemoveItemDistinct(items[1..], k - 1);
      RemoveSplice(items, k);
    }
  }

  /** The inductive step of `RemoveItemDistinct`: a kept head item stays in front of the spliced tail. */
  lemma RemoveSplice(items: seq<Item>, k: nat)
    requires 0 < k < |items|
    requires items[0].id != items[k].id
    requires RemoveItem(items[1..], items[k].id) == items[1..][..k - 1] + items[1..][k..]
    ensures RemoveItem(items, items[k].id) == items[..k] + items[k + 1..]
  {
    var x, h, tail := items[k].id, items[0], items[1..];
    var mid, rest := items[1..k], items[k + 1..];
    assert RemoveItem(items, x) == [h] + RemoveItem(tail, x);
    assert tail[..k - 1] == mid;
    assert tail[k..] == rest;
    assert items[..k] == [h] + mid;
    assert [h] + (mid + rest) == ([h] + mid) + rest;
  }

  /** `DELETE /:logId/activities/:activityId` for the authenticated `user`. A `None` id is one that
      `ObjectId.isValid` rejects. */
  function DeleteActivity(s: Store, user: UserId, logId: Option<Id>, activityId: Option<Id>): (r: Result<Deleted, DeleteError>)
    ensures r.Err? && r.error == InvalidId <==> logId.None? || activityId.None?
    ensures r.Err? && r.error == LogNotFound <==>
      logId.Some? && activityId.Some? &&
      forall j :: 0 <= j < |s| ==> !(s[j].user == user && s[j].id == logId.value)
    ensures r.Ok? ==>
      exists i :: 0 <= i < |s| && s[i].user == user && s[i].id == logId.value
                  && activityId.value in ItemIds(s[i].activities)
    ensures logId.Some? && activityId.Some? && FindOwnedLog(s, user, logId.value).Some? ==>
      var i := FindOwnedLog(s, user, logId.value).value;
      && (r.Ok? <==> activityId.value in ItemIds(s[i].activities))
      && (r.Err? ==> r.error == ActivityNotFound)
    ensures r.Ok? ==>
      var i := FindOwnedLog(s, user, logId.value).value;
      var rest := RemoveItem(s[i].activities, activityId.value);
      && (r.value.logRemoved <==> |rest| == 0)
      && (r.value.logRemoved ==> r.value.store == s[..i] + s[i + 1..])
      && (!r.value.logRemoved ==> r.value.store == s[i := s[i].(activities := rest)])
  {
    if logId.None? || activityId.None? then Err(InvalidId)
    else match FindOwnedLog(s, user, logId.value)
      case None => Err(LogNotFound)
      case Some(i) =>
        if activityId.value !in ItemIds(s[i].activities) then Err(ActivityNotFound)
        else
          var rest := RemoveItem(s[i].activities, activityId.value);
          if |rest| == 0 then Ok(Deleted(s[..i] + s[i + 1..], true))
          else Ok(Deleted(s[i := s[i].(activities := rest)], false))
  }

  /** The delete handler maintains the store's shape: no empty logs, one log per day, distinct ids. */
  lemma DeletePreservesShape(s: Store, user: UserId, logId: Option<Id>, activityId: Option<Id>)
    requires DeleteActivity(s, user, logId, activityId).Ok?
    ensures NoEmptyLogs(s) ==> NoEmptyLogs(DeleteActivity(s, user, logId, activityId).value.store)
    ensures UniqueDays(s) ==> UniqueDays(DeleteActivity(s, user, logId, activityId).value.store)
    ensures DistinctLogIds(s) ==> DistinctLogIds(DeleteActivity(s, user, logId, activityId).value.store)
    ensures NormalizedDates(s) ==> NormalizedDates(DeleteActivity(s, user, logId, activityId).value.store)
  {
    var d := DeleteActivity(s, user, logId, activityId).value;
    var i := FindOwnedLog(s, user, logId.value).value;
    if d.logRemoved {
      DropLogShape(s, i);
    } else {
      ReplaceItemsShape(s, i, RemoveItem(s[i].activities, activityId.value));
    }
  }

  /** Deleting the item a `/log` call just created restores the store: a new log is removed again,
      an appended item is pulled from the log it joined. */
  lemma DeleteUndoesPost(s: Store, user: UserId, req: LogRequest, newLogId: Id, newItemId: Id)
    requires DistinctLogIds(s)
    requires NoEmptyLogs(s)
    requires forall j :: 0 <= j < |s| ==> s[j].id != newLogId
    requires forall j :: 0 <= j < |s| ==> newItemId !in ItemIds(s[j].activities)
    requires PostLog(s, user, req, newLogId, newItemId).Ok?
    ensures
      var p := PostLog(s, user, req, newLogId, newItemId).value;
      DeleteActivity(p.store, user, Some(p.log.id), Some(newItemId)) == Ok(Deleted(s, FindLog(s, user, p.log.date).None?))
  {
    var p := PostLog(s, user, req, newLogId, newItemId).value;
    var day := StartOfDay(req.date.value);
    var items := p.log.activities;
    var item := items[|items| - 1];
    match FindLog(s, user, day)
    case None =>
      assert items == [item];
      UndoNewLog(s, user, p.log, item);
    case Some(i) =>
      var n := |s[i].activities|;
      assert items == s[i].activities + [item] by {
        assert items == items[..n] + [item];
      }
      assert p.store == s[i := s[i].(activities := s[i].activities + [item])];
      UndoAppend(s, user, i, item);
  }

  /** Deleting the only item of a log appended with a fresh id removes that log again. */
  lemma UndoNewLog(s: Store, user: UserId, l: DayLog, item: Item)
    requires forall j :: 0 <= j < |s| ==> s[j].id != l.id
    requires l.user == user && l.activities == [item]
    ensures DeleteActivity(s + [l], user, Some(l.id), Some(item.id)) == Ok(Deleted(s, true))
  {
    var t := s + [l];
    assert forall j :: 0 <= j < |s| ==> t[j] == s[j];
    assert t[|s|] == l;
    assert FindOwnedLog(t, user, l.id) == Some(|s|);
    assert [item][0] == item;
    assert item.id in ItemIds(l.activities);
    assert RemoveItem([item], item.id) == RemoveItem([], item.id);
    assert t[..|s|] + t[|s| + 1..] == s;
  }

  /** Deleting an item appended to log `i` under an id new to that log restores the log. */
  lemma UndoAppend(s: Store, user: UserId, i: nat, item: Item)
    requires i < |s| && s[i].user == user
    requires DistinctLogIds(s)
    requires |s[i].activities| > 0
    requires item.id !in ItemIds(s[i].activities)
    ensures DeleteActivity(s[i := s[i].(activities := s[i].activities + [item])], user, Some(s[i].id), Some(item.id))
            == Ok(Deleted(s, false))
  {
    var items := s[i].activities + [item];
    var t := s[i := s[i].(activities := items)];
    assert forall j :: 0 <= j < |s| ==> t[j].id == s[j].id;
    assert FindOwnedLog(t, user, s[i].id) == Some(i);
    assert item.id in ItemIds(items) by {
      assert items[|s[i].activities|] == item;
    }
    RemoveAppended(s[i].activities, item);
    assert t[i := t[i].(activities := s[i].activities)] == s;
  }

  /** Pulling a freshly appended item whose id is new to the log gives the log's previous items back. */
  lemma {:induction false} RemoveAppended(items: seq<Item>, item: Item)
    requires item.id !in ItemIds(items)
    ensures RemoveItem(items + [item], item.id) == items
  {
    if |items| == 0 {
      assert [] + [item] == [item];
      assert RemoveItem([item], item.id) == RemoveItem([], item.id);
    } else {
      assert (items + [item])[1..] == items[1..] + [item];
      assert items[0].id != item.id by { assert items[0].id in ItemIds(items); }
      assert ItemIds(items[1..]) <= ItemIds(items) by {
        forall x | x in ItemIds(items[1..]) ensures x in ItemIds(items) {
          var k :| 0 <= k < |items[1..]| && items[1..][k].id == x;
          assert items[k + 1].id == x;
        }
      }
      RemoveAppended(items[1..], item);
      assert [items[0]] + items[1..] == items;
    }
  }

  // ---------------------------------------------------------------------------
  // GET /my-logs

  /** The logs of `user` dated inside the window, in natural order. */
  function FilterLogs(s: Store, user: UserId, w: Window): (r: seq<DayLog>)
    ensures forall l :: multiset(r)[l] == if l.user == user && InWindow(l.date, w) then multiset(s)[l] else 0
  {
    if |s| == 0 then []
    else
      assert s == [s[0]] + s[1..];
      (if s[0].user == user && InWindow(s[0].date, w) then [s[0]] else []) + FilterLogs(s[1..], user, w)
  }

  /** The sort key of the newest-first order: ascending in this key is descending in date. */
  function NewestFirst(l: DayLog): real {
    -(l.date as real)
  }

  /** `GET /my-logs`: the user's logs within the optional `[from, to]` days, newest first. */
  function MyLogs(s: Store, user: UserId, from: Option<int>, to: Option<int>): (r: seq<DayLog>)
    ensures forall i, j :: 0 <= i < j < |r| ==> r[i].date >= r[j].date
    ensures forall l :: multiset(r)[l] ==
                        if l.user == user && InWindow(l.date, QueryWindow(from, to)) then multiset(s)[l] else 0
  {
    var r := Sorting.SortBy(FilterLogs(s, user, QueryWindow(from, to)), NewestFirst);
    assert forall i, j :: 0 <= i < j < |r| ==> NewestFirst(r[i]) <= NewestFirst(r[j]);
    r
  }

  // ---------------------------------------------------------------------------
  // GET /all

  /** An activity flattened out of its log, carrying the log's date. */
  datatype Entry = Entry(item: Item, date: int)

  /** The response of `/all`: the activities, their count and their summed `totalCO2`. */
  datatype AllResult = AllResult(activities: seq<Entry>, total: nat, totalCO2: real)

  /** The items of one log, each tagged with the log's date. */
  function LogEntries(items: seq<Item>, date: int): (r: seq<Entry>)
    ensures |r| == |items|
    ensures forall k :: 0 <= k < |r| ==> r[k] == Entry(items[k], date)
  {
    if |items| == 0 then [] else [Entry(items[0], date)] + LogEntries(items[1..], date)
  }

  /** Every item of every log of `user`, tagged with its log's date, logs in store order. */
  function UserEntries(s: Store, user: UserId): (r: seq<Entry>)
    ensures SumEntries(r) == UserTotal(s, user)
  {
    if |s| == 0 then []
    else
      var head := if s[0].user == user then LogEntries(s[0].activities, s[0].date) else [];
      var tail := UserEntries(s[1..], user);
      SumEntriesAppend(head, tail);
      LogEntriesTotal(s[0].activities, s[0].date);
      head + tail
  }

  /** Every item of every log of `user` appears, with its log's date, and nothing else does. */
  lemma {:induction false} UserEntriesComplete(s: Store, user: UserId)
    ensures forall i, k :: 0 <= i < |s| && s[i].user == user && 0 <= k < |s[i].activities| ==>
      Entry(s[i].activities[k], s[i].date) in UserEntries(s, user)
    ensures forall e :: e in UserEntries(s, user) ==>
      exists i :: 0 <= i < |s| && s[i].user == user && e.date == s[i].date && e.item in s[i].activities
  {
    if |s| > 0 {
      UserEntriesComplete(s[1..], user);
      var head := if s[0].user == user then LogEntries(s[0].activities, s[0].date) else [];
      assert UserEntries(s, user) == head + UserEntries(s[1..], user);
      forall i, k | 0 <= i < |s| && s[i].user == user && 0 <= k < |s[i].activities|
        ensures Entry(s[i].activities[k], s[i].date) in UserEntries(s, user)
      {
        if i == 0 {
          assert head[k] == Entry(s[0].activities[k], s[0].date);
        } else {
          assert s[1..][i - 1] == s[i];
        }
      }
      forall e | e in UserEntries(s, user)
        ensures exists i :: 0 <= i < |s| && s[i].user == user && e.date == s[i].date && e.item in s[i].activities
      {
        if e in head {
          var k :| 0 <= k < |head| && head[k] == e;
          assert s[0].activities[k] == e.item;
        } else {
          assert e in UserEntries(s[1..], user);
          var i :| 0 <= i < |s[1..]| && s[1..][i].user == user && e.date == s[1..][i].date && e.item in s[1..][i].activities;
          assert s[i + 1] == s[1..][i];
        }
      }
    }
  }

  /** The entries whose item is in `category`, in their original order. */
  function FilterCategory(es: seq<Entry>, category: string): (r: seq<Entry>)
    ensures forall e :: e in r <==> e in es && e.item.category == category
  {
    if |es| == 0 then []
    else (if es[0].item.category == category then [es[0]] else []) + FilterCategory(es[1..], category)
  }

  /** The category filter keeps every copy of a matching entry and no copy of any other. */
  lemma {:induction false} FilterCategoryCounts(es: seq<Entry>, category: string)
    ensures forall e ::
              multiset(FilterCategory(es, category))[e] == if e.item.category == category then multiset(es)[e] else 0
  {
    if |es| > 0 {
      FilterCategoryCounts(es[1..], category);
      assert es == [es[0]] + es[1..];
    }
  }

  /** Sum of the stored `totalCO2` over entries. The recursion adds from the front; the contract says this
      is the left-to-right `reduce` from 0, which adds the last entry to the sum of the others. */
  function SumEntries(es: seq<Entry>): (r: real)
    ensures |es| > 0 ==> r == SumEntries(es[..|es| - 1]) + es[|es| - 1].item.totalCO2
  {
    if |es| == 0 then 0.0
    else
      assert |es| > 1 ==> es[1..][..|es| - 2] == es[..|es| - 1][1..];
      es[0].item.totalCO2 + SumEntries(es[1..])
  }

  /** `GET /all`: the user's activities flattened with their dates, filtered by a non-empty `category`. */
  function AllActivities(s: Store, user: UserId, category: Option<string>): (r: AllResult)
    ensures r.total == |r.activities|
    ensures Present(category) ==> forall e :: e in r.activities ==> e.item.category == category.value
    ensures forall i, k :: 0 <= i < |s| && s[i].user == user && 0 <= k < |s[i].activities|
                           && (!Present(category) || s[i].activities[k].category == category.value) ==>
      Entry(s[i].activities[k], s[i].date) in r.activities
    ensures forall e :: e in r.activities ==>
      exists i :: 0 <= i < |s| && s[i].user == user && e.date == s[i].date && e.item in s[i].activities
    ensures forall e ::
              multiset(r.activities)[e] ==
                if !Present(category) || e.item.category == category.value then multiset(UserEntries(s, user))[e] else 0
    ensures r.totalCO2 == SumEntries(r.activities)
  {
    UserEntriesComplete(s, user);
    var all := UserEntries(s, user);
    var kept := if Present(category) then FilterCategory(all, category.value) else all;
    assert forall e ::
             multiset(kept)[e] ==
               if !Present(category) || e.item.category == category.value then multiset(all)[e] else 0 by {
      if Present(category) { FilterCategoryCounts(all, category.value); }
    }
    AllResult(kept, |kept|, SumEntries(kept))
  }

  /** The per-user sum of stored log totals. */
  function UserTotal(s: Store, user: UserId): real {
    if |s| == 0 then 0.0
    else (if s[0].user == user then LogTotal(s[0]) else 0.0) + UserTotal(s[1..], user)
  }

  /** Without a category, `/all`'s `totalCO2` is the sum of the user's log totals. */
  lemma {:induction false} AllTotalIsUserTotal(s: Store, user: UserId)
    ensures AllActivities(s, user, None).totalCO2 == UserTotal(s, user)
  {
  }

  /** Sum of the stored `totalCO2` of the items in `category`. */
  function CategoryTotal(items: seq<Item>, category: string): real {
    if |items| == 0 then 0.0
    else (if items[0].category == category then items[0].totalCO2 else 0.0) + CategoryTotal(items[1..], category)
  }

  /** The per-user sum, over the user's logs, of the totals of one category's items. */
  function UserCategoryTotal(s: Store, user: UserId, category: string): real {
    if |s| == 0 then 0.0
    else (if s[0].user == user then CategoryTotal(s[0].activities, category) else 0.0)
         + UserCategoryTotal(s[1..], user, category)
  }

  /** With a category, `/all`'s `totalCO2` is the user's total over that category's items. */
  lemma AllCategoryTotal(s: Store, user: UserId, category: string)
    requires category != ""
    ensures AllActivities(s, user, Some(category)).totalCO2 == UserCategoryTotal(s, user, category)
  {
    UserEntriesCategoryTotal(s, user, category);
  }

  lemma {:induction false} UserEntriesCategoryTotal(s: Store, user: UserId, category: string)
    ensures SumEntries(FilterCategory(UserEntries(s, user), category)) == UserCategoryTotal(s, user, category)
  {
    if |s| > 0 {
      UserEntriesCategoryTotal(s[1..], user, category);
      var head := if s[0].user == user then LogEntries(s[0].activities, s[0].date) else [];
      var tail := UserEntries(s[1..], user);
      FilterCategoryAppend(head, tail, category);
      SumEntriesAppend(FilterCategory(head, category), FilterCategory(tail, category));
      if s[0].user == user {
        LogEntriesCategoryTotal(s[0].activities, s[0].date, category);
      }
    }
  }

  lemma {:induction false} LogEntriesCategoryTotal(items: seq<Item>, date: int, category: string)
    ensures SumEntries(FilterCategory(LogEntries(items, date), category)) == CategoryTotal(items, category)
  {
    if |items| > 0 {
      LogEntriesCategoryTotal(items[1..], date, category);
      var es := LogEntries(items, date);
      assert es[1..] == LogEntries(items[1..], date);
      var first := if items[0].category == category then [es[0]] else [];
      assert FilterCategory(es, category) == first + FilterCategory(es[1..], category);
      SumEntriesAppend(first, FilterCategory(es[1..], category));
    }
  }

  /** Filtering a concatenation filters the parts. */
  lemma {:induction false} FilterCategoryAppend(a: seq<Entry>, b: seq<Entry>, category: string)
    ensures FilterCategory(a + b, category) == FilterCategory(a, category) + FilterCategory(b, category)
  {
    if |a| == 0 {
      assert a + b == b;
    } else {
      assert (a + b)[1..] == a[1..] + b;
      FilterCategoryAppend(a[1..], b, category);
    }
  }

  lemma {:induction false} LogEntriesTotal(items: seq<Item>, date: int)
    ensures SumEntries(LogEntries(items, date)) == SumTotals(items)
  {
    if |items| > 0 {
      LogEntriesTotal(items[1..], date);
    }
  }

  lemma {:induction false} SumEntriesAppend(a: seq<Entry>, b: seq<Entry>)
    ensures SumEntries(a + b) == SumEntries(a) + SumEntries(b)
  {
    if |a| == 0 {
      assert a + b == b;
    } else {
      assert (a + b)[1..] == a[1..] + b;
      SumEntriesAppend(a[1..], b);
    }
  }
}
