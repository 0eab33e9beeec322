# Footprint Logger: a Dafny model of the activity log core

Footprint Logger records a user's daily carbon-emitting activities. Each activity is a quantity of something with an emission factor: kilometres driven, grams of beef, kWh of electricity. The server keeps MongoDB documents of type `ActivityLog`, each holding one user's activity items for one UTC day; the handlers create at most one per user and day when requests arrive one at a time. Around that store it serves:

- per-day and per-week totals;
- a seven-day summary with a streak;
- a community average;
- a leaderboard;
- a delete for a single activity;
- a flat listing;
- a weekly-goal analysis.

The browser script keeps its own in-memory list of day entries, built from a fixed catalog of activities.

This project models that core as pure Dafny functions over immutable data and proves what the handlers promise.

- **Data.** The store is a `seq<DayLog>` in natural order. Timestamps are integer milliseconds since the epoch. Emissions are exact `real`s. A `Number(...)` that would be NaN is an `Option<real>` that is `None`.
- **The server.** Every handler is a function of the store and its request parameters. The clock (`now`), the authenticated user, and the ObjectIds the driver would generate are all parameters.
- **Aggregations.** The MongoDB pipelines are composed from the stages they use:
  - `$match` is a date window and an optional user.
  - `$unwind` gives one row per item.
  - `$group` is a left fold that creates groups in first-appearance order.
  - `$sort` is a stable insertion sort.
  - `$limit` is a prefix.
  - `$lookup` is a map from user id to user document.
- **The client.** The browser script's store is a `seq<ClientDay>` keyed by date string.

Modules, one per file:

- `Wrappers`: `Option` and `Result`.
- `Time`: `startOfDay`, day arithmetic and weekdays.
- `Numbers`: `Number(x.toFixed(2))` on exact reals.
- `Sorting`: the stable sort.
- `ActivityLog`: the schemas and store invariants.
- `Grouping`: `$group`, and regrouping a pair key by its first component.
- `Pipeline`: `$match` plus `$unwind`, and what the unwound rows add up to.
- `ActivityStore`: `/log`, `/my-total`, the delete, `/my-logs` and `/all`.
- `Summary`: `/weekly-summary`.
- `Community`: `/community-average`.
- `Leaders`: `/leaderboard`.
- `WeeklyGoal`: `analyseWeeklyGoal`.
- `Client`: the parts of `script.js` that are not DOM code.

Where the code and its own description differ, the model follows the code:

- **Streak direction.** The comment at server/routes/activities.js:122 describes "consecutive days ending today". The loop at :125-134 actually scans from the oldest day (`end - 6`) to the newest. It counts positive days, stops at the first day whose total is 0, and passes over negative totals. `Summary.StreakScansOldestFirst` shows the consequence: a week that is empty except for today has streak 0.
- **`/my-total` reads one log.** It uses `findOne` (server/routes/activities.js:76), so it sees only the first log for the day. The `(user, date)` index is declared non-unique (server/models/ActivityLog.js:24). The aggregating handlers sum every duplicate log instead. `ActivityStore.MyTotalIsDayTotal` and `Summary.SummaryAgreesWithMyTotal` show the two views agree whenever the store holds at most one log per user and day (`ActivityLog.UniqueDays`); the converse does not hold, since a second, empty log for the day changes neither view.
- **Recomputed totals.** `analyseWeeklyGoal` sums `quantity * co2Value` (server/utils/weeklyGoal.js:15), not the stored `totalCO2`. The contract of `WeeklyGoal.WeekTotal` states that the two agree whenever the stored totals are consistent.
- **The submit guard.** In script.js:155 the guard `!selectActivity || isNaN(quantity)` tests the function `selectActivity`, which is always truthy. Only the NaN check takes effect, and `Client.Submit` models only that check.

## Model

| member | source | states |
|---|---|---|
| Time.StartOfDay | server/routes/activities.js:8-12 | the result is a UTC midnight at or below the input, less than a day before it |
| Time.MidnightUnique | server/routes/activities.js:8-12 | any midnight lying within a day at or below `t` is `startOfDay(t)` |
| Time.StartOfDayIdempotent | server/routes/activities.js:8-12 | truncating a truncated date changes nothing |
| Time.SameDayKey | server/routes/activities.js:23-37 | two instants get the same day key exactly when they fall on the same UTC day |
| Time.AddDays | server/routes/activities.js:92-94 | moving a midnight by `n` days gives a midnight exactly `n` days away |
| Numbers.Round2 | server/routes/activities.js:118 | `Number(x.toFixed(2))` has two decimals, lies within half a hundredth of `x`, and keeps its sign |
| Numbers.Round2PositiveIff | server/routes/activities.js:118-132 | a rounded total is positive exactly when the raw total is at least 0.005 |
| Numbers.Round2ZeroIff | server/routes/activities.js:118-133 | a rounded total is 0 exactly when the raw total is strictly within 0.005 of 0 |
| Numbers.Round2Monotone | server/routes/activities.js:204-232 | rounding keeps order, so rows sorted by raw average stay sorted once rounded |
| Sorting.Insert | server/routes/activities.js:62 | inserting into a sorted sequence keeps it sorted and adds exactly the new element |
| Sorting.SortBy | server/routes/activities.js:62 | the result is sorted by the key and is a permutation of the input |
| Sorting.PermutationNoDup | server/routes/activities.js:204 | a permutation of a sequence without repeats has no repeats |
| ActivityLog.CastItem | server/models/ActivityLog.js:6-12 | saving succeeds exactly when name and category are non-empty and the three numbers are present; every field is carried over |
| ActivityLog.QueryWindow | server/routes/activities.js:57-61 | each given bound is truncated to its midnight, and a missing bound stays open |
| ActivityLog.SumTotalsAppend | server/routes/activities.js:78 | the sum of item totals over a concatenation is the sum of the parts |
| ActivityStore.FindLog | server/routes/activities.js:37 | the first log of the user on the day, or none exactly when no log matches |
| ActivityStore.FindOwnedLog | server/routes/activities.js:266 | the first log with that id owned by the user, or none exactly when there is none |
| ActivityStore.NoItemsZeroTotal | server/routes/activities.js:104-105 | a day with no logged item has total 0 |
| ActivityStore.UniqueDayTotal | server/models/ActivityLog.js:24 | with a single log for the day, the day's total is that log's total |
| ActivityStore.NoMatchZero | server/routes/activities.js:77-79 | a day without a log has total 0 |
| ActivityStore.BuildItem | server/routes/activities.js:24-34 | `totalCO2` is quantity times factor, `activity` falls back to `name`, and the document is valid exactly when the required fields are |
| ActivityStore.PostLog | server/routes/activities.js:15-49 | 400 exactly when date or activity is missing; 500 exactly when validation fails; otherwise the item is appended to the first log for the day, or a new log is created, and nothing else changes; the new item carries the request's name, category, unit, quantity and factor, `activity` falling back to the name, and `totalCO2` equal to quantity times factor |
| ActivityStore.PostLogPreservesUniqueDays | server/routes/activities.js:37-42 | posting keeps at most one log per user and day |
| ActivityStore.PostLogPreservesShape | server/routes/activities.js:23-43 | posting keeps dates at midnight, logs non-empty, and stored totals equal to quantity times factor |
| ActivityStore.AppendLogShape | server/routes/activities.js:38-40 | creating a well-formed log keeps the store's dates, non-emptiness and totals well-formed |
| ActivityStore.ReplaceItemsShape | server/routes/activities.js:41-42 | changing one log's items keeps users, dates and ids, so day uniqueness and distinct ids survive |
| ActivityStore.MyTotal | server/routes/activities.js:71-85 | the date is the day of `date` (else today), and the total is that of the first log for the day, or 0 |
| ActivityStore.MyTotalIsDayTotal | server/routes/activities.js:76-79 | with one log per day, `/my-total` is the sum over all the user's logs for the day |
| ActivityStore.PostLogRaisesMyTotal | server/routes/activities.js:15-49 | a successful post raises that day's `/my-total` by exactly quantity times factor |
| ActivityStore.RemoveItem | server/routes/activities.js:279 | after the pull no item has the id, and the items are unchanged when the id is absent |
| ActivityStore.RemoveItemCounts | server/routes/activities.js:279 | the pull takes out every copy of the id and keeps every other item as often as it occurred |
| ActivityStore.HeadIdNotInTail | server/models/ActivityLog.js:14 | with distinct item ids, the first id does not recur |
| ActivityStore.RemoveItemDistinct | server/routes/activities.js:273-279 | with distinct item ids, the removal takes out exactly the one item and keeps the order |
| ActivityStore.RemoveSplice | server/routes/activities.js:279 | the inductive step: a kept head item stays in front of the spliced tail |
| ActivityStore.DeleteActivity | server/routes/activities.js:243-305 | 400 exactly for an invalid id; "log not found" exactly when no owned log has that id; given the owned log, success exactly when it holds the item and "activity not found" otherwise; on success the item is removed, and the log too exactly when it becomes empty |
| ActivityStore.DeletePreservesShape | server/routes/activities.js:281-293 | deleting keeps logs non-empty, one log per day, distinct log ids and midnight dates |
| ActivityStore.DropLogShape | server/routes/activities.js:282-290 | removing a whole log keeps dates, non-emptiness, day uniqueness and distinct ids |
| ActivityStore.DeleteUndoesPost | server/routes/activities.js:15-49 | deleting the item a post just created restores the previous store exactly |
| ActivityStore.UndoNewLog | server/routes/activities.js:279-290 | deleting the only item of a freshly created log removes that log again |
| ActivityStore.UndoAppend | server/routes/activities.js:273-293 | deleting an item just appended to a log restores the log's items |
| ActivityStore.RemoveAppended | server/routes/activities.js:279 | removing a freshly appended item with a new id gives back the previous items |
| ActivityStore.FilterLogs | server/routes/activities.js:56-62 | the result holds each of the user's in-window logs with its multiplicity, and nothing else |
| ActivityStore.MyLogs | server/routes/activities.js:52-68 | newest first, and exactly the user's logs within the optional range |
| ActivityStore.LogEntries | server/routes/activities.js:365-368 | one entry per item of the log, in order, each tagged with the log's date |
| ActivityStore.UserEntries | server/routes/activities.js:362-369 | the flattened entries of the user's logs sum to the user's summed log totals |
| ActivityStore.UserEntriesComplete | server/routes/activities.js:362-369 | every item of every log of the user appears, flattened, with its log's date |
| ActivityStore.FilterCategory | server/routes/activities.js:371-373 | the kept activities are exactly those in the category |
| ActivityStore.FilterCategoryCounts | server/routes/activities.js:371-373 | every copy of an entry in the category is kept and every other entry is dropped |
| ActivityStore.AllActivities | server/routes/activities.js:357-386 | `total` is the number of activities listed and `totalCO2` their summed totals; each of the user's flattened entries is listed exactly as often as it occurs when it matches the non-empty category (or there is none), and never otherwise; every listed item comes from one of the user's logs |
| ActivityStore.AllTotalIsUserTotal | server/routes/activities.js:375 | without a category, `totalCO2` is the sum of the user's log totals |
| ActivityStore.AllCategoryTotal | server/routes/activities.js:371-375 | with a category, `totalCO2` is the sum, over the user's logs, of the totals of that category's items |
| ActivityStore.UserEntriesCategoryTotal | server/routes/activities.js:362-375 | filtering the flattened entries by category and summing gives the per-log category totals added up |
| ActivityStore.LogEntriesCategoryTotal | server/routes/activities.js:365-375 | one log's entries in a category sum to the log's category total |
| ActivityStore.FilterCategoryAppend | server/routes/activities.js:371-373 | filtering a concatenation filters each part |
| ActivityStore.LogEntriesTotal | server/routes/activities.js:365-368 | tagging a log's items with its date keeps their total |
| ActivityStore.SumEntries | server/routes/activities.js:375 | the front-first recursion equals the left-to-right `reduce`: the sum is the sum of all but the last entry plus the last |
| ActivityStore.SumEntriesAppend | server/routes/activities.js:375 | the sum over a concatenation is the sum of the parts |
| Grouping.AppendRows | server/routes/activities.js:105 | per-key sums, per-key counts and the grand sum split over concatenation |
| Grouping.SnocRow | server/routes/activities.js:105 | appending a row adds its value to its own key only |
| Grouping.SnocKey | server/routes/activities.js:105 | appending a row adds its key to the key set |
| Grouping.AbsentKey | server/routes/activities.js:115-118 | a key that no row carries has sum 0 and count 0 |
| Grouping.FindKey | server/routes/activities.js:115 | the group with the key, or none exactly when no group has it |
| Grouping.Add | server/routes/activities.js:105 | adding a row raises exactly its key's sum and count, appending a new group only for a new key |
| Grouping.BucketTotalUpdate | server/routes/activities.js:161 | replacing one group changes the sum of sums by the difference |
| Grouping.BucketTotalSnoc | server/routes/activities.js:161 | appending a group adds its sum |
| Grouping.AddTotal | server/routes/activities.js:161 | adding a row raises the sum of group sums by its value |
| Grouping.Group | server/routes/activities.js:156 | one group per distinct key, exactly the keys that occur |
| Grouping.GroupCount | server/routes/activities.js:162 | the number of groups is the number of distinct keys |
| Grouping.GroupSums | server/routes/activities.js:156-161 | each group holds the sum and the row count of its key; the group sums add up to the grand sum |
| Grouping.UpdateRow | server/routes/activities.js:105 | changing one row changes its old and new key's sums and counts only |
| Grouping.RegroupSums | server/routes/activities.js:189-199 | regrouping the (user, date) groups by user gives each user the sum of their rows |
| Grouping.RegroupCounts | server/routes/activities.js:189-199 | regrouping gives each user as many groups as they have distinct dates |
| Grouping.RegroupAdd | server/routes/activities.js:189-199 | one more row changes the regrouped sums by its value, and the regrouped counts only when its (user, date) pair is new |
| Grouping.SecondsSnoc | server/routes/activities.js:189-199 | adding a new pair key adds one date to its user's dates |
| Grouping.ProjectKeys | server/routes/activities.js:156 | keying by user gives exactly the users of the pair keys |
| Grouping.ProjectTotal | server/routes/activities.js:156-161 | keying by user keeps the grand sum |
| Grouping.RegroupKeys | server/routes/activities.js:189-199 | the regrouped keys are exactly the users of the pair keys |
| Pipeline.Unwind | server/routes/activities.js:97-104 | every unwound row carries a (user, date) pair the `$match` admits: the named user, when there is one, and a date inside the window |
| Pipeline.ItemRowsSums | server/routes/activities.js:104-105 | a log's rows add up to the log's total, under its own key only |
| Pipeline.UnwindDaySum | server/routes/activities.js:97-105 | the (user, date) sum is the user's day total when the match admits the day, else 0 |
| Pipeline.UnwindTotals | server/routes/activities.js:153-156 | the rows add up to the matched logs' total, and per user to that user's matched total |
| Pipeline.UnwindKeys | server/routes/activities.js:153-156 | the row keys are exactly the (user, date) pairs of matched logs with items |
| Pipeline.KeySetAppend | server/routes/activities.js:104 | the keys of concatenated rows are the union of the keys |
| Summary.FirstZero | server/routes/activities.js:133 | the position of the first zero total, or the length |
| Summary.Streak | server/routes/activities.js:124-134 | the streak counts the positive totals before the first zero |
| Summary.StreakIsLeadingRun | server/routes/activities.js:124-134 | with no negative totals, the streak is the leading run of positive days, and it stops at a zero |
| Summary.StreakScansOldestFirst | server/routes/activities.js:125-134 | the loop runs from the oldest day: a week empty except today gives 0, a zero day two cuts it, and negatives are skipped |
| Summary.FilledTotal | server/routes/activities.js:115-118 | a two-decimal value, 0 for a day without a group, otherwise within half a hundredth of the group's sum |
| Summary.FilledTotalIsRoundedDayTotal | server/routes/activities.js:115-118 | the zero fill equals rounding the day's total, since a day without a group totals 0 |
| Summary.FindDate | server/routes/activities.js:129-131 | the first summary entry with the date, or none exactly when no entry has it |
| Summary.StreakFindsEachDay | server/routes/activities.js:124-131 | the date the streak loop builds at each step finds the summary entry in the same position, so the loop scans the summary's totals in order |
| Summary.WeeklySummaryOf | server/routes/activities.js:88-141 | seven consecutive midnights ending at `end`'s day; each total is the rounded sum of the user's logs that day; the streak is that of the totals |
| Summary.SummaryZeroIff | server/routes/activities.js:118-133 | a summary day reads 0, ending the streak, exactly when its raw total is within 0.005 of 0 |
| Summary.SummaryAgreesWithMyTotal | server/routes/activities.js:71-118 | with one log per day, each summary entry is the rounded `/my-total` of its day |
| Community.PerUserCount | server/routes/activities.js:153-162 | the first `$group` has one group per user with a matched item, and the group sums add up to the matched total |
| Community.PerUserSums | server/routes/activities.js:156 | each first-stage group is an active user holding that user's matched total |
| Community.CommunityAverage | server/routes/activities.js:144-177 | `usersCount` is the number of users with a matched item, `totalAll` is the matched total, `avgPerUser` is their quotient, and all three are 0 without matches |
| Leaders.LeaderWindow | server/routes/activities.js:181-185 | a range of midnights whose end is today's UTC midnight and whose start is `days - 1` days earlier |
| Leaders.PerUser | server/routes/activities.js:189-202 | the two `$group` stages give each user at most one group, each counting at least one day, so `$avg` is defined |
| Leaders.PerUserKeys | server/routes/activities.js:189-202 | the second `$group` has one group per active user |
| Leaders.PerUserSums | server/routes/activities.js:189-202 | each second-stage group holds its user's total over the matched logs |
| Leaders.PerUserDays | server/routes/activities.js:189-202 | each second-stage group counts the distinct days on which its user has a matched item |
| Leaders.RowsOf | server/routes/activities.js:199-200 | `avgDaily` is the sum over the count of day totals |
| Leaders.RankRows | server/routes/activities.js:189-202 | one row per active user, with the total of the user's matched logs and the mean of the user's day totals |
| Leaders.RankRowsUsers | server/routes/activities.js:189-202 | the rows name every active user, each once |
| Leaders.RowsOfCorrect | server/routes/activities.js:196-200 | groups that hold each active user's total and day count give each user its total and mean day total |
| Leaders.PermutationDistinctUsers | server/routes/activities.js:204 | reordering rows keeps their users distinct |
| Leaders.TopRows | server/routes/activities.js:204-205 | at most ten rows, sorted by average, each taken from the input, with users still distinct |
| Leaders.TopRowsCutoff | server/routes/activities.js:204-205 | a user cut by the limit leaves ten rows, none averaging more than that user |
| Leaders.TopRowsComplete | server/routes/activities.js:205 | ten rows or fewer all survive the limit |
| Leaders.Ranking | server/routes/activities.js:204-205 | `min(10, active users)` rows, sorted by average, each correct, no user twice |
| Leaders.PermutationUsers | server/routes/activities.js:204 | reordering rows keeps the set of users |
| Leaders.CutByLimit | server/routes/activities.js:204-205 | a user cut by the prefix sorts after every row kept |
| Leaders.RankingCutoff | server/routes/activities.js:204-205 | an active user left out means the ranking is full and nobody in it averages more |
| Leaders.RankingComplete | server/routes/activities.js:205 | with at most ten active users, all are ranked |
| Leaders.Render | server/routes/activities.js:214-232 | a response row carries the user document's name and email and two-decimal values within half a hundredth of the raw average and total |
| Leaders.Join | server/routes/activities.js:206-233 | exactly the ranked users that have a user document are kept, each with that document's name and email and with rounded average and total |
| Leaders.JoinSorted | server/routes/activities.js:204-232 | the response stays sorted by rounded average |
| Leaders.JoinAbove | server/routes/activities.js:231 | rows at or above a bound render at or above its rounding |
| Leaders.JoinBelow | server/routes/activities.js:231 | rows at or below a bound render at or below its rounding |
| Leaders.JoinDistinct | server/routes/activities.js:206-233 | the response lists no user twice |
| Leaders.Leaderboard | server/routes/activities.js:180-239 | at most ten rows, exactly the ranked users with a user document, each with the user's rounded mean day total and rounded total over the window |
| Leaders.LeaderboardOrdered | server/routes/activities.js:204-233 | the response is sorted by rounded average, lowest first, and lists no user twice |
| Leaders.LeaderboardCutoff | server/routes/activities.js:204-233 | an active user with a document who is not listed averages at least as much as everyone listed |
| Leaders.LeaderboardComplete | server/routes/activities.js:205-214 | with at most ten active users, every one with a user document is listed |
| WeeklyGoal.StartOfWeek | server/utils/weeklyGoal.js:4-6 | a local midnight on a Sunday, at most six days and a fraction before `now` |
| WeeklyGoal.StartOfWeekLatest | server/utils/weeklyGoal.js:4-6 | no later local Sunday midnight lies at or before `now` |
| WeeklyGoal.WeekMatch | server/utils/weeklyGoal.js:8-11 | a log matches exactly when it is the user's and dated at or after the week start |
| WeeklyGoal.ItemProducts | server/utils/weeklyGoal.js:14-17 | the inner `reduce` of quantity times factor; where every stored total is its product it equals the sum of the stored totals |
| WeeklyGoal.WeekTotal | server/utils/weeklyGoal.js:8-19 | the `find` from the week start on and the outer `reduce`; with consistent stored totals it is the user's matched total from the week start on, the value the aggregation handlers would compute |
| WeeklyGoal.AnalyseWeeklyGoal | server/utils/weeklyGoal.js:3-35 | `remaining` is 10 minus the total, but never below 0; `progress` is the total as a percentage of 10, capped at 100; together they account for the target; the tip says the goal is reached exactly when the total reaches 10 |
| WeeklyGoal.GoalMonotone | server/utils/weeklyGoal.js:21-32 | a larger week total never lowers progress or raises what remains |
| Client.CatalogEntries | script.js:1-71 | seventeen entries, each in one of the four catalog categories (transport, food, energy, waste), each with a positive factor |
| Client.EntriesInSnoc | script.js:90-94 | filtering a sequence extended at the back extends the filter |
| Client.EntriesInAbsent | script.js:90-94 | a category that does not occur selects nothing |
| Client.GroupByCategory | script.js:90-94 | one group per category that occurs, no category twice |
| Client.GroupEntries | script.js:90-94 | each group holds exactly its category's entries, in catalog order |
| Client.GroupFirst | script.js:90-94 | the first group is the first entry's category |
| Client.FindCategory | script.js:91 | the group of the category, or none exactly when there is none |
| Client.EntryInOwnGroup | script.js:90-94 | every entry is in a group, and only in its own category's |
| Client.EntriesInHas | script.js:90-94 | an entry is among its own category's entries |
| Client.EntriesInCategory | script.js:90-94 | a category's entries are in that category |
| Client.FindDay | script.js:171-173 | the first entry with the date, or none exactly when no entry has it |
| Client.FindDayAt | script.js:171-173 | an entry with the date and none before it is the one found |
| Client.MakeActivity | script.js:160-169 | the name falls back to the catalog name; `totalC02` is the product rounded to two decimals |
| Client.AddActivity | script.js:171-180 | the date's activities gain exactly the new activity at the end, a new entry is pushed only for a new date, and other entries are untouched |
| Client.Submit | script.js:153-180 | a non-numeric quantity changes nothing; otherwise the day's activities gain the built activity at the end, other dates are untouched, and no earlier activity changes |
| Client.AddKeepsUniqueDates | script.js:171-180 | adding keeps at most one entry per date |
| Client.SubmitKeepsUniqueDates | script.js:171-180 | submitting keeps at most one entry per date |
| Client.AddOtherDate | script.js:171-180 | another date's activities are unchanged |
| Client.DayTotal | script.js:199-211 | 0 when the date has no entry |
| Client.SumC02Snoc | script.js:206-209 | appending an activity adds its `totalC02` to the sum |
| Client.AddDayTotal | script.js:171-210 | adding raises the day total by the activity's `totalC02` |
| Client.SubmitDayTotal | script.js:153-210 | submitting raises the day total by the rounded product of quantity and factor |
| Client.SubmitOtherTotal | script.js:153-210 | submitting leaves every other day's total unchanged |
| Client.ActivitiesIn | script.js:272-274 | only the category's activities, each kept as often as it occurs |
| Client.ActivitiesInAppend | script.js:272-274 | filtering a concatenation concatenates the filtered parts, so the kept activities stay in their original order |
| Client.ActivitiesInSingle | script.js:272-274 | a single activity is kept exactly when it is in the category |
| Client.FilterActivities | script.js:263-276 | `[]` exactly for an unknown date; the day unchanged for `All-Categories`; otherwise one entry with the same date and exactly that category's activities |
| Client.SumC02Append | script.js:206-209 | the sum over a concatenation is the sum of the parts |
| Client.ShareOverCategories | script.js:263-276 | over distinct categories, an activity counts once, through its own category |
| Client.SumOverCategoriesCons | script.js:263-276 | the per-category totals split at the front of the list |
| Client.CategoriesPartitionTotal | script.js:263-276 | over distinct categories covering every activity, the category totals add up to the whole total |
| Client.EmptyOverCategories | script.js:263-276 | no activities give 0 in every category |
| Client.SubmitKnownCategories | script.js:160-180 | activities from the catalog keep every entry's categories among the four |
| Client.FourCategories | script.js:263-276 | the filter's totals summed over the four catalog categories, spelled out one category at a time |
| Client.FilteredTotalOf | script.js:271-275 | a category filter's total is that category's total for the day |
| Client.FilterPartitionsDay | script.js:199-276 | the four category filters add up to the day total, and `All-Categories` gives the day total |

## Left out

- HTTP, Express routing, JSON serialisation, `console` logging, and the `try`/`catch` 500 paths for database failures. Each handler is a function of the store.
- Authentication. The routes in server/routes/auth.js and the middleware in server/middleware/auth.js wrap bcrypt and jsonwebtoken. The authenticated user id is a parameter.
- server/utils/ws.js, the WebSocket registry. Nothing in the core calls it.
- server/public/script.js and the DOM and Chart.js parts of script.js: `renderBarChart`, `todayAct`, `setDate`, the event wiring, and the display side of `calculateTotal`.
- Date strings. Dates are integer milliseconds, so parsing `YYYY-MM-DD` and invalid dates are not modelled. An invalid date would make the database cast fail and the handler answer 500. The client keys its entries by the date string itself, so nothing there is parsed.
- Floating point. Sums and products are exact reals, so binary rounding error is not modelled.
- `toFixed(2)` is modelled as `Numbers.Round2` (round half away from zero, exact) where a later step of the model reads the rounded number: the weekly summary at server/routes/activities.js:118, whose values the streak inspects, and the client's `totalC02` at script.js:168, which the day totals at :207 add up. The leaderboard's rounding at server/routes/activities.js:231-232 is modelled too, since its ordering lemmas are about the rounded values. The `toFixed` calls that build display strings are left out.
- ActivityStore.MyTotal: the total is not rounded. The handler rounds with `Number(total.toFixed(2))` at server/routes/activities.js:80 as it writes the response, and no later step reads the rounded value; the model returns the exact total so that `ActivityStore.PostLogRaisesMyTotal` can state the exact increase.
- Community.CommunityAverage: `avgPerUser` and `totalAll` are not rounded. The handler rounds them with `Number(x.toFixed(2))` at server/routes/activities.js:169-170 as it writes the response, and nothing reads them afterwards; the model keeps the exact quotient and sum.
- WeeklyGoal.AnalyseWeeklyGoal: the tip carries the number `remaining` instead of the message text. The `toFixed(1)` at server/utils/weeklyGoal.js:27-29 is string formatting.
- Leaders.LeaderWindow: `days` is the parsed integer, or absent for the default 7. A non-numeric `days` makes `parseInt` return NaN and the date invalid, and that path is not modelled.
- WeeklyGoal.StartOfWeek: local time is a fixed offset from UTC, so daylight-saving changes are not modelled.
- Concurrency. Two simultaneous `/log` requests can both miss the day's log and create two, because the `(user, date)` index is not unique. The model is sequential. Uniqueness of day logs is a hypothesis (`ActivityLog.UniqueDays`) of the lemmas that need it.
- ObjectIds. `ObjectId.isValid` is abstracted: a request id is `None` when it is invalid. Fresh ids are parameters of `PostLog`.
- `createdAt` (server/models/ActivityLog.js:21) is a clock default that no handler reads.
- Tie order and duplicate choice. MongoDB leaves the order of equal `$sort` keys, the order of `$group` output, and the document `findOne` returns among several matches unspecified. The model fixes all of them: a stable sort, groups in first-appearance order, and the first matching log in store order. Three outcomes depend on this choice:
  - which users survive the leaderboard's `$limit` when averages tie at tenth place (server/routes/activities.js:204-205);
  - the order of `/my-logs` entries with equal dates (server/routes/activities.js:62);
  - which log `findOne` returns when a user has two logs for one day, in `/log` (server/routes/activities.js:37) and in `/my-total` (server/routes/activities.js:76).
- `$lookup` treats the users collection as a map from `_id` to the name and email it reads.
- The commented-out `/activities` handler at server/routes/activities.js:307-354 is dead code.
