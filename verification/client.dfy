/** The browser-only logger of `script.js`: the activity catalog, its grouping for the dropdown, the
    in-memory list of day entries, the day total and the category filter. */
module Client {
  import opened Wrappers
  import opened Numbers

  // ---------------------------------------------------------------------------
  // The catalog
  // ---------------------------------------------------------------------------

  /** One selectable activity: its emission factor per unit. */
  datatype CatalogEntry = CatalogEntry(name: string, category: string, co2Value: real, unit: string)

  /** The four categories the catalog's entries use. */
  const Categories: seq<string> := ["transport", "food", "energy", "waste"]

  /** The value of the filter dropdown that shows every category. */
  const AllCategories: string := "All-Categories"

  /** The seventeen catalog entries, in catalog order. */
  function CatalogEntries(): (c: seq<CatalogEntry>)
    ensures |c| == 17
    ensures forall i :: 0 <= i < |c| ==> c[i].category in Categories && c[i].co2Value > 0.0
  {
    [ CatalogEntry("Car (Petrol) - per km", "transport", 0.21, "km"),
      CatalogEntry("Car (Diesel) - per km", "transport", 0.17, "km"),
      CatalogEntry("Bus - per km", "transport", 0.08, "km"),
      CatalogEntry("Train - per km", "transport", 0.04, "km"),
      CatalogEntry("Flight (Domestic) - per km", "transport", 0.25, "km"),
      CatalogEntry("Flight (International) - per km", "transport", 0.15, "km"),
      CatalogEntry("Beef - per 100g", "food", 6.0, "100g"),
      CatalogEntry("Chicken - per 100g", "food", 1.6, "100g"),
      CatalogEntry("Fish - per 100g", "food", 1.2, "100g"),
      CatalogEntry("Vegetables - per 100g", "food", 0.4, "100g"),
      CatalogEntry("Dairy - per 100ml", "food", 0.6, "100ml"),
      CatalogEntry("Coffee - per cup", "food", 0.05, "cup"),
      CatalogEntry("Electricity - per kWh", "energy", 0.4, "kWh"),
      CatalogEntry("Natural Gas - per kWh", "energy", 0.2, "kWh"),
      CatalogEntry("Heating Oil - per liter", "energy", 2.5, "liter"),
      CatalogEntry("General Waste - per kg", "waste", 0.5, "kg"),
      CatalogEntry("Recycling - per kg", "waste", 0.1, "kg") ]
  }

  const Catalog: seq<CatalogEntry> := CatalogEntries()

  // ---------------------------------------------------------------------------
  // Grouping the catalog for the dropdown
  // ---------------------------------------------------------------------------

  /** One `<optgroup>`: a category and its entries. */
  datatype CatGroup = CatGroup(category: string, entries: seq<CatalogEntry>)

  /** The entries of `xs` in category `c`, in their order. */
  function EntriesIn(xs: seq<CatalogEntry>, c: string): seq<CatalogEntry> {
    if |xs| == 0 then []
    else (if xs[0].category == c then [xs[0]] else []) + EntriesIn(xs[1..], c)
  }

  /** The categories of the groups. */
  function GroupCategories(gs: seq<CatGroup>): set<string> {
    set i | 0 <= i < |gs| :: gs[i].category
  }

  /** The categories that occur in some entries. */
  function EntryCategories(xs: seq<CatalogEntry>): set<string> {
    set i | 0 <= i < |xs| :: xs[i].category
  }

  /** No category has two groups. */
  predicate DistinctCategories(gs: seq<CatGroup>) {
    forall i, j :: 0 <= i < j < |gs| ==> gs[i].category != gs[j].category
  }

  /** Filtering a sequence extended at the back extends the filter at the back. */
  lemma {:induction false} EntriesInSnoc(xs: seq<CatalogEntry>, x: CatalogEntry, c: string)
    ensures EntriesIn(xs + [x], c) == EntriesIn(xs, c) + (if x.category == c then [x] else [])
  {
    if |xs| == 0 {
      assert xs + [x] == [x];
      assert [x][1..] == [];
    } else {
      var h := if xs[0].category == c then [xs[0]] else [];
      var t := if x.category == c then [x] else [];
      assert (xs + [x])[0] == xs[0];
      assert (xs + [x])[1..] == xs[1..] + [x];
      EntriesInSnoc(xs[1..], x, c);
      assert EntriesIn(xs + [x], c) == h + (EntriesIn(xs[1..], c) + t);
      assert h + (EntriesIn(xs[1..], c) + t) == (h + EntriesIn(xs[1..], c)) + t;
    }
  }

  /** A category that does not occur selects nothing. */
  lemma {:induction false} EntriesInAbsent(xs: seq<CatalogEntry>, c: string)
    requires c !in EntryCategories(xs)
    ensures EntriesIn(xs, c) == []
  {
    if |xs| > 0 {
      assert xs[0].category in EntryCategories(xs);
      assert EntryCategories(xs[1..]) <= EntryCategories(xs) by {
        forall i | 0 <= i < |xs[1..]| ensures xs[1..][i].category in EntryCategories(xs) {
          assert xs[1..][i] == xs[i + 1];
        }
      }
      EntriesInAbsent(xs[1..], c);
    }
  }

  /** The `reduce` of `populateSelect`: a group per category in order of first appearance
      (a JavaScript object keeps string keys in insertion order). */
  function GroupByCategory(xs: seq<CatalogEntry>): (gs: seq<CatGroup>)
    ensures DistinctCategories(gs)
    ensures GroupCategories(gs) == EntryCategories(xs)
  {
    if |xs| == 0 then []
    else
      var init := xs[..|xs| - 1];
      var x := xs[|xs| - 1];
      var gs0 := GroupByCategory(init);
      assert EntryCategories(xs) == EntryCategories(init) + {x.category} by {
        assert forall i :: 0 <= i < |init| ==> xs[i] == init[i];
      }
      match FindCategory(gs0, x.category)
      case Some(i) =>
        var gs := gs0[i := gs0[i].(entries := gs0[i].entries + [x])];
        assert GroupCategories(gs) == GroupCategories(gs0) by {
          assert forall j :: 0 <= j < |gs| ==> gs[j].category == gs0[j].category;
        }
        gs
      case None =>
        var gs := gs0 + [CatGroup(x.category, [x])];
        assert GroupCategories(gs) == GroupCategories(gs0) + {x.category} by {
          assert forall j :: 0 <= j < |gs0| ==> gs[j] == gs0[j];
          assert gs[|gs0|].category == x.category;
        }
        gs
  }

  /** Each group holds exactly the entries of its category, in catalog order. */
  lemma {:induction false} GroupEntries(xs: seq<CatalogEntry>)
    ensures forall i :: 0 <= i < |GroupByCategory(xs)| ==>
              GroupByCategory(xs)[i].entries == EntriesIn(xs, GroupByCategory(xs)[i].category)
  {
    if |xs| > 0 {
      var init := xs[..|xs| - 1];
      var x := xs[|xs| - 1];
      assert xs == init + [x];
      GroupEntries(init);
      var gs0 := GroupByCategory(init);
      var gs := GroupByCategory(xs);
      forall i | 0 <= i < |gs| ensures gs[i].entries == EntriesIn(xs, gs[i].category) {
        EntriesInSnoc(init, x, gs[i].category);
        if i == |gs0| {
          EntriesInAbsent(init, x.category);
        }
      }
    }
  }

  /** The first group is the first entry's category. */
  lemma {:induction false} GroupFirst(xs: seq<CatalogEntry>)
    requires |xs| > 0
    ensures |GroupByCategory(xs)| > 0 && GroupByCategory(xs)[0].category == xs[0].category
  {
    var init := xs[..|xs| - 1];
    if |init| > 0 {
      GroupFirst(init);
      assert init[0] == xs[0];
    }
  }

  /** The position of the group for category `c`, if there is one (`obj[item.category]`). */
  function FindCategory(gs: seq<CatGroup>, c: string): (r: Option<nat>)
    ensures r.Some? ==> r.value < |gs| && gs[r.value].category == c
    ensures r.None? <==> c !in GroupCategories(gs)
  {
    if |gs| == 0 then None
    else if gs[0].category == c then Some(0)
    else match FindCategory(gs[1..], c)
      case None =>
        assert GroupCategories(gs) == {gs[0].category} + GroupCategories(gs[1..]) by {
          assert forall j :: 1 <= j < |gs| ==> gs[j] == gs[1..][j - 1];
        }
        None
      case Some(j) => Some(j + 1)
  }

  /** Every entry lands in exactly one group: its own category's. */
  lemma EntryInOwnGroup(xs: seq<CatalogEntry>, k: nat)
    requires k < |xs|
    ensures exists i :: 0 <= i < |GroupByCategory(xs)| && xs[k] in GroupByCategory(xs)[i].entries
    ensures forall i :: 0 <= i < |GroupByCategory(xs)| && xs[k] in GroupByCategory(xs)[i].entries ==>
              GroupByCategory(xs)[i].category == xs[k].category
  {
    var gs := GroupByCategory(xs);
    GroupEntries(xs);
    assert xs[k].category in EntryCategories(xs);
    var i :| 0 <= i < |gs| && gs[i].category == xs[k].category;
    EntriesInHas(xs, k);
    forall i | 0 <= i < |gs| && xs[k] in gs[i].entries ensures gs[i].category == xs[k].category {
      EntriesInCategory(xs, gs[i].category, xs[k]);
    }
  }

  /** An entry is among those of its own category. */
  lemma {:induction false} EntriesInHas(xs: seq<CatalogEntry>, k: nat)
    requires k < |xs|
    ensures xs[k] in EntriesIn(xs, xs[k].category)
  {
    if k > 0 {
      EntriesInHas(xs[1..], k - 1);
      assert xs[1..][k - 1] == xs[k];
    }
  }

  /** What a category filter keeps is in that category. */
  lemma {:induction false} EntriesInCategory(xs: seq<CatalogEntry>, c: string, e: CatalogEntry)
    ensures e in EntriesIn(xs, c) ==> e.category == c
  {
    if |xs| > 0 {
      EntriesInCategory(xs[1..], c, e);
    }
  }

  // ---------------------------------------------------------------------------
  // The in-memory list of day entries
  // ---------------------------------------------------------------------------

  /** A logged activity; `totalC02` is `(quantity * co2Value).toFixed(2)` read back as a number. */
  datatype ClientActivity = ClientActivity(
    name: string,
    activity: string,
    category: string,
    unit: string,
    quantity: real,
    co2Value: real,
    totalC02: real)

  /** An entry of `allActivitiesArr`: a date string (`YYYY-MM-DD`) and its activities. */
  datatype ClientDay = ClientDay(date: string, activities: seq<ClientActivity>)

  /** The first entry with `date` (`allActivitiesArr.find`). */
  function FindDay(days: seq<ClientDay>, date: string): (r: Option<nat>)
    ensures r.Some? ==> r.value < |days| && days[r.value].date == date
    ensures r.Some? ==> forall j :: 0 <= j < r.value ==> days[j].date != date
    ensures r.None? <==> forall j :: 0 <= j < |days| ==> days[j].date != date
  {
    if |days| == 0 then None
    else if days[0].date == date then Some(0)
    else match FindDay(days[1..], date)
      case None =>
        assert forall j :: 1 <= j < |days| ==> days[j] == days[1..][j - 1];
        None
      case Some(j) =>
        assert forall k :: 1 <= k < j + 1 ==> days[k] == days[1..][k - 1];
        Some(j + 1)
  }

  /** At most one entry per date. */
  predicate UniqueDates(days: seq<ClientDay>) {
    forall i, j :: 0 <= i < j < |days| ==> days[i].date != days[j].date
  }

  /** The activity the submit handler builds from the selected entry, the name field and the quantity. */
  function MakeActivity(e: CatalogEntry, nameInput: string, quantity: real): (a: ClientActivity)
    ensures a.name == (if nameInput == "" then e.name else nameInput)
    ensures a.activity == e.name && a.category == e.category && a.unit == e.unit
    ensures a.quantity == quantity && a.co2Value == e.co2Value
    ensures a.totalC02 == Round2(quantity * e.co2Value)
  {
    ClientActivity(if nameInput == "" then e.name else nameInput, e.name, e.category, e.unit,
                   quantity, e.co2Value, Round2(quantity * e.co2Value))
  }

  /** The activities of the entry for `date`; none when there is no entry. */
  function DayActivities(days: seq<ClientDay>, date: string): seq<ClientActivity> {
    match FindDay(days, date)
    case None => []
    case Some(i) => days[i].activities
  }

  /** The days with `a` added at the end of the entry for `date`; a new, empty entry for `date` is
      appended first when there is none. */
  function AddActivity(days: seq<ClientDay>, date: string, a: ClientActivity): (r: seq<ClientDay>)
    ensures FindDay(r, date).Some?
    ensures DayActivities(r, date) == DayActivities(days, date) + [a]
    ensures |r| == if FindDay(days, date).Some? then |days| else |days| + 1
    ensures FindDay(days, date).Some? ==> FindDay(r, date) == FindDay(days, date)
    ensures forall j :: 0 <= j < |days| && days[j].date != date ==> r[j] == days[j]
    ensures forall j :: 0 <= j < |days| ==> r[j].date == days[j].date
    ensures forall j :: 0 <= j < |days| ==> days[j].activities <= r[j].activities
  {
    match FindDay(days, date)
    case Some(i) =>
      var r := days[i := days[i].(activities := days[i].activities + [a])];
      FindDayAt(r, date, i);
      r
    case None =>
      var r := days + [ClientDay(date, [a])];
      FindDayAt(r, date, |days|);
      r
  }

  /** The submit handler on date `date`: a non-numeric quantity (`None`) changes nothing; otherwise
      the new activity goes at the end of the entry for `date`, created at the end if missing. */
  function Submit(days: seq<ClientDay>, date: string, e: CatalogEntry, nameInput: string, quantity: Option<real>)
    : (r: seq<ClientDay>)
    ensures quantity.None? ==> r == days
    ensures |r| >= |days|
    ensures quantity.Some? ==>
              DayActivities(r, date) == DayActivities(days, date) + [MakeActivity(e, nameInput, quantity.value)]
    ensures forall j :: 0 <= j < |days| && days[j].date != date ==> r[j] == days[j]
    ensures forall j :: 0 <= j < |days| ==> days[j].activities <= r[j].activities
  {
    match quantity
    case None => days
    case Some(q) => AddActivity(days, date, MakeActivity(e, nameInput, q))
  }

  /** Adding keeps at most one entry per date. */
  lemma AddKeepsUniqueDates(days: seq<ClientDay>, date: string, a: ClientActivity)
    requires UniqueDates(days)
    ensures UniqueDates(AddActivity(days, date, a))
  {
  }

  /** Submitting keeps at most one entry per date. */
  lemma SubmitKeepsUniqueDates(days: seq<ClientDay>, date: string, e: CatalogEntry, nameInput: string, quantity: Option<real>)
    requires UniqueDates(days)
    ensures UniqueDates(Submit(days, date, e, nameInput, quantity))
  {
    if quantity.Some? {
      AddKeepsUniqueDates(days, date, MakeActivity(e, nameInput, quantity.value));
    }
  }

  /** Another date's activities are the same before and after adding. */
  lemma AddOtherDate(days: seq<ClientDay>, date: string, a: ClientActivity, other: string)
    requires other != date
    ensures DayActivities(AddActivity(days, date, a), other) == DayActivities(days, other)
  {
    var r := AddActivity(days, date, a);
    match FindDay(days, other)
    case Some(i) =>
      FindDayAt(r, other, i);
    case None =>
      assert forall j :: 0 <= j < |r| ==> r[j].date != other;
  }

  // ---------------------------------------------------------------------------
  // The day total and the category filter
  // ---------------------------------------------------------------------------

  /** Sum of the activities' `totalC02`. */
  function SumC02(acts: seq<ClientActivity>): real {
    if |acts| == 0 then 0.0 else acts[0].totalC02 + SumC02(acts[1..])
  }

  lemma {:induction false} SumC02Snoc(acts: seq<ClientActivity>, a: ClientActivity)
    ensures SumC02(acts + [a]) == SumC02(acts) + a.totalC02
  {
    if |acts| == 0 {
      assert acts + [a] == [a];
      assert [a][1..] == [];
    } else {
      assert (acts + [a])[1..] == acts[1..] + [a];
      SumC02Snoc(acts[1..], a);
    }
  }

  /** `totalEmersion`: the total of the entry for `date`, 0 when there is none. */
  function DayTotal(days: seq<ClientDay>, date: string): (t: real)
    ensures FindDay(days, date).None? ==> t == 0.0
  {
    match FindDay(days, date)
    case None => 0.0
    case Some(i) => SumC02(days[i].activities)
  }

  /** The day total sums the day's activities. */
  lemma DayTotalIsSum(days: seq<ClientDay>, date: string)
    ensures DayTotal(days, date) == SumC02(DayActivities(days, date))
  {
  }

  /** Adding an activity raises that day's total by the activity's total. */
  lemma AddDayTotal(days: seq<ClientDay>, date: string, a: ClientActivity)
    ensures DayTotal(AddActivity(days, date, a), date) == DayTotal(days, date) + a.totalC02
  {
    DayTotalIsSum(days, date);
    DayTotalIsSum(AddActivity(days, date, a), date);
    SumC02Snoc(DayActivities(days, date), a);
  }

  /** Submitting raises that day's total by the rounded new emission. */
  lemma SubmitDayTotal(days: seq<ClientDay>, date: string, e: CatalogEntry, nameInput: string, q: real)
    ensures DayTotal(Submit(days, date, e, nameInput, Some(q)), date) == DayTotal(days, date) + Round2(q * e.co2Value)
  {
    var a := MakeActivity(e, nameInput, q);
    AddDayTotal(days, date, a);
    assert Submit(days, date, e, nameInput, Some(q)) == AddActivity(days, date, a);
  }

  /** Submitting leaves every other day's total. */
  lemma SubmitOtherTotal(days: seq<ClientDay>, date: string, e: CatalogEntry, nameInput: string, q: real, other: string)
    requires other != date
    ensures DayTotal(Submit(days, date, e, nameInput, Some(q)), other) == DayTotal(days, other)
  {
    AddOtherDate(days, date, MakeActivity(e, nameInput, q), other);
    DayTotalIsSum(days, other);
    DayTotalIsSum(Submit(days, date, e, nameInput, Some(q)), other);
  }

  /** An entry with `date` with no earlier one is what `find` returns. */
  lemma FindDayAt(days: seq<ClientDay>, date: string, i: nat)
    requires i < |days| && days[i].date == date
    requires forall j :: 0 <= j < i ==> days[j].date != date
    ensures FindDay(days, date) == Some(i)
  {
    var r := FindDay(days, date);
    assert r.Some?;
    assert !(r.value < i);
    assert !(i < r.value);
  }

  /** The activities of `acts` in category `c`, in order. */
  function ActivitiesIn(acts: seq<ClientActivity>, c: string): (r: seq<ClientActivity>)
    ensures |r| <= |acts|
    ensures forall k :: 0 <= k < |r| ==> r[k].category == c
    ensures forall a :: multiset(r)[a] == if a.category == c then multiset(acts)[a] else 0
  {
    if |acts| == 0 then []
    else
      assert acts == [acts[0]] + acts[1..];
      (if acts[0].category == c then [acts[0]] else []) + ActivitiesIn(acts[1..], c)
  }

  /** The filter keeps the original order: filtering a concatenation concatenates the filtered parts. */
  lemma {:induction false} ActivitiesInAppend(a: seq<ClientActivity>, b: seq<ClientActivity>, c: string)
    ensures ActivitiesIn(a + b, c) == ActivitiesIn(a, c) + ActivitiesIn(b, c)
  {
    if |a| == 0 {
      assert a + b == b;
    } else {
      var first := if a[0].category == c then [a[0]] else [];
      assert ActivitiesIn(a + b, c) == first + ActivitiesIn(a[1..] + b, c) by {
        assert (a + b)[0] == a[0] && (a + b)[1..] == a[1..] + b;
      }
      ActivitiesInAppend(a[1..], b, c);
      ConcatAssoc(first, ActivitiesIn(a[1..], c), ActivitiesIn(b, c));
    }
  }

  lemma ConcatAssoc<T>(x: seq<T>, y: seq<T>, z: seq<T>)
    ensures x + (y + z) == (x + y) + z
  {
  }

  /** One activity is kept exactly when it is in the category; with `ActivitiesInAppend` this fixes
      the filter as the order-preserving selection of the category's activities. */
  lemma ActivitiesInSingle(x: ClientActivity, c: string)
    ensures ActivitiesIn([x], c) == if x.category == c then [x] else []
  {
    assert [x][1..] == [];
  }

  /** The view of one date's activities: nothing without an entry, the whole entry for `All-Categories`,
      otherwise the entry restricted to `category`. */
  function FilterActivities(days: seq<ClientDay>, date: string, category: string): (r: seq<ClientDay>)
    ensures FindDay(days, date).None? <==> r == []
    ensures |r| <= 1
    ensures |r| == 1 ==> r[0].date == date
    ensures |r| == 1 && category == AllCategories ==> r[0] == days[FindDay(days, date).value]
    ensures |r| == 1 && category != AllCategories ==>
              r[0].activities == ActivitiesIn(days[FindDay(days, date).value].activities, category)
  {
    match FindDay(days, date)
    case None => []
    case Some(i) =>
      if category == AllCategories then [days[i]]
      else [ClientDay(date, ActivitiesIn(days[i].activities, category))]
  }

  /** Total of the filter's single entry, 0 when there is none. */
  function FilteredTotal(days: seq<ClientDay>, date: string, category: string): real {
    var r := FilterActivities(days, date, category);
    if |r| == 0 then 0.0 else SumC02(r[0].activities)
  }

  /** Every activity is in one of the listed categories. */
  predicate KnownCategories(acts: seq<ClientActivity>, cats: seq<string>) {
    forall k :: 0 <= k < |acts| ==> acts[k].category in cats
  }

  /** The totals of the categories in `cats` added up. */
  function SumOverCategories(acts: seq<ClientActivity>, cats: seq<string>): real {
    if |cats| == 0 then 0.0 else SumC02(ActivitiesIn(acts, cats[0])) + SumOverCategories(acts, cats[1..])
  }

  lemma {:induction false} SumC02Append(a: seq<ClientActivity>, b: seq<ClientActivity>)
    ensures SumC02(a + b) == SumC02(a) + SumC02(b)
  {
    if |a| == 0 {
      assert a + b == b;
    } else {
      assert (a + b)[1..] == a[1..] + b;
      SumC02Append(a[1..], b);
    }
  }

  /** One activity's share over distinct categories: its total once, through its own category. */
  lemma {:induction false} ShareOverCategories(a: ClientActivity, cats: seq<string>)
    requires forall i, j :: 0 <= i < j < |cats| ==> cats[i] != cats[j]
    ensures SumOverCategories([a], cats) == if a.category in cats then a.totalC02 else 0.0
  {
    if |cats| > 0 {
      var c, rest := cats[0], cats[1..];
      SingleShare(a, c);
      DistinctTail(cats);
      ShareOverCategories(a, rest);
      assert a.category in cats <==> a.category == c || a.category in rest by {
        assert cats == [c] + rest;
      }
    }
  }

  lemma SingleShare(a: ClientActivity, c: string)
    ensures SumC02(ActivitiesIn([a], c)) == if a.category == c then a.totalC02 else 0.0
  {
    assert [a][1..] == [];
  }

  lemma DistinctTail(cats: seq<string>)
    requires |cats| > 0
    requires forall i, j :: 0 <= i < j < |cats| ==> cats[i] != cats[j]
    ensures forall i, j :: 0 <= i < j < |cats[1..]| ==> cats[1..][i] != cats[1..][j]
    ensures cats[0] !in cats[1..]
  {
    assert forall i :: 0 <= i < |cats[1..]| ==> cats[1..][i] == cats[i + 1];
  }

  /** Splitting a list at the front splits every category's total. */
  lemma {:induction false} SumOverCategoriesCons(acts: seq<ClientActivity>, cats: seq<string>)
    requires |acts| > 0
    ensures SumOverCategories(acts, cats) == SumOverCategories([acts[0]], cats) + SumOverCategories(acts[1..], cats)
  {
    if |cats| > 0 {
      SumOverCategoriesCons(acts, cats[1..]);
      assert [acts[0]][1..] == [];
      var c := cats[0];
      assert ActivitiesIn([acts[0]], c) == (if acts[0].category == c then [acts[0]] else []);
      assert ActivitiesIn(acts, c) == ActivitiesIn([acts[0]], c) + ActivitiesIn(acts[1..], c);
      SumC02Append(ActivitiesIn([acts[0]], c), ActivitiesIn(acts[1..], c));
    }
  }

  /** The category totals of activities in distinct known categories add up to their whole total. */
  lemma {:induction false} CategoriesPartitionTotal(acts: seq<ClientActivity>, cats: seq<string>)
    requires forall i, j :: 0 <= i < j < |cats| ==> cats[i] != cats[j]
    requires KnownCategories(acts, cats)
    ensures SumOverCategories(acts, cats) == SumC02(acts)
  {
    if |acts| == 0 {
      EmptyOverCategories(cats);
    } else {
      SumOverCategoriesCons(acts, cats);
      ShareOverCategories(acts[0], cats);
      assert KnownCategories(acts[1..], cats) by {
        forall k | 0 <= k < |acts[1..]| ensures acts[1..][k].category in cats {
          assert acts[1..][k] == acts[k + 1];
        }
      }
      CategoriesPartitionTotal(acts[1..], cats);
    }
  }

  lemma {:induction false} EmptyOverCategories(cats: seq<string>)
    ensures SumOverCategories([], cats) == 0.0
  {
    if |cats| > 0 {
      EmptyOverCategories(cats[1..]);
    }
  }

  /** Activities built from catalog entries have known categories, and submitting keeps that so. */
  lemma SubmitKnownCategories(days: seq<ClientDay>, date: string, e: CatalogEntry, nameInput: string, q: real)
    requires e in Catalog
    requires forall j :: 0 <= j < |days| ==> KnownCategories(days[j].activities, Categories)
    ensures forall j :: 0 <= j < |Submit(days, date, e, nameInput, Some(q))| ==>
              KnownCategories(Submit(days, date, e, nameInput, Some(q))[j].activities, Categories)
  {
    var r := Submit(days, date, e, nameInput, Some(q));
    assert e.category in Categories;
    forall j, k | 0 <= j < |r| && 0 <= k < |r[j].activities| ensures r[j].activities[k].category in Categories {
      if j < |days| && k < |days[j].activities| {
        assert r[j].activities[k] == days[j].activities[k];
      }
    }
  }

  /** The four category totals of a day's activities. */
  lemma FourCategories(acts: seq<ClientActivity>)
    ensures SumOverCategories(acts, Categories) ==
            SumC02(ActivitiesIn(acts, "transport")) + SumC02(ActivitiesIn(acts, "food"))
            + SumC02(ActivitiesIn(acts, "energy")) + SumC02(ActivitiesIn(acts, "waste"))
  {
    var c := Categories;
    assert c[1..] == ["food", "energy", "waste"] && c[1..][1..] == ["energy", "waste"];
    assert c[1..][1..][1..] == ["waste"] && c[1..][1..][1..][1..] == [];
    assert SumOverCategories(acts, ["waste"]) == SumC02(ActivitiesIn(acts, "waste"));
    assert SumOverCategories(acts, ["energy", "waste"]) ==
           SumC02(ActivitiesIn(acts, "energy")) + SumOverCategories(acts, ["waste"]);
    assert SumOverCategories(acts, ["food", "energy", "waste"]) ==
           SumC02(ActivitiesIn(acts, "food")) + SumOverCategories(acts, ["energy", "waste"]);
  }

  /** With a category filter, the filter's total is the total of that category's activities of the day. */
  lemma FilteredTotalOf(days: seq<ClientDay>, date: string, c: string)
    requires c != AllCategories
    requires FindDay(days, date).Some?
    ensures FilteredTotal(days, date, c) == SumC02(ActivitiesIn(days[FindDay(days, date).value].activities, c))
  {
  }

  /** With every activity in a known category, the four category filters' totals add up to the day total. */
  lemma FilterPartitionsDay(days: seq<ClientDay>, date: string)
    requires forall j :: 0 <= j < |days| ==> KnownCategories(days[j].activities, Categories)
    ensures FilteredTotal(days, date, "transport") + FilteredTotal(days, date, "food")
            + FilteredTotal(days, date, "energy") + FilteredTotal(days, date, "waste") == DayTotal(days, date)
    ensures FilteredTotal(days, date, AllCategories) == DayTotal(days, date)
  {
    match FindDay(days, date)
    case None =>
    case Some(i) =>
      var acts := days[i].activities;
      CategoriesPartitionTotal(acts, Categories);
      FourCategories(acts);
      FilteredTotalOf(days, date, "transport");
      FilteredTotalOf(days, date, "food");
      FilteredTotalOf(days, date, "energy");
      FilteredTotalOf(days, date, "waste");
  }
}
