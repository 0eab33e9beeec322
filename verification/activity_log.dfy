/** The `ActivityItem` and `ActivityLog` documents, their required-field validation, and the store of day logs. */
module ActivityLog {
  import opened Wrappers
  import opened Time

  /** An ObjectId: every log and every item has its own. */
  type Id = nat
  /** The authenticated user's id, opaque to this model. */
  type UserId = nat

  /** A stored, validated activity item. `activity` and `unit` are the schema's optional strings. */
  datatype Item = Item(
    id: Id,
    name: string,
    activity: Option<string>,
    category: string,
    unit: Option<string>,
    quantity: real,
    co2Value: real,
    totalCO2: real)

  /** A stored day log: the owner, the date it is filed under, and its items in insertion order. */
  datatype DayLog = DayLog(id: Id, user: UserId, date: int, activities: seq<Item>)

  /** The collection of day logs, in natural (insertion) order. */
  type Store = seq<DayLog>

  /** An item document as a handler builds it, before the schema casts and validates it.
      A number field is `None` when the value the handler put there is NaN. */
  datatype ItemDoc = ItemDoc(
    name: Option<string>,
    activity: Option<string>,
    category: Option<string>,
    unit: Option<string>,
    quantity: Option<real>,
    co2Value: Option<real>,
    totalCO2: Option<real>)

  /** Why saving a document failed. */
  datatype SchemaError = MissingRequired

  /** A `required: true` string is satisfied by a non-empty string only (JavaScript falsiness). */
  predicate Present(s: Option<string>) {
    s.Some? && s.value != ""
  }

  /** The item schema's required fields: `name`, `category`, `quantity`, `co2Value`, `totalCO2`. */
  predicate ItemDocValid(d: ItemDoc) {
    && Present(d.name)
    && Present(d.category)
    && d.quantity.Some?
    && d.co2Value.Some?
    && d.totalCO2.Some?
  }

  /** Casts a built document into a stored item carrying the generated id `id`, or refuses it. */
  function CastItem(id: Id, d: ItemDoc): (r: Result<Item, SchemaError>)
    ensures r.Ok? <==> ItemDocValid(d)
    ensures r.Ok? ==> r.value.id == id
    ensures r.Ok? ==> Some(r.value.name) == d.name && Some(r.value.category) == d.category
    ensures r.Ok? ==> r.value.activity == d.activity && r.value.unit == d.unit
    ensures r.Ok? ==> Some(r.value.quantity) == d.quantity && Some(r.value.co2Value) == d.co2Value
    ensures r.Ok? ==> Some(r.value.totalCO2) == d.totalCO2
  {
    if ItemDocValid(d) then
      Ok(Item(id, d.name.value, d.activity, d.category.value, d.unit,
              d.quantity.value, d.co2Value.value, d.totalCO2.value))
    else Err(MissingRequired)
  }

  /** Sum of the stored `totalCO2` of a sequence of items (the `$sum` over unwound activities). */
  function SumTotals(items: seq<Item>): real {
    if |items| == 0 then 0.0 else items[0].totalCO2 + SumTotals(items[1..])
  }

  /** Summing a concatenation sums the parts. */
  lemma {:induction false} SumTotalsAppend(a: seq<Item>, b: seq<Item>)
    ensures SumTotals(a + b) == SumTotals(a) + SumTotals(b)
  {
    if |a| == 0 {
      assert a + b == b;
    } else {
      assert (a + b)[1..] == a[1..] + b;
      SumTotalsAppend(a[1..], b);
    }
  }

  /** Total stored emissions of one log. */
  function LogTotal(l: DayLog): real {
    SumTotals(l.activities)
  }

  /** The item ids of a log's activities. */
  function ItemIds(items: seq<Item>): set<Id> {
    set k | 0 <= k < |items| :: items[k].id
  }

  /** The index-based uniqueness of ObjectIds within one log's activities. */
  predicate DistinctItemIds(items: seq<Item>) {
    forall j, k :: 0 <= j < k < |items| ==> items[j].id != items[k].id
  }

  /** `_id` is unique across the collection (MongoDB enforces this for every collection). */
  predicate DistinctLogIds(s: Store) {
    forall i, j :: 0 <= i < j < |s| ==> s[i].id != s[j].id
  }

  /** At most one log per (user, date). The index on (user, date) is declared `unique: false`, so the
      store does NOT enforce this; it is a property the handlers may or may not preserve. */
  predicate UniqueDays(s: Store) {
    forall i, j :: 0 <= i < j < |s| ==> !(s[i].user == s[j].user && s[i].date == s[j].date)
  }

  /** No log without activities (what the delete handler is meant to maintain). */
  predicate NoEmptyLogs(s: Store) {
    forall i :: 0 <= i < |s| ==> |s[i].activities| > 0
  }

  /** Every log is filed under a UTC midnight. */
  predicate NormalizedDates(s: Store) {
    forall i :: 0 <= i < |s| ==> IsMidnight(s[i].date)
  }

  /** Every stored item's total is the product of its quantity and factor. */
  predicate TotalsConsistent(s: Store) {
    forall i, k :: 0 <= i < |s| && 0 <= k < |s[i].activities| ==> ItemConsistent(s[i].activities[k])
  }

  /** The item's stored total is its quantity times its factor. */
  predicate ItemConsistent(it: Item) {
    it.totalCO2 == it.quantity * it.co2Value
  }

  /** Optional inclusive bounds on a log's date (`$gte` / `$lte`). */
  datatype Window = Window(lo: Option<int>, hi: Option<int>)

  /** The `date` filter a handler builds from the optional `from` / `to` query parameters:
      each given bound is first truncated to its UTC midnight. */
  function QueryWindow(from: Option<int>, to: Option<int>): (w: Window)
    ensures w.lo.Some? <==> from.Some?
    ensures w.hi.Some? <==> to.Some?
    ensures w.lo.Some? ==> w.lo.value == StartOfDay(from.value)
    ensures w.hi.Some? ==> w.hi.value == StartOfDay(to.value)
  {
    Window(
      if from.Some? then Some(StartOfDay(from.value)) else None,
      if to.Some? then Some(StartOfDay(to.value)) else None)
  }

  /** `date` satisfies every bound the window has. */
  predicate InWindow(date: int, w: Window) {
    && (w.lo.None? || w.lo.value <= date)
    && (w.hi.None? || date <= w.hi.value)
  }
}
