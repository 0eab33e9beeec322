/** The MongoDB `$group` stage with `$sum` and a row count, modelled as a left fold over the
    unwound rows that keeps groups in first-appearance order. */
module Grouping {
  import opened Wrappers

  /** One output document of `$group`: the `_id`, the `$sum` of the values and the number of rows. */
  datatype Bucket<K> = Bucket(key: K, sum: real, count: nat)

  // ---------------------------------------------------------------------------
  // Reference reductions over the input rows

  /** Sum of the values of the rows with key `k`. */
  function SumOf<K(==)>(xs: seq<(K, real)>, k: K): real {
    if |xs| == 0 then 0.0 else (if xs[0].0 == k then xs[0].1 else 0.0) + SumOf(xs[1..], k)
  }

  /** Number of rows with key `k`. */
  function CountOf<K(==)>(xs: seq<(K, real)>, k: K): nat {
    if |xs| == 0 then 0 else (if xs[0].0 == k then 1 else 0) + CountOf(xs[1..], k)
  }

  /** Sum of all values. */
  function SumAll<K>(xs: seq<(K, real)>): real {
    if |xs| == 0 then 0.0 else xs[0].1 + SumAll(xs[1..])
  }

  /** The keys that occur in the rows. */
  function KeySet<K>(xs: seq<(K, real)>): set<K> {
    set i | 0 <= i < |xs| :: xs[i].0
  }

  lemma {:induction false} AppendRows<K>(xs: seq<(K, real)>, ys: seq<(K, real)>)
    ensures forall k :: SumOf(xs + ys, k) == SumOf(xs, k) + SumOf(ys, k)
    ensures forall k :: CountOf(xs + ys, k) == CountOf(xs, k) + CountOf(ys, k)
    ensures SumAll(xs + ys) == SumAll(xs) + SumAll(ys)
  {
    if |xs| == 0 {
      assert xs + ys == ys;
    } else {
      assert (xs + ys)[1..] == xs[1..] + ys;
      AppendRows(xs[1..], ys);
    }
  }

  /** The effect of one more row on the reference reductions. */
  lemma SnocRow<K>(xs: seq<(K, real)>, x: (K, real))
    ensures forall k :: SumOf(xs + [x], k) == SumOf(xs, k) + (if x.0 == k then x.1 else 0.0)
    ensures forall k :: CountOf(xs + [x], k) == CountOf(xs, k) + (if x.0 == k then 1 else 0)
    ensures SumAll(xs + [x]) == SumAll(xs) + x.1
  {
    AppendRows(xs, [x]);
    assert [x][1..] == [];
    forall k
      ensures SumOf([x], k) == (if x.0 == k then x.1 else 0.0)
      ensures CountOf([x], k) == (if x.0 == k then 1 else 0)
    {
    }
    var s := xs + [x];
  }

  /** One more row adds its key to the key set. */
  lemma SnocKey<K>(xs: seq<(K, real)>, x: (K, real))
    ensures KeySet(xs + [x]) == KeySet(xs) + {x.0}
  {
    var s := xs + [x];
    assert forall i :: 0 <= i < |xs| ==> s[i] == xs[i];
    assert s[|xs|] == x;
  }

  /** A key that does not occur contributes nothing. */
  lemma {:induction false} AbsentKey<K>(xs: seq<(K, real)>, k: K)
    requires k !in KeySet(xs)
    ensures SumOf(xs, k) == 0.0 && CountOf(xs, k) == 0
  {
    if |xs| > 0 {
      assert xs[0].0 in KeySet(xs);
      assert KeySet(xs[1..]) <= KeySet(xs) by {
        forall y | y in KeySet(xs[1..]) ensures y in KeySet(xs) {
          var i :| 0 <= i < |xs[1..]| && xs[1..][i].0 == y;
          assert xs[i + 1].0 == y;
        }
      }
      AbsentKey(xs[1..], k);
    }
  }

  // ---------------------------------------------------------------------------
  // The fold

  /** The keys of the groups built so far. */
  function BucketKeys<K>(bs: seq<Bucket<K>>): set<K> {
    set i | 0 <= i < |bs| :: bs[i].key
  }

  /** No key has two groups. */
  predicate DistinctKeys<K(==)>(bs: seq<Bucket<K>>) {
    forall i, j :: 0 <= i < j < |bs| ==> bs[i].key != bs[j].key
  }

  /** Sum of the groups' sums. */
  function BucketTotal<K>(bs: seq<Bucket<K>>): real {
    if |bs| == 0 then 0.0 else bs[0].sum + BucketTotal(bs[1..])
  }

  /** The position of the group with key `k`, if there is one. */
  function FindKey<K(==)>(bs: seq<Bucket<K>>, k: K): (r: Option<nat>)
    ensures r.Some? ==> r.value < |bs| && bs[r.value].key == k
    ensures r.None? <==> k !in BucketKeys(bs)
  {
    if |bs| == 0 then None
    else if bs[0].key == k then Some(0)
    else match FindKey(bs[1..], k)
      case None =>
        assert forall i :: 0 < i < |bs| ==> bs[i] == bs[1..][i - 1];
        None
      case Some(j) => Some(j + 1)
  }

  /** Feeds one row into the groups: its key's group grows, or a new group is appended at the end. */
  function Add<K(==)>(bs: seq<Bucket<K>>, k: K, v: real): (r: seq<Bucket<K>>)
    requires DistinctKeys(bs)
    ensures DistinctKeys(r)
    ensures |r| == (if k in BucketKeys(bs) then |bs| else |bs| + 1)
    ensures forall i :: 0 <= i < |bs| ==> r[i].key == bs[i].key
    ensures forall i :: 0 <= i < |bs| ==> r[i].sum == bs[i].sum + (if bs[i].key == k then v else 0.0)
    ensures forall i :: 0 <= i < |bs| ==> r[i].count == bs[i].count + (if bs[i].key == k then 1 else 0)
    ensures k !in BucketKeys(bs) ==> r[|bs|] == Bucket(k, v, 1)
    ensures BucketKeys(r) == BucketKeys(bs) + {k}
  {
    match FindKey(bs, k)
    case Some(i) =>
      var r := bs[i := bs[i].(sum := bs[i].sum + v, count := bs[i].count + 1)];
      assert BucketKeys(r) == BucketKeys(bs) by {
        assert forall j :: 0 <= j < |bs| ==> r[j].key == bs[j].key;
      }
      r
    case None =>
      var r := bs + [Bucket(k, v, 1)];
      assert BucketKeys(r) == BucketKeys(bs) + {k} by {
        assert forall j :: 0 <= j < |bs| ==> r[j] == bs[j];
        assert r[|bs|].key == k;
      }
      r
  }

  lemma {:induction false} BucketTotalUpdate<K>(bs: seq<Bucket<K>>, i: nat, b: Bucket<K>)
    requires i < |bs|
    ensures BucketTotal(bs[i := b]) == BucketTotal(bs) - bs[i].sum + b.sum
  {
    if i > 0 {
      assert bs[i := b][1..] == bs[1..][i - 1 := b];
      BucketTotalUpdate(bs[1..], i - 1, b);
    }
  }

  lemma {:induction false} BucketTotalSnoc<K>(bs: seq<Bucket<K>>, b: Bucket<K>)
    ensures BucketTotal(bs + [b]) == BucketTotal(bs) + b.sum
  {
    if |bs| == 0 {
      assert [] + [b] == [b];
      assert [b][1..] == [];
    } else {
      assert (bs + [b])[1..] == bs[1..] + [b];
      BucketTotalSnoc(bs[1..], b);
    }
  }

  /** A row's value is added to the grand total of the groups exactly once. */
  lemma AddTotal<K>(bs: seq<Bucket<K>>, k: K, v: real)
    requires DistinctKeys(bs)
    ensures BucketTotal(Add(bs, k, v)) == BucketTotal(bs) + v
  {
    match FindKey(bs, k)
    case Some(i) =>
      BucketTotalUpdate(bs, i, bs[i].(sum := bs[i].sum + v, count := bs[i].count + 1));
    case None =>
      BucketTotalSnoc(bs, Bucket(k, v, 1));
  }

  /** `$group` over the rows, in first-appearance order of the keys: one group per distinct key. */
  function Group<K(==)>(xs: seq<(K, real)>): (r: seq<Bucket<K>>)
    ensures DistinctKeys(r)
    ensures BucketKeys(r) == KeySet(xs)
    ensures forall i :: 0 <= i < |r| ==> r[i].count >= 1
  {
    if |xs| == 0 then []
    else
      var init := xs[..|xs| - 1];
      var x := xs[|xs| - 1];
      assert xs == init + [x];
      SnocKey(init, x);
      Add(Group(init), x.0, x.1)
  }

  /** There are exactly as many groups as distinct keys. */
  lemma {:induction false} GroupCount<K>(xs: seq<(K, real)>)
    ensures |Group(xs)| == |KeySet(xs)|
  {
    if |xs| > 0 {
      var init := xs[..|xs| - 1];
      var x := xs[|xs| - 1];
      assert xs == init + [x];
      SnocKey(init, x);
      GroupCount(init);
      var g := Group(init);
      assert Group(xs) == Add(g, x.0, x.1);
      if x.0 in KeySet(init) {
        assert KeySet(xs) == KeySet(init);
      } else {
        assert |KeySet(init) + {x.0}| == |KeySet(init)| + 1;
      }
    }
  }

  /** Each group holds the sum and the number of the rows with its key, and the groups together
      hold the sum of all rows. */
  lemma {:induction false} GroupSums<K>(xs: seq<(K, real)>)
    ensures forall i :: 0 <= i < |Group(xs)| ==> Group(xs)[i].sum == SumOf(xs, Group(xs)[i].key)
    ensures forall i :: 0 <= i < |Group(xs)| ==>
      Group(xs)[i].count == CountOf(xs, Group(xs)[i].key) && Group(xs)[i].count >= 1
    ensures BucketTotal(Group(xs)) == SumAll(xs)
  {
    if |xs| > 0 {
      var init := xs[..|xs| - 1];
      var x := xs[|xs| - 1];
      assert xs == init + [x];
      var g := Group(init);
      var r := Group(xs);
      assert r == Add(g, x.0, x.1);
      GroupSums(init);
      SnocRow(init, x);
      AddTotal(g, x.0, x.1);
      forall i | 0 <= i < |r|
        ensures r[i].sum == SumOf(xs, r[i].key)
        ensures r[i].count == CountOf(xs, r[i].key) && r[i].count >= 1
      {
        if i == |g| {
          AbsentKey(init, x.0);
        }
      }
    }
  }

  // ---------------------------------------------------------------------------
  // Grouping twice: first by a pair key, then by its first component

  /** Changing one row changes the reductions by the difference it makes. */
  lemma {:induction false} UpdateRow<K>(xs: seq<(K, real)>, i: nat, y: (K, real))
    requires i < |xs|
    ensures forall k :: SumOf(xs[i := y], k) ==
                        SumOf(xs, k) - (if xs[i].0 == k then xs[i].1 else 0.0) + (if y.0 == k then y.1 else 0.0)
    ensures forall k :: CountOf(xs[i := y], k) ==
                        CountOf(xs, k) - (if xs[i].0 == k then 1 else 0) + (if y.0 == k then 1 else 0)
  {
    if i > 0 {
      assert xs[i := y][1..] == xs[1..][i - 1 := y];
      UpdateRow(xs[1..], i - 1, y);
    }
  }

  /** The rows the second `$group` receives: each first-stage group re-keyed by the first component
      of its key, carrying its sum. */
  function Regroup<A, B>(bs: seq<Bucket<(A, B)>>): (r: seq<(A, real)>)
    ensures |r| == |bs|
    ensures forall i :: 0 <= i < |bs| ==> r[i] == (bs[i].key.0, bs[i].sum)
  {
    seq(|bs|, i requires 0 <= i < |bs| => (bs[i].key.0, bs[i].sum))
  }

  /** The input rows re-keyed by the first component of their key. */
  function Project<A, B>(xs: seq<((A, B), real)>): (r: seq<(A, real)>)
    ensures |r| == |xs|
    ensures forall i :: 0 <= i < |xs| ==> r[i] == (xs[i].0.0, xs[i].1)
  {
    seq(|xs|, i requires 0 <= i < |xs| => (xs[i].0.0, xs[i].1))
  }

  /** The second components that occur together with the first component `a`. */
  function Seconds<A(==), B(==)>(ks: set<(A, B)>, a: A): set<B> {
    set p | p in ks && p.0 == a :: p.1
  }

  /** The first components of a set of pair keys. */
  function Firsts<A(==), B(==)>(ks: set<(A, B)>): set<A> {
    set p | p in ks :: p.0
  }

  /** Regrouping the pair-keyed groups gives each first component the sum of its rows. */
  lemma {:induction false} RegroupSums<A, B>(xs: seq<((A, B), real)>)
    ensures forall a :: SumOf(Regroup(Group(xs)), a) == SumOf(Project(xs), a)
  {
    if |xs| > 0 {
      var init := xs[..|xs| - 1];
      var x := xs[|xs| - 1];
      assert xs == init + [x];
      RegroupSums(init);
      assert Project(xs) == Project(init) + [(x.0.0, x.1)];
      SnocRow(Project(init), (x.0.0, x.1));
      assert Group(xs) == Add(Group(init), x.0, x.1);
      RegroupAdd(Group(init), x.0, x.1);
    }
  }

  /** Regrouping the pair-keyed groups counts, for each first component, its distinct second components. */
  lemma {:induction false} RegroupCounts<A, B>(xs: seq<((A, B), real)>)
    ensures forall a :: CountOf(Regroup(Group(xs)), a) == |Seconds(KeySet(xs), a)|
  {
    if |xs| > 0 {
      var init := xs[..|xs| - 1];
      var x := xs[|xs| - 1];
      assert xs == init + [x];
      RegroupCounts(init);
      SnocKey(init, x);
      assert Group(xs) == Add(Group(init), x.0, x.1);
      RegroupAdd(Group(init), x.0, x.1);
      if x.0 in KeySet(init) {
        assert KeySet(xs) == KeySet(init);
      } else {
        forall a ensures CountOf(Regroup(Group(xs)), a) == |Seconds(KeySet(xs), a)| {
          SecondsSnoc(KeySet(init), x.0, a);
        }
      }
    }
  }

  /** One more row changes the regrouped sums by its value, and the regrouped counts only for a new pair key. */
  lemma RegroupAdd<A, B>(g: seq<Bucket<(A, B)>>, k: (A, B), v: real)
    requires DistinctKeys(g)
    ensures forall a :: SumOf(Regroup(Add(g, k, v)), a) == SumOf(Regroup(g), a) + (if k.0 == a then v else 0.0)
    ensures forall a :: CountOf(Regroup(Add(g, k, v)), a) ==
                        CountOf(Regroup(g), a) + (if k !in BucketKeys(g) && k.0 == a then 1 else 0)
  {
    var r := Add(g, k, v);
    match FindKey(g, k)
    case Some(i) =>
      assert r == g[i := g[i].(sum := g[i].sum + v, count := g[i].count + 1)];
      assert Regroup(r) == Regroup(g)[i := (k.0, g[i].sum + v)];
      UpdateRow(Regroup(g), i, (k.0, g[i].sum + v));
    case None =>
      assert Regroup(r) == Regroup(g) + [(k.0, v)];
      SnocRow(Regroup(g), (k.0, v));
  }

  /** Adding a new pair key adds its second component to exactly its first component's set. */
  lemma SecondsSnoc<A, B>(ks: set<(A, B)>, k: (A, B), a: A)
    requires k !in ks
    ensures |Seconds(ks + {k}, a)| == |Seconds(ks, a)| + (if k.0 == a then 1 else 0)
  {
    if k.0 == a {
      assert Seconds(ks + {k}, a) == Seconds(ks, a) + {k.1};
      assert k.1 !in Seconds(ks, a);
    } else {
      assert Seconds(ks + {k}, a) == Seconds(ks, a);
    }
  }

  /** Re-keying rows keeps their grand total and maps their key set to its first components. */
  lemma ProjectKeys<A, B>(xs: seq<((A, B), real)>)
    ensures KeySet(Project(xs)) == Firsts(KeySet(xs))
  {
    var p := Project(xs);
    forall a | a in Firsts(KeySet(xs)) ensures a in KeySet(p) {
      var q :| q in KeySet(xs) && q.0 == a;
      var i :| 0 <= i < |xs| && xs[i].0 == q;
      assert p[i].0 == a;
    }
  }

  /** Re-keying rows keeps their grand total. */
  lemma {:induction false} ProjectTotal<A, B>(xs: seq<((A, B), real)>)
    ensures SumAll(Project(xs)) == SumAll(xs)
  {
    if |xs| > 0 {
      assert Project(xs)[1..] == Project(xs[1..]);
      ProjectTotal(xs[1..]);
    }
  }

  /** Regrouping the pair-keyed groups yields exactly the first components of the pair keys. */
  lemma RegroupKeys<A, B>(xs: seq<((A, B), real)>)
    ensures KeySet(Regroup(Group(xs))) == Firsts(KeySet(xs))
  {
    var g := Group(xs);
    var rg := Regroup(g);
    forall a | a in Firsts(KeySet(xs)) ensures a in KeySet(rg) {
      var q :| q in KeySet(xs) && q.0 == a;
      assert q in BucketKeys(g);
      var i :| 0 <= i < |g| && g[i].key == q;
      assert rg[i].0 == a;
    }
    forall a | a in KeySet(rg) ensures a in Firsts(KeySet(xs)) {
      var i :| 0 <= i < |rg| && rg[i].0 == a;
      assert g[i].key in BucketKeys(g);
    }
  }
}
