/**
 * How bad the greedy deal of scripts/e2e-shard.py can be: for any number of shards there are specs whose greedy split
 * weighs exactly Graham's ratio times the best one.
 *
 * For m shards these are two specs of each whole weight from 2m - 1 down to m, and a third of weight m.
 */
module ShardLimit {
  import opened Sums
  import opened Sorting
  import opened Shard

  function Size(m: nat, i: nat): nat {
    if i < 2 * m then 2 * m - 1 - i / 2 else m
  }

  function Listing(m: nat): seq<nat> {
    seq(2 * m + 1, i requires 0 <= i => i)
  }

  function Timings(m: nat): seq<(nat, real)> {
    seq(2 * m + 1, i requires 0 <= i => (i, Size(m, i) as real))
  }

  function Jobs(m: nat): (order: seq<Spec>)
    ensures |order| == 2 * m + 1
  {
    seq(2 * m + 1, i requires 0 <= i => Spec(i, Size(m, i) as real))
  }

  // ---- what the program makes of them ---------------------------------------------------

  lemma {:induction false} RecordedFrom(m: nat, i: nat, j: nat, fallback: real)
    requires j <= i < 2 * m + 1
    ensures Recorded(i, Timings(m)[j..], fallback) == Size(m, i) as real
    decreases i - j
  {
    if j < i {
      RecordedFrom(m, i, j + 1, fallback);
      assert Timings(m)[j..][1..] == Timings(m)[j + 1..];
    }
  }

  lemma WeighedAre(m: nat)
    ensures Weighed(Listing(m), Timings(m)) == Jobs(m)
  {
    forall i | 0 <= i < 2 * m + 1 ensures Weighed(Listing(m), Timings(m))[i] == Jobs(m)[i] {
      RecordedFrom(m, i, 0, Fallback(Timings(m)));
      assert Timings(m)[0..] == Timings(m);
    }
  }

  lemma Ordered(m: nat)
    ensures SortedBy(Listing(m), NameOrder) && SortedBy(Jobs(m), Before)
  {}

  lemma SplitIsDeal(m: nat)
    requires m > 0
    ensures Split(Listing(m), Timings(m), m) == Deal(Jobs(m), m)
  {
    var listing, order := Listing(m), Jobs(m);
    WeighedAre(m);
    Ordered(m);
    SortedStays(listing, NameOrder);
    SortedStays(order, Before);
  }

  // ---- the greedy deal --------------------------------------------------------------------

  /** After m + j jobs, the shards that have only one. */
  predicate Open(m: nat, j: nat, k: nat) {
    var last := m - 1 - j;
    if last % 2 == 1 || j == 0 then k <= last else k < last || k == last + 1
  }

  function LoadAt(m: nat, n: nat, k: nat): real
    requires k < m
  {
    if n <= m then (if k < n then Size(m, k) as real else 0.0)
    else if Open(m, n - m, k) then Size(m, k) as real
    else (3 * m - 1) as real
  }

  function LoadsAt(m: nat, n: nat): (load: seq<real>)
    ensures |load| == m
  {
    seq(m, k requires 0 <= k < m => LoadAt(m, n, k))
  }

  /** Where the next job goes. */
  function Target(m: nat, n: nat): (k: nat)
    requires n < 2 * m
    ensures k < m
  {
    if n < m then n
    else
      var last := 2 * m - 1 - n;
      if last % 2 == 1 then last - 1 else if n == m then last else last + 1
  }

  lemma LightestIs(load: seq<real>, k: nat)
    requires k < |load|
    requires forall i :: 0 <= i < k ==> load[k] < load[i]
    requires forall i :: k <= i < |load| ==> load[k] <= load[i]
    ensures Lightest(load) == k
  {
    LightestIsFirstLeast(load);
  }

  lemma TargetIsLightest(m: nat, n: nat)
    requires n < 2 * m
    ensures Lightest(LoadsAt(m, n)) == Target(m, n)
  {
    var k := Target(m, n);
    forall i | 0 <= i < m
      ensures if i < k then LoadAt(m, n, k) < LoadAt(m, n, i) else LoadAt(m, n, k) <= LoadAt(m, n, i)
    {
      if n >= m {
        TargetIsOpen(m, n - m);
        OpenIsHeavier(m, n - m, i);
      }
    }
    LightestIs(LoadsAt(m, n), k);
  }

  lemma TargetIsOpen(m: nat, j: nat)
    requires j < m
    ensures Open(m, j, Target(m, m + j))
    ensures Size(m, Target(m, m + j)) + Size(m, m + j) == 3 * m - 1
  {}

  lemma OpenIsHeavier(m: nat, j: nat, i: nat)
    requires j < m && i < m
    ensures
      var k := Target(m, m + j);
      Open(m, j, i) ==> if i < k then Size(m, k) < Size(m, i) else Size(m, k) <= Size(m, i)
  {}

  lemma Next(m: nat, n: nat)
    requires n < 2 * m
    ensures
      var k := Target(m, n);
      LoadsAt(m, n)[k := LoadsAt(m, n)[k] + Size(m, n) as real] == LoadsAt(m, n + 1)
  {
    var k := Target(m, n);
    forall i | 0 <= i < m
      ensures LoadAt(m, n + 1, i) == if i == k then LoadAt(m, n, k) + Size(m, n) as real else LoadAt(m, n, i)
    {
      if n >= m {
        TargetIsOpen(m, n - m);
        OpenNext(m, n - m, i);
      }
    }
  }

  /** The shard just dealt to is the only one that is not open any more. */
  lemma OpenNext(m: nat, j: nat, i: nat)
    requires j < m && i < m
    ensures Open(m, j + 1, i) <==> Open(m, j, i) && i != Target(m, m + j)
  {}

  lemma DealtNext(m: nat, n: nat, sofar: seq<seq<Spec>>, x: Spec)
    requires n < 2 * m && |sofar| == m && Loads(sofar) == LoadsAt(m, n) && x.seconds == Size(m, n) as real
    ensures Loads(DealOne(sofar, x)) == LoadsAt(m, n + 1)
  {
    DealOneLoads(sofar, x);
    TargetIsLightest(m, n);
    Next(m, n);
  }

  lemma {:induction false} DealtLoads(m: nat, n: nat)
    requires m > 0 && n <= 2 * m
    ensures Loads(Deal(Jobs(m)[..n], m)) == LoadsAt(m, n)
  {
    var order := Jobs(m);
    if n == 0 {
      assert Loads(Deal([], m)) == LoadsAt(m, 0);
    } else {
      DealtLoads(m, n - 1);
      DealPrefix(order, n - 1, m);
      DealtNext(m, n - 1, Deal(order[..n - 1], m), order[n - 1]);
    }
  }

  lemma AllEven(m: nat, k: nat)
    requires k < m
    ensures LoadsAt(m, 2 * m)[k] == (3 * m - 1) as real
  {}

  /** All shards weigh 3m - 1 before the last job, whose weight is m. */
  lemma GreedyHeaviest(m: nat)
    requires m > 0
    ensures Heaviest(Deal(Jobs(m), m)) == (4 * m - 1) as real
  {
    var order := Jobs(m);
    DealtLoads(m, 2 * m);
    DealPrefix(order, 2 * m, m);
    assert order[..2 * m + 1] == order;
    LastTips(m, Deal(order[..2 * m], m), order[2 * m]);
  }

  lemma LastTips(m: nat, sofar: seq<seq<Spec>>, x: Spec)
    requires m > 0 && |sofar| == m && Loads(sofar) == LoadsAt(m, 2 * m) && x.seconds == m as real
    ensures Heaviest(DealOne(sofar, x)) == (4 * m - 1) as real
  {
    DealOneLoads(sofar, x);
    forall k | 0 <= k < m ensures LoadsAt(m, 2 * m)[k] == (3 * m - 1) as real {
      AllEven(m, k);
    }
    HeaviestIs(DealOne(sofar, x), Lightest(Loads(sofar)));
  }

  lemma HeaviestIs(buckets: seq<seq<Spec>>, k: nat)
    requires k < |buckets| && forall j :: 0 <= j < |buckets| ==> Loads(buckets)[j] <= Loads(buckets)[k]
    ensures Heaviest(buckets) == Loads(buckets)[k]
  {
    assert buckets[k] in buckets;
    var j :| 0 <= j < |buckets| && Sum(Seconds, buckets[j]) == Heaviest(buckets);
    assert Loads(buckets)[j] <= Loads(buckets)[k];
  }

  // ---- the best split ----------------------------------------------------------------------

  /** The first beside the last but three, and so on inwards; the last three together. */
  function Paired(order: seq<Spec>): (buckets: seq<seq<Spec>>)
    requires |order| % 2 == 1 && |order| > 1
    ensures |buckets| == |order| / 2
  {
    var m := |order| / 2;
    seq(m, j requires 0 <= j < m =>
      if j < m - 1 then [order[j], order[2 * m - 3 - j]] else [order[2 * m - 2], order[2 * m - 1], order[2 * m]])
  }

  lemma FewSum(a: Spec, b: Spec, c: Spec)
    ensures Sum(Seconds, [a, b]) == a.seconds + b.seconds
    ensures Sum(Seconds, [a, b, c]) == a.seconds + b.seconds + c.seconds
  {
    assert [a, b, c][1..] == [b, c] && [b, c][1..] == [c] && [a, b][1..] == [b] && [c][1..] == [];
    assert Sum(Seconds, [c]) == c.seconds + Sum(Seconds, []);
  }

  lemma PairedWeighs(m: nat, j: nat)
    requires j < m
    ensures Sum(Seconds, Paired(Jobs(m))[j]) == (3 * m) as real
  {
    var order := Jobs(m);
    if j < m - 1 {
      FewSum(order[j], order[2 * m - 3 - j], order[0]);
      PairSize(m, j);
    } else {
      FewSum(order[2 * m - 2], order[2 * m - 1], order[2 * m]);
    }
  }

  lemma PairSize(m: nat, j: nat)
    requires j < m - 1
    ensures Size(m, j) + Size(m, 2 * m - 3 - j) == 3 * m
  {}

  lemma BestHeaviest(m: nat)
    requires m > 0
    ensures Heaviest(Paired(Jobs(m))) == (3 * m) as real
  {
    var paired := Paired(Jobs(m));
    forall j | 0 <= j < m ensures Loads(paired)[j] == (3 * m) as real {
      PairedWeighs(m, j);
    }
    HeaviestIs(paired, 0);
  }

  /** What is left of the paired jobs without the first t pairs. */
  function Inner(order: seq<Spec>, m: nat, t: nat): seq<Spec>
    requires |order| == 2 * m + 1 && t < m
  {
    order[t..2 * m - 2 - t]
  }

  lemma Outer(order: seq<Spec>, m: nat, t: nat)
    requires |order| == 2 * m + 1 && t < m - 1
    ensures multiset(Inner(order, m, t)) ==
      multiset([order[t], order[2 * m - 3 - t]]) + multiset(Inner(order, m, t + 1))
  {
    assert Inner(order, m, t) == [order[t]] + Inner(order, m, t + 1) + [order[2 * m - 3 - t]];
  }

  lemma FlatFirst(buckets: seq<seq<Spec>>, t: nat)
    requires t < |buckets|
    ensures Flat(buckets[t..]) == buckets[t] + Flat(buckets[t + 1..])
  {
    assert buckets[t..][1..] == buckets[t + 1..];
  }

  lemma LastThree(order: seq<Spec>, m: nat)
    requires |order| == 2 * m + 1 && m > 0
    ensures Flat(Paired(order)[m - 1..]) == order[2 * m - 2..]
  {
    FlatFirst(Paired(order), m - 1);
    assert Paired(order)[m..] == [];
    assert order[2 * m - 2..] == [order[2 * m - 2], order[2 * m - 1], order[2 * m]];
  }

  lemma {:induction false} PairedFrom(order: seq<Spec>, m: nat, t: nat)
    requires |order| == 2 * m + 1 && t < m
    ensures multiset(Flat(Paired(order)[t..])) == multiset(Inner(order, m, t)) + multiset(order[2 * m - 2..])
    decreases m - t
  {
    if t == m - 1 {
      LastThree(order, m);
    } else {
      PairedFrom(order, m, t + 1);
      OnePair(order, m, t);
      Outer(order, m, t);
    }
  }

  lemma OnePair(order: seq<Spec>, m: nat, t: nat)
    requires |order| == 2 * m + 1 && t < m - 1
    ensures multiset(Flat(Paired(order)[t..])) ==
      multiset([order[t], order[2 * m - 3 - t]]) + multiset(Flat(Paired(order)[t + 1..]))
  {
    FlatFirst(Paired(order), t);
    assert Paired(order)[t] == [order[t], order[2 * m - 3 - t]];
  }

  lemma PairedIsWhole(order: seq<Spec>)
    requires |order| % 2 == 1 && |order| > 1
    ensures multiset(Flat(Paired(order))) == multiset(order)
  {
    var m := |order| / 2;
    PairedFrom(order, m, 0);
    assert Paired(order)[0..] == Paired(order);
    assert Inner(order, m, 0) == order[..2 * m - 2];
    assert order == order[..2 * m - 2] + order[2 * m - 2..];
  }

  /**
   * Graham's bound cannot be improved: on any number of shards there are timings for which some split of the same
   * specs is lighter than the greedy one by exactly that ratio.
   */
  lemma BoundIsReached(m: nat)
    requires m > 0
    ensures multiset(Flat(Paired(Jobs(m)))) == multiset(Weighed(Listing(m), Timings(m)))
    ensures Heaviest(Paired(Jobs(m))) == (3 * m) as real
    ensures Heaviest(Split(Listing(m), Timings(m), m)) == (4 * m - 1) as real == Ratio(m) * (3 * m) as real
  {
    WeighedAre(m);
    PairedIsWhole(Jobs(m));
    BestHeaviest(m);
    SplitIsDeal(m);
    GreedyHeaviest(m);
    RatioIs(m);
  }

  lemma RatioIs(m: nat)
    requires m > 0
    ensures Ratio(m) * (3 * m) as real == (4 * m - 1) as real
  {
    var whole := 3.0 * m as real;
    assert 1.0 / whole * whole == 1.0;
    assert Ratio(m) * whole == 4.0 / 3.0 * whole - 1.0 / whole * whole;
  }
}
