/**
 * Dealing Cypress specs to shards, longest first onto the lightest shard
 * (scripts/e2e-shard.py).
 *
 * A spec file's name is represented by its rank in name order, so comparing names is
 * comparing numbers. Seconds are exact reals.
 */
module Shard {
  import opened Sums
  import opened Sorting

  datatype Spec = Spec(name: nat, seconds: real)

  function Seconds(s: Spec): real { s.seconds }

  predicate NameOrder(a: nat, b: nat) { a <= b }

  /** The dealing order: heaviest first, ties by name. */
  predicate Before(a: Spec, b: Spec) {
    a.seconds > b.seconds || (a.seconds == b.seconds && a.name <= b.name)
  }

  // ---- weights ------------------------------------------------------------------

  function TimingSeconds(t: (nat, real)): real { t.1 }

  /** What an unknown spec weighs: the average of the known ones, or one second. */
  function Fallback(timings: seq<(nat, real)>): real {
    if timings == [] then 1.0 else Sum(TimingSeconds, timings) / |timings| as real
  }

  function Recorded(name: nat, timings: seq<(nat, real)>, fallback: real): real {
    if timings == [] then fallback
    else if timings[0].0 == name then timings[0].1
    else Recorded(name, timings[1..], fallback)
  }

  function Weighed(names: seq<nat>, timings: seq<(nat, real)>): seq<Spec> {
    seq(|names|, i requires 0 <= i < |names| => Spec(names[i], Recorded(names[i], timings, Fallback(timings))))
  }

  /** The first timing recorded for this spec. */
  ghost predicate FirstFor(timings: seq<(nat, real)>, name: nat, k: int) {
    0 <= k < |timings| && timings[k].0 == name && forall j :: 0 <= j < k ==> timings[j].0 != name
  }

  lemma {:induction false} RecordedAt(name: nat, timings: seq<(nat, real)>, fallback: real, k: int)
    requires FirstFor(timings, name, k)
    ensures Recorded(name, timings, fallback) == timings[k].1
  {
    if k > 0 {
      assert timings[0].0 != name;
      RecordedAt(name, timings[1..], fallback, k - 1);
    }
  }

  lemma {:induction false} RecordedNowhere(name: nat, timings: seq<(nat, real)>, fallback: real)
    requires forall t <- timings :: t.0 != name
    ensures Recorded(name, timings, fallback) == fallback
  {
    if timings != [] {
      RecordedNowhere(name, timings[1..], fallback);
    }
  }

  /** A spec weighs what was recorded for it, or, unknown, the average of what was, or one second if nothing was. */
  ghost predicate Weighs(s: Spec, timings: seq<(nat, real)>) {
    && (forall k :: FirstFor(timings, s.name, k) ==> s.seconds == timings[k].1)
    && ((forall t <- timings :: t.0 != s.name) ==>
          if timings == [] then s.seconds == 1.0
          else s.seconds * |timings| as real == Sum((t: (nat, real)) => t.1, timings))
  }

  lemma WeightIs(names: seq<nat>, timings: seq<(nat, real)>, i: nat)
    requires i < |names|
    ensures Weighed(names, timings)[i].name == names[i] && Weighs(Weighed(names, timings)[i], timings)
  {
    forall k | FirstFor(timings, names[i], k) ensures Weighed(names, timings)[i].seconds == timings[k].1 {
      RecordedAt(names[i], timings, Fallback(timings), k);
    }
    if forall t <- timings :: t.0 != names[i] {
      RecordedNowhere(names[i], timings, Fallback(timings));
      SameSum(TimingSeconds, (t: (nat, real)) => t.1, timings);
    }
  }

  lemma {:induction false} SameSum<T>(f: T -> real, g: T -> real, s: seq<T>)
    requires forall x <- s :: f(x) == g(x)
    ensures Sum(f, s) == Sum(g, s)
  {
    if s != [] {
      SameSum(f, g, s[1..]);
    }
  }

  // ---- the greedy deal ------------------------------------------------------------

  /** The least loaded shard, the first of them on a tie. */
  function Lightest(load: seq<real>): (k: nat)
    requires load != []
    ensures k < |load|
  {
    if |load| == 1 then 0
    else
      var k := Lightest(load[..|load| - 1]);
      if load[|load| - 1] < load[k] then |load| - 1 else k
  }

  lemma {:induction false} LightestIsFirstLeast(load: seq<real>)
    requires load != []
    ensures forall j :: 0 <= j < |load| ==> load[Lightest(load)] <= load[j]
    ensures forall j :: 0 <= j < Lightest(load) ==> load[Lightest(load)] < load[j]
  {
    if |load| > 1 {
      LightestIsFirstLeast(load[..|load| - 1]);
    }
  }

  function Loads(buckets: seq<seq<Spec>>): (load: seq<real>)
    ensures |load| == |buckets|
  {
    seq(|buckets|, j requires 0 <= j < |buckets| => Sum(Seconds, buckets[j]))
  }

  /** One spec onto the lightest shard. */
  function DealOne(sofar: seq<seq<Spec>>, x: Spec): (buckets: seq<seq<Spec>>)
    requires sofar != []
    ensures |buckets| == |sofar|
  {
    var k := Lightest(Loads(sofar));
    sofar[k := sofar[k] + [x]]
  }

  function Deal(order: seq<Spec>, total: nat): (buckets: seq<seq<Spec>>)
    requires total > 0
    ensures |buckets| == total
  {
    if order == [] then seq(total, _ => [])
    else DealOne(Deal(order[..|order| - 1], total), order[|order| - 1])
  }

  function Names(bucket: seq<Spec>): seq<nat> {
    seq(|bucket|, i requires 0 <= i < |bucket| => bucket[i].name)
  }

  /** The whole split: one bucket per shard. */
  function Split(listing: seq<nat>, timings: seq<(nat, real)>, total: nat): (buckets: seq<seq<Spec>>)
    requires total > 0
    ensures |buckets| == total
  {
    Deal(Sort(Weighed(Sort(listing, NameOrder), timings), Before), total)
  }

  lemma DealPrefix(order: seq<Spec>, i: nat, total: nat)
    requires total > 0 && i < |order|
    ensures Deal(order[..i + 1], total) == DealOne(Deal(order[..i], total), order[i])
  {
    assert order[..i + 1][..i] == order[..i];
  }

  lemma DealOneLoads(sofar: seq<seq<Spec>>, x: Spec)
    requires sofar != []
    ensures
      var k := Lightest(Loads(sofar));
      Loads(DealOne(sofar, x)) == Loads(sofar)[k := Loads(sofar)[k] + x.seconds]
  {
    SumAppend(Seconds, sofar[Lightest(Loads(sofar))], [x]);
    assert Sum(Seconds, [x]) == x.seconds;
  }

  method PutOnLightest(buckets: array<seq<Spec>>, load: array<real>, x: Spec)
    requires buckets.Length == load.Length > 0 && load[..] == Loads(buckets[..])
    modifies buckets, load
    ensures buckets[..] == DealOne(old(buckets[..]), x)
    ensures load[..] == Loads(buckets[..])
  {
    ghost var dealt := buckets[..];
    DealOneLoads(dealt, x);
    var lightest := Lightest(load[..]);
    buckets[lightest] := buckets[lightest] + [x];
    load[lightest] := load[lightest] + x.seconds;
    assert buckets[..] == DealOne(dealt, x);
    assert load[..] == Loads(dealt)[lightest := Loads(dealt)[lightest] + x.seconds];
  }

  /** The dealing loop: both arrays are updated in place, one spec at a time. */
  method DealInto(buckets: array<seq<Spec>>, load: array<real>, order: seq<Spec>)
    requires buckets.Length == load.Length > 0
    requires buckets[..] == Deal([], buckets.Length) && load[..] == Loads(buckets[..])
    modifies buckets, load
    ensures buckets[..] == Deal(order, buckets.Length)
    ensures load[..] == Loads(buckets[..])
  {
    var i := 0;
    while i < |order|
      invariant 0 <= i <= |order|
      invariant buckets[..] == Deal(order[..i], buckets.Length)
      invariant load[..] == Loads(buckets[..])
    {
      DealPrefix(order, i, buckets.Length);
      PutOnLightest(buckets, load, order[i]);
      i := i + 1;
    }
    assert order[..i] == order;
  }

  method Shard(index: nat, total: nat, listing: seq<nat>, timings: seq<(nat, real)>) returns (paths: seq<nat>)
    requires 1 <= index <= total
    ensures paths == Sort(Names(Split(listing, timings, total)[index - 1]), NameOrder)
    ensures exists order, at ::
      && multiset(Names(order)) == multiset(listing) && (forall s :: s in order ==> Weighs(s, timings))
      && LongestFirst(order, at, total) && Lists(paths, Given(order, at, index - 1))
  {
    var order := Sort(Weighed(Sort(listing, NameOrder), timings), Before);
    var buckets := new seq<Spec>[total](_ => []);
    var load := new real[total](_ => 0.0);
    assert load[..] == Loads(buckets[..]);
    DealInto(buckets, load, order);
    paths := Sort(Names(buckets[index - 1]), NameOrder);
    ghost var dealt, at := SplitIsDealt(listing, timings, total);
    NamesListed(Given(dealt, at, index - 1));
  }

  // ---- every spec in exactly one shard --------------------------------------------

  lemma {:induction false} DealKeeps(order: seq<Spec>, total: nat)
    requires total > 0
    ensures multiset(Flat(Deal(order, total))) == multiset(order)
  {
    if order == [] {
      EmptyFlat(Deal(order, total));
    } else {
      var before := order[..|order| - 1];
      DealKeeps(before, total);
      DealOneKeeps(Deal(before, total), order[|order| - 1]);
      assert order == before + [order[|order| - 1]];
    }
  }

  lemma DealOneKeeps(sofar: seq<seq<Spec>>, x: Spec)
    requires sofar != []
    ensures multiset(Flat(DealOne(sofar, x))) == multiset(Flat(sofar)) + multiset{x}
  {
    FlatAdd(sofar, Lightest(Loads(sofar)), x);
  }

  lemma {:induction false} EmptyFlat(buckets: seq<seq<Spec>>)
    requires forall j :: 0 <= j < |buckets| ==> buckets[j] == []
    ensures Flat(buckets) == []
  {
    if buckets != [] {
      assert buckets[0] in buckets;
      EmptyFlat(buckets[1..]);
    }
  }

  lemma {:induction false} SplitIsPartition(listing: seq<nat>, timings: seq<(nat, real)>, total: nat)
    requires total > 0
    ensures multiset(Flat(Split(listing, timings, total))) == multiset(Weighed(Sort(listing, NameOrder), timings))
    ensures multiset(Names(Flat(Split(listing, timings, total)))) == multiset(listing)
  {
    var specs := Weighed(Sort(listing, NameOrder), timings);
    SortKeeps(specs, Before);
    SortKeeps(listing, NameOrder);
    DealKeeps(Sort(specs, Before), total);
    assert Names(specs) == Sort(listing, NameOrder);
    NamesFollow(Flat(Split(listing, timings, total)), specs);
  }

  lemma {:induction false} NamesFollow(s: seq<Spec>, t: seq<Spec>)
    requires multiset(s) == multiset(t)
    ensures multiset(Names(s)) == multiset(Names(t))
    decreases |s|
  {
    if s == [] {
      assert |multiset(t)| == 0;
      assert |t| == 0;
      assert Names(s) == Names(t);
    } else {
      var k, rest := TakeOne(s, t);
      assert t == t[..k] + ([t[k]] + t[k + 1..]);
      NamesFollow(s[1..], rest);
      assert Names(s) == [s[0].name] + Names(s[1..]);
      assert Names(t) == Names(t[..k]) + ([t[k].name] + Names(t[k + 1..]));
      assert Names(rest) == Names(t[..k]) + Names(t[k + 1..]);
    }
  }

  // ---- Graham's bound ---------------------------------------------------------------

  function Heaviest(buckets: seq<seq<Spec>>): (h: real)
    requires buckets != []
    ensures forall b <- buckets :: Sum(Seconds, b) <= h
    ensures exists j :: 0 <= j < |buckets| && Sum(Seconds, buckets[j]) == h
  {
    var first := Sum(Seconds, buckets[0]);
    if |buckets| == 1 then first
    else
      var rest := Heaviest(buckets[1..]);
      assert forall j :: 0 <= j < |buckets[1..]| ==> buckets[1..][j] == buckets[j + 1];
      if first < rest then rest else first
  }

  /** 4/3 - 1/(3m), for m shards. */
  function Ratio(total: nat): real
    requires total > 0
  {
    4.0 / 3.0 - 1.0 / (3.0 * total as real)
  }

  function LeastLoad(buckets: seq<seq<Spec>>): real
    requires buckets != []
  {
    Loads(buckets)[Lightest(Loads(buckets))]
  }

  lemma LeastLoadIsLeast(buckets: seq<seq<Spec>>, b: seq<Spec>)
    requires b in buckets
    ensures LeastLoad(buckets) <= Sum(Seconds, b)
  {
    LightestIsFirstLeast(Loads(buckets));
    var j :| 0 <= j < |buckets| && buckets[j] == b;
    assert Loads(buckets)[j] == Sum(Seconds, b);
  }

  /**
   * One step of the deal seen against a rival split: a job no heavier than any dealt so far, all of
   * them among the rival's jobs, and no rival shard above the limit.
   */
  ghost predicate Rivals(sofar: seq<seq<Spec>>, x: Spec, other: seq<seq<Spec>>, limit: real) {
    && sofar != [] && |other| == |sofar|
    && (forall y <- Flat(sofar) :: y.seconds >= x.seconds)
    && multiset(Flat(sofar) + [x]) <= multiset(Flat(other))
    && (forall y <- Flat(other) :: y.seconds >= 0.0)
    && (forall b <- other :: Sum(Seconds, b) <= limit)
    && limit >= 0.0
  }

  /** What is dealt so far, with the new job, measures at most what the rival split holds. */
  lemma DealtSoFar(f: Spec -> real, sofar: seq<seq<Spec>>, x: Spec, other: seq<seq<Spec>>)
    requires multiset(Flat(sofar) + [x]) <= multiset(Flat(other))
    requires forall y <- Flat(other) :: f(y) >= 0.0
    ensures SumOver(f, sofar) + f(x) <= SumOver(f, other)
  {
    SumAppend(f, Flat(sofar), [x]);
    assert Sum(f, [x]) == f(x) + Sum(f, []);
    SumOfPart(f, Flat(sofar) + [x], Flat(other));
    SumFlat(f, sofar);
    SumFlat(f, other);
  }

  /** The bound in whole numbers: 3m * load <= (4m - 1) * limit. */
  ghost predicate Within(total: nat, load: real, limit: real) {
    3.0 * Times(total, load) + limit <= 4.0 * Times(total, limit)
  }

  lemma {:induction false} SmallJobArithmetic(total: nat, low: real, x: real, limit: real)
    requires 3.0 * x <= limit
    ensures Times(total, low + x) == Times(total, low) + Times(total, x)
    ensures total > 0 ==> 3.0 * Times(total, x) - 3.0 * x <= Times(total, limit) - limit
  {
    if total > 0 {
      SmallJobArithmetic(total - 1, low, x, limit);
    }
  }

  lemma {:induction false} LargeJobArithmetic(total: nat, load: real, limit: real)
    requires load <= limit && limit >= 0.0
    ensures Times(total, load) <= Times(total, limit)
    ensures Times(total, limit) >= 0.0
    ensures total > 0 ==> Within(total, load, limit)
  {
    if total > 0 {
      LargeJobArithmetic(total - 1, load, limit);
    }
  }

  /** A small job: the lightest shard is at most the average of everything else. */
  lemma SmallJob(sofar: seq<seq<Spec>>, x: Spec, other: seq<seq<Spec>>, limit: real)
    requires Rivals(sofar, x, other, limit) && 3.0 * x.seconds <= limit
    ensures Within(|sofar|, LeastLoad(sofar) + x.seconds, limit)
  {
    var low := LeastLoad(sofar);
    assert Times(|sofar|, low) + x.seconds <= Times(|sofar|, limit) by {
      DealtSoFar(Seconds, sofar, x, other);
      forall b | b in sofar ensures low <= Sum(Seconds, b) { LeastLoadIsLeast(sofar, b); }
      SumOverAtLeast(Seconds, sofar, low);
      SumOverAtMost(Seconds, other, limit);
    }
    SmallJobArithmetic(|sofar|, low, x.seconds, limit);
  }

  /** A job alone on its shard. */
  ghost predicate Alone(sofar: seq<seq<Spec>>, x: Spec) {
    [x] in sofar
  }

  /** Two for a job alone on its shard, one for any other job dealt so far or now, nothing otherwise. */
  ghost function Credit(sofar: seq<seq<Spec>>, x: Spec, y: Spec): real {
    if Alone(sofar, y) then 2.0 else if y == x || y in Flat(sofar) then 1.0 else 0.0
  }

  /** No bucket within the limit can earn three credits, when the lone jobs pair with nothing. */
  lemma {:induction false} BucketCredit(credit: Spec -> real, limit: real, q: seq<Spec>)
    requires forall y <- q :: y.seconds >= 0.0 && (credit(y) == 0.0 || credit(y) == 1.0 || credit(y) == 2.0)
    requires forall y <- q :: credit(y) >= 1.0 ==> 3.0 * y.seconds > limit
    requires forall y <- q, z <- q :: credit(y) == 2.0 && credit(z) >= 1.0 ==> y.seconds + z.seconds > limit
    requires limit >= 0.0
    ensures Sum(credit, q) == 0.0 || Sum(credit, q) >= 1.0
    ensures Sum(Seconds, q) >= 0.0
    ensures Sum(credit, q) >= 1.0 ==> exists y <- q :: credit(y) >= 1.0 && Sum(Seconds, q) >= y.seconds
    ensures Sum(credit, q) >= 1.0 ==> Sum(credit, q) == 1.0 || Sum(credit, q) >= 2.0
    ensures Sum(credit, q) >= 2.0 ==>
      3.0 * Sum(Seconds, q) > 2.0 * limit || exists y <- q :: credit(y) == 2.0 && Sum(Seconds, q) >= y.seconds
    ensures Sum(credit, q) > 2.0 ==> Sum(Seconds, q) > limit
  {
    if q != [] {
      BucketCredit(credit, limit, q[1..]);
      assert q[0] in q;
      assert forall y <- q[1..] :: y in q;
    }
  }

  /** A large job: the lightest shard still has room for it within the limit. */
  lemma LargeJob(sofar: seq<seq<Spec>>, x: Spec, other: seq<seq<Spec>>, limit: real)
    requires Rivals(sofar, x, other, limit) && 3.0 * x.seconds > limit
    ensures LeastLoad(sofar) + x.seconds <= limit
  {
    if LeastLoad(sofar) + x.seconds > limit {
      var credit := y => Credit(sofar, x, y);
      EveryShardUsed(sofar, x, other, limit);
      CreditsHeld(sofar, x, credit);
      CreditsEarned(sofar, x, other, credit);
      CreditsAfforded(sofar, x, other, limit, credit);
    }
  }

  lemma SingleWithin(other: seq<seq<Spec>>, x: Spec, limit: real)
    requires forall b <- other :: Sum(Seconds, b) <= limit
    requires forall y <- Flat(other) :: y.seconds >= 0.0
    requires x in Flat(other)
    ensures x.seconds <= limit
  {
    var j := FromFlat(other, x);
    forall y: Spec | y in other[j] ensures y.seconds >= 0.0 { InFlat(other, j, y); }
    SumOfPart(Seconds, [x], other[j]);
    assert Sum(Seconds, [x]) == x.seconds;
  }

  lemma EveryShardUsed(sofar: seq<seq<Spec>>, x: Spec, other: seq<seq<Spec>>, limit: real)
    requires Rivals(sofar, x, other, limit)
    requires LeastLoad(sofar) + x.seconds > limit
    ensures forall b <- sofar :: b != []
  {
    assert x in multiset(Flat(sofar) + [x]);
    assert x in multiset(Flat(other));
    SingleWithin(other, x, limit);
    forall b | b in sofar ensures b != [] {
      LeastLoadIsLeast(sofar, b);
    }
  }

  lemma TwoCredits(sofar: seq<seq<Spec>>, x: Spec, credit: Spec -> real, b: seq<Spec>)
    requires b in sofar && b != []
    requires forall y :: credit(y) == Credit(sofar, x, y)
    ensures 2.0 <= Sum(credit, b)
  {
    var j :| 0 <= j < |sofar| && sofar[j] == b;
    if |b| == 1 {
      assert b == [b[0]];
      assert Alone(sofar, b[0]);
    } else {
      InFlat(sofar, j, b[0]);
      InFlat(sofar, j, b[1]);
      assert b[1..][1..] == b[2..];
      assert Sum(credit, b) == credit(b[0]) + (credit(b[1]) + Sum(credit, b[2..]));
      SumNonNegative(credit, b[2..]);
    }
  }

  lemma CreditsHeld(sofar: seq<seq<Spec>>, x: Spec, credit: Spec -> real)
    requires forall b <- sofar :: b != []
    requires forall y :: credit(y) == Credit(sofar, x, y)
    ensures SumOver(credit, sofar) >= Times(|sofar|, 2.0)
  {
    forall b | b in sofar ensures 2.0 <= Sum(credit, b) {
      TwoCredits(sofar, x, credit, b);
    }
    SumOverAtLeast(credit, sofar, 2.0);
  }

  /** Every shard has earned two credits and the new job earns one more: too much for any rival. */
  lemma {:induction false} CreditsEarned(sofar: seq<seq<Spec>>, x: Spec, other: seq<seq<Spec>>, credit: Spec -> real)
    requires multiset(Flat(sofar) + [x]) <= multiset(Flat(other))
    requires forall y <- Flat(other) :: credit(y) >= 0.0
    requires credit(x) >= 1.0 && SumOver(credit, sofar) >= Times(|sofar|, 2.0)
    ensures SumOver(credit, other) >= Times(|sofar|, 2.0) + 1.0
  {
    DealtSoFar(credit, sofar, x, other);
  }

  /** What a credit says about a job's weight. */
  lemma CreditMeans(sofar: seq<seq<Spec>>, x: Spec, y: Spec)
    requires sofar != [] && forall z <- Flat(sofar) :: z.seconds >= x.seconds
    ensures Credit(sofar, x, y) >= 1.0 ==> y.seconds >= x.seconds
    ensures Credit(sofar, x, y) == 2.0 ==> y.seconds >= LeastLoad(sofar)
  {
    if Alone(sofar, y) {
      var j :| 0 <= j < |sofar| && sofar[j] == [y];
      InFlat(sofar, j, y);
      LeastLoadIsLeast(sofar, [y]);
      assert Sum(Seconds, [y]) == y.seconds;
    }
  }

  /** No split within the limit can pay for more than two credits a shard. */
  lemma {:induction false} CreditsAfforded(
      sofar: seq<seq<Spec>>, x: Spec, other: seq<seq<Spec>>, limit: real, credit: Spec -> real)
    requires Rivals(sofar, x, other, limit) && 3.0 * x.seconds > limit
    requires LeastLoad(sofar) + x.seconds > limit
    requires forall y :: credit(y) == Credit(sofar, x, y)
    ensures SumOver(credit, other) <= Times(|sofar|, 2.0)
  {
    forall q | q in other ensures Sum(credit, q) <= 2.0 {
      var j :| 0 <= j < |other| && other[j] == q;
      forall y: Spec | y in q ensures y.seconds >= 0.0 { InFlat(other, j, y); }
      forall y: Spec | y in q
        ensures credit(y) >= 1.0 ==> y.seconds >= x.seconds
        ensures credit(y) == 2.0 ==> y.seconds >= LeastLoad(sofar)
      {
        CreditMeans(sofar, x, y);
      }
      BucketCredit(credit, limit, q);
    }
    SumOverAtMost(credit, other, 2.0);
  }

  lemma BeforeIsTotal()
    ensures TotalPreorder(Before)
  {}

  // ---- the deal, position by position -------------------------------------------------

  /** What these positions put on one shard, in the order it is dealt. */
  ghost function Given(order: seq<Spec>, at: seq<nat>, k: nat): seq<Spec>
    requires |at| == |order|
  {
    if order == [] then []
    else
      var n := |order| - 1;
      Given(order[..n], at[..n], k) + if at[n] == k then [order[n]] else []
  }

  /** Each spec goes to a shard that is no heavier at that moment than any other, and lighter than those before it. */
  ghost predicate ToLightest(order: seq<Spec>, at: seq<nat>, i: nat, total: nat)
    requires i < |order| == |at|
  {
    at[i] < total
    && forall k :: 0 <= k < total ==>
         && Sum(Seconds, Given(order[..i], at[..i], at[i])) <= Sum(Seconds, Given(order[..i], at[..i], k))
         && (k < at[i] ==>
               Sum(Seconds, Given(order[..i], at[..i], at[i])) < Sum(Seconds, Given(order[..i], at[..i], k)))
  }

  /** The longest specs first, those of one length by name, each onto the lightest shard. */
  ghost predicate LongestFirst(order: seq<Spec>, at: seq<nat>, total: nat) {
    && |at| == |order|
    && (forall i, j :: 0 <= i < j < |order| ==>
          || order[i].seconds > order[j].seconds
          || (order[i].seconds == order[j].seconds && order[i].name <= order[j].name))
    && forall i :: 0 <= i < |order| ==> ToLightest(order, at, i, total)
  }

  lemma {:induction false} DealGives(order: seq<Spec>, total: nat) returns (at: seq<nat>)
    requires total > 0
    ensures |at| == |order| && forall i :: 0 <= i < |order| ==> ToLightest(order, at, i, total)
    ensures forall k :: 0 <= k < total ==> Deal(order, total)[k] == Given(order, at, k)
  {
    at := [];
    if order != [] {
      var n := |order| - 1;
      var before := DealGives(order[..n], total);
      var load := Loads(Deal(order[..n], total));
      at := before + [Lightest(load)];
      LightestIsFirstLeast(load);
      assert at[..n] == before;
      assert forall k :: 0 <= k < total ==> load[k] == Sum(Seconds, Given(order[..n], before, k));
      forall i | 0 <= i < n ensures ToLightest(order, at, i, total) {
        assert ToLightest(order[..n], before, i, total);
        assert order[..n][..i] == order[..i] && before[..i] == at[..i];
      }
    }
  }

  lemma SplitIsDealt(listing: seq<nat>, timings: seq<(nat, real)>, total: nat)
    returns (order: seq<Spec>, at: seq<nat>)
    requires total > 0
    ensures multiset(Names(order)) == multiset(listing) && forall s :: s in order ==> Weighs(s, timings)
    ensures LongestFirst(order, at, total)
    ensures forall k :: 0 <= k < total ==> Split(listing, timings, total)[k] == Given(order, at, k)
  {
    var specs := Weighed(Sort(listing, NameOrder), timings);
    order := Sort(specs, Before);
    at := DealGives(order, total);
    BeforeIsTotal();
    SortIsSorted(specs, Before);
    SortKeeps(specs, Before);
    SortKeeps(listing, NameOrder);
    assert Names(specs) == Sort(listing, NameOrder);
    NamesFollow(order, specs);
    forall s | s in order ensures Weighs(s, timings) {
      assert s in multiset(order) && s in multiset(specs);
      var i :| 0 <= i < |specs| && specs[i] == s;
      WeightIs(Sort(listing, NameOrder), timings, i);
    }
  }

  /** These names, in order. */
  ghost predicate Lists(paths: seq<nat>, specs: seq<Spec>) {
    && (forall i, j :: 0 <= i < j < |paths| ==> paths[i] <= paths[j])
    && multiset(paths) == multiset(seq(|specs|, i requires 0 <= i < |specs| => specs[i].name))
  }

  lemma NamesListed(specs: seq<Spec>)
    ensures Lists(Sort(Names(specs), NameOrder), specs)
  {
    SortIsSorted(Names(specs), NameOrder);
    SortKeeps(Names(specs), NameOrder);
    assert Names(specs) == seq(|specs|, i requires 0 <= i < |specs| => specs[i].name);
  }

  /** A rival split of the same jobs, or of more, with every shard inside the limit. */
  ghost predicate RivalSplit(order: seq<Spec>, other: seq<seq<Spec>>, limit: real) {
    && multiset(order) <= multiset(Flat(other))
    && (forall y <- Flat(other) :: y.seconds >= 0.0)
    && (forall b <- other :: Sum(Seconds, b) <= limit)
    && limit >= 0.0
  }

  lemma DealStep(before: seq<Spec>, x: Spec, total: nat, other: seq<seq<Spec>>, limit: real)
    requires total > 0 && |other| == total
    requires SortedBy(before + [x], Before)
    requires RivalSplit(before + [x], other, limit)
    ensures Rivals(Deal(before, total), x, other, limit)
  {
    var sofar := Deal(before, total);
    DealKeeps(before, total);
    forall y: Spec | y in Flat(sofar) ensures y.seconds >= x.seconds {
      assert y in multiset(Flat(sofar));
      assert y in multiset(before);
      var i :| 0 <= i < |before| && before[i] == y;
      assert Before((before + [x])[i], (before + [x])[|before|]);
    }
  }

  lemma {:induction false} StepWithin(before: seq<Spec>, x: Spec, total: nat, other: seq<seq<Spec>>, limit: real)
    requires total > 0 && |other| == total
    requires SortedBy(before + [x], Before)
    requires RivalSplit(before + [x], other, limit)
    ensures Within(total, LeastLoad(Deal(before, total)) + x.seconds, limit)
  {
    var sofar := Deal(before, total);
    DealStep(before, x, total, other, limit);
    NextWithin(sofar, x, other, limit);
    assert |sofar| == total;
  }

  lemma NextWithin(sofar: seq<seq<Spec>>, x: Spec, other: seq<seq<Spec>>, limit: real)
    requires Rivals(sofar, x, other, limit)
    ensures Within(|sofar|, LeastLoad(sofar) + x.seconds, limit)
  {
    if 3.0 * x.seconds <= limit {
      SmallJob(sofar, x, other, limit);
    } else {
      LargeJob(sofar, x, other, limit);
      LargeJobArithmetic(|sofar|, LeastLoad(sofar) + x.seconds, limit);
    }
  }

  /** Every shard, after every prefix of the deal, is within the bound. */
  lemma {:induction false} DealWithin(order: seq<Spec>, total: nat, other: seq<seq<Spec>>, limit: real)
    requires total > 0 && |other| == total
    requires SortedBy(order, Before)
    requires RivalSplit(order, other, limit)
    ensures AllWithin(total, Deal(order, total), limit)
  {
    if order == [] {
      LargeJobArithmetic(total, 0.0, limit);
    } else {
      var before, x := order[..|order| - 1], order[|order| - 1];
      assert order == before + [x];
      PrefixIsRival(before, x, other, limit);
      DealWithin(before, total, other, limit);
      StepWithin(before, x, total, other, limit);
      StaysWithin(total, Deal(before, total), x, limit);
    }
  }

  lemma PrefixIsRival(before: seq<Spec>, x: Spec, other: seq<seq<Spec>>, limit: real)
    requires SortedBy(before + [x], Before) && RivalSplit(before + [x], other, limit)
    ensures SortedBy(before, Before) && RivalSplit(before, other, limit)
  {
    assert multiset(before + [x]) == multiset(before) + multiset{x};
    forall i, j | 0 <= i < j < |before| ensures Before(before[i], before[j]) {
      assert Before((before + [x])[i], (before + [x])[j]);
    }
  }

  ghost predicate AllWithin(total: nat, buckets: seq<seq<Spec>>, limit: real) {
    total > 0 && forall j :: 0 <= j < |buckets| ==> Within(total, Sum(Seconds, buckets[j]), limit)
  }

  lemma StaysWithin(total: nat, sofar: seq<seq<Spec>>, x: Spec, limit: real)
    requires sofar != [] && AllWithin(total, sofar, limit)
    requires Within(total, LeastLoad(sofar) + x.seconds, limit)
    ensures AllWithin(total, DealOne(sofar, x), limit)
  {
    AddToLightest(sofar, x);
  }

  lemma AddToLightest(sofar: seq<seq<Spec>>, x: Spec)
    requires sofar != []
    ensures Sum(Seconds, sofar[Lightest(Loads(sofar))] + [x]) == LeastLoad(sofar) + x.seconds
  {
    SumAppend(Seconds, sofar[Lightest(Loads(sofar))], [x]);
    assert Sum(Seconds, [x]) == x.seconds;
  }

  lemma WithinRatio(total: nat, load: real, limit: real)
    requires total > 0 && Within(total, load, limit)
    ensures load <= Ratio(total) * limit
  {
    var m := total as real;
    TimesIsProduct(total, load);
    TimesIsProduct(total, limit);
    var inverse := 1.0 / (3.0 * m);
    assert 3.0 * m * inverse == 1.0;
    assert inverse > 0.0;
    assert inverse * (3.0 * (m * load)) == load;
    assert inverse * (4.0 * (m * limit) - limit) == 4.0 / 3.0 * limit - inverse * limit;
  }

  lemma {:induction false} RecordedNonNegative(name: nat, timings: seq<(nat, real)>, fallback: real)
    requires fallback >= 0.0 && forall t <- timings :: t.1 >= 0.0
    ensures Recorded(name, timings, fallback) >= 0.0
  {
    if timings != [] {
      RecordedNonNegative(name, timings[1..], fallback);
    }
  }

  lemma WeightsNonNegative(names: seq<nat>, timings: seq<(nat, real)>)
    requires forall t <- timings :: t.1 >= 0.0
    ensures forall s <- Weighed(names, timings) :: s.seconds >= 0.0
  {
    SumNonNegative(TimingSeconds, timings);
    forall i | 0 <= i < |names| ensures Weighed(names, timings)[i].seconds >= 0.0 {
      RecordedNonNegative(names[i], timings, Fallback(timings));
    }
  }

  /**
   * Graham's bound: however else the same specs are put on the same number of shards, the
   * heaviest shard of the greedy split weighs at most 4/3 - 1/(3m) times that one's heaviest.
   */
  lemma {:induction false} GrahamBound(
      listing: seq<nat>, timings: seq<(nat, real)>, total: nat, other: seq<seq<Spec>>, best: real)
    requires total > 0 && |other| == total
    requires forall t <- timings :: t.1 >= 0.0
    requires multiset(Flat(other)) == multiset(Weighed(listing, timings))
    requires best == Heaviest(other)
    ensures Heaviest(Split(listing, timings, total)) <= Ratio(total) * best
  {
    SplitWithin(listing, timings, total, other);
    HeaviestWithin(Split(listing, timings, total), total, best);
  }

  lemma {:induction false} SplitWithin(listing: seq<nat>, timings: seq<(nat, real)>, total: nat, other: seq<seq<Spec>>)
    requires total > 0 && |other| == total
    requires forall t <- timings :: t.1 >= 0.0
    requires multiset(Flat(other)) == multiset(Weighed(listing, timings))
    ensures forall j :: 0 <= j < total ==>
      Within(total, Sum(Seconds, Split(listing, timings, total)[j]), Heaviest(other))
  {
    var specs := Weighed(Sort(listing, NameOrder), timings);
    BeforeIsTotal();
    SortIsSorted(specs, Before);
    IsRival(listing, timings, other);
    DealWithin(Sort(specs, Before), total, other, Heaviest(other));
  }

  lemma HeaviestWithin(split: seq<seq<Spec>>, total: nat, limit: real)
    requires total > 0 && |split| == total
    requires forall j :: 0 <= j < total ==> Within(total, Sum(Seconds, split[j]), limit)
    ensures Heaviest(split) <= Ratio(total) * limit
  {
    var i :| 0 <= i < |split| && Sum(Seconds, split[i]) == Heaviest(split);
    WithinRatio(total, Sum(Seconds, split[i]), limit);
  }

  lemma IsRival(listing: seq<nat>, timings: seq<(nat, real)>, other: seq<seq<Spec>>)
    requires other != []
    requires forall t <- timings :: t.1 >= 0.0
    requires multiset(Flat(other)) == multiset(Weighed(listing, timings))
    ensures RivalSplit(Sort(Weighed(Sort(listing, NameOrder), timings), Before), other, Heaviest(other))
  {
    SortKeeps(listing, NameOrder);
    SameSpecs(Sort(listing, NameOrder), listing, timings);
    SortKeeps(Weighed(Sort(listing, NameOrder), timings), Before);
    WeightsNonNegative(listing, timings);
    forall y: Spec | y in Flat(other) ensures y.seconds >= 0.0 {
      assert y in multiset(Flat(other));
      assert y in multiset(Weighed(listing, timings));
    }
    forall y: Spec | y in other[0] ensures y.seconds >= 0.0 { InFlat(other, 0, y); }
    SumNonNegative(Seconds, other[0]);
    assert other[0] in other;
  }

  lemma {:induction false} SameSpecs(s: seq<nat>, t: seq<nat>, timings: seq<(nat, real)>)
    requires multiset(s) == multiset(t)
    ensures multiset(Weighed(s, timings)) == multiset(Weighed(t, timings))
    decreases |s|
  {
    if s == [] {
      assert |multiset(t)| == 0;
      assert |t| == 0;
      assert Weighed(s, timings) == Weighed(t, timings);
    } else {
      var k, rest := TakeOne(s, t);
      assert s == [s[0]] + s[1..];
      assert t == t[..k] + ([t[k]] + t[k + 1..]);
      SameSpecs(s[1..], rest, timings);
      assert Weighed(s, timings) == Weighed([s[0]], timings) + Weighed(s[1..], timings);
      assert Weighed(t, timings) ==
        Weighed(t[..k], timings) + (Weighed([t[k]], timings) + Weighed(t[k + 1..], timings));
      assert Weighed(rest, timings) == Weighed(t[..k], timings) + Weighed(t[k + 1..], timings);
    }
  }
}
