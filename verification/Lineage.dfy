/** The continuation links between features (backend/app/services/continuation.py). */
module Lineage {
  import opened Wrappers
  import opened BoardState

  /** n links up from f, stopping at a feature that continues nothing. */
  function Climb(features: map<Id, Feature>, f: Id, n: nat): Id
    decreases n
  {
    if n == 0 || f !in features || features[f].from.None? then f else Climb(features, features[f].from.value, n - 1)
  }

  /** Every link leads to a feature of lower rank. */
  ghost predicate Ranked(features: map<Id, Feature>, rank: map<Id, nat>) {
    && features.Keys <= rank.Keys
    && forall f :: f in features && features[f].from.Some? ==>
         features[f].from.value in features && rank[features[f].from.value] < rank[f]
  }

  /** No dangling link and no cycle. */
  ghost predicate Forest(features: map<Id, Feature>) {
    exists rank :: Ranked(features, rank)
  }

  ghost predicate IsRoot(features: map<Id, Feature>, f: Id) {
    f in features && features[f].from.None?
  }

  lemma {:induction false} ClimbsToRoot(features: map<Id, Feature>, rank: map<Id, nat>, f: Id) returns (n: nat)
    requires Ranked(features, rank) && f in features
    ensures IsRoot(features, Climb(features, f, n))
    decreases rank[f]
  {
    if features[f].from.None? {
      n := 0;
    } else {
      var m := ClimbsToRoot(features, rank, features[f].from.value);
      n := m + 1;
    }
  }

  lemma {:induction false} StaysAtRoot(features: map<Id, Feature>, f: Id, n: nat, m: nat)
    requires n <= m && IsRoot(features, Climb(features, f, n))
    ensures Climb(features, f, m) == Climb(features, f, n)
    decreases n
  {
    if n > 0 && f in features && features[f].from.Some? {
      StaysAtRoot(features, features[f].from.value, n - 1, m - 1);
    }
  }

  lemma EveryFeatureHasRoot(features: map<Id, Feature>, f: Id)
    requires Forest(features) && f in features
    ensures exists n: nat :: IsRoot(features, Climb(features, f, n))
  {
    var rank :| Ranked(features, rank);
    var n := ClimbsToRoot(features, rank, f);
  }

  /** The feature a lineage was first planned as. */
  ghost function Root(features: map<Id, Feature>, f: Id): (r: Id)
    requires Forest(features) && f in features
    ensures IsRoot(features, r)
  {
    EveryFeatureHasRoot(features, f);
    var n: nat :| IsRoot(features, Climb(features, f, n));
    Climb(features, f, n)
  }

  lemma RootIs(features: map<Id, Feature>, f: Id, n: nat)
    requires Forest(features) && f in features && IsRoot(features, Climb(features, f, n))
    ensures Root(features, f) == Climb(features, f, n)
  {
    var m: nat :| IsRoot(features, Climb(features, f, m)) && Root(features, f) == Climb(features, f, m);
    if n <= m {
      StaysAtRoot(features, f, n, m);
    } else {
      StaysAtRoot(features, f, m, n);
    }
  }

  lemma RootOfLink(features: map<Id, Feature>, f: Id)
    requires Forest(features) && f in features && features[f].from.Some? && features[f].from.value in features
    ensures Root(features, f) == Root(features, features[f].from.value)
  {
    var o := features[f].from.value;
    EveryFeatureHasRoot(features, o);
    var n: nat :| IsRoot(features, Climb(features, o, n));
    RootIs(features, o, n);
    assert Climb(features, f, n + 1) == Climb(features, o, n);
    RootIs(features, f, n + 1);
  }

  // ---- the features a deletion takes with it ------------------------------------------

  ghost predicate DescendsFrom(features: map<Id, Feature>, f: Id, roots: set<Id>) {
    exists n: nat :: Climb(features, f, n) in roots
  }

  /** These features and everything continuing them, transitively. */
  ghost function Descent(features: map<Id, Feature>, roots: set<Id>): set<Id> {
    set f | f in features && DescendsFrom(features, f, roots)
  }

  function Continuing(features: map<Id, Feature>, frontier: set<Id>): set<Id> {
    set f | f in features && features[f].from.Some? && features[f].from.value in frontier
  }

  /** The breadth-first walk; it ends even on links that form a cycle. */
  method DescendantIds(features: map<Id, Feature>, roots: set<Id>) returns (found: set<Id>)
    requires roots <= features.Keys
    ensures found == Descent(features, roots) - roots
  {
    var seen, frontier := roots, roots;
    found := {};
    while frontier != {}
      invariant seen == roots + found && frontier <= seen <= features.Keys && found !! roots
      invariant forall f :: f in found ==> DescendsFrom(features, f, roots)
      invariant forall f :: f in Continuing(features, seen - frontier) ==> f in seen
      decreases features.Keys - seen, frontier
    {
      var rows := Continuing(features, frontier);
      var next := rows - seen;
      forall f | f in next ensures DescendsFrom(features, f, roots) {
        LinkDescends(features, f, roots);
      }
      if next == {} {
        assert seen + next == seen;
      } else {
        var f :| f in next;
        assert f in features.Keys - seen && f !in features.Keys - (seen + next);
      }
      frontier, seen, found := next, seen + next, found + next;
    }
    assert seen - frontier == seen;
    forall f | f in features && DescendsFrom(features, f, roots) ensures f in seen {
      var n: nat :| Climb(features, f, n) in roots;
      ClosedContains(features, roots, seen, f, n);
    }
    forall f | f in roots ensures f in Descent(features, roots) {
      assert Climb(features, f, 0) in roots;
    }
  }

  lemma LinkDescends(features: map<Id, Feature>, f: Id, roots: set<Id>)
    requires f in features && features[f].from.Some?
    requires features[f].from.value in roots || DescendsFrom(features, features[f].from.value, roots)
    ensures DescendsFrom(features, f, roots)
  {
    var o := features[f].from.value;
    assert Climb(features, o, 0) == o;
    var n: nat :| Climb(features, o, n) in roots;
    assert Climb(features, f, n + 1) == Climb(features, o, n);
  }

  lemma {:induction false} ClosedContains(features: map<Id, Feature>, roots: set<Id>, seen: set<Id>, f: Id, n: nat)
    requires roots <= seen && forall x :: x in Continuing(features, seen) ==> x in seen
    requires Climb(features, f, n) in roots
    ensures f in seen
    decreases n
  {
    if n > 0 && f in features && features[f].from.Some? {
      ClosedContains(features, roots, seen, features[f].from.value, n - 1);
      assert f in Continuing(features, seen);
    }
  }

  /** What a lineage deletion leaves: nothing that continues a deleted feature. */
  lemma NothingLeftBehind(features: map<Id, Feature>, roots: set<Id>, x: Id)
    requires x in features && features[x].from.Some? && features[x].from.value in Descent(features, roots)
    ensures x in Descent(features, roots)
  {
    LinkDescends(features, x, roots);
  }

  // ---- leaves -------------------------------------------------------------------------

  ghost function Continuations(features: map<Id, Feature>): set<Id> {
    set f | f in features && features[f].from.Some?
  }

  lemma {:induction false} HighestRanked(rank: map<Id, nat>, s: set<Id>) returns (top: Id)
    requires s != {} && s <= rank.Keys
    ensures top in s && forall f :: f in s ==> rank[f] <= rank[top]
    decreases |s|
  {
    var x :| x in s;
    if s == {x} {
      top := x;
    } else {
      var rest := s - {x};
      assert s == rest + {x};
      var y := HighestRanked(rank, rest);
      top := if rank[y] <= rank[x] then x else y;
    }
  }

  /** While any continuation exists, one of them is continued by nothing. */
  lemma SomeLeafExists(features: map<Id, Feature>) returns (leaf: Id)
    requires Forest(features) && Continuations(features) != {}
    ensures leaf in Continuations(features) && IsLeaf(features, leaf)
  {
    var rank :| Ranked(features, rank);
    leaf := HighestRanked(rank, Continuations(features));
    forall x | x in features ensures features[x].from != Some(leaf) {
      assert features[x].from.Some? ==> x in Continuations(features);
    }
  }
}
