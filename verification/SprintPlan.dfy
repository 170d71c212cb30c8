/**
 * Proposing which story goes into which sprint: largest effort first, into the first sprint
 * with room (mcp_server/tools/workflows.py, propose_pbi_sprint_plan). Efforts and Available
 * values are exact reals.
 */
module SprintPlan {
  import opened Wrappers
  import opened Sums
  import opened Sorting

  datatype Feature = Feature(id: nat, pi: Option<nat>)
  datatype Story = Story(id: nat, parent: nat, group: Option<nat>, points: Option<real>)
  datatype Sprint = Sprint(index: nat, available: real)
  datatype Assignment = Assignment(story: nat, sprintIndex: nat, effort: real)
  datatype Unassigned = Unassigned(story: nat, effort: real)
  datatype Summary = Summary(sprintIndex: nat, available: real, planned: real, remaining: real)

  /** An unestimated story counts as no effort. */
  function Effort(s: Story): real { s.points.GetOr(0.0) }

  predicate LargerFirst(a: Story, b: Story) { Effort(a) >= Effort(b) }

  predicate SprintOrder(a: Sprint, b: Sprint) { a.index <= b.index }

  function FeaturesOf(features: seq<Feature>, pi: nat): set<nat> {
    set f <- features | f.pi == Some(pi) :: f.id
  }

  /** The stories of the PI that sit in no group yet, in the order given. */
  function Candidates(stories: seq<Story>, inPi: set<nat>): seq<Story> {
    if stories == [] then []
    else
      var rest := Candidates(stories[1..], inPi);
      if stories[0].parent in inPi && stories[0].group.None? then [stories[0]] + rest else rest
  }

  // ---- the greedy packing -----------------------------------------------------------

  datatype Plan = Plan(bins: seq<seq<Story>>, rejected: seq<Story>, placed: seq<(Story, nat)>)

  function Remainders(caps: seq<real>, bins: seq<seq<Story>>): (r: seq<real>)
    requires |caps| == |bins|
    ensures |r| == |caps|
  {
    seq(|caps|, j requires 0 <= j < |caps| => caps[j] - Sum(Effort, bins[j]))
  }

  /** The first position with room, or the length when there is none. */
  function FirstRoom(remaining: seq<real>, effort: real): (j: nat)
    ensures j <= |remaining|
  {
    if remaining == [] || remaining[0] >= effort then 0 else 1 + FirstRoom(remaining[1..], effort)
  }

  lemma {:induction false} FirstRoomIsFirst(remaining: seq<real>, effort: real)
    ensures FirstRoom(remaining, effort) < |remaining| ==> remaining[FirstRoom(remaining, effort)] >= effort
    ensures forall j :: 0 <= j < FirstRoom(remaining, effort) ==> remaining[j] < effort
  {
    if remaining != [] && remaining[0] < effort {
      FirstRoomIsFirst(remaining[1..], effort);
      forall j | 0 <= j < FirstRoom(remaining, effort) ensures remaining[j] < effort {
        assert j == 0 || remaining[j] == remaining[1..][j - 1];
      }
    }
  }

  function PackOne(caps: seq<real>, plan: Plan, x: Story): (after: Plan)
    requires |plan.bins| == |caps|
    ensures |after.bins| == |caps|
  {
    var j := FirstRoom(Remainders(caps, plan.bins), Effort(x));
    if j == |caps| then plan.(rejected := plan.rejected + [x])
    else plan.(bins := plan.bins[j := plan.bins[j] + [x]], placed := plan.placed + [(x, j)])
  }

  function Pack(caps: seq<real>, order: seq<Story>): (plan: Plan)
    ensures |plan.bins| == |caps|
  {
    if order == [] then Plan(seq(|caps|, _ => []), [], [])
    else PackOne(caps, Pack(caps, order[..|order| - 1]), order[|order| - 1])
  }

  function Caps(sprints: seq<Sprint>): (caps: seq<real>)
    ensures |caps| == |sprints|
  {
    seq(|sprints|, j requires 0 <= j < |sprints| => sprints[j].available)
  }

  /** What the tool proposes, before it is written out as lists. */
  function Proposal(sprints: seq<Sprint>, features: seq<Feature>, stories: seq<Story>, pi: nat): (plan: Plan)
    ensures |plan.bins| == |Sort(sprints, SprintOrder)|
  {
    Pack(Caps(Sort(sprints, SprintOrder)), Sort(Candidates(stories, FeaturesOf(features, pi)), LargerFirst))
  }

  function Assignments(placed: seq<(Story, nat)>, sprints: seq<Sprint>): seq<Assignment>
    requires forall p <- placed :: p.1 < |sprints|
  {
    seq(|placed|, i requires 0 <= i < |placed| =>
      Assignment(placed[i].0.id, sprints[placed[i].1].index, Effort(placed[i].0)))
  }

  function UnassignedOut(rejected: seq<Story>): seq<Unassigned> {
    seq(|rejected|, i requires 0 <= i < |rejected| => Unassigned(rejected[i].id, Effort(rejected[i])))
  }

  function Summaries(sprints: seq<Sprint>, bins: seq<seq<Story>>): seq<Summary>
    requires |sprints| == |bins|
  {
    seq(|sprints|, j requires 0 <= j < |sprints| =>
      Summary(
        sprints[j].index, sprints[j].available, Sum(Effort, bins[j]), sprints[j].available - Sum(Effort, bins[j])))
  }

  // ---- the tool ---------------------------------------------------------------------

  ghost predicate Distinct(sprints: seq<Sprint>) {
    forall i, j :: 0 <= i < j < |sprints| ==> sprints[i].index != sprints[j].index
  }

  /** The dictionary of remaining Available agrees with the packing so far. */
  ghost predicate Tracks(remaining: map<nat, real>, sprints: seq<Sprint>, plan: Plan) {
    && |plan.bins| == |sprints|
    && forall j :: 0 <= j < |sprints| ==>
         sprints[j].index in remaining && remaining[sprints[j].index] == Remainders(Caps(sprints), plan.bins)[j]
  }

  lemma PackPrefix(caps: seq<real>, order: seq<Story>, i: nat)
    requires i < |order|
    ensures Pack(caps, order[..i + 1]) == PackOne(caps, Pack(caps, order[..i]), order[i])
  {
    assert order[..i + 1][..i] == order[..i];
  }

  /** The scan over the sprints for one story. */
  method FindSprint(
      sprints: seq<Sprint>, remaining: map<nat, real>, effort: real, ghost left: seq<real>)
    returns (j: nat)
    requires |left| == |sprints|
    requires forall k :: 0 <= k < |sprints| ==> sprints[k].index in remaining && remaining[sprints[k].index] == left[k]
    ensures j == FirstRoom(left, effort)
  {
    j := 0;
    while j < |sprints|
      invariant 0 <= j <= |sprints|
      invariant FirstRoom(left, effort) == j + FirstRoom(left[j..], effort)
    {
      if remaining[sprints[j].index] >= effort {
        return;
      }
      assert left[j..][1..] == left[j + 1..];
      j := j + 1;
    }
  }

  method ProposeSprintPlan(sprintItems: seq<Sprint>, features: seq<Feature>, stories: seq<Story>, pi: nat)
    returns (assignments: seq<Assignment>, unassigned: seq<Unassigned>, summary: seq<Summary>)
    requires Distinct(Sort(sprintItems, SprintOrder))
    ensures
      var sprints := Sort(sprintItems, SprintOrder);
      var plan := Proposal(sprintItems, features, stories, pi);
      && (forall p <- plan.placed :: p.1 < |sprints|)
      && assignments == Assignments(plan.placed, sprints)
      && unassigned == UnassignedOut(plan.rejected)
      && summary == Summaries(sprints, plan.bins)
    ensures FirstFit(sprintItems, assignments) && LargestFirst(assignments)
    ensures forall a :: a in assignments ==> exists s :: s in stories && Eligible(features, pi, s) && Of(a, s)
    ensures forall u :: u in unassigned ==> exists s :: s in stories && Eligible(features, pi, s) && LeftOver(u, s)
    ensures forall s :: s in stories && Eligible(features, pi, s) ==>
      (exists a :: a in assignments && Of(a, s)) || exists u :: u in unassigned && LeftOver(u, s)
  {
    ProposalIsFirstFit(sprintItems, features, stories, pi);
    EveryStoryAnswered(sprintItems, features, stories, pi);
    var sprints := Sort(sprintItems, SprintOrder);
    var order := Sort(Candidates(stories, FeaturesOf(features, pi)), LargerFirst);
    var remaining: map<nat, real> := StartingRoom(sprints);
    assignments, unassigned, remaining := PackStories(sprints, order, remaining);
    summary := Summarise(sprints, remaining, Pack(Caps(sprints), order));
  }

  method PackStories(sprints: seq<Sprint>, order: seq<Story>, room: map<nat, real>)
    returns (assignments: seq<Assignment>, unassigned: seq<Unassigned>, remaining: map<nat, real>)
    requires Distinct(sprints) && Tracks(room, sprints, Pack(Caps(sprints), []))
    ensures
      var plan := Pack(Caps(sprints), order);
      && (forall p <- plan.placed :: p.1 < |sprints|)
      && assignments == Assignments(plan.placed, sprints)
      && unassigned == UnassignedOut(plan.rejected)
      && Tracks(remaining, sprints, plan)
  {
    ghost var caps := Caps(sprints);
    ghost var plan := Pack(caps, []);
    assignments, unassigned, remaining := [], [], room;
    var i := 0;
    assert order[..i] == [];
    while i < |order|
      invariant 0 <= i <= |order|
      invariant plan == Pack(caps, order[..i])
      invariant Tracks(remaining, sprints, plan)
      invariant forall p <- plan.placed :: p.1 < |sprints|
      invariant assignments == Assignments(plan.placed, sprints)
      invariant unassigned == UnassignedOut(plan.rejected)
    {
      var effort := Effort(order[i]);
      var j := FindSprint(sprints, remaining, effort, Remainders(caps, plan.bins));
      if j < |sprints| {
        RoomTaken(remaining, sprints, plan, order[i], j);
        assignments := assignments + [Assignment(order[i].id, sprints[j].index, effort)];
        remaining := remaining[sprints[j].index := remaining[sprints[j].index] - effort];
      } else {
        unassigned := unassigned + [Unassigned(order[i].id, effort)];
      }
      OutputsGrow(sprints, plan, order[i], j);
      PackPrefix(caps, order, i);
      plan := PackOne(caps, plan, order[i]);
      i := i + 1;
    }
    assert order[..i] == order;
  }

  lemma OutputsGrow(sprints: seq<Sprint>, plan: Plan, x: Story, j: nat)
    requires |plan.bins| == |sprints| && forall p <- plan.placed :: p.1 < |sprints|
    requires j == FirstRoom(Remainders(Caps(sprints), plan.bins), Effort(x))
    ensures forall p <- PackOne(Caps(sprints), plan, x).placed :: p.1 < |sprints|
    ensures Assignments(PackOne(Caps(sprints), plan, x).placed, sprints) ==
      Assignments(plan.placed, sprints) +
      if j < |sprints| then [Assignment(x.id, sprints[j].index, Effort(x))] else []
    ensures UnassignedOut(PackOne(Caps(sprints), plan, x).rejected) ==
      UnassignedOut(plan.rejected) + if j < |sprints| then [] else [Unassigned(x.id, Effort(x))]
  {}

  method Summarise(sprints: seq<Sprint>, remaining: map<nat, real>, ghost plan: Plan) returns (summary: seq<Summary>)
    requires Tracks(remaining, sprints, plan)
    ensures summary == Summaries(sprints, plan.bins)
  {
    summary := seq(|sprints|, j requires 0 <= j < |sprints| && sprints[j].index in remaining =>
      Summary(
        sprints[j].index, sprints[j].available,
        sprints[j].available - remaining[sprints[j].index], remaining[sprints[j].index]));
    forall j | 0 <= j < |sprints| ensures summary[j] == Summaries(sprints, plan.bins)[j] {
      assert remaining[sprints[j].index] == Remainders(Caps(sprints), plan.bins)[j];
    }
  }

  lemma RoomTaken(remaining: map<nat, real>, sprints: seq<Sprint>, plan: Plan, x: Story, j: nat)
    requires Distinct(sprints) && Tracks(remaining, sprints, plan)
    requires j < |sprints| && j == FirstRoom(Remainders(Caps(sprints), plan.bins), Effort(x))
    ensures
      var i := sprints[j].index;
      Tracks(remaining[i := remaining[i] - Effort(x)], sprints, PackOne(Caps(sprints), plan, x))
  {
    Taken(Caps(sprints), plan, x, j);
  }

  lemma Taken(caps: seq<real>, plan: Plan, x: Story, j: nat)
    requires |plan.bins| == |caps| && j < |caps| && j == FirstRoom(Remainders(caps, plan.bins), Effort(x))
    ensures
      Remainders(caps, PackOne(caps, plan, x).bins) ==
      Remainders(caps, plan.bins)[j := Remainders(caps, plan.bins)[j] - Effort(x)]
  {
    SumAppend(Effort, plan.bins[j], [x]);
    assert Sum(Effort, [x]) == Effort(x);
  }

  method StartingRoom(sprints: seq<Sprint>) returns (remaining: map<nat, real>)
    requires Distinct(sprints)
    ensures Tracks(remaining, sprints, Pack(Caps(sprints), []))
  {
    remaining := map[];
    for j := 0 to |sprints|
      invariant forall k :: 0 <= k < j ==>
        sprints[k].index in remaining && remaining[sprints[k].index] == sprints[k].available
    {
      remaining := remaining[sprints[j].index := sprints[j].available];
    }
  }

  // ---- what every packing keeps -------------------------------------------------------

  ghost predicate Fits(caps: seq<real>, bins: seq<seq<Story>>) {
    |bins| == |caps| && forall j :: 0 <= j < |caps| ==> Sum(Effort, bins[j]) <= caps[j]
  }

  /** Every rejected story is larger than every sprint's remainder. */
  ghost predicate NoRoomLeft(caps: seq<real>, plan: Plan)
    requires |plan.bins| == |caps|
  {
    forall r <- plan.rejected, j :: 0 <= j < |caps| ==> caps[j] - Sum(Effort, plan.bins[j]) < Effort(r)
  }

  /** A sprint that could have held a rejected story opens with one at least as large. */
  ghost predicate OpensLarge(caps: seq<real>, plan: Plan)
    requires |plan.bins| == |caps|
  {
    forall r <- plan.rejected, j :: 0 <= j < |caps| && Effort(r) <= caps[j] ==>
      plan.bins[j] != [] && Effort(plan.bins[j][0]) >= Effort(r)
  }

  lemma PackOneKeepsFit(caps: seq<real>, plan: Plan, x: Story)
    requires Fits(caps, plan.bins) && NoRoomLeft(caps, plan) && Effort(x) >= 0.0
    ensures Fits(caps, PackOne(caps, plan, x).bins) && NoRoomLeft(caps, PackOne(caps, plan, x))
  {
    var left := Remainders(caps, plan.bins);
    var k := FirstRoom(left, Effort(x));
    var next := PackOne(caps, plan, x);
    FirstRoomIsFirst(left, Effort(x));
    if k < |caps| {
      Taken(caps, plan, x, k);
      forall j | 0 <= j < |caps| ensures 0.0 <= caps[j] - Sum(Effort, next.bins[j]) <= left[j] {
        assert Remainders(caps, next.bins)[j] == caps[j] - Sum(Effort, next.bins[j]);
      }
      forall r, j | r in next.rejected && 0 <= j < |caps| ensures caps[j] - Sum(Effort, next.bins[j]) < Effort(r) {
        assert left[j] < Effort(r);
      }
    } else {
      forall r, j | r in next.rejected && 0 <= j < |caps| ensures caps[j] - Sum(Effort, next.bins[j]) < Effort(r) {
        assert left[j] < Effort(x);
      }
    }
  }

  lemma PackOneOpensLarge(caps: seq<real>, plan: Plan, x: Story)
    requires Fits(caps, plan.bins) && OpensLarge(caps, plan)
    requires forall j :: 0 <= j < |caps| && plan.bins[j] != [] ==> Effort(plan.bins[j][0]) >= Effort(x)
    ensures OpensLarge(caps, PackOne(caps, plan, x))
  {
    var left := Remainders(caps, plan.bins);
    var k := FirstRoom(left, Effort(x));
    FirstRoomIsFirst(left, Effort(x));
    var next := PackOne(caps, plan, x);
    forall r, j | r in next.rejected && 0 <= j < |caps| && Effort(r) <= caps[j]
      ensures next.bins[j] != [] && Effort(next.bins[j][0]) >= Effort(r)
    {
      if r in plan.rejected {
        assert plan.bins[j] != [];
      } else {
        assert left[j] < Effort(x);
      }
    }
  }

  lemma PackOneKeeps(caps: seq<real>, plan: Plan, x: Story)
    requires |plan.bins| == |caps|
    ensures
      var next := PackOne(caps, plan, x);
      multiset(Flat(next.bins)) + multiset(next.rejected) ==
        multiset(Flat(plan.bins)) + multiset(plan.rejected) + multiset{x}
  {
    var k := FirstRoom(Remainders(caps, plan.bins), Effort(x));
    if k < |caps| {
      FlatAdd(plan.bins, k, x);
    }
  }

  lemma {:induction false} PackKeeps(caps: seq<real>, order: seq<Story>)
    ensures multiset(Flat(Pack(caps, order).bins)) + multiset(Pack(caps, order).rejected) == multiset(order)
  {
    if order == [] {
      EmptyBins(Pack(caps, order).bins);
    } else {
      var before, x := order[..|order| - 1], order[|order| - 1];
      PackKeeps(caps, before);
      PackOneKeeps(caps, Pack(caps, before), x);
      assert order == before + [x];
    }
  }

  lemma {:induction false} EmptyBins(bins: seq<seq<Story>>)
    requires forall j :: 0 <= j < |bins| ==> bins[j] == []
    ensures Flat(bins) == []
  {
    if bins != [] {
      EmptyBins(bins[1..]);
    }
  }

  lemma {:induction false} FirstIsFrom(caps: seq<real>, before: seq<Story>, x: Story, j: nat)
    requires SortedBy(before + [x], LargerFirst)
    requires j < |caps| && Pack(caps, before).bins[j] != []
    ensures Effort(Pack(caps, before).bins[j][0]) >= Effort(x)
  {
    var plan := Pack(caps, before);
    var first := plan.bins[j][0];
    InFlat(plan.bins, j, first);
    PackKeeps(caps, before);
    assert first in multiset(before);
    var i :| 0 <= i < |before| && before[i] == first;
    assert LargerFirst((before + [x])[i], (before + [x])[|before|]);
  }

  ghost predicate NonNegative(order: seq<Story>, caps: seq<real>) {
    (forall s <- order :: Effort(s) >= 0.0) && (forall j :: 0 <= j < |caps| ==> caps[j] >= 0.0)
  }

  /** The packing never overfills, leaves no room for what it rejects, and opens large. */
  lemma {:induction false} PackIsGreedy(caps: seq<real>, order: seq<Story>)
    requires SortedBy(order, LargerFirst) && NonNegative(order, caps)
    ensures Fits(caps, Pack(caps, order).bins)
    ensures NoRoomLeft(caps, Pack(caps, order))
    ensures OpensLarge(caps, Pack(caps, order))
  {
    if order != [] {
      var before, x := order[..|order| - 1], order[|order| - 1];
      assert order == before + [x];
      PackIsGreedy(caps, before);
      PackOneKeepsFit(caps, Pack(caps, before), x);
      forall j | 0 <= j < |caps| && Pack(caps, before).bins[j] != []
        ensures Effort(Pack(caps, before).bins[j][0]) >= Effort(x)
      {
        FirstIsFrom(caps, before, x, j);
      }
      PackOneOpensLarge(caps, Pack(caps, before), x);
    }
  }

  // ---- at least half of any rival plan ------------------------------------------------

  /** Some of the same stories in the same sprints, none overfilled. */
  ghost predicate Feasible(caps: seq<real>, order: seq<Story>, other: seq<seq<Story>>) {
    Fits(caps, other) && multiset(Flat(other)) <= multiset(order)
  }

  /** No rejected story could ever have gone into sprint j. */
  ghost predicate Loose(caps: seq<real>, plan: Plan, j: nat)
    requires j < |caps|
  {
    forall r <- plan.rejected :: caps[j] < Effort(r)
  }

  /** A story small enough for some sprint that no rejected story fits. */
  ghost predicate Small(caps: seq<real>, plan: Plan, x: Story) {
    exists j: nat :: j < |caps| && Loose(caps, plan, j) && Effort(x) <= caps[j]
  }

  ghost function SmallEffort(caps: seq<real>, plan: Plan, x: Story): real {
    if Small(caps, plan, x) then Effort(x) else 0.0
  }

  lemma LooseSprint(caps: seq<real>, plan: Plan, j: nat, rival: seq<Story>, small: Story -> real)
    requires j < |caps| && Loose(caps, plan, j)
    requires forall x :: small(x) == SmallEffort(caps, plan, x)
    requires forall x <- rival :: Effort(x) >= 0.0
    requires Sum(Effort, rival) <= caps[j]
    ensures Sum(Effort, rival) <= Sum(small, rival)
  {
    forall x | x in rival ensures Effort(x) <= small(x) {
      SumOfPart(Effort, [x], rival);
      assert Sum(Effort, [x]) == Effort(x);
      assert Small(caps, plan, x);
    }
    SumMonotone(Effort, small, rival);
  }

  lemma TightSprint(caps: seq<real>, plan: Plan, j: nat, small: Story -> real)
    requires j < |caps| && !Loose(caps, plan, j) && |plan.bins| == |caps|
    requires NoRoomLeft(caps, plan) && OpensLarge(caps, plan)
    requires forall x :: small(x) == SmallEffort(caps, plan, x)
    requires forall x <- plan.bins[j] :: Effort(x) >= 0.0
    ensures caps[j] + Sum(small, plan.bins[j]) <= 2.0 * Sum(Effort, plan.bins[j])
  {
    var r :| r in plan.rejected && Effort(r) <= caps[j];
    var bin := plan.bins[j];
    assert bin != [] && Effort(bin[0]) >= Effort(r);
    assert small(bin[0]) == 0.0 by {
      assert forall k: nat :: k < |caps| && Loose(caps, plan, k) ==> caps[k] < Effort(r);
    }
    SumMonotone(small, Effort, bin[1..]);
    assert Sum(small, bin) == small(bin[0]) + Sum(small, bin[1..]);
    assert caps[j] - Sum(Effort, bin) < Effort(r);
  }

  lemma OneSprint(caps: seq<real>, plan: Plan, j: nat, rival: seq<Story>, small: Story -> real)
    requires j < |caps| && |plan.bins| == |caps|
    requires NoRoomLeft(caps, plan) && OpensLarge(caps, plan)
    requires forall x :: small(x) == SmallEffort(caps, plan, x)
    requires forall x <- plan.bins[j] :: Effort(x) >= 0.0
    requires forall x <- rival :: Effort(x) >= 0.0
    requires Sum(Effort, rival) <= caps[j]
    ensures Sum(Effort, rival) + Sum(small, plan.bins[j]) <= 2.0 * Sum(Effort, plan.bins[j]) + Sum(small, rival)
  {
    if Loose(caps, plan, j) {
      LooseSprint(caps, plan, j, rival, small);
      SumMonotone(small, Effort, plan.bins[j]);
      SumNonNegative(Effort, plan.bins[j]);
    } else {
      TightSprint(caps, plan, j, small);
      SumNonNegative(small, rival);
    }
  }

  lemma {:induction false} AllSprints(bins: seq<seq<Story>>, other: seq<seq<Story>>, small: Story -> real)
    requires |bins| == |other|
    requires forall j :: 0 <= j < |bins| ==>
      Sum(Effort, other[j]) + Sum(small, bins[j]) <= 2.0 * Sum(Effort, bins[j]) + Sum(small, other[j])
    ensures SumOver(Effort, other) + SumOver(small, bins) <= 2.0 * SumOver(Effort, bins) + SumOver(small, other)
  {
    if bins != [] {
      AllSprints(bins[1..], other[1..], small);
    }
  }

  /** The rival's small stories are all planned, because no rejected story is small. */
  lemma {:induction false} SmallArePlanned(
      caps: seq<real>, order: seq<Story>, other: seq<seq<Story>>, small: Story -> real)
    requires forall s <- order :: Effort(s) >= 0.0
    requires multiset(Flat(other)) <= multiset(order)
    requires forall x :: small(x) == SmallEffort(caps, Pack(caps, order), x)
    ensures SumOver(small, other) <= SumOver(small, Pack(caps, order).bins)
  {
    var plan := Pack(caps, order);
    PackKeeps(caps, order);
    forall s | s in order ensures small(s) >= 0.0 {}
    SumOfPart(small, Flat(other), order);
    SumOfPart(small, Flat(plan.bins) + plan.rejected, order);
    SumAppend(small, Flat(plan.bins), plan.rejected);
    forall r | r in plan.rejected ensures small(r) == 0.0 {
      assert forall j: nat :: j < |caps| && Loose(caps, plan, j) ==> caps[j] < Effort(r);
    }
    AllZero(small, plan.rejected);
    SumFlat(small, other);
    SumFlat(small, plan.bins);
  }

  lemma {:induction false} AllZero(f: Story -> real, s: seq<Story>)
    requires forall x <- s :: f(x) == 0.0
    ensures Sum(f, s) == 0.0
  {
    if s != [] {
      AllZero(f, s[1..]);
    }
  }

  lemma {:induction false} NonNegativeIn(order: seq<Story>, bins: seq<seq<Story>>, j: nat)
    requires forall s <- order :: Effort(s) >= 0.0
    requires multiset(Flat(bins)) <= multiset(order) && j < |bins|
    ensures forall x <- bins[j] :: Effort(x) >= 0.0
  {
    forall x | x in bins[j] ensures Effort(x) >= 0.0 {
      InFlat(bins, j, x);
      assert x in multiset(Flat(bins));
      assert x in multiset(order);
    }
  }

  /** Any feasible way of putting the same stories into the same sprints plans at most twice the effort. */
  lemma PackIsHalfOptimal(caps: seq<real>, order: seq<Story>, other: seq<seq<Story>>)
    requires SortedBy(order, LargerFirst) && NonNegative(order, caps)
    requires Feasible(caps, order, other)
    ensures SumOver(Effort, other) <= 2.0 * SumOver(Effort, Pack(caps, order).bins)
  {
    var plan := Pack(caps, order);
    var small := x => SmallEffort(caps, plan, x);
    PackIsGreedy(caps, order);
    PackKeeps(caps, order);
    forall j | 0 <= j < |caps|
      ensures Sum(Effort, other[j]) + Sum(small, plan.bins[j]) <= 2.0 * Sum(Effort, plan.bins[j]) + Sum(small, other[j])
    {
      NonNegativeIn(order, plan.bins, j);
      NonNegativeIn(order, other, j);
      OneSprint(caps, plan, j, other[j], small);
    }
    AllSprints(plan.bins, other, small);
    SmallArePlanned(caps, order, other, small);
  }

  lemma LargerFirstIsTotal()
    ensures TotalPreorder(LargerFirst)
  {}

  /**
   * What the proposal promises: every candidate is assigned or reported, once; no sprint is overfilled;
   * every reported story is larger than what any sprint has left.
   */
  lemma ProposalIsGreedy(sprints: seq<Sprint>, features: seq<Feature>, stories: seq<Story>, pi: nat)
    requires (forall s <- stories :: Effort(s) >= 0.0) && (forall s <- sprints :: s.available >= 0.0)
    ensures
      var caps := Caps(Sort(sprints, SprintOrder));
      var plan := Proposal(sprints, features, stories, pi);
      && multiset(Flat(plan.bins)) + multiset(plan.rejected) == multiset(Candidates(stories, FeaturesOf(features, pi)))
      && Fits(caps, plan.bins)
      && NoRoomLeft(caps, plan)
  {
    var candidates := Candidates(stories, FeaturesOf(features, pi));
    var order := Sort(candidates, LargerFirst);
    var caps := Caps(Sort(sprints, SprintOrder));
    SortedInputs(sprints, stories, FeaturesOf(features, pi));
    PackKeeps(caps, order);
    PackIsGreedy(caps, order);
  }

  lemma {:induction false} SortedInputs(sprints: seq<Sprint>, stories: seq<Story>, inPi: set<nat>)
    requires (forall s <- stories :: Effort(s) >= 0.0) && (forall s <- sprints :: s.available >= 0.0)
    ensures
      var order := Sort(Candidates(stories, inPi), LargerFirst);
      && SortedBy(order, LargerFirst)
      && NonNegative(order, Caps(Sort(sprints, SprintOrder)))
      && multiset(order) == multiset(Candidates(stories, inPi))
  {
    var candidates := Candidates(stories, inPi);
    var order := Sort(candidates, LargerFirst);
    LargerFirstIsTotal();
    SortIsSorted(candidates, LargerFirst);
    SortKeeps(candidates, LargerFirst);
    SortKeeps(sprints, SprintOrder);
    CandidatesAmong(stories, inPi);
    forall s | s in order ensures Effort(s) >= 0.0 {
      assert s in multiset(order);
      assert s in multiset(candidates);
    }
    var sorted := Sort(sprints, SprintOrder);
    forall j | 0 <= j < |sorted| ensures sorted[j].available >= 0.0 {
      assert sorted[j] in multiset(sorted);
      assert sorted[j] in multiset(sprints);
    }
  }

  lemma {:induction false} CandidatesAmong(stories: seq<Story>, inPi: set<nat>)
    ensures forall s <- Candidates(stories, inPi) :: s in stories && s.parent in inPi && s.group.None?
    ensures forall s <- stories :: s.parent in inPi && s.group.None? ==> s in Candidates(stories, inPi)
  {
    if stories != [] {
      CandidatesAmong(stories[1..], inPi);
    }
  }

  // ---- the proposal as it is handed out -----------------------------------------------

  /** What these assignments put into the sprint of this index. */
  function Used(assignments: seq<Assignment>, index: nat): real {
    if assignments == [] then 0.0
    else
      var n := |assignments| - 1;
      Used(assignments[..n], index) + if assignments[n].sprintIndex == index then assignments[n].effort else 0.0
  }

  /** The sprint has this much room left after these assignments. */
  ghost predicate HasRoom(s: Sprint, assignments: seq<Assignment>, effort: real) {
    s.available - Used(assignments, s.index) >= effort
  }

  /** An assignment goes to the sprint of the lowest index that has room for it after the ones before it. */
  ghost predicate ToFirstRoom(sprints: seq<Sprint>, before: seq<Assignment>, a: Assignment) {
    && (exists s :: s in sprints && s.index == a.sprintIndex && HasRoom(s, before, a.effort))
    && (forall s :: s in sprints && s.index < a.sprintIndex ==> !HasRoom(s, before, a.effort))
  }

  ghost predicate FirstFit(sprints: seq<Sprint>, assignments: seq<Assignment>) {
    forall i :: 0 <= i < |assignments| ==> ToFirstRoom(sprints, assignments[..i], assignments[i])
  }

  /** A story of the PI that asks to be planned: it names a feature planned there and is in no group. */
  ghost predicate Eligible(features: seq<Feature>, pi: nat, s: Story) {
    s.group.None? && exists f :: f in features && f.id == s.parent && f.pi == Some(pi)
  }

  /** The assignment is of this story, for what it is estimated at, or nothing. */
  ghost predicate Of(a: Assignment, s: Story) {
    a.story == s.id && a.effort == if s.points.Some? then s.points.value else 0.0
  }

  ghost predicate LargestFirst(assignments: seq<Assignment>) {
    forall i, j :: 0 <= i < j < |assignments| ==> assignments[i].effort >= assignments[j].effort
  }

  /** The packing so far, as it is handed out: the sums agree, and each went to the first room. */
  ghost predicate HandedOut(sprints: seq<Sprint>, plan: Plan, out: seq<Assignment>) {
    && |plan.bins| == |sprints| && |out| == |plan.placed|
    && (forall i :: 0 <= i < |out| ==> Of(out[i], plan.placed[i].0))
    && (forall j :: 0 <= j < |sprints| ==> Used(out, sprints[j].index) == Sum(Effort, plan.bins[j]))
    && FirstFit(sprints, out)
  }

  lemma UsedMore(before: seq<Assignment>, a: Assignment, index: nat)
    ensures Used(before + [a], index) == Used(before, index) + if a.sprintIndex == index then a.effort else 0.0
  {
    assert (before + [a])[..|before|] == before;
  }

  lemma FirstFitMore(sprints: seq<Sprint>, before: seq<Assignment>, a: Assignment)
    requires FirstFit(sprints, before) && ToFirstRoom(sprints, before, a)
    ensures FirstFit(sprints, before + [a])
  {
    var out := before + [a];
    forall i | 0 <= i < |out| ensures ToFirstRoom(sprints, out[..i], out[i]) {
      assert out[..i] == before[..i];
    }
    assert before[..|before|] == before;
  }

  ghost predicate Rising(sprints: seq<Sprint>) {
    forall i, j :: 0 <= i < j < |sprints| ==> sprints[i].index < sprints[j].index
  }

  lemma GoesToFirstRoom(sprints: seq<Sprint>, plan: Plan, out: seq<Assignment>, x: Story)
    requires Rising(sprints) && HandedOut(sprints, plan, out)
    requires FirstRoom(Remainders(Caps(sprints), plan.bins), Effort(x)) < |sprints|
    ensures
      var j := FirstRoom(Remainders(Caps(sprints), plan.bins), Effort(x));
      ToFirstRoom(sprints, out, Assignment(x.id, sprints[j].index, Effort(x)))
  {
    var left := Remainders(Caps(sprints), plan.bins);
    var j := FirstRoom(left, Effort(x));
    FirstRoomIsFirst(left, Effort(x));
    assert HasRoom(sprints[j], out, Effort(x));
    forall s | s in sprints && s.index < sprints[j].index ensures !HasRoom(s, out, Effort(x)) {
      var k :| 0 <= k < |sprints| && sprints[k] == s;
      assert k < j && left[k] < Effort(x);
    }
  }

  lemma HandedOneMore(sprints: seq<Sprint>, plan: Plan, out: seq<Assignment>, x: Story)
    requires Rising(sprints) && HandedOut(sprints, plan, out)
    ensures
      var j := FirstRoom(Remainders(Caps(sprints), plan.bins), Effort(x));
      HandedOut(sprints, PackOne(Caps(sprints), plan, x),
        out + if j < |sprints| then [Assignment(x.id, sprints[j].index, Effort(x))] else [])
  {
    var j := FirstRoom(Remainders(Caps(sprints), plan.bins), Effort(x));
    if j < |sprints| {
      var a := Assignment(x.id, sprints[j].index, Effort(x));
      var next := PackOne(Caps(sprints), plan, x);
      GoesToFirstRoom(sprints, plan, out, x);
      FirstFitMore(sprints, out, a);
      forall k | 0 <= k < |sprints| ensures Used(out + [a], sprints[k].index) == Sum(Effort, next.bins[k]) {
        UsedMore(out, a, sprints[k].index);
        SumAppend(Effort, plan.bins[j], [x]);
        assert Sum(Effort, [x]) == Effort(x);
      }
    } else {
      assert out + [] == out;
    }
  }

  lemma {:induction false} PackHandsOut(sprints: seq<Sprint>, order: seq<Story>)
    requires Rising(sprints)
    ensures forall p <- Pack(Caps(sprints), order).placed :: p.1 < |sprints|
    ensures
      var plan := Pack(Caps(sprints), order);
      HandedOut(sprints, plan, Assignments(plan.placed, sprints))
  {
    if order != [] {
      var before, x := order[..|order| - 1], order[|order| - 1];
      PackHandsOut(sprints, before);
      var plan := Pack(Caps(sprints), before);
      var j := FirstRoom(Remainders(Caps(sprints), plan.bins), Effort(x));
      HandedOneMore(sprints, plan, Assignments(plan.placed, sprints), x);
      OutputsGrow(sprints, plan, x, j);
    }
  }

  /** Stories are placed in the order they are tried. */
  lemma {:induction false} PlacedInOrder(caps: seq<real>, order: seq<Story>)
    requires SortedBy(order, LargerFirst)
    ensures forall i, j :: 0 <= i < j < |Pack(caps, order).placed| ==>
      Effort(Pack(caps, order).placed[i].0) >= Effort(Pack(caps, order).placed[j].0)
    ensures forall p <- Pack(caps, order).placed :: p.0 in order
  {
    if order != [] {
      var before, x := order[..|order| - 1], order[|order| - 1];
      assert order == before + [x];
      PlacedInOrder(caps, before);
      forall p | p in Pack(caps, before).placed ensures Effort(p.0) >= Effort(x) {
        var i :| 0 <= i < |before| && before[i] == p.0;
        assert LargerFirst(order[i], order[|before|]);
      }
    }
  }

  lemma RisingWhenSorted(sprints: seq<Sprint>)
    requires Distinct(Sort(sprints, SprintOrder))
    ensures Rising(Sort(sprints, SprintOrder))
    ensures forall s :: s in Sort(sprints, SprintOrder) <==> s in sprints
  {
    var sorted := Sort(sprints, SprintOrder);
    assert TotalPreorder(SprintOrder);
    SortIsSorted(sprints, SprintOrder);
    SortKeeps(sprints, SprintOrder);
    forall i, j | 0 <= i < j < |sorted| ensures sorted[i].index < sorted[j].index {
      assert SprintOrder(sorted[i], sorted[j]);
    }
    forall s ensures s in sorted <==> s in sprints {
      assert s in multiset(sorted) <==> s in multiset(sprints);
    }
  }

  /**
   * What is handed out: stories of the PI that ask to be planned, the largest first, each in the sprint of the lowest
   * index with room for it after the ones before it.
   */
  lemma ProposalIsFirstFit(sprints: seq<Sprint>, features: seq<Feature>, stories: seq<Story>, pi: nat)
    requires Distinct(Sort(sprints, SprintOrder))
    ensures
      var plan, sorted := Proposal(sprints, features, stories, pi), Sort(sprints, SprintOrder);
      && (forall p <- plan.placed :: p.1 < |sorted|)
      && FirstFit(sprints, Assignments(plan.placed, sorted)) && LargestFirst(Assignments(plan.placed, sorted))
      && forall a :: a in Assignments(plan.placed, sorted) ==>
           exists s :: s in stories && Eligible(features, pi, s) && Of(a, s)
  {
    var candidates := Candidates(stories, FeaturesOf(features, pi));
    var order, sorted := Sort(candidates, LargerFirst), Sort(sprints, SprintOrder);
    var plan := Pack(Caps(sorted), order);
    RisingWhenSorted(sprints);
    LargerFirstIsTotal();
    SortIsSorted(candidates, LargerFirst);
    PackHandsOut(sorted, order);
    PlacedInOrder(Caps(sorted), order);
    SameFirstFit(sorted, sprints, Assignments(plan.placed, sorted));
    forall p | p in plan.placed ensures p.0 in stories && Eligible(features, pi, p.0) {
      SortKeeps(candidates, LargerFirst);
      assert p.0 in multiset(order) && p.0 in multiset(candidates);
      CandidatesAmong(stories, FeaturesOf(features, pi));
    }
  }

  lemma {:induction false} EachIsPlacedOrNot(caps: seq<real>, order: seq<Story>, s: Story)
    ensures s in order <==>
      s in Pack(caps, order).rejected || exists p :: p in Pack(caps, order).placed && p.0 == s
  {
    if order != [] {
      var before, x := order[..|order| - 1], order[|order| - 1];
      assert order == before + [x];
      EachIsPlacedOrNot(caps, before, s);
      var plan, next := Pack(caps, before), Pack(caps, order);
      if next.placed != plan.placed {
        var j := FirstRoom(Remainders(caps, plan.bins), Effort(x));
        assert next.placed == plan.placed + [(x, j)];
      }
    }
  }

  lemma {:induction false} AsManyAsOrdered(caps: seq<real>, order: seq<Story>)
    ensures |Pack(caps, order).placed| + |Pack(caps, order).rejected| == |order|
  {
    if order != [] {
      AsManyAsOrdered(caps, order[..|order| - 1]);
    }
  }

  /** The story is reported as left over, for what it is estimated at, or nothing. */
  ghost predicate LeftOver(u: Unassigned, s: Story) {
    u.story == s.id && u.effort == if s.points.Some? then s.points.value else 0.0
  }

  /** Each story of the PI that asks to be planned is answered for, and no other is. */
  lemma EveryStoryAnswered(sprints: seq<Sprint>, features: seq<Feature>, stories: seq<Story>, pi: nat)
    requires Distinct(Sort(sprints, SprintOrder))
    ensures
      var plan, sorted := Proposal(sprints, features, stories, pi), Sort(sprints, SprintOrder);
      && (forall p <- plan.placed :: p.1 < |sorted|)
      && var out, left := Assignments(plan.placed, sorted), UnassignedOut(plan.rejected);
         && |out| + |left| == |Candidates(stories, FeaturesOf(features, pi))|
         && (forall s :: s in stories && Eligible(features, pi, s) ==>
               (exists a :: a in out && Of(a, s)) || exists u :: u in left && LeftOver(u, s))
         && (forall u :: u in left ==> exists s :: s in stories && Eligible(features, pi, s) && LeftOver(u, s))
  {
    ProposalIsFirstFit(sprints, features, stories, pi);
    var order, sorted := Sort(Candidates(stories, FeaturesOf(features, pi)), LargerFirst), Sort(sprints, SprintOrder);
    var plan := Proposal(sprints, features, stories, pi);
    OrderIs(stories, features, pi);
    AsManyAsOrdered(Caps(sorted), order);
    forall s ensures s in stories && Eligible(features, pi, s) <==>
      s in plan.rejected || exists p :: p in plan.placed && p.0 == s
    {
      EachIsPlacedOrNot(Caps(sorted), order, s);
    }
    ListedOut(plan, sorted);
  }

  lemma OrderIs(stories: seq<Story>, features: seq<Feature>, pi: nat)
    ensures
      var candidates := Candidates(stories, FeaturesOf(features, pi));
      var order := Sort(candidates, LargerFirst);
      |order| == |candidates| && forall s :: s in order <==> s in stories && Eligible(features, pi, s)
  {
    var candidates := Candidates(stories, FeaturesOf(features, pi));
    var order := Sort(candidates, LargerFirst);
    SortKeeps(candidates, LargerFirst);
    assert |order| == |multiset(order)| == |multiset(candidates)| == |candidates|;
    CandidatesAmong(stories, FeaturesOf(features, pi));
    forall s ensures s in order <==> s in candidates {
      assert s in multiset(order) <==> s in multiset(candidates);
    }
  }

  lemma ListedOut(plan: Plan, sprints: seq<Sprint>)
    requires forall p <- plan.placed :: p.1 < |sprints|
    ensures forall p :: p in plan.placed ==> exists a :: a in Assignments(plan.placed, sprints) && Of(a, p.0)
    ensures forall s :: s in plan.rejected ==> exists u :: u in UnassignedOut(plan.rejected) && LeftOver(u, s)
    ensures forall u :: u in UnassignedOut(plan.rejected) ==> exists s :: s in plan.rejected && LeftOver(u, s)
  {
    var out, left := Assignments(plan.placed, sprints), UnassignedOut(plan.rejected);
    forall p | p in plan.placed ensures exists a :: a in out && Of(a, p.0) {
      var i :| 0 <= i < |plan.placed| && plan.placed[i] == p;
      assert Of(out[i], p.0);
    }
    forall s | s in plan.rejected ensures exists u :: u in left && LeftOver(u, s) {
      var i :| 0 <= i < |plan.rejected| && plan.rejected[i] == s;
      assert LeftOver(left[i], s);
    }
    forall u | u in left ensures exists s :: s in plan.rejected && LeftOver(u, s) {
      var i :| 0 <= i < |left| && left[i] == u;
      assert LeftOver(u, plan.rejected[i]);
    }
  }

  lemma SummaryOf(sprints: seq<Sprint>, plan: Plan, out: seq<Assignment>, j: nat)
    requires HandedOut(sprints, plan, out) && j < |sprints|
    ensures
      var s := sprints[j];
      Summaries(sprints, plan.bins)[j] ==
        Summary(s.index, s.available, Used(out, s.index), s.available - Used(out, s.index))
  {}

  /** What each sprint is reported to hold: what was assigned to it. */
  lemma SummaryIs(sprints: seq<Sprint>, features: seq<Feature>, stories: seq<Story>, pi: nat, j: nat)
    requires Distinct(Sort(sprints, SprintOrder)) && j < |Sort(sprints, SprintOrder)|
    ensures
      var plan, sorted := Proposal(sprints, features, stories, pi), Sort(sprints, SprintOrder);
      && (forall p <- plan.placed :: p.1 < |sorted|) && Rising(sorted)
      && var used := Used(Assignments(plan.placed, sorted), sorted[j].index);
         Summaries(sorted, plan.bins)[j] ==
           Summary(sorted[j].index, sorted[j].available, used, sorted[j].available - used)
  {
    var sorted := Sort(sprints, SprintOrder);
    RisingWhenSorted(sprints);
    PackHandsOut(sorted, Sort(Candidates(stories, FeaturesOf(features, pi)), LargerFirst));
    var plan := Proposal(sprints, features, stories, pi);
    SummaryOf(sorted, plan, Assignments(plan.placed, sorted), j);
  }

  /** A story left unassigned asks to be planned, and no sprint has room for it in the end. */
  lemma UnassignedHaveNoRoom(
      sprints: seq<Sprint>, features: seq<Feature>, stories: seq<Story>, pi: nat, r: Story, s: Sprint)
    requires Distinct(Sort(sprints, SprintOrder))
    requires (forall x <- stories :: Effort(x) >= 0.0) && (forall x <- sprints :: x.available >= 0.0)
    requires r in Proposal(sprints, features, stories, pi).rejected && s in sprints
    ensures r in stories && Eligible(features, pi, r)
    ensures
      var plan, sorted := Proposal(sprints, features, stories, pi), Sort(sprints, SprintOrder);
      && (forall p <- plan.placed :: p.1 < |sorted|)
      && !HasRoom(s, Assignments(plan.placed, sorted), Effort(r))
  {
    var order, sorted := Sort(Candidates(stories, FeaturesOf(features, pi)), LargerFirst), Sort(sprints, SprintOrder);
    RisingWhenSorted(sprints);
    PackHandsOut(sorted, order);
    RejectedIsEligible(sprints, features, stories, pi, r);
    ProposalIsGreedy(sprints, features, stories, pi);
    var j :| 0 <= j < |sorted| && sorted[j] == s;
    assert Caps(sorted)[j] - Sum(Effort, Proposal(sprints, features, stories, pi).bins[j]) < Effort(r);
  }

  lemma RejectedIsEligible(sprints: seq<Sprint>, features: seq<Feature>, stories: seq<Story>, pi: nat, r: Story)
    requires (forall s <- stories :: Effort(s) >= 0.0) && (forall s <- sprints :: s.available >= 0.0)
    requires r in Proposal(sprints, features, stories, pi).rejected
    ensures r in stories && Eligible(features, pi, r)
  {
    ProposalIsGreedy(sprints, features, stories, pi);
    assert r in multiset(Proposal(sprints, features, stories, pi).rejected);
    assert r in multiset(Candidates(stories, FeaturesOf(features, pi)));
    CandidatesAmong(stories, FeaturesOf(features, pi));
  }

  lemma SameFirstFit(sorted: seq<Sprint>, sprints: seq<Sprint>, out: seq<Assignment>)
    requires FirstFit(sorted, out) && forall s :: s in sorted <==> s in sprints
    ensures FirstFit(sprints, out)
  {
    forall i | 0 <= i < |out| ensures ToFirstRoom(sprints, out[..i], out[i]) {
      assert ToFirstRoom(sorted, out[..i], out[i]);
    }
  }

  /** The candidates are the stories that ask to be planned, as often as they are listed. */
  lemma {:induction false} CandidatesAre(stories: seq<Story>, features: seq<Feature>, pi: nat, s: Story)
    ensures multiset(Candidates(stories, FeaturesOf(features, pi)))[s] ==
      if Eligible(features, pi, s) then multiset(stories)[s] else 0
  {
    if stories != [] {
      CandidatesAre(stories[1..], features, pi, s);
      var rest := Candidates(stories[1..], FeaturesOf(features, pi));
      assert stories == [stories[0]] + stories[1..];
      assert multiset([stories[0]] + rest) == multiset{stories[0]} + multiset(rest);
    }
  }

  /** The proposal plans at least half the effort of any feasible plan of the same candidates. */
  lemma ProposalIsHalfOptimal(
      sprints: seq<Sprint>, features: seq<Feature>, stories: seq<Story>, pi: nat, other: seq<seq<Story>>)
    requires (forall s <- stories :: Effort(s) >= 0.0) && (forall s <- sprints :: s.available >= 0.0)
    requires Feasible(Caps(Sort(sprints, SprintOrder)), Candidates(stories, FeaturesOf(features, pi)), other)
    ensures SumOver(Effort, other) <= 2.0 * SumOver(Effort, Proposal(sprints, features, stories, pi).bins)
  {
    SortedInputs(sprints, stories, FeaturesOf(features, pi));
    PackIsHalfOptimal(
      Caps(Sort(sprints, SprintOrder)), Sort(Candidates(stories, FeaturesOf(features, pi)), LargerFirst), other);
  }

  /** Half is the best such promise: one sprint of two points, and stories of just over one, one and one. */
  lemma HalfIsTight(excess: real, a: Story, b: Story, c: Story)
    requires 0.0 < excess <= 1.0
    requires Effort(a) == 1.0 + excess && Effort(b) == 1.0 && Effort(c) == 1.0
    ensures Feasible([2.0], [a, b, c], [[b, c]])
    ensures SumOver(Effort, [[b, c]]) == 2.0
    ensures SumOver(Effort, Pack([2.0], [a, b, c]).bins) == 1.0 + excess
  {
    TwoStories(b, c);
    assert [[b, c]][1..] == [];
    assert Flat([[b, c]]) == [b, c] + Flat([]);
    assert [a, b, c] == [a] + [b, c];
    PackAlone(excess, a, b, c);
    assert [[a]][1..] == [];
  }

  lemma TwoStories(b: Story, c: Story)
    ensures Sum(Effort, [b, c]) == Effort(b) + Effort(c)
  {
    assert [b, c][1..] == [c];
    assert Sum(Effort, [c]) == Effort(c);
  }

  lemma PackAlone(excess: real, a: Story, b: Story, c: Story)
    requires 0.0 < excess <= 1.0
    requires Effort(a) == 1.0 + excess && Effort(b) == 1.0 && Effort(c) == 1.0
    ensures Pack([2.0], [a, b, c]).bins == [[a]]
    ensures Sum(Effort, [a]) == 1.0 + excess
  {
    assert [a, b, c][..2] == [a, b] && [a, b][..1] == [a] && [a][..0] == [];
    assert Pack([2.0], []).bins == [[]];
    assert Remainders([2.0], [[]]) == [2.0];
    assert [] + [a] == [a];
    assert Pack([2.0], [a]).bins == [[a]];
    assert Sum(Effort, [a]) == Effort(a) + Sum(Effort, []);
    assert Remainders([2.0], [[a]]) == [1.0 - excess];
    assert [1.0 - excess][1..] == [];
    assert Pack([2.0], [a, b]).bins == [[a]];
  }
}
