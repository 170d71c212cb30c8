/** What every run of board requests keeps, and what splits and cancellations give back. */
module BoardInvariants {
  import opened Wrappers
  import opened BoardState
  import opened Lineage

  // ---- any request --------------------------------------------------------------------

  datatype Op =
    | OpCreateFeature(id: Id)
    | OpMoveToLane(f: Id, lane: Id, named: Option<Option<Id>>)
    | OpMoveToBacklog(f: Id)
    | OpSplit(f: Id, targetPi: Id, targetLane: Id, selected: set<Id>, id: Id)
    | OpCancel(f: Id)
    | OpDeleteFeature(f: Id)
    | OpCreateStory(id: Id, parent: Id, title: string, effort: real)
    | OpPlace(x: Id, inSprint: nat, id: Id)
    | OpUnplace(x: Id)
    | OpDeleteStory(x: Id)
    | OpCreateGroup(lane: Id, f: Id, name: string, listed: set<Id>, sprint: Option<nat>, id: Id)
    | OpUpdateGroup(g: Id, rename: Option<string>, resprint: Option<Option<nat>>)
    | OpDeleteGroup(g: Id)
    | OpCreateLane(lane: Id, ofPi: Id)
    | OpDeleteLane(lane: Id)
    | OpCreatePi(newPi: Id)
    | OpDeletePi(oldPi: Id)

  /** Deleting a feature takes every feature continuing it. */
  ghost function DeleteFeature(t: Tables, f: Id): Reply {
    if f !in t.features then Err(NotFound) else Ok(WithoutFeatures(t, Descent(t.features, {f})))
  }

  ghost function Perform(t: Tables, op: Op): Reply {
    match op
    case OpCreateFeature(id) => CreateFeature(t, id)
    case OpMoveToLane(f, lane, named) => MoveToLane(t, f, lane, named)
    case OpMoveToBacklog(f) => MoveToBacklog(t, f)
    case OpSplit(f, targetPi, targetLane, selected, id) => Split(t, f, targetPi, targetLane, selected, id)
    case OpCancel(f) => CancelContinuation(t, f)
    case OpDeleteFeature(f) => DeleteFeature(t, f)
    case OpCreateStory(id, parent, title, effort) => CreateStory(t, id, parent, title, effort)
    case OpPlace(x, sprint, id) => PlaceStory(t, x, sprint, id)
    case OpUnplace(x) => UnplaceStory(t, x)
    case OpDeleteStory(x) => DeleteStory(t, x)
    case OpCreateGroup(lane, f, name, listed, sprint, id) => CreateGroup(t, lane, f, name, listed, sprint, id)
    case OpUpdateGroup(g, name, sprint) => UpdateGroup(t, g, name, sprint)
    case OpDeleteGroup(g) => DeleteGroup(t, g)
    case OpCreateLane(lane, pi) => CreateLane(t, lane, pi)
    case OpDeleteLane(lane) => DeleteLane(t, lane)
    case OpCreatePi(pi) => CreatePi(t, pi)
    case OpDeletePi(pi) => DeletePi(t, pi)
  }

  /** A failed request changes nothing. */
  ghost function Next(t: Tables, op: Op): Tables {
    var r := Perform(t, op);
    if r.Ok? then r.value else t
  }

  ghost function Run(t: Tables, ops: seq<Op>): Tables {
    if ops == [] then t else Next(Run(t, ops[..|ops| - 1]), ops[|ops| - 1])
  }

  const EMPTY: Tables := Tables(map[], map[], map[], map[], {})

  // ---- the invariant ------------------------------------------------------------------

  /** Each group sits in its feature's swimlane. */
  ghost predicate GroupsFollow(t: Tables) {
    forall g :: g in t.groups ==>
      t.groups[g].feature in t.features && t.features[t.groups[g].feature].lane == Some(t.groups[g].lane)
  }

  /** Each story has its parent, and each grouped story belongs to its group's feature. */
  ghost predicate StoriesBelong(t: Tables) {
    forall x :: x in t.stories ==>
      && t.stories[x].parent in t.features
      && (t.stories[x].group.Some? ==>
            t.stories[x].group.value in t.groups && t.groups[t.stories[x].group.value].feature == t.stories[x].parent)
  }

  /** A feature is in a PI exactly when it has a swimlane, and that swimlane exists. */
  ghost predicate FeaturesLocated(t: Tables) {
    forall f :: f in t.features ==>
      && (t.features[f].location == InPi <==> t.features[f].lane.Some?)
      && (t.features[f].lane.Some? ==> t.features[f].lane.value in t.lanes)
  }

  ghost predicate LanesHavePi(t: Tables) {
    forall lane :: lane in t.lanes ==> t.lanes[lane] in t.pis
  }

  ghost predicate Valid(t: Tables) {
    && GroupsFollow(t) && StoriesBelong(t) && FeaturesLocated(t) && LanesHavePi(t)
    && Forest(t.features) && Unique(t.groups)
  }

  lemma SameLinks(before: map<Id, Feature>, after: map<Id, Feature>)
    requires Forest(before) && after.Keys <= before.Keys
    requires forall f :: f in after ==> after[f].from == before[f].from
    requires forall f :: f in after && after[f].from.Some? ==> after[f].from.value in after
    ensures Forest(after)
  {
    var rank :| Ranked(before, rank);
    assert Ranked(after, rank);
  }

  lemma SameLinksStill(before: map<Id, Feature>, after: map<Id, Feature>)
    requires Forest(before) && after.Keys == before.Keys && forall f :: f in after ==> after[f].from == before[f].from
    ensures Forest(after)
  {
    var rank :| Ranked(before, rank);
    SameLinks(before, after);
  }

  lemma NewFeature(before: map<Id, Feature>, id: Id, feature: Feature)
    requires Forest(before) && id !in before
    requires feature.from.Some? ==> feature.from.value in before
    ensures Forest(before[id := feature])
  {
    var rank :| Ranked(before, rank);
    var top := if feature.from.Some? then rank[feature.from.value] + 1 else 0;
    assert Ranked(before[id := feature], rank[id := top]);
  }

  lemma FewerGroups(before: map<Id, Group>, after: map<Id, Group>)
    requires Unique(before) && after.Keys <= before.Keys && forall g :: g in after ==> after[g] == before[g]
    ensures Unique(after)
  {}

  lemma MoveToLaneKeeps(t: Tables, f: Id, lane: Id, named: Option<Option<Id>>)
    requires Valid(t) && MoveToLane(t, f, lane, named).Ok?
    ensures Valid(MoveToLane(t, f, lane, named).value)
  {
    SameLinks(t.features, MoveToLane(t, f, lane, named).value.features);
  }

  lemma MoveToBacklogKeepsPlaces(t: Tables, f: Id)
    requires StoriesBelong(t) && GroupsFollow(t) && MoveToBacklog(t, f).Ok?
    ensures StoriesBelong(MoveToBacklog(t, f).value) && GroupsFollow(MoveToBacklog(t, f).value)
  {}

  lemma MoveToBacklogKeeps(t: Tables, f: Id)
    requires Valid(t) && MoveToBacklog(t, f).Ok?
    ensures Valid(MoveToBacklog(t, f).value)
  {
    var after := MoveToBacklog(t, f).value;
    MoveToBacklogKeepsPlaces(t, f);
    SameLinksStill(t.features, after.features);
    FewerGroups(t.groups, after.groups);
  }

  lemma SplitKeeps(t: Tables, f: Id, targetPi: Id, targetLane: Id, selected: set<Id>, id: Id)
    requires Valid(t) && Split(t, f, targetPi, targetLane, selected, id).Ok?
    ensures Valid(Split(t, f, targetPi, targetLane, selected, id).value)
  {
    if selected == StoriesOf(t.stories, f) {
      MoveToLaneKeeps(t, f, targetLane, Some(Some(targetPi)));
    } else {
      var after := Parted(t, f, targetPi, targetLane, selected, id);
      NewFeature(t.features, id, after.features[id]);
      FewerGroups(t.groups, after.groups);
      PartedKeepsStories(t, f, targetPi, targetLane, selected, id);
    }
  }

  lemma PartedKeepsStories(t: Tables, f: Id, targetPi: Id, targetLane: Id, selected: set<Id>, id: Id)
    requires StoriesBelong(t) && id !in t.features && f in t.features
    ensures StoriesBelong(Parted(t, f, targetPi, targetLane, selected, id))
  {
    var after := Parted(t, f, targetPi, targetLane, selected, id);
    forall x | x in t.stories && x !in selected && t.stories[x].group.Some?
      ensures t.stories[x].group.value in after.groups
    {
      assert x in Members(t.stories, t.stories[x].group.value);
    }
  }

  lemma RejoinedKeepsStories(t: Tables, f: Id, o: Id)
    requires StoriesBelong(t) && o in t.features && o != f
    ensures StoriesBelong(Rejoined(t, f, o))
  {}

  lemma CancelKeeps(t: Tables, f: Id)
    requires Valid(t) && CancelContinuation(t, f).Ok?
    ensures Valid(CancelContinuation(t, f).value)
  {
    var after := CancelContinuation(t, f).value;
    RejoinedKeepsStories(t, f, t.features[f].from.value);
    SameLinks(t.features, after.features);
    FewerGroups(t.groups, after.groups);
  }

  lemma DeleteFeatureKeeps(t: Tables, f: Id)
    requires Valid(t) && DeleteFeature(t, f).Ok?
    ensures Valid(DeleteFeature(t, f).value)
  {
    var after := DeleteFeature(t, f).value;
    forall x | x in after.features && after.features[x].from.Some?
      ensures after.features[x].from.value in after.features
    {
      if after.features[x].from.value in Descent(t.features, {f}) {
        NothingLeftBehind(t.features, {f}, x);
      } else {
        var rank :| Ranked(t.features, rank);
      }
    }
    SameLinks(t.features, after.features);
    FewerGroups(t.groups, after.groups);
  }

  lemma PlaceKeeps(t: Tables, x: Id, sprint: nat, id: Id)
    requires Valid(t) && PlaceStory(t, x, sprint, id).Ok?
    ensures Valid(PlaceStory(t, x, sprint, id).value)
  {}

  lemma UnplaceKeeps(t: Tables, x: Id)
    requires Valid(t) && UnplaceStory(t, x).Ok?
    ensures Valid(UnplaceStory(t, x).value)
  {
    FewerGroups(t.groups, UnplaceStory(t, x).value.groups);
  }

  lemma DeleteStoryKeeps(t: Tables, x: Id)
    requires Valid(t) && DeleteStory(t, x).Ok?
    ensures Valid(DeleteStory(t, x).value)
  {
    var after := DeleteStory(t, x).value;
    FewerGroups(t.groups, after.groups);
    forall y | y in after.stories && after.stories[y].group.Some? ensures after.stories[y].group.value in after.groups {
      assert y in Members(after.stories, after.stories[y].group.value);
    }
  }

  lemma CreateGroupKeeps(t: Tables, lane: Id, f: Id, name: string, listed: set<Id>, sprint: Option<nat>, id: Id)
    requires Valid(t) && CreateGroup(t, lane, f, name, listed, sprint, id).Ok?
    ensures Valid(CreateGroup(t, lane, f, name, listed, sprint, id).value)
  {}

  lemma UpdateGroupKeeps(t: Tables, g: Id, name: Option<string>, sprint: Option<Option<nat>>)
    requires Valid(t) && UpdateGroup(t, g, name, sprint).Ok?
    ensures Valid(UpdateGroup(t, g, name, sprint).value)
  {}

  lemma DeleteGroupKeeps(t: Tables, g: Id)
    requires Valid(t) && DeleteGroup(t, g).Ok?
    ensures Valid(DeleteGroup(t, g).value)
  {
    FewerGroups(t.groups, DeleteGroup(t, g).value.groups);
  }

  lemma WithoutLanesKeepsStories(t: Tables, lanes: set<Id>)
    requires StoriesBelong(t)
    ensures StoriesBelong(WithoutLanes(t, lanes))
  {}

  lemma WithoutLanesKeepsFeatures(t: Tables, lanes: set<Id>)
    requires GroupsFollow(t) && FeaturesLocated(t) && LanesHavePi(t)
    ensures GroupsFollow(WithoutLanes(t, lanes)) && FeaturesLocated(WithoutLanes(t, lanes))
      && LanesHavePi(WithoutLanes(t, lanes))
  {}

  lemma WithoutLanesKeeps(t: Tables, lanes: set<Id>)
    requires Valid(t)
    ensures Valid(WithoutLanes(t, lanes))
  {
    WithoutLanesKeepsStories(t, lanes);
    WithoutLanesKeepsFeatures(t, lanes);
    SameLinksStill(t.features, WithoutLanes(t, lanes).features);
    FewerGroups(t.groups, WithoutLanes(t, lanes).groups);
  }

  lemma WithoutPiKeepsPlaces(t: Tables, pi: Id)
    requires StoriesBelong(t) && GroupsFollow(t) && FeaturesLocated(t)
    ensures StoriesBelong(WithoutPi(t, pi)) && GroupsFollow(WithoutPi(t, pi)) && FeaturesLocated(WithoutPi(t, pi))
  {}

  lemma WithoutPiKeeps(t: Tables, pi: Id)
    requires Valid(t) && LanesOf(t, pi) == {}
    ensures Valid(WithoutPi(t, pi))
  {
    var after := WithoutPi(t, pi);
    WithoutPiKeepsPlaces(t, pi);
    SameLinksStill(t.features, after.features);
    forall lane | lane in after.lanes ensures after.lanes[lane] in after.pis {
      assert lane !in LanesOf(t, pi);
    }
  }

  lemma DeletePiKeeps(t: Tables, pi: Id)
    requires Valid(t) && DeletePi(t, pi).Ok?
    ensures Valid(DeletePi(t, pi).value)
  {
    WithoutLanesKeeps(t, LanesOf(t, pi));
    WithoutPiKeeps(WithoutLanes(t, LanesOf(t, pi)), pi);
  }

  ghost predicate Creates(op: Op) {
    op.OpCreateFeature? || op.OpCreateStory? || op.OpCreateLane? || op.OpCreatePi?
  }

  lemma CreationKeeps(t: Tables, op: Op)
    requires Valid(t) && Creates(op) && Perform(t, op).Ok?
    ensures Valid(Perform(t, op).value)
  {
    if op.OpCreateFeature? {
      NewFeature(t.features, op.id, Feature(Backlog, None, None, None));
    }
  }

  lemma StepKeepsValid(t: Tables, op: Op)
    requires Valid(t)
    ensures Valid(Next(t, op))
  {
    if Perform(t, op).Ok? {
      match op
      case OpMoveToLane(f, lane, named) => MoveToLaneKeeps(t, f, lane, named);
      case OpMoveToBacklog(f) => MoveToBacklogKeeps(t, f);
      case OpSplit(f, targetPi, targetLane, selected, id) => SplitKeeps(t, f, targetPi, targetLane, selected, id);
      case OpCancel(f) => CancelKeeps(t, f);
      case OpDeleteFeature(f) => DeleteFeatureKeeps(t, f);
      case OpPlace(x, sprint, id) => PlaceKeeps(t, x, sprint, id);
      case OpUnplace(x) => UnplaceKeeps(t, x);
      case OpDeleteStory(x) => DeleteStoryKeeps(t, x);
      case OpCreateGroup(lane, f, name, listed, sprint, id) => CreateGroupKeeps(t, lane, f, name, listed, sprint, id);
      case OpUpdateGroup(g, name, sprint) => UpdateGroupKeeps(t, g, name, sprint);
      case OpDeleteGroup(g) => DeleteGroupKeeps(t, g);
      case OpDeleteLane(lane) => WithoutLanesKeeps(t, {lane});
      case OpDeletePi(pi) => DeletePiKeeps(t, pi);
      case _ => CreationKeeps(t, op);
    }
  }

  lemma EmptyIsValid()
    ensures Valid(EMPTY)
  {
    assert Ranked(EMPTY.features, map[]);
  }

  /** Every reachable board satisfies the invariant. */
  lemma {:induction false} EveryRunIsValid(ops: seq<Op>)
    ensures Valid(Run(EMPTY, ops))
  {
    if ops == [] {
      EmptyIsValid();
    } else {
      EveryRunIsValid(ops[..|ops| - 1]);
      StepKeepsValid(Run(EMPTY, ops[..|ops| - 1]), ops[|ops| - 1]);
    }
  }

  // ---- split and cancel ---------------------------------------------------------------

  /** The sum of the efforts of these stories. */
  ghost function EffortOf(stories: map<Id, Story>, ids: set<Id>): real
    requires ids <= stories.Keys
  {
    if ids == {} then 0.0
    else
      var x :| x in ids;
      stories[x].effort + EffortOf(stories, ids - {x})
  }

  lemma {:induction false} EffortRemove(stories: map<Id, Story>, ids: set<Id>, x: Id)
    requires ids <= stories.Keys && x in ids
    ensures EffortOf(stories, ids) == stories[x].effort + EffortOf(stories, ids - {x})
    decreases |ids|
  {
    var y :| y in ids && EffortOf(stories, ids) == stories[y].effort + EffortOf(stories, ids - {y});
    if x != y {
      EffortRemove(stories, ids - {y}, x);
      EffortRemove(stories, ids - {x}, y);
      assert (ids - {y}) - {x} == (ids - {x}) - {y};
    }
  }

  lemma {:induction false} EffortOfParts(stories: map<Id, Story>, a: set<Id>, b: set<Id>)
    requires a + b <= stories.Keys && a !! b
    ensures EffortOf(stories, a + b) == EffortOf(stories, a) + EffortOf(stories, b)
    decreases |a|
  {
    if a == {} {
      assert a + b == b;
    } else {
      var x :| x in a;
      EffortRemove(stories, a, x);
      EffortRemove(stories, a + b, x);
      assert (a + b) - {x} == (a - {x}) + b;
      EffortOfParts(stories, a - {x}, b);
    }
  }

  lemma {:induction false} SameEfforts(before: map<Id, Story>, after: map<Id, Story>, ids: set<Id>)
    requires ids <= before.Keys && ids <= after.Keys
    requires forall x :: x in ids ==> after[x].effort == before[x].effort
    ensures EffortOf(after, ids) == EffortOf(before, ids)
    decreases |ids|
  {
    if ids != {} {
      var x :| x in ids;
      EffortRemove(before, ids, x);
      EffortRemove(after, ids, x);
      SameEfforts(before, after, ids - {x});
    }
  }

  /**
   * A split divides the stories in two: the selected ones under the continuation, the others where they were,
   * with their efforts, and no other feature's stories change hands.
   */
  lemma SplitDivides(t: Tables, f: Id, targetPi: Id, targetLane: Id, selected: set<Id>, id: Id)
    requires Valid(t) && Split(t, f, targetPi, targetLane, selected, id).Ok?
    requires selected != StoriesOf(t.stories, f)
    ensures
      var after := Split(t, f, targetPi, targetLane, selected, id).value;
      && after.features.Keys == t.features.Keys + {id} && id !in t.features
      && after.features[id].from == Some(f)
      && after.stories.Keys == t.stories.Keys
      && StoriesOf(after.stories, id) == selected
      && StoriesOf(after.stories, f) == StoriesOf(t.stories, f) - selected
      && StoriesOf(after.stories, f) != {}
      && EffortOf(after.stories, StoriesOf(after.stories, f)) + EffortOf(after.stories, StoriesOf(after.stories, id))
         == EffortOf(t.stories, StoriesOf(t.stories, f))
      && (forall o :: o in t.features && o != f ==> StoriesOf(after.stories, o) == StoriesOf(t.stories, o))
  {
    var after := Split(t, f, targetPi, targetLane, selected, id).value;
    var all := StoriesOf(t.stories, f);
    var kept := all - selected;
    assert all == kept + selected;
    assert kept == {} ==> all == selected;
    EffortOfParts(after.stories, kept, selected);
    SameEfforts(t.stories, after.stories, all);
    assert StoriesOf(after.stories, f) == kept;
    forall x | x in StoriesOf(after.stories, id) ensures x in selected {
      assert t.stories[x].parent in t.features;
    }
    assert StoriesOf(after.stories, id) == selected;
  }

  /** A continuation starts as a leaf, with no group of its own and none its stories would leave empty. */
  lemma NewContinuationIsBare(t: Tables, f: Id, targetPi: Id, targetLane: Id, selected: set<Id>, id: Id)
    requires Valid(t) && id !in t.features && f in t.features
    ensures
      var after := Parted(t, f, targetPi, targetLane, selected, id);
      IsLeaf(after.features, id) && GroupsOf(after.groups, id) == {} && Emptied(after, selected) == {}
  {
    var after := Parted(t, f, targetPi, targetLane, selected, id);
    forall x | x in after.features ensures after.features[x].from != Some(id) {
      var rank :| Ranked(t.features, rank);
    }
    forall g ensures g !in Emptied(after, selected) {
      assert forall x :: x in Members(after.stories, g) ==> x !in selected;
    }
  }

  lemma CancelBareLeaf(t: Tables, f: Id, o: Id)
    requires f in t.features && o in t.features && t.features[f].from == Some(o) && IsLeaf(t.features, f)
    requires GroupsOf(t.groups, f) == {} && Emptied(t, StoriesOf(t.stories, f)) == {}
    ensures CancelContinuation(t, f) == Ok(t.(
      features := t.features - {f},
      stories := Reparented(t.stories, StoriesOf(t.stories, f), o, t.features[o].pi, t.features[o].lane)))
  {
    var back := Reparented(t.stories, StoriesOf(t.stories, f), o, t.features[o].pi, t.features[o].lane);
    assert GroupsOf(t.groups, f) + Emptied(t, StoriesOf(t.stories, f)) == {};
    assert Ungrouped(back, {}) == back;
    assert t.groups - {} == t.groups;
  }

  lemma StoriesOfContinuation(t: Tables, f: Id, targetPi: Id, targetLane: Id, selected: set<Id>, id: Id)
    requires StoriesBelong(t) && id !in t.features && selected <= t.stories.Keys
    ensures StoriesOf(Parted(t, f, targetPi, targetLane, selected, id).stories, id) == selected
  {}

  lemma CancelAfterSplit(t: Tables, f: Id, targetPi: Id, targetLane: Id, selected: set<Id>, id: Id)
    requires Valid(t) && id !in t.features && f in t.features && selected <= t.stories.Keys
    ensures
      var after := Parted(t, f, targetPi, targetLane, selected, id);
      CancelContinuation(after, id) == Ok(t.(
        stories := Reparented(after.stories, selected, f, t.features[f].pi, t.features[f].lane),
        groups := after.groups))
  {
    var after := Parted(t, f, targetPi, targetLane, selected, id);
    StoriesOfContinuation(t, f, targetPi, targetLane, selected, id);
    NewContinuationIsBare(t, f, targetPi, targetLane, selected, id);
    CancelBareLeaf(after, id, f);
    assert (t.features[id := after.features[id]]) - {id} == t.features;
  }

  /** Cancelling the continuation a split made gives back the feature set and every story's parent. */
  lemma CancelUndoesSplit(t: Tables, f: Id, targetPi: Id, targetLane: Id, selected: set<Id>, id: Id)
    requires Valid(t) && Split(t, f, targetPi, targetLane, selected, id).Ok?
    requires selected != StoriesOf(t.stories, f)
    ensures
      var back := CancelContinuation(Split(t, f, targetPi, targetLane, selected, id).value, id);
      && back.Ok?
      && back.value.features == t.features
      && back.value.stories.Keys == t.stories.Keys
      && (forall x :: x in t.stories ==>
            && back.value.stories[x].parent == t.stories[x].parent
            && back.value.stories[x].effort == t.stories[x].effort)
      && (forall x :: x in t.stories && x !in selected ==> back.value.stories[x] == t.stories[x])
      && (forall x :: x in selected ==>
            back.value.stories[x] == t.stories[x].(group := None, pi := t.features[f].pi, lane := t.features[f].lane))
      && back.value.groups == t.groups - Emptied(t, selected)
  {
    CancelAfterSplit(t, f, targetPi, targetLane, selected, id);
  }

  // ---- unwinding a lineage ------------------------------------------------------------

  lemma {:induction false} CancelKeepsClimb(t: Tables, f: Id, x: Id, n: nat)
    requires Forest(t.features) && CancelContinuation(t, f).Ok?
    requires x in t.features && x != f
    ensures Climb(CancelContinuation(t, f).value.features, x, n) == Climb(t.features, x, n)
    ensures Climb(t.features, x, n) != f
    decreases n
  {
    if n > 0 && t.features[x].from.Some? {
      var rank :| Ranked(t.features, rank);
      CancelKeepsClimb(t, f, t.features[x].from.value, n - 1);
    }
  }

  /** The same stories with the same efforts, each under the same root, whatever its parent now is. */
  ghost predicate SameRoots(t: Tables, last: Tables)
    requires Valid(t) && Valid(last)
  {
    && last.stories.Keys == t.stories.Keys
    && forall x :: x in t.stories ==>
         && Root(last.features, last.stories[x].parent) == Root(t.features, t.stories[x].parent)
         && last.stories[x].effort == t.stories[x].effort
  }

  /** Cancelling a leaf moves its stories to its origin and leaves every feature and every story under the same root. */
  lemma CancelKeepsRoots(t: Tables, f: Id)
    requires Valid(t) && CancelContinuation(t, f).Ok?
    ensures
      var after := CancelContinuation(t, f).value;
      && Valid(after) && SameRoots(t, after)
      && (forall x :: x in t.features && x != f ==>
        x in after.features && Root(after.features, x) == Root(t.features, x))
  {
    CancelKeeps(t, f);
    CancelKeepsEachRoot(t, f);
    RootOfLink(t.features, f);
    RejoinedParents(t, f, t.features[f].from.value);
    StoriesKeepRoots(t, CancelContinuation(t, f).value, f, t.features[f].from.value);
  }

  lemma RejoinedParents(t: Tables, f: Id, o: Id)
    requires o in t.features
    ensures
      var after := Rejoined(t, f, o).stories;
      && after.Keys == t.stories.Keys
      && forall x :: x in t.stories ==>
           && after[x].effort == t.stories[x].effort
           && after[x].parent == if t.stories[x].parent == f then o else t.stories[x].parent
  {}

  lemma StoriesKeepRoots(t: Tables, after: Tables, f: Id, o: Id)
    requires o in t.features && f in t.features && f != o && Valid(t) && Valid(after)
    requires after.stories.Keys == t.stories.Keys && forall x :: x in t.stories ==>
      && after.stories[x].effort == t.stories[x].effort
      && after.stories[x].parent == if t.stories[x].parent == f then o else t.stories[x].parent
    requires forall x :: x in t.features && x != f ==>
      x in after.features && Root(after.features, x) == Root(t.features, x)
    requires Root(t.features, f) == Root(t.features, o)
    ensures SameRoots(t, after)
  {}

  lemma CancelKeepsEachRoot(t: Tables, f: Id)
    requires Forest(t.features) && CancelContinuation(t, f).Ok? && Forest(CancelContinuation(t, f).value.features)
    ensures
      var after := CancelContinuation(t, f).value.features;
      forall x :: x in t.features && x != f ==> x in after && Root(after, x) == Root(t.features, x)
  {
    var after := CancelContinuation(t, f).value.features;
    forall x | x in t.features && x != f ensures Root(after, x) == Root(t.features, x) {
      EveryFeatureHasRoot(t.features, x);
      var n: nat :| IsRoot(t.features, Climb(t.features, x, n));
      CancelKeepsClimb(t, f, x, n);
      RootIs(t.features, x, n);
      RootIs(after, x, n);
    }
  }

  ghost predicate Cancels(t: Tables, f: Id, next: Tables) {
    CancelContinuation(t, f) == Ok(next)
  }

  /** The tables after these cancellations, when every one of them succeeds. */
  ghost predicate Unwinds(t: Tables, leaves: seq<Id>, last: Tables)
    decreases |leaves|
  {
    if leaves == [] then last == t
    else CancelContinuation(t, leaves[0]).Ok? && Unwinds(CancelContinuation(t, leaves[0]).value, leaves[1..], last)
  }

  /** The same stories with the same efforts, each under the root of the lineage it was in. */
  ghost predicate UnderRoots(t: Tables, last: Tables)
    requires Valid(t)
  {
    && last.stories.Keys == t.stories.Keys
    && forall x :: x in t.stories ==>
         && last.stories[x].parent == Root(t.features, t.stories[x].parent)
         && last.stories[x].effort == t.stories[x].effort
  }

  lemma StoriesAtRoots(t: Tables)
    requires Valid(t) && Continuations(t.features) == {}
    ensures UnderRoots(t, t)
  {
    forall x | x in t.stories ensures t.stories[x].parent == Root(t.features, t.stories[x].parent) {
      var p := t.stories[x].parent;
      assert t.features[p].from.Some? ==> p in Continuations(t.features);
      RootIs(t.features, p, 0);
    }
  }

  lemma OneContinuationLess(t: Tables, f: Id)
    requires CancelContinuation(t, f).Ok?
    ensures
      var after := CancelContinuation(t, f).value.features;
      && f in Continuations(t.features)
      && Continuations(after) == Continuations(t.features) - {f}
      && after.Keys == t.features.Keys - {f}
  {}

  /** While any continuation exists, some leaf can be cancelled. */
  lemma SomeLeafCancels(t: Tables) returns (leaf: Id, next: Tables)
    requires Valid(t) && Continuations(t.features) != {}
    ensures Cancels(t, leaf, next) && Valid(next)
    ensures leaf in Continuations(t.features)
    ensures Continuations(next.features) == Continuations(t.features) - {leaf}
    ensures next.features.Keys == t.features.Keys - {leaf}
  {
    leaf := SomeLeafExists(t.features);
    var rank :| Ranked(t.features, rank);
    CancelKeeps(t, leaf);
    OneContinuationLess(t, leaf);
    next := CancelContinuation(t, leaf).value;
  }

  lemma CancelsToSameRoots(t: Tables, f: Id, next: Tables)
    requires Valid(t) && Cancels(t, f, next)
    ensures Valid(next) && SameRoots(t, next)
  {
    CancelKeepsRoots(t, f);
  }

  /** In whatever order leaves are cancelled, every story stays under its root. */
  lemma {:induction false} AnyOrderKeepsRoots(t: Tables, leaves: seq<Id>, last: Tables)
    requires Valid(t) && Unwinds(t, leaves, last)
    ensures Valid(last) && SameRoots(t, last)
    decreases |leaves|
  {
    if leaves != [] {
      var next := CancelContinuation(t, leaves[0]).value;
      CancelsToSameRoots(t, leaves[0], next);
      AnyOrderKeepsRoots(next, leaves[1..], last);
      SameRootsTwice(t, next, last);
    }
  }

  /** In whatever order leaves are cancelled, each takes one continuation away and no other feature goes. */
  lemma {:induction false} AnyOrderCounts(t: Tables, leaves: seq<Id>, last: Tables)
    requires Unwinds(t, leaves, last)
    ensures Elements(leaves) <= Continuations(t.features)
    ensures Continuations(last.features) == Continuations(t.features) - Elements(leaves)
    ensures last.features.Keys == t.features.Keys - Elements(leaves)
    ensures |Continuations(last.features)| == |Continuations(t.features)| - |leaves|
    decreases |leaves|
  {
    if leaves != [] {
      var next := CancelContinuation(t, leaves[0]).value;
      OneContinuationLess(t, leaves[0]);
      AnyOrderCounts(next, leaves[1..], last);
      assert Elements(leaves) == {leaves[0]} + Elements(leaves[1..]);
      OneFewer(t, leaves[0], next);
    }
  }

  lemma SameRootsTwice(t: Tables, next: Tables, last: Tables)
    requires Valid(t) && Valid(next) && Valid(last) && SameRoots(t, next) && SameRoots(next, last)
    ensures SameRoots(t, last)
  {}

  lemma OneFewer(t: Tables, leaf: Id, next: Tables)
    requires leaf in Continuations(t.features)
    requires Continuations(next.features) == Continuations(t.features) - {leaf}
    ensures |Continuations(next.features)| == |Continuations(t.features)| - 1
  {}

  ghost function Elements(ids: seq<Id>): set<Id> {
    set f | f in ids
  }

  /**
   * Cancelling until nothing more can be cancelled, in whatever order, takes as many steps as there were continuations
   * and leaves every story, effort unchanged, under the root of its lineage.
   */
  lemma AnyOrderEndsAtRoots(t: Tables, leaves: seq<Id>, last: Tables)
    requires Valid(t) && Unwinds(t, leaves, last)
    requires forall f :: !CancelContinuation(last, f).Ok?
    ensures Continuations(last.features) == {} && |leaves| == |Continuations(t.features)|
    ensures last.features.Keys == t.features.Keys - Continuations(t.features)
    ensures UnderRoots(t, last)
  {
    AnyOrderKeepsRoots(t, leaves, last);
    AnyOrderCounts(t, leaves, last);
    if Continuations(last.features) != {} {
      var leaf, next := SomeLeafCancels(last);
      assert false;
    }
    StoriesAtRoots(last);
    RootsReached(t, last);
  }

  lemma RootsReached(t: Tables, last: Tables)
    requires Valid(t) && Valid(last) && SameRoots(t, last) && UnderRoots(last, last)
    ensures UnderRoots(t, last)
  {}

  /** Such a sequence of cancellations exists. */
  lemma {:induction false} UnwindEverything(t: Tables) returns (leaves: seq<Id>, last: Tables)
    requires Valid(t)
    ensures Unwinds(t, leaves, last) && forall f :: !CancelContinuation(last, f).Ok?
    decreases |Continuations(t.features)|
  {
    if Continuations(t.features) == {} {
      leaves, last := [], t;
      forall f ensures !CancelContinuation(t, f).Ok? {
        assert f !in Continuations(t.features);
      }
    } else {
      var leaf, next := SomeLeafCancels(t);
      var rest;
      rest, last := UnwindEverything(next);
      leaves := [leaf] + rest;
      assert leaves[1..] == rest;
    }
  }
}
