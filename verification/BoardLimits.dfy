/**
 * Where the board's guards stop: which requests can leave an implicit group without its story, a continuation
 * without its origin, or a story in another feature's group, and what a person then runs into.
 */
module BoardLimits {
  import opened Wrappers
  import opened BoardState
  import opened Lineage
  import opened BoardInvariants

  // ---- implicit groups ----------------------------------------------------------------

  /** Every implicit group holds its own story and no other. */
  ghost predicate Tidy(t: Tables) {
    forall g :: g in t.groups && t.groups[g].implicit ==> Carries(t, g)
  }

  ghost predicate Carries(t: Tables, g: Id)
    requires g in t.groups
  {
    t.groups[g].story.Some? && Members(t.stories, g) == {t.groups[g].story.value}
  }

  /** The request lists a story that is placed on its own in a sprint. */
  ghost predicate TakesPlacedStory(t: Tables, listed: set<Id>) {
    exists x :: x in listed && x in t.stories && Placed(t, x)
  }

  ghost predicate Placed(t: Tables, x: Id)
    requires x in t.stories
  {
    t.stories[x].group.Some? && t.stories[x].group.value in t.groups && t.groups[t.stories[x].group.value].implicit
  }

  /** Making a group of these stories leaves an implicit group empty exactly when one of them was in it. */
  lemma CreateGroupTidyWhen(t: Tables, lane: Id, f: Id, name: string, listed: set<Id>, sprint: Option<nat>, id: Id)
    requires Valid(t) && Tidy(t)
    requires CreateGroup(t, lane, f, name, listed, sprint, id).Ok?
    ensures Tidy(CreateGroup(t, lane, f, name, listed, sprint, id).value) <==> !TakesPlacedStory(t, listed)
  {
    var after := CreateGroup(t, lane, f, name, listed, sprint, id).value;
    if TakesPlacedStory(t, listed) {
      var x :| x in listed && x in t.stories && Placed(t, x);
      var g := t.stories[x].group.value;
      assert x in Members(t.stories, g);
      assert Carries(t, g);
      assert x !in Members(after.stories, g);
      assert !Carries(after, g);
    } else {
      forall g | g in after.groups && after.groups[g].implicit ensures Carries(after, g) {
        SameMembers(t, after, g);
      }
    }
  }

  lemma SameMembers(before: Tables, after: Tables, g: Id)
    requires g in before.groups && Carries(before, g)
    requires g in after.groups && after.groups[g].story == before.groups[g].story
    requires forall x :: x in before.stories && before.stories[x].group == Some(g) ==>
      x in after.stories && after.stories[x].group == Some(g)
    requires forall x :: x in after.stories && after.stories[x].group == Some(g) ==>
      x in before.stories && before.stories[x].group == Some(g)
    ensures Carries(after, g)
  {
    assert Members(after.stories, g) == Members(before.stories, g);
  }

  /** Requests that do not name a placed story for a new group. */
  ghost predicate LeavesPlaced(t: Tables, op: Op) {
    op.OpCreateGroup? ==> !TakesPlacedStory(t, op.listed)
  }

  /** Taking stories out leaves alone the implicit groups it does not empty. */
  lemma KeptGroupUntouched(t: Tables, out: set<Id>, g: Id)
    requires g in t.groups && t.groups[g].implicit && Carries(t, g) && g !in Emptied(t, out)
    ensures Members(t.stories, g) !! out
  {
    assert Members(t.stories, g) == {t.groups[g].story.value};
  }

  lemma SplitKeepsTidy(t: Tables, f: Id, targetPi: Id, targetLane: Id, selected: set<Id>, id: Id)
    requires Valid(t) && Tidy(t) && Split(t, f, targetPi, targetLane, selected, id).Ok?
    requires selected != StoriesOf(t.stories, f)
    ensures Tidy(Split(t, f, targetPi, targetLane, selected, id).value)
  {
    var after := Split(t, f, targetPi, targetLane, selected, id).value;
    forall g | g in after.groups && after.groups[g].implicit
      ensures Members(after.stories, g) == Members(t.stories, g)
    {
      KeptGroupUntouched(t, selected, g);
    }
    FewerKeepTidy(t, after);
  }

  lemma CancelKeepsTidy(t: Tables, f: Id)
    requires Valid(t) && Tidy(t) && CancelContinuation(t, f).Ok?
    ensures Tidy(CancelContinuation(t, f).value)
  {
    var o := t.features[f].from.value;
    forall g | g in Rejoined(t, f, o).groups && t.groups[g].implicit
      ensures Members(Rejoined(t, f, o).stories, g) == Members(t.stories, g)
    {
      assert Carries(t, g);
      RejoinedMembers(t, f, o, g);
    }
    FewerKeepTidy(t, Rejoined(t, f, o));
  }

  lemma RejoinedMembers(t: Tables, f: Id, o: Id, g: Id)
    requires o in t.features && g in t.groups && t.groups[g].implicit && Carries(t, g)
    requires g in Rejoined(t, f, o).groups
    ensures Members(Rejoined(t, f, o).stories, g) == Members(t.stories, g)
  {
    KeptGroupUntouched(t, StoriesOf(t.stories, f), g);
  }

  lemma DeleteFeatureKeepsTidy(t: Tables, f: Id)
    requires Valid(t) && Tidy(t) && DeleteFeature(t, f).Ok?
    ensures Tidy(DeleteFeature(t, f).value)
  {
    var after := DeleteFeature(t, f).value;
    forall g | g in after.groups && after.groups[g].implicit ensures Carries(after, g) {
      assert Carries(t, g);
      SameMembers(t, after, g);
    }
  }

  lemma PlaceKeepsTidy(t: Tables, x: Id, sprint: nat, id: Id)
    requires Valid(t) && Tidy(t) && PlaceStory(t, x, sprint, id).Ok?
    ensures Tidy(PlaceStory(t, x, sprint, id).value)
  {
    var after := PlaceStory(t, x, sprint, id).value;
    forall g | g in after.groups && after.groups[g].implicit ensures Carries(after, g) {
      if g == id {
        assert Members(after.stories, id) == {x};
      } else {
        SameMembers(t, after, g);
      }
    }
  }

  /** Taking stories out of groups, or away, that are deleted with them. */
  lemma FewerKeepTidy(t: Tables, after: Tables)
    requires Tidy(t)
    requires forall g :: g in after.groups && after.groups[g].implicit ==>
      && g in t.groups && t.groups[g].implicit && t.groups[g].story == after.groups[g].story
      && Members(after.stories, g) == Members(t.stories, g)
    ensures Tidy(after)
  {
    forall g | g in after.groups && after.groups[g].implicit ensures Carries(after, g) {
      assert Carries(t, g);
    }
  }

  lemma DeleteStoryKeepsTidy(t: Tables, x: Id)
    requires Valid(t) && Tidy(t) && DeleteStory(t, x).Ok?
    ensures Tidy(DeleteStory(t, x).value)
  {
    var after := DeleteStory(t, x).value;
    forall g | g in after.groups && after.groups[g].implicit
      ensures Members(after.stories, g) == Members(t.stories, g)
    {
      assert Carries(t, g);
      assert t.stories[x].group == Some(g) ==> x in Members(t.stories, g);
    }
    FewerKeepTidy(t, after);
  }

  lemma StepKeepsTidy(t: Tables, op: Op)
    requires Valid(t) && Tidy(t) && LeavesPlaced(t, op)
    ensures Tidy(Next(t, op))
  {
    if Perform(t, op).Ok? {
      match op
      case OpSplit(f, targetPi, targetLane, selected, id) =>
        if selected == StoriesOf(t.stories, f) {
          MoveKeepsTidy(t, f, targetLane, Some(Some(targetPi)));
        } else {
          SplitKeepsTidy(t, f, targetPi, targetLane, selected, id);
        }
      case OpMoveToLane(f, lane, named) => MoveKeepsTidy(t, f, lane, named);
      case OpCancel(f) => CancelKeepsTidy(t, f);
      case OpDeleteFeature(f) => DeleteFeatureKeepsTidy(t, f);
      case OpPlace(x, sprint, id) => PlaceKeepsTidy(t, x, sprint, id);
      case OpDeleteStory(x) => DeleteStoryKeepsTidy(t, x);
      case OpCreateGroup(lane, f, name, listed, sprint, id) =>
        CreateGroupTidyWhen(t, lane, f, name, listed, sprint, id);
      case OpCreateStory(id, _, _, _) => StoryKeepsTidy(t, op);
      case OpUnplace(x) => UnplaceKeepsTidy(t, x);
      case OpCreateFeature(_) => FewerKeepTidy(t, Perform(t, op).value);
      case OpUpdateGroup(_, _, _) => FewerKeepTidy(t, Perform(t, op).value);
      case OpCreateLane(_, _) => FewerKeepTidy(t, Perform(t, op).value);
      case OpCreatePi(_) => FewerKeepTidy(t, Perform(t, op).value);
      case OpDeleteLane(lane) => WithoutLanesKeepsTidy(t, {lane});
      case OpDeletePi(pi) => DeletePiKeepsTidy(t, pi);
      case _ => DeletionsKeepTidy(t, op);
    }
  }

  lemma MoveKeepsTidy(t: Tables, f: Id, lane: Id, named: Option<Option<Id>>)
    requires Tidy(t) && MoveToLane(t, f, lane, named).Ok?
    ensures Tidy(MoveToLane(t, f, lane, named).value)
  {
    FewerKeepTidy(t, MoveToLane(t, f, lane, named).value);
  }

  lemma StoryKeepsTidy(t: Tables, op: Op)
    requires Valid(t) && Tidy(t) && op.OpCreateStory? && Perform(t, op).Ok?
    ensures Tidy(Perform(t, op).value)
  {
    var after := Perform(t, op).value;
    forall g ensures Members(after.stories, g) == Members(t.stories, g) {}
    FewerKeepTidy(t, after);
  }

  lemma UnplaceKeepsTidy(t: Tables, x: Id)
    requires Valid(t) && Tidy(t) && UnplaceStory(t, x).Ok?
    ensures Tidy(UnplaceStory(t, x).value)
  {
    var after := UnplaceStory(t, x).value;
    forall g | g in after.groups && after.groups[g].implicit
      ensures Members(after.stories, g) == Members(t.stories, g)
    {}
    FewerKeepTidy(t, after);
  }

  lemma DeletionsKeepTidy(t: Tables, op: Op)
    requires Tidy(t) && Perform(t, op).Ok?
    requires op.OpMoveToBacklog? || op.OpDeleteGroup?
    ensures Tidy(Perform(t, op).value)
  {
    var after := Perform(t, op).value;
    var gone := t.groups.Keys - after.groups.Keys;
    forall g | g in after.groups && after.groups[g].implicit
      ensures Members(after.stories, g) == Members(t.stories, g)
    {
      UngroupedMembers(t.stories, gone, g);
      assert after.stories == Ungrouped(t.stories, gone);
    }
    FewerKeepTidy(t, after);
  }

  lemma WithoutLanesKeepsTidy(t: Tables, lanes: set<Id>)
    requires Tidy(t)
    ensures Tidy(WithoutLanes(t, lanes))
  {
    var after := WithoutLanes(t, lanes);
    forall g | g in after.groups && after.groups[g].implicit
      ensures Members(after.stories, g) == Members(t.stories, g)
    {
      UngroupedMembers(OffLanes(t.stories, lanes), t.groups.Keys - after.groups.Keys, g);
      assert after.stories == Ungrouped(OffLanes(t.stories, lanes), t.groups.Keys - after.groups.Keys);
    }
    FewerKeepTidy(t, after);
  }

  lemma DeletePiKeepsTidy(t: Tables, pi: Id)
    requires Tidy(t) && DeletePi(t, pi).Ok?
    ensures Tidy(DeletePi(t, pi).value)
  {
    var left := WithoutLanes(t, LanesOf(t, pi));
    WithoutLanesKeepsTidy(t, LanesOf(t, pi));
    forall g ensures Members(WithoutPi(left, pi).stories, g) == Members(left.stories, g) {}
    FewerKeepTidy(left, WithoutPi(left, pi));
  }

  lemma UngroupedMembers(stories: map<Id, Story>, gone: set<Id>, g: Id)
    requires g !in gone
    ensures Members(Ungrouped(stories, gone), g) == Members(stories, g)
  {}

  ghost predicate LeavesPlacedThroughout(t: Tables, ops: seq<Op>) {
    forall i :: 0 <= i < |ops| ==> LeavesPlaced(Run(t, ops[..i]), ops[i])
  }

  lemma {:induction false} EveryRunIsTidy(ops: seq<Op>)
    requires LeavesPlacedThroughout(EMPTY, ops)
    ensures Tidy(Run(EMPTY, ops))
  {
    if ops != [] {
      var n := |ops| - 1;
      assert forall i :: 0 <= i < n ==> ops[..n][..i] == ops[..i];
      EveryRunIsTidy(ops[..n]);
      EveryRunIsValid(ops[..n]);
      assert LeavesPlaced(Run(EMPTY, ops[..n]), ops[n]);
      StepKeepsTidy(Run(EMPTY, ops[..n]), ops[n]);
    }
  }

  /** On a tidy board every ungrouped story of a feature in a swimlane can be placed. */
  lemma UngroupedIsPlaceable(t: Tables, x: Id, sprint: nat, id: Id)
    requires Valid(t) && Tidy(t) && id !in t.groups
    requires x in t.stories && t.stories[x].group.None? && t.features[t.stories[x].parent].location == InPi
    ensures PlaceStory(t, x, sprint, id).Ok?
  {
    forall g | g in t.groups && t.groups[g].implicit ensures t.groups[g].story != Some(x) {
      assert Carries(t, g);
      assert t.groups[g].story == Some(x) ==> x in Members(t.stories, g);
    }
  }

  /**
   * A placed story taken into a new group leaves its implicit group behind: unplaced from the new group,
   * the story cannot be placed again.
   */
  lemma TakenStoryCannotBePlaced(
      t: Tables, lane: Id, f: Id, name: string, listed: set<Id>, sprint: Option<nat>, id: Id,
      x: Id, again: nat, next: Id)
    requires Valid(t) && Tidy(t) && CreateGroup(t, lane, f, name, listed, sprint, id).Ok?
    requires x in listed && x in t.stories && Placed(t, x) && id != next && next !in t.groups
    ensures
      var taken := CreateGroup(t, lane, f, name, listed, sprint, id).value;
      UnplaceStory(taken, x).Ok? && PlaceStory(UnplaceStory(taken, x).value, x, again, next) == Err(Integrity)
  {
    var taken := CreateGroup(t, lane, f, name, listed, sprint, id).value;
    var out := UnplaceStory(taken, x).value;
    var g := t.stories[x].group.value;
    assert x in Members(t.stories, g);
    assert Carries(t, g);
    assert g in out.groups && out.groups[g] == t.groups[g] && next !in out.groups;
    var groups := out.groups[next :=
      Group(out.features[f].lane.value, f, out.stories[x].title, Some(again), true, Some(x))];
    assert groups[g].implicit && groups[next].implicit && groups[g].story == groups[next].story;
    assert !Unique(groups);
  }

  /** A PI with one swimlane, and beside it one feature in the backlog with these stories. */
  function StartingBoard(stories: map<Id, Story>): Tables {
    Tables(map[1 := Feature(Backlog, None, None, None)], stories, map[], map[7 := 1], {1})
  }

  lemma StartIsReachable(title: string, effort: real) returns (ops: seq<Op>)
    ensures |ops| == 4 && Run(EMPTY, ops) == StartingBoard(map[10 := Story(title, effort, 1, None, None, None)])
  {
    ops := [];
    RunExtends(ops, OpCreatePi(1));
    ops := ops + [OpCreatePi(1)];
    RunExtends(ops, OpCreateLane(7, 1));
    ops := ops + [OpCreateLane(7, 1)];
    RunExtends(ops, OpCreateFeature(1));
    ops := ops + [OpCreateFeature(1)];
    RunExtends(ops, OpCreateStory(10, 1, title, effort));
    ops := ops + [OpCreateStory(10, 1, title, effort)];
  }

  /** Seven requests after which a placed story, unplaced, cannot be placed again. */
  lemma StrandedIsReachable(title: string, effort: real) returns (ops: seq<Op>)
    ensures |ops| == 7 && !Tidy(Run(EMPTY, ops))
    ensures UnplaceStory(Run(EMPTY, ops), 10).Ok?
    ensures PlaceStory(UnplaceStory(Run(EMPTY, ops), 10).value, 10, 0, 22) == Err(Integrity)
  {
    ops := StartIsReachable(title, effort);
    ops := MoveThenPlace(ops, title, effort);
    var group := OpCreateGroup(7, 1, title, {10}, None, 21);
    RunExtends(ops, group);
    PlacedBoardIsTidy(title, effort);
    EveryRunIsValid(ops);
    GroupStrands(title, effort);
    ops := ops + [group];
  }

  function PlacedBoard(title: string, effort: real): Tables {
    Tables(
      map[1 := Feature(InPi, Some(1), Some(7), None)], map[10 := Story(title, effort, 1, Some(20), Some(7), None)],
      map[20 := Group(7, 1, title, Some(0), true, Some(10))], map[7 := 1], {1})
  }

  /** The first feature of a board without groups moves into its swimlane. */
  lemma MoveIn(before: seq<Op>, t: Tables)
    requires Run(EMPTY, before) == t && t.groups == map[] && 1 in t.features && 7 in t.lanes && t.lanes[7] == 1
    ensures Run(EMPTY, before + [OpMoveToLane(1, 7, None)]) ==
      t.(features := t.features[1 := t.features[1].(location := InPi, lane := Some(7), pi := Some(1))])
  {
    RunExtends(before, OpMoveToLane(1, 7, None));
    assert Relocated(t.groups, 1, 7) == map[];
  }

  lemma MoveThenPlace(before: seq<Op>, title: string, effort: real) returns (ops: seq<Op>)
    requires Run(EMPTY, before) == StartingBoard(map[10 := Story(title, effort, 1, None, None, None)])
    ensures |ops| == |before| + 2 && Run(EMPTY, ops) == PlacedBoard(title, effort)
  {
    ops := before + [OpMoveToLane(1, 7, None)];
    MoveIn(before, StartingBoard(map[10 := Story(title, effort, 1, None, None, None)]));
    RunExtends(ops, OpPlace(10, 0, 20));
    ops := ops + [OpPlace(10, 0, 20)];
  }

  lemma PlacedBoardIsTidy(title: string, effort: real)
    ensures Tidy(PlacedBoard(title, effort)) && Placed(PlacedBoard(title, effort), 10)
  {
    assert Members(PlacedBoard(title, effort).stories, 20) == {10};
  }

  lemma GroupIsAccepted(title: string, effort: real)
    ensures CreateGroup(PlacedBoard(title, effort), 7, 1, title, {10}, None, 21).Ok?
  {
    var t := PlacedBoard(title, effort);
    assert 7 in t.lanes && 1 in t.features && 10 in t.stories && 21 !in t.groups;
  }

  lemma GroupStrands(title: string, effort: real)
    requires Valid(PlacedBoard(title, effort)) && Tidy(PlacedBoard(title, effort))
    ensures
      var after := Next(PlacedBoard(title, effort), OpCreateGroup(7, 1, title, {10}, None, 21));
      && !Tidy(after) && UnplaceStory(after, 10).Ok?
      && PlaceStory(UnplaceStory(after, 10).value, 10, 0, 22) == Err(Integrity)
  {
    var t := PlacedBoard(title, effort);
    assert Placed(t, 10) && 10 in {10};
    GroupIsAccepted(title, effort);
    CreateGroupTidyWhen(t, 7, 1, title, {10}, None, 21);
    TakenStoryCannotBePlaced(t, 7, 1, title, {10}, None, 21, 10, 0, 22);
  }

  // ---- continuation links -------------------------------------------------------------

  /** A feature in a PI continues one in the backlog. */
  ghost predicate SeversLink(t: Tables) {
    exists f :: f in t.features && t.features[f].location == InPi && ContinuesBacklog(t, f)
  }

  ghost predicate ContinuesBacklog(t: Tables, f: Id)
    requires f in t.features
  {
    t.features[f].from.Some? && t.features[f].from.value in t.features
    && t.features[t.features[f].from.value].location == Backlog
  }

  /** Clearing the backlog keeps the board whole exactly when no feature in a PI continues a cleared one. */
  lemma ClearBacklogKeepsWhen(t: Tables)
    requires Valid(t)
    ensures Valid(ClearBacklog(t)) <==> !SeversLink(t)
  {
    var after := ClearBacklog(t);
    var rank :| Ranked(t.features, rank);
    if SeversLink(t) {
      var f :| f in t.features && t.features[f].location == InPi && ContinuesBacklog(t, f);
      assert f in after.features && after.features[f].from.value !in after.features;
      assert !Forest(after.features);
    } else {
      forall f | f in after.features && after.features[f].from.Some?
        ensures after.features[f].from.value in after.features
      {
        assert !ContinuesBacklog(t, f);
      }
      SameLinks(t.features, after.features);
      forall g | g in after.groups ensures after.groups[g].feature in after.features {
        assert t.features[t.groups[g].feature].lane.Some?;
      }
    }
  }

  /** What is then left behind can no longer be cancelled. */
  lemma SeveredCannotBeCancelled(t: Tables, f: Id)
    requires Valid(t) && f in t.features && t.features[f].location == InPi && ContinuesBacklog(t, f)
    ensures
      var r := CancelContinuation(ClearBacklog(t), f);
      r == Err(OriginMissing) || r == Err(HasContinuations)
  {}

  lemma RunExtends(ops: seq<Op>, op: Op)
    ensures Run(EMPTY, ops + [op]) == Next(Run(EMPTY, ops), op)
  {
    assert (ops + [op])[..|ops|] == ops;
  }

  /** Eight requests and a cleared backlog that leave such a feature. */
  lemma SeveredIsReachable(title: string, effort: real) returns (ops: seq<Op>)
    ensures |ops| == 8 && CancelContinuation(ClearBacklog(Run(EMPTY, ops)), 2) == Err(OriginMissing)
  {
    var s := Story(title, effort, 1, None, None, None);
    ops := StartIsReachable(title, effort);
    RunExtends(ops, OpCreateStory(11, 1, title, effort));
    ops := ops + [OpCreateStory(11, 1, title, effort)];
    var t := StartingBoard(map[10 := s, 11 := s]);
    assert Run(EMPTY, ops) == t;
    MoveIn(ops, t);
    ops := ops + [OpMoveToLane(1, 7, None)];
    ops := SplitThenBacklog(ops, Run(EMPTY, ops), s);
  }

  lemma SplitThenBacklog(before: seq<Op>, t: Tables, s: Story) returns (ops: seq<Op>)
    requires s.parent == 1 && Run(EMPTY, before) == t
    requires t == Tables(
      map[1 := Feature(InPi, Some(1), Some(7), None)], map[10 := s, 11 := s], map[], map[7 := 1], {1})
    ensures |ops| == |before| + 2 && CancelContinuation(ClearBacklog(Run(EMPTY, ops)), 2) == Err(OriginMissing)
  {
    var split, back := OpSplit(1, 1, 7, {11}, 2), OpMoveToBacklog(1);
    RunExtends(before, split);
    var parted := Next(t, split);
    SplitOff(t, s);
    RunExtends(before + [split], back);
    ops := before + [split] + [back];
    var last := Next(parted, back);
    assert last.features[1].location == Backlog && last.features[2] == parted.features[2];
    assert ClearBacklog(last).features.Keys == {2};
  }

  lemma SplitOff(t: Tables, s: Story)
    requires s.parent == 1
    requires t == Tables(
      map[1 := Feature(InPi, Some(1), Some(7), None)], map[10 := s, 11 := s], map[], map[7 := 1], {1})
    ensures Next(t, OpSplit(1, 1, 7, {11}, 2)).features == t.features[2 := Feature(InPi, Some(1), Some(7), Some(1))]
  {
    assert 10 in StoriesOf(t.stories, 1) && 11 in StoriesOf(t.stories, 1);
    assert 10 !in {11};
  }

  // ---- a story's group, written directly ----------------------------------------------

  predicate Fits(t: Tables, x: Id, to: Option<Id>)
    requires x in t.stories
  {
    to.Some? ==> to.value in t.groups && t.groups[to.value].feature == t.stories[x].parent
  }

  lemma FittingGroupKeepsStories(t: Tables, x: Id, to: Option<Id>)
    requires StoriesBelong(t) && x in t.stories && Fits(t, x, to)
    ensures StoriesBelong(ChangeGroup(t, x, to).value)
  {
    var after := ChangeGroup(t, x, to).value;
    forall y | y in after.stories && after.stories[y].group.Some? ensures after.stories[y].group.value in after.groups {
      assert y in Members(after.stories, after.stories[y].group.value);
    }
  }

  /** Writing a story's group keeps the board whole exactly when the group is one of its feature's, or none. */
  lemma ChangeGroupKeepsWhen(t: Tables, x: Id, to: Option<Id>)
    requires Valid(t) && x in t.stories
    ensures Valid(ChangeGroup(t, x, to).value) <==> Fits(t, x, to)
  {
    var after := ChangeGroup(t, x, to).value;
    FewerGroups(t.groups, after.groups);
    if Fits(t, x, to) {
      FittingGroupKeepsStories(t, x, to);
    } else {
      assert after.stories[x].group == to && after.stories[x].parent == t.stories[x].parent;
    }
  }

  /** Two features, the first of them in the swimlane with a group, the second with a story. */
  function TwoFeatures(title: string, effort: real): Tables {
    Tables(
      map[1 := Feature(InPi, Some(1), Some(7), None), 2 := Feature(Backlog, None, None, None)],
      map[10 := Story(title, effort, 1, None, None, None), 11 := Story(title, effort, 2, None, None, None)],
      map[21 := Group(7, 1, title, None, false, None)], map[7 := 1], {1})
  }

  lemma TwoFeaturesAreReachable(title: string, effort: real) returns (ops: seq<Op>)
    ensures |ops| == 8 && Run(EMPTY, ops) == TwoFeatures(title, effort)
  {
    ops := StartIsReachable(title, effort);
    MoveIn(ops, StartingBoard(map[10 := Story(title, effort, 1, None, None, None)]));
    ops := ops + [OpMoveToLane(1, 7, None)];
    RunExtends(ops, OpCreateFeature(2));
    ops := ops + [OpCreateFeature(2)];
    RunExtends(ops, OpCreateStory(11, 2, title, effort));
    ops := ops + [OpCreateStory(11, 2, title, effort)];
    GroupMade(Run(EMPTY, ops), title, effort);
    RunExtends(ops, OpCreateGroup(7, 1, title, {}, None, 21));
    ops := ops + [OpCreateGroup(7, 1, title, {}, None, 21)];
  }

  lemma GroupMade(t: Tables, title: string, effort: real)
    requires t == TwoFeatures(title, effort).(groups := map[])
    ensures CreateGroup(t, 7, 1, title, {}, None, 21) == Ok(TwoFeatures(title, effort))
  {
    var r := CreateGroup(t, 7, 1, title, {}, None, 21);
    assert t.lanes == map[7 := 1] && t.features[1].lane == Some(7) && 21 !in t.groups;
    assert r.Ok? && r.value.stories == t.stories;
    assert r.value.groups == map[21 := Group(7, 1, title, None, false, None)];
  }

  /** Eight requests and such an update that put a story in another feature's group. */
  lemma MisplacedIsReachable(title: string, effort: real) returns (ops: seq<Op>)
    ensures |ops| == 8 && Run(EMPTY, ops) == TwoFeatures(title, effort)
    ensures ChangeGroup(Run(EMPTY, ops), 11, Some(21)).Ok?
    ensures !Valid(ChangeGroup(Run(EMPTY, ops), 11, Some(21)).value)
  {
    ops := TwoFeaturesAreReachable(title, effort);
    EveryRunIsValid(ops);
    ChangeGroupKeepsWhen(Run(EMPTY, ops), 11, Some(21));
  }

  // ---- a feature's location, written directly -----------------------------------------

  /** Such a write keeps the board whole exactly when it lifts no backlog feature and clears no swimlane in use. */
  lemma WriteLocationKeepsWhen(t: Tables, f: Id, inPi: bool, named: Option<Option<Id>>, clearLane: bool)
    requires Valid(t) && f in t.features
    ensures Valid(WriteLocation(t, f, inPi, named, clearLane).value) <==>
      if t.features[f].location == Backlog then !inPi else !clearLane
  {
    var after := WriteLocation(t, f, inPi, named, clearLane).value;
    var rank :| Ranked(t.features, rank);
    assert Ranked(after.features, rank);
    if (if t.features[f].location == Backlog then inPi else clearLane) {
      assert after.features[f].location == InPi && after.features[f].lane.None?;
    }
  }

  /** The stories of a feature lifted like that cannot be placed in a sprint. */
  lemma LiftedCannotPlace(t: Tables, f: Id, named: Option<Option<Id>>, clearLane: bool, x: Id, sprint: nat, id: Id)
    requires Valid(t) && f in t.features && t.features[f].location == Backlog
    requires x in t.stories && t.stories[x].parent == f
    ensures PlaceStory(WriteLocation(t, f, true, named, clearLane).value, x, sprint, id) == Err(NotInLane)
  {}

  // ---- a feature's PI -----------------------------------------------------------------

  /** The PI of the swimlane a feature is in. */
  function LanePi(t: Tables, f: Id): Option<Id>
    requires f in t.features
  {
    var lane := t.features[f].lane;
    if lane.Some? && lane.value in t.lanes then Some(t.lanes[lane.value]) else None
  }

  /** Every feature is planned in the PI of its swimlane. */
  ghost predicate Homed(t: Tables) {
    forall f :: f in t.features ==> t.features[f].pi == LanePi(t, f)
  }

  /** A move that names the swimlane's own PI, or none at all. */
  predicate NamesHome(t: Tables, lane: Id, named: Option<Option<Id>>)
    requires lane in t.lanes
  {
    named == None || named == Some(Some(t.lanes[lane]))
  }

  /** A move leaves every feature in its swimlane's PI exactly when it names no other. */
  lemma MoveHomesWhen(t: Tables, f: Id, lane: Id, named: Option<Option<Id>>)
    requires Homed(t) && MoveToLane(t, f, lane, named).Ok?
    ensures Homed(MoveToLane(t, f, lane, named).value) <==> NamesHome(t, lane, named)
  {
    var after := MoveToLane(t, f, lane, named).value;
    assert after.features[f].pi == named.GetOr(Some(t.lanes[lane])) && LanePi(after, f) == Some(t.lanes[lane]);
    forall x | x in t.features && x != f ensures after.features[x].pi == LanePi(after, x) {
      assert t.features[x].pi == LanePi(t, x);
    }
  }

  ghost predicate MovesHome(t: Tables, op: Op) {
    op.OpMoveToLane? && op.lane in t.lanes ==> NamesHome(t, op.lane, op.named)
  }

  lemma SplitKeepsHomed(t: Tables, f: Id, targetPi: Id, targetLane: Id, selected: set<Id>, id: Id)
    requires Homed(t) && Split(t, f, targetPi, targetLane, selected, id).Ok?
    ensures Homed(Split(t, f, targetPi, targetLane, selected, id).value)
  {
    if selected == StoriesOf(t.stories, f) {
      MoveHomesWhen(t, f, targetLane, Some(Some(targetPi)));
    } else {
      SameFeaturesHomed(t, Parted(t, f, targetPi, targetLane, selected, id), id);
    }
  }

  /** At most this feature is new, and it is where it belongs. */
  lemma SameFeaturesHomed(t: Tables, after: Tables, added: Id)
    requires Homed(t) && after.lanes == t.lanes
    requires forall f :: f in after.features && f != added ==> f in t.features && after.features[f] == t.features[f]
    requires added in after.features ==> after.features[added].pi == LanePi(after, added)
    ensures Homed(after)
  {
    forall f | f in after.features && f != added ensures after.features[f].pi == LanePi(after, f) {
      assert t.features[f].pi == LanePi(t, f);
    }
  }

  lemma WithoutLanesKeepsHomed(t: Tables, lanes: set<Id>)
    requires Homed(t)
    ensures Homed(WithoutLanes(t, lanes))
  {
    var after := WithoutLanes(t, lanes);
    forall f | f in after.features ensures after.features[f].pi == LanePi(after, f) {
      assert t.features[f].pi == LanePi(t, f);
    }
  }

  lemma DeletePiKeepsHomed(t: Tables, pi: Id)
    requires Homed(t) && DeletePi(t, pi).Ok?
    ensures Homed(DeletePi(t, pi).value)
  {
    var left := WithoutLanes(t, LanesOf(t, pi));
    WithoutLanesKeepsHomed(t, LanesOf(t, pi));
    forall f | f in left.features ensures left.features[f].pi != Some(pi) {
      assert left.features[f].pi == LanePi(left, f);
    }
  }

  lemma StepKeepsHomed(t: Tables, op: Op)
    requires Valid(t) && Homed(t) && MovesHome(t, op)
    ensures Homed(Next(t, op))
  {
    if Perform(t, op).Ok? {
      match op
      case OpMoveToLane(f, lane, named) => MoveHomesWhen(t, f, lane, named);
      case OpSplit(f, targetPi, targetLane, selected, id) => SplitKeepsHomed(t, f, targetPi, targetLane, selected, id);
      case OpDeleteLane(lane) => WithoutLanesKeepsHomed(t, {lane});
      case OpDeletePi(pi) => DeletePiKeepsHomed(t, pi);
      case OpMoveToBacklog(f) => SameFeaturesHomed(t, Perform(t, op).value, f);
      case OpCreateLane(_, _) => LaneKeepsHomed(t, op);
      case _ => OthersKeepHomed(t, op);
    }
  }

  lemma OthersKeepHomed(t: Tables, op: Op)
    requires Homed(t) && Perform(t, op).Ok?
    requires !op.OpMoveToLane? && !op.OpSplit? && !op.OpMoveToBacklog? && !op.OpCreateLane? && !op.OpDeleteLane?
    requires !op.OpDeletePi?
    ensures Homed(Perform(t, op).value)
  {
    if op.OpCreateFeature? {
      SameFeaturesHomed(t, Perform(t, op).value, op.id);
    } else {
      FeaturesKeepHomed(t, Perform(t, op).value);
    }
  }

  lemma FeaturesKeepHomed(t: Tables, after: Tables)
    requires Homed(t) && after.lanes == t.lanes
    requires forall f :: f in after.features ==> f in t.features && after.features[f] == t.features[f]
    ensures Homed(after)
  {
    forall f | f in after.features ensures after.features[f].pi == LanePi(after, f) {
      assert t.features[f].pi == LanePi(t, f);
    }
  }

  lemma LaneKeepsHomed(t: Tables, op: Op)
    requires Valid(t) && Homed(t) && op.OpCreateLane? && Perform(t, op).Ok?
    ensures Homed(Perform(t, op).value)
  {
    var after := Perform(t, op).value;
    forall f | f in after.features ensures after.features[f].pi == LanePi(after, f) {
      assert t.features[f].pi == LanePi(t, f);
    }
  }

  ghost predicate MovesHomeThroughout(t: Tables, ops: seq<Op>) {
    forall i :: 0 <= i < |ops| ==> MovesHome(Run(t, ops[..i]), ops[i])
  }

  /** In every run whose moves name no PI but the swimlane's own, each feature's PI is its swimlane's. */
  lemma {:induction false} EveryRunIsHomed(ops: seq<Op>)
    requires MovesHomeThroughout(EMPTY, ops)
    ensures Homed(Run(EMPTY, ops))
  {
    if ops != [] {
      var n := |ops| - 1;
      assert forall i :: 0 <= i < n ==> ops[..n][..i] == ops[..i];
      EveryRunIsHomed(ops[..n]);
      EveryRunIsValid(ops[..n]);
      assert MovesHome(Run(EMPTY, ops[..n]), ops[n]);
      StepKeepsHomed(Run(EMPTY, ops[..n]), ops[n]);
    }
  }
}
