/** Board requests that take one another back, and what a deletion takes with it. */
module BoardRoundTrips {
  import opened Wrappers
  import opened BoardState
  import opened Lineage
  import opened BoardInvariants

  /** Unplacing a story just placed gives the board back, but for the swimlane the story is left without. */
  lemma UnplaceUndoesPlace(t: Tables, x: Id, sprint: nat, id: Id)
    requires Valid(t) && PlaceStory(t, x, sprint, id).Ok?
    ensures UnplaceStory(PlaceStory(t, x, sprint, id).value, x) ==
      Ok(t.(stories := t.stories[x := t.stories[x].(lane := None)]))
  {
    var placed := PlaceStory(t, x, sprint, id).value;
    var bare := t.stories[x := t.stories[x].(lane := None)];
    assert Ungrouped(bare, {id}) == bare;
    assert placed.groups - {id} == t.groups;
    assert placed.stories[x := placed.stories[x].(group := None, lane := None)] == bare;
  }

  /** A feature moved to another swimlane and back leaves the board as it was, its groups' sprints included. */
  lemma MovingBackRestores(t: Tables, f: Id, home: Id, away: Id, named: Option<Option<Id>>)
    requires Valid(t) && f in t.features && t.features[f].lane == Some(home)
    requires MoveToLane(t, f, away, named).Ok?
    ensures MoveToLane(MoveToLane(t, f, away, named).value, f, home, Some(t.features[f].pi)) == Ok(t)
  {
    var moved := MoveToLane(t, f, away, named).value;
    assert Relocated(Relocated(t.groups, f, away), f, home) == t.groups;
    assert moved.features[f := t.features[f]] == t.features;
  }

  /** Deleting a group just made from ungrouped stories gives the board back. */
  lemma DeleteGroupUndoesCreate(t: Tables, lane: Id, f: Id, name: string, listed: set<Id>, sprint: Option<nat>, id: Id)
    requires Valid(t) && CreateGroup(t, lane, f, name, listed, sprint, id).Ok?
    requires forall x :: x in listed && x in t.stories ==> t.stories[x].group.None?
    ensures DeleteGroup(CreateGroup(t, lane, f, name, listed, sprint, id).value, id) == Ok(t)
  {
    var made := CreateGroup(t, lane, f, name, listed, sprint, id).value;
    assert made.groups - {id} == t.groups;
    assert Ungrouped(made.stories, {id}) == t.stories;
  }

  /** No story is lost with a swimlane, and one loses its group exactly when its feature was in it. */
  lemma DeletedLaneKeepsStories(t: Tables, lane: Id)
    requires Valid(t) && DeleteLane(t, lane).Ok?
    ensures
      var after := DeleteLane(t, lane).value;
      && after.stories.Keys == t.stories.Keys
      && (forall x :: x in t.stories ==>
            && after.stories[x].parent == t.stories[x].parent
            && after.stories[x].group ==
                 if t.features[t.stories[x].parent].lane == Some(lane) then None else t.stories[x].group)
  {}

  /** A deletion takes the feature's whole lineage below it, with the stories and groups, and nothing else. */
  lemma DeletionTakesLineage(t: Tables, f: Id)
    requires Valid(t) && DeleteFeature(t, f).Ok?
    ensures
      var after := DeleteFeature(t, f).value;
      && (forall x :: x in t.features ==> (x !in after.features <==> DescendsFrom(t.features, x, {f})))
      && (forall x :: x in t.stories ==> (x in after.stories <==> t.stories[x].parent in after.features))
      && (forall g :: g in t.groups ==> (g in after.groups <==> t.groups[g].feature in after.features))
      && (forall x :: x in after.stories ==> after.stories[x] == t.stories[x])
  {}
}
