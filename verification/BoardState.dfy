/**
 * The planning board's tables and what each board request does to them
 * (backend/app/routes/features.py, pbis.py, groups.py, swimlines.py and the services they call).
 *
 * A request either answers with an error and leaves the tables alone, or commits. Ids are supplied by
 * the caller; one that is already taken violates the primary key.
 */
module BoardState {
  import opened Wrappers

  type Id = nat

  datatype Location = Backlog | InPi

  datatype Feature = Feature(location: Location, pi: Option<Id>, lane: Option<Id>, from: Option<Id>)

  datatype Story = Story(title: string, effort: real, parent: Id, group: Option<Id>, lane: Option<Id>, pi: Option<Id>)

  /** An implicit group exists to carry one directly placed story; an explicit one was named by a person. */
  datatype Group = Group(lane: Id, feature: Id, name: string, sprint: Option<nat>, implicit: bool, story: Option<Id>)

  datatype Tables = Tables(
    features: map<Id, Feature>, stories: map<Id, Story>, groups: map<Id, Group>,
    lanes: map<Id, Id>,  // swimlane to its PI
    pis: set<Id>)

  datatype Error =
    | NotFound | NotInPi | LaneMismatch | NoStories | StoryNotInFeature | NotAContinuation | HasContinuations
    | OriginMissing | AlreadyGrouped | NotInLane | WrongFeature | Integrity

  type Reply = Result<Tables, Error>

  // ---- pieces shared by the requests --------------------------------------------------

  /** The two unique indexes on groups: explicit names within a swimlane, and the story of an implicit group. */
  predicate Unique(groups: map<Id, Group>) {
    && (forall g, h :: g in groups && h in groups && g != h && !groups[g].implicit && !groups[h].implicit ==>
          !(groups[g].lane == groups[h].lane && groups[g].name == groups[h].name))
    && (forall g, h :: g in groups && h in groups && g != h && groups[g].implicit && groups[h].implicit ==>
          groups[g].story.None? || groups[g].story != groups[h].story)
  }

  function Commit(t: Tables): Reply {
    if Unique(t.groups) then Ok(t) else Err(Integrity)
  }

  function GroupsOf(groups: map<Id, Group>, f: Id): set<Id> {
    set g | g in groups && groups[g].feature == f
  }

  function StoriesOf(stories: map<Id, Story>, f: Id): set<Id> {
    set x | x in stories && stories[x].parent == f
  }

  function Members(stories: map<Id, Story>, g: Id): set<Id> {
    set x | x in stories && stories[x].group == Some(g)
  }

  function Relocated(groups: map<Id, Group>, f: Id, lane: Id): map<Id, Group> {
    map g | g in groups :: if groups[g].feature == f then groups[g].(lane := lane) else groups[g]
  }

  /** Stories lose a group that is deleted. */
  function Ungrouped(stories: map<Id, Story>, gone: set<Id>): map<Id, Story> {
    map x | x in stories ::
      if stories[x].group.Some? && stories[x].group.value in gone then stories[x].(group := None) else stories[x]
  }

  /** The implicit groups that taking these stories out leaves empty. */
  function Emptied(t: Tables, out: set<Id>): set<Id> {
    set g | g in t.groups && t.groups[g].implicit && Members(t.stories, g) != {} && Members(t.stories, g) <= out
  }

  /** These stories out of their groups, under a new parent. */
  function Reparented(
      stories: map<Id, Story>, moved: set<Id>, parent: Id, pi: Option<Id>, lane: Option<Id>): map<Id, Story>
  {
    map x | x in stories ::
      if x in moved then stories[x].(group := None, parent := parent, pi := pi, lane := lane) else stories[x]
  }

  // ---- features -----------------------------------------------------------------------

  function CreateFeature(t: Tables, id: Id): Reply {
    if id in t.features then Err(Integrity)
    else Ok(t.(features := t.features[id := Feature(Backlog, None, None, None)]))
  }

  /** The PI the request names, which may be an explicit null; when it names none, the swimlane's own. */
  function MoveToLane(t: Tables, f: Id, lane: Id, named: Option<Option<Id>>): Reply {
    if f !in t.features || lane !in t.lanes then Err(NotFound)
    else Commit(t.(
      groups := Relocated(t.groups, f, lane),
      features := t.features[f := t.features[f].(
        location := InPi, lane := Some(lane), pi := named.GetOr(Some(t.lanes[lane])))]))
  }

  function MoveToBacklog(t: Tables, f: Id): Reply {
    if f !in t.features then Err(NotFound)
    else
      var gone := GroupsOf(t.groups, f);
      Ok(t.(
        stories := Ungrouped(t.stories, gone),
        groups := t.groups - gone,
        features := t.features[f := t.features[f].(location := Backlog, lane := None, pi := None)]))
  }

  function Split(t: Tables, f: Id, targetPi: Id, targetLane: Id, selected: set<Id>, id: Id): Reply {
    if f !in t.features then Err(NotFound)
    else if t.features[f].location != InPi then Err(NotInPi)
    else if targetLane !in t.lanes then Err(NotFound)
    else if t.lanes[targetLane] != targetPi then Err(LaneMismatch)
    else if selected == {} then Err(NoStories)
    else if !(selected <= StoriesOf(t.stories, f)) then Err(StoryNotInFeature)
    else if selected == StoriesOf(t.stories, f) then MoveToLane(t, f, targetLane, Some(Some(targetPi)))
    else if id in t.features then Err(Integrity)
    else Ok(Parted(t, f, targetPi, targetLane, selected, id))
  }

  /** The selected stories under a continuation of their feature. */
  function Parted(t: Tables, f: Id, targetPi: Id, targetLane: Id, selected: set<Id>, id: Id): Tables {
    t.(
      features := t.features[id := Feature(InPi, Some(targetPi), Some(targetLane), Some(f))],
      stories := Reparented(t.stories, selected, id, Some(targetPi), Some(targetLane)),
      groups := t.groups - Emptied(t, selected))
  }

  predicate IsLeaf(features: map<Id, Feature>, f: Id) {
    forall x :: x in features ==> features[x].from != Some(f)
  }

  function CancelContinuation(t: Tables, f: Id): Reply {
    if f !in t.features then Err(NotFound)
    else if t.features[f].from.None? then Err(NotAContinuation)
    else if !IsLeaf(t.features, f) then Err(HasContinuations)
    else if t.features[f].from.value !in t.features then Err(OriginMissing)
    else Ok(Rejoined(t, f, t.features[f].from.value))
  }

  /** The feature's stories back under its origin, and the feature gone with its groups. */
  function Rejoined(t: Tables, f: Id, o: Id): Tables
    requires o in t.features
  {
    var origin := t.features[o];
    var gone := GroupsOf(t.groups, f) + Emptied(t, StoriesOf(t.stories, f));
    t.(
      features := t.features - {f},
      stories := Ungrouped(Reparented(t.stories, StoriesOf(t.stories, f), o, origin.pi, origin.lane), gone),
      groups := t.groups - gone)
  }

  /** A set of features deleted together with their stories and groups. */
  function WithoutFeatures(t: Tables, gone: set<Id>): Tables {
    var groupsGone := set g | g in t.groups && t.groups[g].feature in gone;
    var kept := map x | x in t.stories && t.stories[x].parent !in gone :: t.stories[x];
    t.(features := t.features - gone, stories := Ungrouped(kept, groupsGone), groups := t.groups - groupsGone)
  }

  /** The bulk delete of every backlog feature: no continuation is looked for, and no group either. */
  function ClearBacklog(t: Tables): Tables {
    var gone := set f | f in t.features && t.features[f].location == Backlog;
    t.(
      features := t.features - gone,
      stories := map x | x in t.stories && t.stories[x].parent !in gone :: t.stories[x])
  }

  /**
   * The feature update that moves nothing: it may say the feature is in a PI, name a PI or none, and clear the
   * swimlane, and nothing is checked of what that leaves.
   */
  function WriteLocation(t: Tables, f: Id, inPi: bool, named: Option<Option<Id>>, clearLane: bool): Reply {
    if f !in t.features then Err(NotFound)
    else
      var feature := t.features[f];
      Ok(t.(features := t.features[f := feature.(
        location := if inPi then InPi else feature.location,
        pi := named.GetOr(feature.pi),
        lane := if clearLane then None else feature.lane)]))
  }

  // ---- stories ------------------------------------------------------------------------

  function CreateStory(t: Tables, id: Id, parent: Id, title: string, effort: real): Reply {
    if parent !in t.features then Err(NotFound)
    else if id in t.stories then Err(Integrity)
    else Ok(t.(stories := t.stories[id := Story(title, effort, parent, None, None, None)]))
  }

  function PlaceStory(t: Tables, x: Id, sprint: nat, id: Id): Reply {
    if x !in t.stories then Err(NotFound)
    else if t.stories[x].group.Some? then Err(AlreadyGrouped)
    else
      var f := t.stories[x].parent;
      if f !in t.features || t.features[f].location != InPi then Err(NotInPi)
      else if t.features[f].lane.None? then Err(NotInLane)
      else if id in t.groups then Err(Integrity)
      else
        var lane := t.features[f].lane;
        Commit(t.(
          groups := t.groups[id := Group(lane.value, f, t.stories[x].title, Some(sprint), true, Some(x))],
          stories := t.stories[x := t.stories[x].(group := Some(id), lane := lane)]))
  }

  function UnplaceStory(t: Tables, x: Id): Reply {
    if x !in t.stories then Err(NotFound)
    else
      var g := t.stories[x].group;
      var stories := t.stories[x := t.stories[x].(group := None, lane := None)];
      if g.Some? && g.value in t.groups && t.groups[g.value].implicit then
        Ok(t.(stories := Ungrouped(stories, {g.value}), groups := t.groups - {g.value}))
      else
        Ok(t.(stories := stories))
  }

  function DeleteStory(t: Tables, x: Id): Reply {
    if x !in t.stories then Err(NotFound)
    else
      var g := t.stories[x].group;
      var stories := t.stories - {x};
      if g.Some? && g.value in t.groups && Members(stories, g.value) == {} then
        Ok(t.(stories := stories, groups := t.groups - {g.value}))
      else
        Ok(t.(stories := stories))
  }

  /** The story update that names a group; nothing is checked of the group it names. */
  function ChangeGroup(t: Tables, x: Id, to: Option<Id>): Reply {
    if x !in t.stories then Err(NotFound)
    else
      var from := t.stories[x].group;
      var stories := t.stories[x := t.stories[x].(group := to)];
      if from.Some? && from != to && Members(stories, from.value) == {}
        && from.value in t.groups && t.groups[from.value].implicit
      then Ok(t.(stories := stories, groups := t.groups - {from.value}))
      else Ok(t.(stories := stories))
  }

  // ---- groups and swimlanes -----------------------------------------------------------

  /** Ids that name no story are passed over. */
  function CreateGroup(t: Tables, lane: Id, f: Id, name: string, listed: set<Id>, sprint: Option<nat>, id: Id): Reply {
    if lane !in t.lanes then Err(NotFound)
    else if f !in t.features || t.features[f].lane != Some(lane) then Err(NotInLane)
    else if exists x :: x in listed && x in t.stories && t.stories[x].parent != f then Err(WrongFeature)
    else if id in t.groups then Err(Integrity)
    else Commit(t.(
      groups := t.groups[id := Group(lane, f, name, sprint, false, None)],
      stories := map x | x in t.stories :: if x in listed then t.stories[x].(group := Some(id)) else t.stories[x]))
  }

  /** Naming an implicit group makes it an explicit one; a sprint may be set to none. */
  function UpdateGroup(t: Tables, g: Id, name: Option<string>, sprint: Option<Option<nat>>): Reply {
    if g !in t.groups then Err(NotFound)
    else
      var group := t.groups[g].(name := name.GetOr(t.groups[g].name), sprint := sprint.GetOr(t.groups[g].sprint));
      Commit(t.(groups := t.groups[
        g := if name.Some? && group.implicit then group.(implicit := false, story := None) else group]))
  }

  function DeleteGroup(t: Tables, g: Id): Reply {
    if g !in t.groups then Err(NotFound)
    else Ok(t.(stories := Ungrouped(t.stories, {g}), groups := t.groups - {g}))
  }

  function CreatePi(t: Tables, pi: Id): Reply {
    if pi in t.pis then Err(Integrity) else Ok(t.(pis := t.pis + {pi}))
  }

  function CreateLane(t: Tables, lane: Id, pi: Id): Reply {
    if pi !in t.pis then Err(NotFound)
    else if lane in t.lanes then Err(Integrity)
    else Ok(t.(lanes := t.lanes[lane := pi]))
  }

  /** Swimlanes deleted: their features go back to the backlog; their groups, and their stories' swimlane, go too. */
  function WithoutLanes(t: Tables, lanes: set<Id>): Tables {
    var gone := set g | g in t.groups && t.groups[g].lane in lanes;
    t.(
      features := map f | f in t.features ::
        if Inside(t.features[f], lanes) then t.features[f].(location := Backlog, pi := None, lane := None)
        else t.features[f],
      stories := Ungrouped(OffLanes(t.stories, lanes), gone),
      groups := t.groups - gone,
      lanes := t.lanes - lanes)
  }

  predicate Inside(feature: Feature, lanes: set<Id>) {
    feature.lane.Some? && feature.lane.value in lanes
  }

  function OffLanes(stories: map<Id, Story>, lanes: set<Id>): map<Id, Story> {
    map x | x in stories ::
      if stories[x].lane.Some? && stories[x].lane.value in lanes then stories[x].(lane := None) else stories[x]
  }

  function DeleteLane(t: Tables, lane: Id): Reply {
    if lane !in t.lanes then Err(NotFound) else Ok(WithoutLanes(t, {lane}))
  }

  function LanesOf(t: Tables, pi: Id): set<Id> {
    set lane | lane in t.lanes && t.lanes[lane] == pi
  }

  /** Whatever named this PI names none. */
  function WithoutPi(t: Tables, pi: Id): Tables {
    t.(
      features := map f | f in t.features ::
        if t.features[f].pi == Some(pi) then t.features[f].(pi := None) else t.features[f],
      stories := map x | x in t.stories ::
        if t.stories[x].pi == Some(pi) then t.stories[x].(pi := None) else t.stories[x],
      pis := t.pis - {pi})
  }

  /** Its swimlanes go with it. */
  function DeletePi(t: Tables, pi: Id): Reply {
    if pi !in t.pis then Err(NotFound) else Ok(WithoutPi(WithoutLanes(t, LanesOf(t, pi)), pi))
  }
}
