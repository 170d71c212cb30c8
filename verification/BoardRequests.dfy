/**
 * What the board's requests come to, row by row: when each is refused and with what, and what becomes of every feature,
 * story and group otherwise (backend/app/routes/features.py, pbis.py, groups.py).
 */
module BoardRequests {
  import opened Wrappers
  import opened BoardState

  // ---- moving a feature ---------------------------------------------------------------

  /** Two explicit groups that a move of the feature brings together under one name. */
  ghost predicate Meet(groups: map<Id, Group>, f: Id, lane: Id, g: Id, h: Id) {
    && g in groups && h in groups && g != h && groups[g].feature == f
    && !groups[g].implicit && !groups[h].implicit && groups[g].name == groups[h].name
    && (groups[h].feature == f || groups[h].lane == lane)
  }

  /**
   * A move is refused for a feature or swimlane that is not there, or if a group coming along meets another of its
   * name; where the unique indexes hold beforehand nothing else can break them.
   */
  lemma MoveRefusedWhen(t: Tables, f: Id, lane: Id, named: Option<Option<Id>>)
    requires Unique(t.groups)
    ensures
      var there := f in t.features && lane in t.lanes;
      var meets := exists g, h :: Meet(t.groups, f, lane, g, h);
      && (MoveToLane(t, f, lane, named) == Err(NotFound) <==> !there)
      && (MoveToLane(t, f, lane, named) == Err(Integrity) <==> there && meets)
      && (MoveToLane(t, f, lane, named).Ok? <==> there && !meets)
  {
    var groups := Relocated(t.groups, f, lane);
    if !Unique(groups) {
      var g, h :| g in groups && h in groups && g != h && (
        || (!groups[g].implicit && !groups[h].implicit && groups[g].lane == groups[h].lane
            && groups[g].name == groups[h].name)
        || (groups[g].implicit && groups[h].implicit && groups[g].story.Some? && groups[g].story == groups[h].story));
      assert t.groups[g].story == groups[g].story && t.groups[h].story == groups[h].story;
      assert Meet(t.groups, f, lane, g, h) || Meet(t.groups, f, lane, h, g);
    }
    if g, h :| Meet(t.groups, f, lane, g, h) {
      assert groups[g].lane == groups[h].lane == lane;
      assert !Unique(groups);
    }
  }

  /** The feature is in the swimlane and in the PI named, the swimlane's own if none is; its groups come along. */
  lemma MovedIs(t: Tables, f: Id, lane: Id, named: Option<Option<Id>>)
    requires MoveToLane(t, f, lane, named).Ok?
    ensures
      var after := MoveToLane(t, f, lane, named).value;
      && after.stories == t.stories && after.lanes == t.lanes && after.pis == t.pis
      && after.features.Keys == t.features.Keys && after.groups.Keys == t.groups.Keys
      && after.features[f].location == InPi && after.features[f].lane == Some(lane)
      && after.features[f].pi == (match named case Some(pi) => pi case None => Some(t.lanes[lane]))
      && after.features[f].from == t.features[f].from
      && (forall x :: x in t.features && x != f ==> after.features[x] == t.features[x])
      && (forall g :: g in t.groups ==>
            if t.groups[g].feature == f then after.groups[g] == t.groups[g].(lane := lane)
            else after.groups[g] == t.groups[g])
  {}

  // ---- splitting a feature ------------------------------------------------------------

  /** Why a split is refused, in the order it is looked at. */
  lemma SplitRefusedWhen(t: Tables, f: Id, targetPi: Id, targetLane: Id, selected: set<Id>, id: Id)
    requires id !in t.features
    ensures
      var reply := Split(t, f, targetPi, targetLane, selected, id);
      var planned := f in t.features && t.features[f].location == InPi;
      var aimed := planned && targetLane in t.lanes && t.lanes[targetLane] == targetPi;
      var theirs := forall x :: x in selected ==> x in t.stories && t.stories[x].parent == f;
      && (reply == Err(NotInPi) <==> f in t.features && t.features[f].location != InPi)
      && (reply == Err(LaneMismatch) <==> planned && targetLane in t.lanes && t.lanes[targetLane] != targetPi)
      && (reply == Err(NotFound) <==> f !in t.features || (planned && targetLane !in t.lanes))
      && (reply == Err(NoStories) <==> aimed && selected == {})
      && (reply == Err(StoryNotInFeature) <==> aimed && selected != {} && !theirs)
      && (aimed && selected != {} && theirs ==> reply.Ok? || reply == Err(Integrity))
  {}

  /** Every story selected: the feature itself moves to the target. */
  lemma SplitOfAllMoves(t: Tables, f: Id, targetPi: Id, targetLane: Id, selected: set<Id>, id: Id)
    requires Split(t, f, targetPi, targetLane, selected, id).Ok?
    requires forall x :: x in t.stories && t.stories[x].parent == f ==> x in selected
    ensures
      var after := Split(t, f, targetPi, targetLane, selected, id).value;
      && after.features.Keys == t.features.Keys && after.stories == t.stories
      && after.features[f].lane == Some(targetLane) && after.features[f].pi == Some(targetPi)
      && after.features[f].location == InPi && after.features[f].from == t.features[f].from
      && (forall g :: g in t.groups && t.groups[g].feature == f ==>
            g in after.groups && after.groups[g].lane == targetLane)
  {
    assert selected == StoriesOf(t.stories, f);
  }

  /** The continuation a split makes of some of the stories, and what becomes of every other row. */
  lemma SplitMakes(t: Tables, f: Id, targetPi: Id, targetLane: Id, selected: set<Id>, id: Id)
    requires Split(t, f, targetPi, targetLane, selected, id).Ok?
    requires exists x :: x in t.stories && t.stories[x].parent == f && x !in selected
    ensures
      var after := Split(t, f, targetPi, targetLane, selected, id).value;
      && id !in t.features && after.features.Keys == t.features.Keys + {id} && after.stories.Keys == t.stories.Keys
      && after.features[id] == Feature(InPi, Some(targetPi), Some(targetLane), Some(f))
      && (forall x :: x in t.features ==> after.features[x] == t.features[x])
      && (forall x :: x in selected ==>
            && x in t.stories
            && after.stories[x] ==
                 Story(t.stories[x].title, t.stories[x].effort, id, None, Some(targetLane), Some(targetPi)))
      && (forall x :: x in t.stories && x !in selected ==> after.stories[x] == t.stories[x])
      && (forall g :: g in t.groups ==>
            (g !in after.groups <==>
              && t.groups[g].implicit
              && (exists x :: x in t.stories && t.stories[x].group == Some(g))
              && forall x :: x in t.stories && t.stories[x].group == Some(g) ==> x in selected))
      && (forall g :: g in after.groups ==> g in t.groups && after.groups[g] == t.groups[g])
      && after.lanes == t.lanes && after.pis == t.pis
  {
    assert selected != StoriesOf(t.stories, f);
    forall g | g in t.groups
      ensures Members(t.stories, g) != {} <==> exists x :: x in t.stories && t.stories[x].group == Some(g)
    {
      if x :| x in t.stories && t.stories[x].group == Some(g) {
        assert x in Members(t.stories, g);
      }
    }
  }

  // ---- cancelling a continuation ------------------------------------------------------

  lemma CancelRefusedWhen(t: Tables, f: Id)
    ensures
      var reply := CancelContinuation(t, f);
      var continues := f in t.features && t.features[f].from.Some?;
      var continued := exists x :: x in t.features && t.features[x].from == Some(f);
      && (reply == Err(NotFound) <==> f !in t.features)
      && (reply == Err(NotAContinuation) <==> f in t.features && !continues)
      && (reply == Err(HasContinuations) <==> continues && continued)
      && (reply == Err(OriginMissing) <==> continues && !continued && t.features[f].from.value !in t.features)
      && (reply.Ok? <==> continues && !continued && t.features[f].from.value in t.features)
  {}

  /** The stories go back to the origin and to its place, out of their groups; the feature goes with its own. */
  lemma CancelledIs(t: Tables, f: Id)
    requires CancelContinuation(t, f).Ok?
    ensures
      var after, o := CancelContinuation(t, f).value, t.features[f].from.value;
      && after.features.Keys == t.features.Keys - {f} && after.stories.Keys == t.stories.Keys
      && (forall x :: x in after.features ==> after.features[x] == t.features[x])
      && (forall x :: x in t.stories && t.stories[x].parent == f ==>
            after.stories[x] ==
              Story(t.stories[x].title, t.stories[x].effort, o, None, t.features[o].lane, t.features[o].pi))
      && (forall x :: x in t.stories && t.stories[x].parent != f ==>
            var group := t.stories[x].group;
            var gone := group.Some? && group.value in t.groups && group.value !in after.groups;
            after.stories[x] == t.stories[x].(group := if gone then None else group))
      && (forall g :: g in t.groups ==>
            (g !in after.groups <==>
              || t.groups[g].feature == f
              || (t.groups[g].implicit
                  && (exists x :: x in t.stories && t.stories[x].group == Some(g))
                  && forall x :: x in t.stories && t.stories[x].group == Some(g) ==> t.stories[x].parent == f)))
      && (forall g :: g in after.groups ==> g in t.groups && after.groups[g] == t.groups[g])
      && after.lanes == t.lanes && after.pis == t.pis
  {
    forall g | g in t.groups
      ensures Members(t.stories, g) != {} <==> exists x :: x in t.stories && t.stories[x].group == Some(g)
    {
      if x :| x in t.stories && t.stories[x].group == Some(g) {
        assert x in Members(t.stories, g);
      }
    }
  }

  // ---- placing a story ----------------------------------------------------------------

  /** Why a placement is refused, in the order it is looked at. */
  lemma PlaceRefusedWhen(t: Tables, x: Id, sprint: nat, id: Id)
    requires Unique(t.groups) && id !in t.groups
    ensures
      var reply := PlaceStory(t, x, sprint, id);
      var free := x in t.stories && t.stories[x].group.None?;
      var planned := free && t.stories[x].parent in t.features && t.features[t.stories[x].parent].location == InPi;
      var located := planned && t.features[t.stories[x].parent].lane.Some?;
      var taken := exists g :: g in t.groups && t.groups[g].implicit && t.groups[g].story == Some(x);
      && (reply == Err(NotFound) <==> x !in t.stories)
      && (reply == Err(AlreadyGrouped) <==> x in t.stories && !free)
      && (reply == Err(NotInPi) <==> free && !planned)
      && (reply == Err(NotInLane) <==> planned && !located)
      && (reply == Err(Integrity) <==> located && taken)
      && (reply.Ok? <==> located && !taken)
  {
    if x in t.stories && t.stories[x].parent in t.features && t.features[t.stories[x].parent].lane.Some? {
      var f := t.stories[x].parent;
      ImplicitTakenWhen(
        t.groups, id, Group(t.features[f].lane.value, f, t.stories[x].title, Some(sprint), true, Some(x)));
    }
  }

  /** One more implicit group breaks the indexes exactly when its story has one; of no story there may be many. */
  lemma ImplicitTakenWhen(groups: map<Id, Group>, id: Id, group: Group)
    requires Unique(groups) && id !in groups && group.implicit
    ensures Unique(groups[id := group]) <==>
      group.story.None? || !exists g :: g in groups && groups[g].implicit && groups[g].story == group.story
  {
    var after := groups[id := group];
    if g :| group.story.Some? && g in groups && groups[g].implicit && groups[g].story == group.story {
      assert after[g].story == after[id].story;
    }
  }

  /** An explicit group breaks them exactly when another has its name in its swimlane. */
  lemma ExplicitTakenWhen(groups: map<Id, Group>, id: Id, group: Group)
    requires Unique(groups) && !group.implicit
    ensures Unique(groups[id := group]) <==>
      !exists g ::
        g in groups && g != id && !groups[g].implicit && groups[g].lane == group.lane && groups[g].name == group.name
  {
    var after := groups[id := group];
    forall g | g in groups && g != id && !groups[g].implicit
      && groups[g].lane == group.lane && groups[g].name == group.name
      ensures !Unique(after)
    {
      assert after[g].lane == after[id].lane;
    }
  }

  /** The story is alone in a new implicit group of its feature, in the feature's swimlane and the sprint asked for. */
  lemma PlacedIs(t: Tables, x: Id, sprint: nat, id: Id)
    requires PlaceStory(t, x, sprint, id).Ok?
    ensures
      var after, f := PlaceStory(t, x, sprint, id).value, t.stories[x].parent;
      && id !in t.groups && after.groups.Keys == t.groups.Keys + {id} && after.stories.Keys == t.stories.Keys
      && t.features[f].lane.Some?
      && after.groups[id] ==
           Group(t.features[f].lane.value, f, t.stories[x].title, Some(sprint), true, Some(x))
      && after.stories[x] == t.stories[x].(group := Some(id), lane := t.features[f].lane)
      && (forall y :: y in t.stories && y != x ==> after.stories[y] == t.stories[y])
      && (forall g :: g in t.groups ==> after.groups[g] == t.groups[g])
      && after.features == t.features && after.lanes == t.lanes && after.pis == t.pis
  {}

  /** The story loses its group and swimlane; an implicit group goes, and takes every other story out with it. */
  lemma UnplacedIs(t: Tables, x: Id)
    requires UnplaceStory(t, x).Ok?
    ensures
      var after, g := UnplaceStory(t, x).value, t.stories[x].group;
      var goes := g.Some? && g.value in t.groups && t.groups[g.value].implicit;
      && after.stories.Keys == t.stories.Keys
      && after.stories[x] == t.stories[x].(group := None, lane := None)
      && after.groups == (if goes then t.groups - {g.value} else t.groups)
      && (forall y :: y in t.stories && y != x ==>
            after.stories[y] ==
              if goes && t.stories[y].group == g then t.stories[y].(group := None) else t.stories[y])
      && after.features == t.features && after.lanes == t.lanes && after.pis == t.pis
  {}

  /** A story deleted takes its group along, whatever its kind, when it was the last one in it. */
  lemma DeletedStoryIs(t: Tables, x: Id)
    requires DeleteStory(t, x).Ok?
    ensures
      var after, g := DeleteStory(t, x).value, t.stories[x].group;
      && after.stories == t.stories - {x}
      && (forall h :: h in t.groups ==>
            (h !in after.groups <==>
              g == Some(h) && forall y :: y in t.stories && y != x ==> t.stories[y].group != Some(h)))
      && (forall h :: h in after.groups ==> h in t.groups && after.groups[h] == t.groups[h])
      && after.features == t.features && after.lanes == t.lanes && after.pis == t.pis
  {
    var g := t.stories[x].group;
    if g.Some? {
      forall y | y in t.stories && y != x && t.stories[y].group == g ensures y in Members(t.stories - {x}, g.value) {}
    }
  }

  // ---- updates that check nothing -----------------------------------------------------

  /** A story's group written as it stands; an implicit one left empty by it goes. */
  lemma ChangedGroupIs(t: Tables, x: Id, to: Option<Id>)
    requires x in t.stories
    ensures ChangeGroup(t, x, to).Ok?
    ensures
      var after, from := ChangeGroup(t, x, to).value, t.stories[x].group;
      && after.stories == t.stories[x := t.stories[x].(group := to)]
      && (forall g :: g in t.groups ==>
            (g !in after.groups <==>
              && from == Some(g) && to != from && t.groups[g].implicit
              && forall y :: y in t.stories && y != x ==> t.stories[y].group != Some(g)))
      && (forall g :: g in after.groups ==> g in t.groups && after.groups[g] == t.groups[g])
      && after.features == t.features && after.lanes == t.lanes && after.pis == t.pis
  {
    var from, after := t.stories[x].group, ChangeGroup(t, x, to).value;
    if from.Some? {
      forall y | y in t.stories && y != x && t.stories[y].group == from
        ensures y in Members(after.stories, from.value)
      {}
    }
  }

  /** A feature's location written as it stands: a PI or none if the request names one, no swimlane if it clears it. */
  lemma WrittenLocationIs(t: Tables, f: Id, inPi: bool, named: Option<Option<Id>>, clearLane: bool)
    requires f in t.features
    ensures WriteLocation(t, f, inPi, named, clearLane).Ok?
    ensures
      var after, was := WriteLocation(t, f, inPi, named, clearLane).value, t.features[f];
      && after.features.Keys == t.features.Keys
      && after.features[f].location == (if inPi then InPi else was.location)
      && after.features[f].pi == (match named case Some(pi) => pi case None => was.pi)
      && after.features[f].lane == (if clearLane then None else was.lane)
      && after.features[f].from == was.from
      && (forall x :: x in t.features && x != f ==> after.features[x] == t.features[x])
      && after.stories == t.stories && after.groups == t.groups && after.lanes == t.lanes && after.pis == t.pis
  {}

  // ---- groups -------------------------------------------------------------------------

  /** Why a group is refused, in the order it is looked at. */
  lemma GroupRefusedWhen(t: Tables, lane: Id, f: Id, name: string, listed: set<Id>, sprint: Option<nat>, id: Id)
    requires Unique(t.groups) && id !in t.groups
    ensures
      var reply := CreateGroup(t, lane, f, name, listed, sprint, id);
      var fits := lane in t.lanes && f in t.features && t.features[f].lane == Some(lane);
      var theirs := forall x :: x in listed && x in t.stories ==> t.stories[x].parent == f;
      var taken := exists g ::
        g in t.groups && !t.groups[g].implicit && t.groups[g].lane == lane && t.groups[g].name == name;
      && (reply == Err(NotFound) <==> lane !in t.lanes)
      && (reply == Err(NotInLane) <==> lane in t.lanes && !fits)
      && (reply == Err(WrongFeature) <==> fits && !theirs)
      && (reply == Err(Integrity) <==> fits && theirs && taken)
      && (reply.Ok? <==> fits && theirs && !taken)
  {
    ExplicitTakenWhen(t.groups, id, Group(lane, f, name, sprint, false, None));
  }

  /** The new group is explicit and holds every story listed, whatever group it was in before. */
  lemma NewGroupIs(t: Tables, lane: Id, f: Id, name: string, listed: set<Id>, sprint: Option<nat>, id: Id)
    requires CreateGroup(t, lane, f, name, listed, sprint, id).Ok?
    ensures
      var after := CreateGroup(t, lane, f, name, listed, sprint, id).value;
      && id !in t.groups && after.groups == t.groups[id := Group(lane, f, name, sprint, false, None)]
      && after.stories.Keys == t.stories.Keys
      && (forall x :: x in t.stories ==>
            after.stories[x] == if x in listed then t.stories[x].(group := Some(id)) else t.stories[x])
      && after.features == t.features && after.lanes == t.lanes && after.pis == t.pis
  {}

  /** A group update is refused for a group that is not there, or one that ends up explicit under another's name. */
  lemma UpdateRefusedWhen(t: Tables, g: Id, name: Option<string>, sprint: Option<Option<nat>>)
    requires Unique(t.groups)
    ensures
      var reply := UpdateGroup(t, g, name, sprint);
      var taken := g in t.groups && name.Some? && exists h ::
        h in t.groups && h != g && !t.groups[h].implicit && t.groups[h].lane == t.groups[g].lane
        && t.groups[h].name == name.value;
      && (reply == Err(NotFound) <==> g !in t.groups)
      && (reply == Err(Integrity) <==> taken)
      && (reply.Ok? <==> g in t.groups && !taken)
  {
    if g in t.groups && name.Some? {
      var group := t.groups[g].(name := name.value, sprint := sprint.GetOr(t.groups[g].sprint));
      ExplicitTakenWhen(
        t.groups, g, if group.implicit then group.(implicit := false, story := None) else group);
    }
  }

  /** Renaming an implicit group makes it an explicit one of no story; setting its sprint alone does not. */
  lemma UpdatedGroupIs(t: Tables, g: Id, name: Option<string>, sprint: Option<Option<nat>>)
    requires UpdateGroup(t, g, name, sprint).Ok?
    ensures
      var after, was := UpdateGroup(t, g, name, sprint).value, t.groups[g];
      && after.groups.Keys == t.groups.Keys
      && after.groups[g].name == (if name.Some? then name.value else was.name)
      && after.groups[g].sprint == (if sprint.Some? then sprint.value else was.sprint)
      && after.groups[g].implicit == (was.implicit && name.None?)
      && after.groups[g].story == (if was.implicit && name.Some? then None else was.story)
      && after.groups[g].lane == was.lane && after.groups[g].feature == was.feature
      && (forall h :: h in t.groups && h != g ==> after.groups[h] == t.groups[h])
      && after.stories == t.stories && after.features == t.features && after.lanes == t.lanes && after.pis == t.pis
  {}

  // ---- swimlanes and PIs --------------------------------------------------------------

  /** What is deleted or changed must be there, and a PI made must not; these requests are refused for nothing else. */
  lemma MissingIsNotFound(t: Tables, id: Id, to: Option<Id>)
    ensures if id in t.stories then DeleteStory(t, id).Ok? else DeleteStory(t, id) == Err(NotFound)
    ensures if id in t.stories then UnplaceStory(t, id).Ok? else UnplaceStory(t, id) == Err(NotFound)
    ensures if id in t.stories then ChangeGroup(t, id, to).Ok? else ChangeGroup(t, id, to) == Err(NotFound)
    ensures if id in t.groups then DeleteGroup(t, id).Ok? else DeleteGroup(t, id) == Err(NotFound)
    ensures if id in t.lanes then DeleteLane(t, id).Ok? else DeleteLane(t, id) == Err(NotFound)
    ensures if id in t.pis then DeletePi(t, id).Ok? else DeletePi(t, id) == Err(NotFound)
    ensures CreatePi(t, id) == if id in t.pis then Err(Integrity) else Ok(t.(pis := t.pis + {id}))
  {}

  /** A swimlane takes its groups along; a feature in it goes to the backlog, and nothing names it any more. */
  lemma DeletedLaneIs(t: Tables, lane: Id)
    requires DeleteLane(t, lane).Ok?
    ensures
      var after := DeleteLane(t, lane).value;
      && lane in t.lanes && after.lanes == t.lanes - {lane} && after.pis == t.pis
      && after.features.Keys == t.features.Keys && after.stories.Keys == t.stories.Keys
      && (forall f :: f in t.features ==>
            var was, now := t.features[f], after.features[f];
            && now.from == was.from
            && (was.lane != Some(lane) ==> now == was)
            && (was.lane == Some(lane) ==> now.location == Backlog && now.lane == None && now.pi == None))
      && (forall x :: x in t.stories ==>
            var was, now := t.stories[x], after.stories[x];
            && now.lane == (if was.lane == Some(lane) then None else was.lane)
            && now.group == (
                 if was.group.Some? && was.group.value in t.groups && t.groups[was.group.value].lane == lane then None
                 else was.group)
            && now == was.(lane := now.lane, group := now.group))
      && (forall g :: g in t.groups ==> (g !in after.groups <==> t.groups[g].lane == lane))
      && (forall g :: g in after.groups ==> g in t.groups && after.groups[g] == t.groups[g])
  {}

  /** A PI takes its swimlanes along, and their groups; a feature in one goes to the backlog. */
  lemma DeletedPiIs(t: Tables, pi: Id)
    requires DeletePi(t, pi).Ok?
    ensures
      var after := DeletePi(t, pi).value;
      && pi in t.pis && after.pis == t.pis - {pi}
      && (forall lane :: lane in t.lanes ==>
            && (lane in after.lanes <==> t.lanes[lane] != pi)
            && (lane in after.lanes ==> after.lanes[lane] == t.lanes[lane]))
      && after.features.Keys == t.features.Keys && after.stories.Keys == t.stories.Keys
      && (forall f :: f in t.features ==>
            var was, now := t.features[f], after.features[f];
            var inside := was.lane.Some? && was.lane.value in t.lanes && t.lanes[was.lane.value] == pi;
            && now.from == was.from
            && now.location == (if inside then Backlog else was.location)
            && now.lane == (if inside then None else was.lane)
            && now.pi == (if inside || was.pi == Some(pi) then None else was.pi))
      && (forall g :: g in t.groups ==>
            (g !in after.groups <==> t.groups[g].lane in t.lanes && t.lanes[t.groups[g].lane] == pi))
      && (forall g :: g in after.groups ==> g in t.groups && after.groups[g] == t.groups[g])
  {}

  /** Stories stay; one is ungrouped with its group, and names neither the PI nor a swimlane of it. */
  lemma DeletedPiKeepsStories(t: Tables, pi: Id, x: Id)
    requires DeletePi(t, pi).Ok? && x in t.stories
    ensures
      var was, after := t.stories[x], DeletePi(t, pi).value;
      var off := was.lane.Some? && was.lane.value in t.lanes && t.lanes[was.lane.value] == pi;
      var left := was.group.Some? && was.group.value in t.groups && was.group.value !in after.groups;
      && x in after.stories
      && after.stories[x].pi == (if was.pi == Some(pi) then None else was.pi)
      && after.stories[x].lane == (if off then None else was.lane)
      && after.stories[x].group == (if left then None else was.group)
      && after.stories[x].parent == was.parent && after.stories[x].title == was.title
      && after.stories[x].effort == was.effort
  {}
}
